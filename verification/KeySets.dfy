/**
 What a key expression means: the set of keys it matches, a key being a sequence of
 literal chunks (internal/keyexpr/doc.go). Literals are drawn from an infinite
 alphabet; the empty sequence is included, so that `**` and `*` followed by `**` differ.
 */
module KeySets {

  type Chunks = seq<string>

  const Star := "*"
  const DStar := "**"
  const Reserved := "/*#?$"

  predicate Wild(c: string) {
    c == Star || c == DStar
  }

  /** A literal chunk that a key may contain. */
  predicate Legal(c: string) {
    |c| > 0 && forall i :: 0 <= i < |c| ==> c[i] !in Reserved
  }

  predicate Concrete(w: Chunks) {
    forall i :: 0 <= i < |w| ==> Legal(w[i])
  }

  /** `*` matches any single chunk, `**` any number of them, a literal itself. */
  predicate Matches(p: Chunks, w: Chunks)
    decreases |p| + |w|
  {
    if p == [] then w == []
    else if p[0] == DStar then Matches(p[1..], w) || (w != [] && Matches(p, w[1..]))
    else w != [] && (p[0] == Star || p[0] == w[0]) && Matches(p[1..], w[1..])
  }

  ghost predicate SameKeys(p: Chunks, q: Chunks) {
    forall w | Concrete(w) :: Matches(p, w) == Matches(q, w)
  }

  /** Every key (they are not empty) of `q` is a key of `p`. */
  ghost predicate KeysWithin(q: Chunks, p: Chunks) {
    forall w | Concrete(w) && w != [] && Matches(q, w) :: Matches(p, w)
  }

  // ----- canonical form -----

  predicate KnownChunks(p: Chunks) {
    forall i :: 0 <= i < |p| ==> Legal(p[i]) || Wild(p[i])
  }

  /** `**` is never followed by another wildcard. */
  predicate Ordered(p: Chunks) {
    forall i {:trigger p[i]} :: 0 <= i < |p| - 1 && p[i] == DStar ==> !Wild(p[i + 1])
  }

  /** A canonical chunk sequence or a tail of one. */
  predicate WellShaped(p: Chunks) {
    KnownChunks(p) && Ordered(p)
  }

  predicate Canonical(p: Chunks) {
    |p| > 0 && WellShaped(p)
  }

  lemma TailShape(p: Chunks)
    requires WellShaped(p) && |p| > 0
    ensures WellShaped(p[1..])
    ensures p[0] == DStar && |p| > 1 ==> Legal(p[1])
  {
    assert p[1..] == p[1..];
    forall i | 0 <= i < |p[1..]| - 1 && p[1..][i] == DStar
      ensures !Wild(p[1..][i + 1])
    {
      assert p[i + 1] == DStar;
    }
    assert |p| > 1 && p[0] == DStar ==> !Wild(p[0 + 1]);
  }

  lemma LegalIsNotWild(c: string)
    requires Legal(c)
    ensures !Wild(c)
  {
    assert c[0] != '*';
  }

  lemma WildIsNotLegal()
    ensures !Legal(Star) && !Legal(DStar)
  {
    assert Star[0] == '*' && DStar[0] == '*' && '*' in Reserved;
  }

  // ----- sequences -----

  lemma {:induction false} MatchesJoined(p: Chunks, q: Chunks, x: Chunks, y: Chunks)
    requires Matches(p, x) && Matches(q, y)
    ensures Matches(p + q, x + y)
    decreases |p| + |x|
  {
    if p == [] {
      assert p + q == q && x + y == y;
    } else {
      assert (p + q)[0] == p[0] && (p + q)[1..] == p[1..] + q;
      if p[0] == DStar && Matches(p[1..], x) {
        MatchesJoined(p[1..], q, x, y);
      } else {
        assert (x + y)[0] == x[0] && (x + y)[1..] == x[1..] + y;
        MatchesJoined(if p[0] == DStar then p else p[1..], q, x[1..], y);
      }
    }
  }

  lemma {:induction false} MatchesSplit(p: Chunks, q: Chunks, w: Chunks) returns (i: nat)
    requires Matches(p + q, w)
    ensures i <= |w| && Matches(p, w[..i]) && Matches(q, w[i..])
    decreases |p| + |w|
  {
    if p == [] {
      assert p + q == q;
      i := 0;
    } else {
      assert (p + q)[0] == p[0] && (p + q)[1..] == p[1..] + q;
      if p[0] == DStar && Matches(p[1..] + q, w) {
        i := MatchesSplit(p[1..], q, w);
      } else {
        var j := MatchesSplit(if p[0] == DStar then p else p[1..], q, w[1..]);
        assert w[..j + 1][1..] == w[1..][..j] && w[j + 1..] == w[1..][j..];
        i := j + 1;
      }
    }
  }

  /** The keys of a concatenation are the concatenations of keys. */
  lemma MatchesConcat(p: Chunks, q: Chunks, w: Chunks)
    ensures Matches(p + q, w) <==> exists i :: 0 <= i <= |w| && Matches(p, w[..i]) && Matches(q, w[i..])
  {
    if Matches(p + q, w) {
      var i := MatchesSplit(p, q, w);
    }
    forall i | 0 <= i <= |w| && Matches(p, w[..i]) && Matches(q, w[i..])
      ensures Matches(p + q, w)
    {
      MatchesJoined(p, q, w[..i], w[i..]);
      assert w[..i] + w[i..] == w;
    }
  }

  // ----- witnesses -----

  function Longest(p: Chunks): (n: nat)
    ensures forall i :: 0 <= i < |p| ==> |p[i]| <= n
  {
    if p == [] then 0
    else if |p[0]| > Longest(p[1..]) then |p[0]| else Longest(p[1..])
  }

  function Repeat<T>(t: T, n: nat): (s: seq<T>)
    ensures |s| == n
  {
    seq(n, _ => t)
  }

  /** A legal chunk that does not occur in `p`. */
  function FreshFor(p: Chunks): (z: string)
    ensures Legal(z) && z !in p
  {
    Repeat('a', Longest(p) + 1)
  }

  /** The key of `p` that fills every `*` with `z` and every `**` with `n` times `z`. */
  function Word(p: Chunks, n: nat, z: string): (w: Chunks)
    ensures KnownChunks(p) && Legal(z) ==> Concrete(w)
  {
    if p == [] then []
    else (if p[0] == DStar then Repeat(z, n) else [if p[0] == Star then z else p[0]]) + Word(p[1..], n, z)
  }

  lemma {:induction false} WordMatches(p: Chunks, n: nat, z: string)
    ensures Matches(p, Word(p, n, z))
  {
    if p != [] {
      WordMatches(p[1..], n, z);
      var w := Word(p[1..], n, z);
      if p[0] == DStar {
        AbsorbRun(p, n, z, w);
      } else {
        assert Word(p, n, z)[1..] == w;
      }
    }
  }

  lemma {:induction false} AbsorbRun(p: Chunks, n: nat, z: string, w: Chunks)
    requires p != [] && p[0] == DStar && Matches(p, w)
    ensures Matches(p, Repeat(z, n) + w)
  {
    if n == 0 {
      assert Repeat(z, n) + w == w;
    } else {
      AbsorbRun(p, n - 1, z, w);
      assert (Repeat(z, n) + w)[1..] == Repeat(z, n - 1) + w;
    }
  }
}
