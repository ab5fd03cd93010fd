/**
 Reading one key expression as a word of another: literals cover themselves, `*`
 covers one chunk that is not `**`, and `**` covers any run of chunks. This is what the
 inclusion test computes (internal/keyexpr/include.go); canonical forms are compared
 through it.
 */
module KeyCovers {
  import opened KeySets

  predicate Covers(l: Chunks, r: Chunks)
    decreases |l| + |r|
  {
    if l == [] then r == []
    else if l[0] == DStar then Covers(l[1..], r) || (r != [] && Covers(l, r[1..]))
    else r != [] && r[0] != DStar && (l[0] == Star || l[0] == r[0]) && Covers(l[1..], r[1..])
  }

  /** On keys, covering is matching. */
  lemma {:induction false} CoversKeys(p: Chunks, w: Chunks)
    requires Concrete(w)
    ensures Covers(p, w) == Matches(p, w)
    decreases |p| + |w|
  {
    if p != [] {
      if p[0] == DStar {
        CoversKeys(p[1..], w);
      }
      if w != [] {
        LegalIsNotWild(w[0]);
        CoversKeys(if p[0] == DStar then p else p[1..], w[1..]);
      }
    }
  }

  lemma {:induction false} CoversItself(p: Chunks)
    ensures Covers(p, p)
  {
    if p != [] {
      CoversItself(p[1..]);
      if p[0] == DStar {
        assert Covers(p, p[1..]);
      }
    }
  }

  lemma {:induction false} CoversTransitive(l: Chunks, r: Chunks, w: Chunks)
    requires Covers(l, r) && Covers(r, w)
    ensures Covers(l, w)
    decreases |l| + |r| + |w|
  {
    if l == [] {
    } else if l[0] == DStar {
      if Covers(l[1..], r) {
        CoversTransitive(l[1..], r, w);
      } else if r[0] == DStar && Covers(r[1..], w) {
        CoversTransitive(l, r[1..], w);
      } else if r[0] == DStar {
        CoversTransitive(l, r, w[1..]);
      } else {
        CoversTransitive(l, r[1..], w[1..]);
      }
    } else {
      CoversTransitive(l[1..], r[1..], w[1..]);
    }
  }

  lemma {:induction false} OnlyDStarsCoverNothing(p: Chunks)
    requires Covers(p, []) && WellShaped(p)
    ensures p == [] || p == [DStar]
  {
    if p != [] {
      TailShape(p);
      OnlyDStarsCoverNothing(p[1..]);
      WildIsNotLegal();
    }
  }

  // ----- counting literals -----

  function Literals(p: Chunks): nat {
    if p == [] then 0 else (if Wild(p[0]) then 0 else 1) + Literals(p[1..])
  }

  /** The letters of a word other than `**` and the filler `z`. */
  function Marks(w: Chunks, z: string): nat {
    if w == [] then 0 else (if w[0] == DStar || w[0] == z then 0 else 1) + Marks(w[1..], z)
  }

  lemma {:induction false} LiteralsAreMarks(p: Chunks, w: Chunks, z: string)
    requires Covers(p, w) && z !in p
    ensures Literals(p) <= Marks(w, z)
    decreases |p| + |w|
  {
    if p != [] {
      if p[0] == DStar && Covers(p[1..], w) {
        LiteralsAreMarks(p[1..], w, z);
      } else {
        LiteralsAreMarks(if p[0] == DStar then p else p[1..], w[1..], z);
      }
    }
  }

  /** Covering in which wildcards take nothing but filler. */
  predicate Tight(p: Chunks, w: Chunks, z: string)
    decreases |p| + |w|
  {
    if p == [] then w == []
    else if p[0] == DStar then Tight(p[1..], w, z) || (w != [] && (w[0] == z || w[0] == DStar) && Tight(p, w[1..], z))
    else w != [] && w[0] == (if p[0] == Star then z else p[0]) && Tight(p[1..], w[1..], z)
  }

  lemma {:induction false} ExactCountIsTight(p: Chunks, w: Chunks, z: string)
    requires Covers(p, w) && z !in p && Literals(p) == Marks(w, z)
    ensures Tight(p, w, z)
    decreases |p| + |w|
  {
    if p != [] {
      if p[0] == DStar && Covers(p[1..], w) {
        ExactCountIsTight(p[1..], w, z);
      } else {
        var q := if p[0] == DStar then p else p[1..];
        LiteralsAreMarks(q, w[1..], z);
        ExactCountIsTight(q, w[1..], z);
      }
    }
  }

  lemma {:induction false} MarksAppend(a: Chunks, b: Chunks, z: string)
    ensures Marks(a + b, z) == Marks(a, z) + Marks(b, z)
  {
    if a == [] {
      assert a + b == b;
    } else {
      assert (a + b)[1..] == a[1..] + b;
      MarksAppend(a[1..], b, z);
    }
  }

  lemma {:induction false} FillerHasNoMarks(z: string, n: nat)
    ensures Marks(Repeat(z, n), z) == 0
  {
    if n > 0 {
      assert Repeat(z, n)[1..] == Repeat(z, n - 1);
      FillerHasNoMarks(z, n - 1);
    }
  }

  lemma {:induction false} MarksOfWord(p: Chunks, n: nat, z: string)
    requires z !in p && Legal(z)
    ensures Marks(Word(p, n, z), z) == Literals(p)
  {
    if p != [] {
      MarksOfWord(p[1..], n, z);
      LegalIsNotWild(z);
      var w := Word(p[1..], n, z);
      if p[0] == DStar {
        FillerHasNoMarks(z, n);
        MarksAppend(Repeat(z, n), w, z);
      } else {
        assert Word(p, n, z)[1..] == w;
      }
    }
  }

  // ----- canonical forms are unique -----

  /** `p` and `q` match each other's words with `**` read as nothing and as one chunk. */
  predicate TightPair(p: Chunks, q: Chunks, z: string) {
    && Tight(p, Word(q, 0, z), z) && Tight(p, Word(q, 1, z), z)
    && Tight(q, Word(p, 0, z), z) && Tight(q, Word(p, 1, z), z)
  }

  lemma WordStep(p: Chunks, z: string)
    requires p != []
    ensures Word(p, 0, z) == (if p[0] == DStar then [] else [if p[0] == Star then z else p[0]]) + Word(p[1..], 0, z)
    ensures Word(p, 1, z) == [if Wild(p[0]) then z else p[0]] + Word(p[1..], 1, z)
    ensures p[0] == DStar ==> Word(p, 0, z) == Word(p[1..], 0, z)
    ensures Word(p, 1, z)[1..] == Word(p[1..], 1, z)
    ensures p[0] != DStar ==> Word(p, 0, z)[1..] == Word(p[1..], 0, z)
  {
    assert Repeat(z, 0) == [] && Repeat(z, 1) == [z];
  }

  /** After `**` a word of literals-first can only be covered by what follows. */
  lemma SkipDStar(p: Chunks, w: Chunks, z: string)
    requires WellShaped(p) && p != [] && p[0] == DStar && Legal(z) && z !in p
    requires w == [] || (w[0] != z && w[0] != DStar)
    ensures Tight(p, w, z) ==> Tight(p[1..], w, z)
    ensures Tight(p, [z] + w, z) ==> Tight(p, w, z)
  {
    TailShape(p);
    if |p| > 1 {
      LegalIsNotWild(p[1]);
      assert p[1..][0] == p[1] && p[1] in p;
    }
    assert ([z] + w)[1..] == w;
    assert !Tight(p[1..], [z] + w, z);
  }

  /** Tails of canonical sequences after `**` read as words that start with a literal. */
  lemma LiteralFirst(q: Chunks, n: nat, z: string)
    requires WellShaped(q) && q != [] && q[0] == DStar && z !in q
    ensures var w := Word(q[1..], n, z); w == [] || (w[0] != z && w[0] != DStar)
  {
    TailShape(q);
    if |q| > 1 {
      LegalIsNotWild(q[1]);
    }
  }

  lemma SameHead(p: Chunks, q: Chunks, z: string)
    requires WellShaped(p) && WellShaped(q) && Legal(z) && z !in p && z !in q
    requires TightPair(p, q, z) && p != [] && q != []
    ensures p[0] == q[0]
  {
    HeadsMeet(p, q, z);
    HeadsMeet(q, p, z);
  }

  lemma HeadsMeet(p: Chunks, q: Chunks, z: string)
    requires WellShaped(p) && WellShaped(q) && Legal(z) && z !in p && z !in q
    requires TightPair(p, q, z) && p != [] && q != []
    ensures !Wild(p[0]) ==> p[0] == q[0]
    ensures p[0] == DStar ==> q[0] != Star
  {
    hide Legal;
    LegalIsNotWild(z);
    WordStep(p, z);
    WordStep(q, z);
    TailShape(q);
    if p[0] == DStar {
      LiteralFirst(p, 0, z);
    }
  }

  lemma DStarTail(p: Chunks, q: Chunks, z: string)
    requires WellShaped(p) && WellShaped(q) && Legal(z) && z !in p && z !in q
    requires TightPair(p, q, z) && p != [] && q != [] && p[0] == DStar && q[0] == DStar
    ensures Tight(p[1..], Word(q[1..], 0, z), z) && Tight(p[1..], Word(q[1..], 1, z), z)
  {
    hide Tight, Legal;
    WordStep(q, z);
    LiteralFirst(q, 0, z);
    LiteralFirst(q, 1, z);
    SkipDStar(p, Word(q[1..], 0, z), z);
    SkipDStar(p, Word(q[1..], 1, z), z);
  }

  lemma {:induction false} TightTwins(p: Chunks, q: Chunks, z: string)
    requires WellShaped(p) && WellShaped(q) && Legal(z) && z !in p && z !in q
    requires TightPair(p, q, z)
    ensures p == q
    decreases |p| + |q|
  {
    LegalIsNotWild(z);
    if p == [] || q == [] {
      if q != [] { WordStep(q, z); }
      if p != [] { WordStep(p, z); }
    } else {
      WordStep(p, z);
      WordStep(q, z);
      TailShape(p);
      TailShape(q);
      SameHead(p, q, z);
      if p[0] == DStar {
        DStarTail(p, q, z);
        DStarTail(q, p, z);
      }
      TightTwins(p[1..], q[1..], z);
      assert p == [p[0]] + p[1..] && q == [q[0]] + q[1..];
    }
  }

  lemma MutualWords(p: Chunks, q: Chunks, z: string)
    requires WellShaped(p) && WellShaped(q) && SameKeys(p, q) && Legal(z) && z !in p && z !in q
    ensures forall n :: Matches(p, Word(q, n, z)) && Matches(q, Word(p, n, z))
  {
    forall n: nat
      ensures Matches(p, Word(q, n, z)) && Matches(q, Word(p, n, z))
    {
      WordMatches(p, n, z);
      WordMatches(q, n, z);
    }
  }

  lemma TightWord(p: Chunks, q: Chunks, n: nat, z: string)
    requires KnownChunks(q) && Legal(z) && z !in p && z !in q
    requires Matches(p, Word(q, n, z)) && Literals(p) == Literals(q)
    ensures Tight(p, Word(q, n, z), z)
  {
    CoversKeys(p, Word(q, n, z));
    MarksOfWord(q, n, z);
    ExactCountIsTight(p, Word(q, n, z), z);
  }

  /** Canonical forms are unique: equal key sets, the empty key included, belong to
      equal chunk sequences. */
  lemma CanonicalFormsAreUnique(p: Chunks, q: Chunks)
    requires WellShaped(p) && WellShaped(q)
    ensures SameKeys(p, q) <==> p == q
  {
    hide Legal;
    if SameKeys(p, q) {
      var z := FreshFor(p + q);
      MutualWords(p, q, z);
      CoversKeys(p, Word(q, 0, z));
      CoversKeys(q, Word(p, 0, z));
      MarksOfWord(p, 0, z);
      MarksOfWord(q, 0, z);
      LiteralsAreMarks(p, Word(q, 0, z), z);
      LiteralsAreMarks(q, Word(p, 0, z), z);
      TightWord(p, q, 0, z);
      TightWord(p, q, 1, z);
      TightWord(q, p, 0, z);
      TightWord(q, p, 1, z);
      TightTwins(p, q, z);
    }
  }

  /** Over non-empty keys alone, `**` and `*` followed by `**` are the only two
      canonical forms that cannot be told apart. */
  lemma SameNonEmptyKeys(p: Chunks, q: Chunks)
    requires Canonical(p) && Canonical(q)
    ensures (forall w | Concrete(w) && w != [] :: Matches(p, w) == Matches(q, w))
       <==> p == q || (p == [DStar] && q == [Star, DStar]) || (p == [Star, DStar] && q == [DStar])
  {
    forall w | w != []
      ensures Matches([DStar], w) && Matches([Star, DStar], w)
    {
      EverythingMatches(w);
      EverythingMatches(w[1..]);
      assert [Star, DStar][1..] == [DStar];
    }
    if forall w | Concrete(w) && w != [] :: Matches(p, w) == Matches(q, w) {
      EmptyKey(p);
      EmptyKey(q);
      if (p == [DStar]) == (q == [DStar]) {
        assert SameKeys(p, q);
        CanonicalFormsAreUnique(p, q);
      } else {
        var other := if p == [DStar] then q else p;
        EmptyKey([Star, DStar]);
        assert SameKeys(other, [Star, DStar]);
        CanonicalFormsAreUnique(other, [Star, DStar]);
      }
    }
  }

  lemma {:induction false} EverythingMatches(w: Chunks)
    ensures Matches([DStar], w)
  {
    if w != [] {
      EverythingMatches(w[1..]);
    } else {
      assert [DStar][1..] == [];
    }
  }

  /** Only `**` matches the empty key. */
  lemma EmptyKey(p: Chunks)
    requires Canonical(p)
    ensures Matches(p, []) <==> p == [DStar]
  {
    CoversKeys(p, []);
    if Matches(p, []) {
      OnlyDStarsCoverNothing(p);
    } else {
      EverythingMatches([]);
    }
  }
}
