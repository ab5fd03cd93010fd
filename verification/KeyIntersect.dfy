/**
 Intersection of key expressions (internal/keyexpr/intersect.go): the loop over
 strings, and what it decides about key sets.
 */
module KeyIntersect {
  import opened KeySets
  import opened KeyCovers
  import opened KeyText
  import opened KeyCanon

  // ----- the chunks left in a string -----

  /** The loops treat the empty string as "no more chunks". */
  function Left(s: string): Chunks {
    if s == "" then [] else SplitAll(s)
  }

  /** A valid key expression or what is left of one after some chunks. */
  predicate ValidTail(s: string) {
    WellShaped(Left(s))
  }

  lemma SplitStep(s: string)
    requires ValidTail(s) && s != ""
    ensures var (first, rest) := SplitChunk(s);
            && Left(s) == [first] + Left(rest) && ValidTail(rest) && |rest| < |s|
            && (Legal(first) || Wild(first)) && first != ""
  {
    var (first, rest) := SplitChunk(s);
    var cs := SplitAll(s);
    assert cs[0] == first;
    TailShape(cs);
    WildIsNotLegal();
    if Slash(s) < |s| {
      assert cs[1..] == SplitAll(rest);
      EmptyIsInvalid();
    } else {
      assert cs[1..] == [];
    }
    assert [first] + Left(rest) == cs;
  }

  // ----- intersection -----

  ghost predicate Common(p: Chunks, q: Chunks, w: Chunks) {
    Concrete(w) && Matches(p, w) && Matches(q, w)
  }

  ghost predicate Meet(p: Chunks, q: Chunks) {
    exists w :: Common(p, q, w)
  }

  lemma MeetEverything(q: Chunks)
    requires KnownChunks(q)
    ensures Meet([DStar], q) && Meet(q, [DStar])
  {
    var z := FreshFor(q);
    var w := Word(q, 0, z);
    WordMatches(q, 0, z);
    EverythingMatches(w);
    assert Common([DStar], q, w) && Common(q, [DStar], w);
  }

  /** One side starts with `**`: it ends there, or it takes the other side's next chunk. */
  lemma MeetDStar(p: Chunks, q: Chunks)
    requires WellShaped(p) && WellShaped(q) && p != [] && q != [] && p[0] == DStar
    ensures Meet(p, q) <==> Meet(p[1..], q) || Meet(p, q[1..])
  {
    if Meet(p, q) {
      var w :| Common(p, q, w);
      MeetDStarOnly(p, q, w);
    }
    if Meet(p[1..], q) {
      var w :| Common(p[1..], q, w);
      assert Common(p, q, w);
    }
    if Meet(p, q[1..]) {
      var w :| Common(p, q[1..], w);
      if q[0] == DStar {
        assert Common(p, q, w);
      } else {
        var c := if q[0] == Star then FreshFor([]) else q[0];
        assert ([c] + w)[1..] == w;
        WildIsNotLegal();
        assert Common(p, q, [c] + w);
      }
    }
  }

  lemma {:induction false} MeetDStarOnly(p: Chunks, q: Chunks, w: Chunks)
    requires p != [] && q != [] && p[0] == DStar && Common(p, q, w)
    ensures Meet(p[1..], q) || Meet(p, q[1..])
    decreases |w|
  {
    if Matches(p[1..], w) {
      assert Common(p[1..], q, w);
    } else if q[0] == DStar && Matches(q[1..], w) {
      assert Common(p, q[1..], w);
    } else if q[0] == DStar {
      MeetDStarOnly(p, q, w[1..]);
    } else {
      assert Common(p, q[1..], w[1..]);
    }
  }

  predicate SingleChunkIntersect(a: string, b: string) {
    a == b || a == Star || b == Star
  }

  lemma MeetSingle(p: Chunks, q: Chunks)
    requires KnownChunks(p) && KnownChunks(q) && p != [] && q != [] && p[0] != DStar && q[0] != DStar
    ensures Meet(p, q) <==> SingleChunkIntersect(p[0], q[0]) && Meet(p[1..], q[1..])
  {
    if Meet(p, q) {
      var w :| Common(p, q, w);
      assert Common(p[1..], q[1..], w[1..]);
    }
    if SingleChunkIntersect(p[0], q[0]) && Meet(p[1..], q[1..]) {
      var w :| Common(p[1..], q[1..], w);
      var c := if p[0] != Star then p[0] else if q[0] != Star then q[0] else FreshFor([]);
      assert ([c] + w)[1..] == w;
      assert Common(p, q, [c] + w);
    }
  }

  lemma MeetNothing(q: Chunks)
    requires WellShaped(q)
    ensures Meet([], q) <==> q == [] || q == [DStar]
    ensures Meet(q, []) <==> q == [] || q == [DStar]
  {
    CoversKeys(q, []);
    if Matches(q, []) {
      OnlyDStarsCoverNothing(q);
      assert Common([], q, []) && Common(q, [], []);
    }
    EverythingMatches([]);
  }

  lemma MeetCommutes(p: Chunks, q: Chunks)
    ensures Meet(p, q) <==> Meet(q, p)
  {
    if w :| Common(p, q, w) { assert Common(q, p, w); }
    if w :| Common(q, p, w) { assert Common(p, q, w); }
  }

  /** `**` followed by a literal and a single chunk: the chunk is not taken. */
  lemma DStarLeavesLast(p: Chunks, q: Chunks)
    requires WellShaped(p) && WellShaped(q) && |p| > 1 && p[0] == DStar && |q| == 1
    ensures Meet(p, q) <==> Meet(p[1..], q)
  {
    MeetDStar(p, q);
    MeetNothing(p);
  }

  /** What the loop does when the first side is at `**`. */
  lemma AtDStar(a: string, b: string)
    requires ValidTail(a) && ValidTail(b) && a != "" && b != "" && SplitChunk(a).0 == DStar
    ensures var ((_, ra), (_, rb)) := (SplitChunk(a), SplitChunk(b));
            && (ra == "" ==> Meet(Left(a), Left(b)))
            && (ra != "" && rb == "" ==> (Meet(Left(a), Left(b)) <==> Meet(Left(ra), Left(b))))
            && (ra != "" && rb != "" ==>
                  (Meet(Left(a), Left(b)) <==> Meet(Left(ra), Left(b)) || Meet(Left(a), Left(rb))))
  {
    hide SplitChunk, SplitAll, Meet;
    SplitStep(a);
    SplitStep(b);
    var p, q := Left(a), Left(b);
    var ((_, ra), (_, rb)) := (SplitChunk(a), SplitChunk(b));
    assert p[1..] == Left(ra) && q[1..] == Left(rb);
    if ra == "" {
      assert p == [DStar];
      MeetEverything(q);
    } else if rb == "" {
      DStarLeavesLast(p, q);
    } else {
      MeetDStar(p, q);
    }
  }

  lemma AtNothing(a: string, b: string)
    requires ValidTail(a) && ValidTail(b) && (a == "" || b == "")
    ensures Meet(Left(a), Left(b)) <==> (a == "" || a == DStar) && (b == "" || b == DStar)
  {
    hide Meet;
    JoinOfSplit(a);
    JoinOfSplit(b);
    assert SplitAll(DStar) == [DStar] by { SlashAfter(DStar, ""); }
    MeetNothing(if a == "" then Left(b) else Left(a));
  }

  /** The two sides share a key exactly when the loop says so; it ends because every
      round and every recursive call has less of the two strings left. */
  method ChunkIntersect(a0: string, b0: string) returns (r: bool)
    requires ValidTail(a0) && ValidTail(b0)
    ensures r <==> Meet(Left(a0), Left(b0))
    decreases |a0| + |b0|
  {
    hide SplitChunk, Left, ValidTail, Meet;
    var a, b := a0, b0;
    while a != "" && b != ""
      invariant ValidTail(a) && ValidTail(b) && |a| <= |a0| && |b| <= |b0|
      invariant Meet(Left(a), Left(b)) == Meet(Left(a0), Left(b0))
      decreases |a| + |b|
    {
      SplitStep(a);
      SplitStep(b);
      var (ca, ra) := SplitChunk(a);
      var (cb, rb) := SplitChunk(b);
      if ca == DStar {
        AtDStar(a, b);
        if ra == "" {
          return true;
        }
        if rb == "" {
          r := ChunkIntersect(ra, b);
          return;
        }
        r := ChunkIntersect(ra, b);
        if r {
          return true;
        }
        b := rb;
      } else if cb == DStar {
        AtDStar(b, a);
        MeetCommutes(Left(a), Left(b));
        MeetCommutes(Left(a), Left(rb));
        MeetCommutes(Left(ra), Left(b));
        if rb == "" {
          return true;
        }
        if ra == "" {
          r := ChunkIntersect(a, rb);
          return;
        }
        r := ChunkIntersect(a, rb);
        if r {
          return true;
        }
        a := ra;
      } else {
        AtSingles(a, b);
        if !SingleChunkIntersect(ca, cb) {
          return false;
        }
        a, b := ra, rb;
      }
    }
    AtNothing(a, b);
    r := (a == "" || a == DStar) && (b == "" || b == DStar);
  }

  lemma AtSingles(a: string, b: string)
    requires ValidTail(a) && ValidTail(b) && a != "" && b != ""
    requires SplitChunk(a).0 != DStar && SplitChunk(b).0 != DStar
    ensures Meet(Left(a), Left(b)) <==>
            SingleChunkIntersect(SplitChunk(a).0, SplitChunk(b).0) && Meet(Left(SplitChunk(a).1), Left(SplitChunk(b).1))
  {
    hide SplitChunk, SplitAll, Meet;
    SplitStep(a);
    SplitStep(b);
    assert Left(a)[1..] == Left(SplitChunk(a).1) && Left(b)[1..] == Left(SplitChunk(b).1);
    MeetSingle(Left(a), Left(b));
  }

  predicate HasWildcard(s: string) {
    '*' in s
  }

  lemma {:induction false} LiteralsMatchThemselves(p: Chunks, w: Chunks)
    requires forall i :: 0 <= i < |p| ==> !Wild(p[i])
    ensures Matches(p, w) <==> w == p
  {
    if p != [] && w != [] {
      LiteralsMatchThemselves(p[1..], w[1..]);
      if w[0] == p[0] && w[1..] == p[1..] {
        assert w == [w[0]] + w[1..] && p == [p[0]] + p[1..];
      }
    }
  }

  lemma NoWildcards(s: string)
    requires Valid(s) && !HasWildcard(s)
    ensures Concrete(SplitAll(s)) && forall i :: 0 <= i < |SplitAll(s)| ==> !Wild(SplitAll(s)[i])
  {
    CharInChunk(s, '*');
    assert Star[0] == '*' && DStar[0] == '*';
  }

  /** Without wildcards, sharing a key is being the same string. */
  lemma FastPath(a: string, b: string)
    requires Valid(a) && Valid(b) && !HasWildcard(a) && !HasWildcard(b)
    ensures Meet(SplitAll(a), SplitAll(b)) <==> a == b
  {
    var p, q := SplitAll(a), SplitAll(b);
    NoWildcards(a);
    NoWildcards(b);
    JoinOfSplit(a);
    JoinOfSplit(b);
    if Meet(p, q) {
      var w :| Common(p, q, w);
      LiteralsMatchThemselves(p, w);
      LiteralsMatchThemselves(q, w);
    }
    if a == b {
      LiteralsMatchThemselves(p, p);
      assert Common(p, q, p);
    }
  }

  /** The common key may be taken non-empty. */
  lemma MeetAtAKey(p: Chunks, q: Chunks)
    requires Canonical(p) && Canonical(q)
    ensures Meet(p, q) <==> exists w :: w != [] && Common(p, q, w)
  {
    if Meet(p, q) {
      var w :| Common(p, q, w);
      if w == [] {
        EmptyKey(p);
        EmptyKey(q);
        var key := [FreshFor([])];
        EverythingMatches(key);
        assert Common(p, q, key);
      }
    }
  }

  lemma ValidLeft(s: string)
    requires Valid(s)
    ensures s != "" && Left(s) == SplitAll(s) && ValidTail(s)
  {
    EmptyIsInvalid();
  }

  ghost predicate ShareAKey(a: string, b: string) {
    exists w :: w != [] && Common(SplitAll(a), SplitAll(b), w)
  }

  /** Intersects is exact: it holds if and only if a concrete, non-empty key matches
      both expressions. */
  method Intersects(k: string, other: string) returns (r: bool)
    requires Valid(k) && Valid(other)
    ensures r <==> ShareAKey(k, other)
  {
    MeetAtAKey(SplitAll(k), SplitAll(other));
    ValidLeft(k);
    ValidLeft(other);
    if !HasWildcard(k) && !HasWildcard(other) {
      FastPath(k, other);
      return k == other;
    }
    r := ChunkIntersect(k, other);
  }
}
