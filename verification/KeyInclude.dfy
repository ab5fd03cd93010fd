/**
 Inclusion of key expressions (internal/keyexpr/include.go): what the left-to-right
 scan computes, that it is sound, and exactly for which expressions it is complete.
 */
module KeyInclude {
  import opened KeySets
  import opened KeyCovers
  import opened KeyText
  import opened KeyCanon
  import opened KeyIntersect

  // ----- the scan -----

  lemma {:induction false} DStarCoversAll(r: Chunks)
    ensures Covers([DStar], r)
  {
    if r != [] {
      DStarCoversAll(r[1..]);
    } else {
      assert [DStar][1..] == [];
    }
  }

  /** With `**` on the left: it ends here, or it takes the next chunk on the right
      unless that is the last one. */
  lemma ScanAtDStar(left: string, right: string)
    requires ValidTail(left) && ValidTail(right) && left != "" && SplitChunk(left).0 == DStar
    ensures var ((_, lrest), (_, rrest)) := (SplitChunk(left), SplitChunk(right));
            && (lrest == "" ==> Covers(Left(left), Left(right)))
            && (lrest != "" ==>
                  (Covers(Left(left), Left(right)) <==>
                   Covers(Left(lrest), Left(right)) || (rrest != "" && Covers(Left(left), Left(rrest)))))
  {
    hide SplitAll;
    SplitStep(left);
    var l, r := Left(left), Left(right);
    var ((_, lrest), (_, rrest)) := (SplitChunk(left), SplitChunk(right));
    assert l[1..] == Left(lrest);
    if right != "" {
      SplitStep(right);
      assert r[1..] == Left(rrest);
    }
    if lrest == "" {
      assert l == [DStar];
      DStarCoversAll(r);
    } else {
      LongDStar(l);
    }
  }

  lemma LongDStar(l: Chunks)
    requires WellShaped(l) && |l| > 1
    ensures !Covers(l, [])
  {
    if Covers(l, []) {
      OnlyDStarsCoverNothing(l);
    }
  }

  lemma ScanAtChunk(left: string, right: string)
    requires ValidTail(left) && ValidTail(right) && left != "" && SplitChunk(left).0 != DStar
    ensures var ((lchunk, lrest), (rchunk, rrest)) := (SplitChunk(left), SplitChunk(right));
            && (right == "" ==> rchunk == "" && !Covers(Left(left), Left(right)))
            && (right != "" ==> rchunk != "")
            && (right != "" ==>
                  (Covers(Left(left), Left(right)) <==>
                   && rchunk != DStar && ChunkIncludes(lchunk, rchunk)
                   && (if lrest == "" then rrest == "" else Covers(Left(lrest), Left(rrest)))))
  {
    hide SplitAll;
    SplitStep(left);
    assert Left(left)[1..] == Left(SplitChunk(left).1);
    if right != "" {
      SplitStep(right);
      assert Left(right)[1..] == Left(SplitChunk(right).1);
    }
  }

  lemma NothingLeft(s: string)
    ensures s == "" ==> SplitChunk(s) == ("", "")
  {
  }

  predicate ChunkIncludes(l: string, r: string) {
    l == r || l == Star
  }

  method LtrIncludes(left0: string, right0: string) returns (r: bool)
    requires ValidTail(left0) && ValidTail(right0) && left0 != ""
    ensures r <==> Covers(Left(left0), Left(right0))
    decreases |left0| + |right0|
  {
    hide SplitChunk, Left, ValidTail, Covers;
    var left, right := left0, right0;
    while true
      invariant ValidTail(left) && ValidTail(right) && left != "" && |left| <= |left0| && |right| <= |right0|
      invariant Covers(Left(left), Left(right)) == Covers(Left(left0), Left(right0))
      decreases |left| + |right|
    {
      SplitStep(left);
      var (lchunk, lrest) := SplitChunk(left);
      if lchunk == DStar {
        ScanAtDStar(left, right);
        if lrest == "" {
          return true;
        }
        r := LtrIncludes(lrest, right);
        if r {
          return true;
        }
        var (_, rrest) := SplitChunk(right);
        if rrest == "" {
          return false;
        }
        NothingLeft(right);
        SplitStep(right);
        right := rrest;
      } else {
        ScanAtChunk(left, right);
        var (rchunk, rrest) := SplitChunk(right);
        if rchunk == "" || rchunk == DStar {
          return false;
        }
        if !ChunkIncludes(lchunk, rchunk) {
          return false;
        }
        if lrest == "" {
          return rrest == "";
        }
        SplitStep(right);
        left, right := lrest, rrest;
      }
    }
  }

  // ----- soundness -----

  lemma CoversIsSound(l: Chunks, r: Chunks, w: Chunks)
    requires Covers(l, r) && Concrete(w) && Matches(r, w)
    ensures Matches(l, w)
  {
    CoversKeys(r, w);
    CoversTransitive(l, r, w);
    CoversKeys(l, w);
  }

  // ----- completeness -----

  /** No `*` directly before a `**`. */
  predicate NoStarBeforeDStar(l: Chunks) {
    forall i {:trigger l[i]} :: 0 <= i < |l| - 1 && l[i] == Star ==> l[i + 1] != DStar
  }

  /** `**` only at the end, after at least one other chunk. */
  predicate DStarOnlyTrails(r: Chunks) {
    forall i :: 0 <= i < |r| && r[i] == DStar ==> 0 < i == |r| - 1
  }

  lemma RunStep(z: string, n: nat, y: Chunks)
    requires n > 0
    ensures (Repeat(z, n) + y)[0] == z && (Repeat(z, n) + y)[1..] == Repeat(z, n - 1) + y
  {
  }

  lemma TailNoStarBeforeDStar(l: Chunks)
    requires NoStarBeforeDStar(l) && l != []
    ensures NoStarBeforeDStar(l[1..])
    ensures l[0] == Star && |l| > 1 ==> l[1] != DStar
  {
    forall i | 0 <= i < |l[1..]| - 1 && l[1..][i] == Star
      ensures l[1..][i + 1] != DStar
    {
      assert l[i + 1] == Star;
    }
    assert |l| > 1 && l[0] == Star ==> l[0 + 1] != DStar;
  }

  /** A run of filler longer than the pattern is not taken by stars alone. */
  lemma {:induction false} StarsTakeNoLongRun(l: Chunks, n: nat, z: string, y: Chunks)
    requires WellShaped(l) && NoStarBeforeDStar(l) && l != [] && l[0] == Star && z !in l && n > |l|
    ensures !Matches(l, Repeat(z, n) + y)
  {
    RunStep(z, n, y);
    RunStep(z, n - 1, y);
    TailShape(l);
    TailNoStarBeforeDStar(l);
    if |l| > 1 && l[1] == Star {
      StarsTakeNoLongRun(l[1..], n - 1, z, y);
    }
  }

  /** After a `**`, filler can only have been taken by it. */
  lemma {:induction false} StripRun(l: Chunks, n: nat, z: string, y: Chunks)
    requires WellShaped(l) && l != [] && l[0] == DStar && z !in l
    requires Matches(l, Repeat(z, n) + y)
    ensures Matches(l, y)
  {
    if n == 0 {
      assert Repeat(z, n) + y == y;
    } else {
      RunStep(z, n, y);
      TailShape(l);
      if |l| > 1 {
        LegalIsNotWild(l[1]);
      }
      StripRun(l, n - 1, z, y);
    }
  }

  lemma {:induction false} LongWordIsCovered(l: Chunks, r: Chunks, n: nat, z: string)
    requires WellShaped(l) && NoStarBeforeDStar(l) && z !in l && z !in r && !Wild(z) && n > |l|
    requires Matches(l, Word(r, n, z))
    ensures Covers(l, r)
    decreases |l| + |r|
  {
    if r != [] {
      RunStep(z, n, Word(r[1..], n, z));
    }
    if l != [] {
      TailShape(l);
      TailNoStarBeforeDStar(l);
      if l[0] == DStar && Matches(l[1..], Word(r, n, z)) {
        LongWordIsCovered(l[1..], r, n, z);
      } else if l[0] == DStar && r[0] == DStar {
        StripRun(l, n, z, Word(r[1..], n, z));
        LongWordIsCovered(l, r[1..], n, z);
      } else if l[0] == DStar {
        LongWordIsCovered(l, r[1..], n, z);
      } else {
        if r[0] == DStar && l[0] == Star {
          StarsTakeNoLongRun(l, n, z, Word(r[1..], n, z));
        }
        LongWordIsCovered(l[1..], r[1..], n, z);
      }
    }
  }

  /** Without `**` on the right a single word decides. */
  lemma {:induction false} PlainWordIsCovered(l: Chunks, r: Chunks, z: string)
    requires z !in l && z !in r && !Wild(z) && DStar !in r
    requires Matches(l, Word(r, 0, z))
    ensures Covers(l, r)
    decreases |l| + |r|
  {
    if r != [] {
      assert Word(r, 0, z)[1..] == Word(r[1..], 0, z);
    }
    if l != [] {
      if l[0] == DStar && Matches(l[1..], Word(r, 0, z)) {
        PlainWordIsCovered(l[1..], r, z);
      } else {
        PlainWordIsCovered(if l[0] == DStar then l else l[1..], r[1..], z);
      }
    }
  }

  /** Only a trailing `**` takes an arbitrarily long run of filler at the end. */
  lemma {:induction false} LongTail(l: Chunks, x: Chunks, n: nat, z: string)
    requires WellShaped(l) && l != [] && l[|l| - 1] != DStar && z !in l && Legal(z) && Concrete(x) && n > |l|
    ensures !Matches(l, x + Repeat(z, n))
    decreases |l| + |x|
  {
    var w := x + Repeat(z, n);
    TailShape(l);
    RunStep(z, n, []);
    assert Repeat(z, n) + [] == Repeat(z, n) && Repeat(z, n - 1) + [] == Repeat(z, n - 1);
    if x == [] {
      assert w == Repeat(z, n) && w[1..] == Repeat(z, n - 1);
      if l[0] == DStar {
        LegalIsNotWild(l[1]);
        assert l[1..][0] == l[1];
        NoLiteralInRun(l, n, z);
      } else if |l| > 1 {
        LongTail(l[1..], [], n - 1, z);
        assert [] + Repeat(z, n - 1) == Repeat(z, n - 1);
      }
    } else {
      assert w[0] == x[0] && w[1..] == x[1..] + Repeat(z, n);
      if |l| > 1 {
        LongTail(l[1..], x[1..], n, z);
      }
      if l[0] == DStar {
        LongTail(l[1..], x, n, z);
        LongTail(l, x[1..], n, z);
      }
    }
  }

  lemma NoLiteralInRun(l: Chunks, n: nat, z: string)
    requires Literals(l) > 0 && z !in l && Legal(z)
    ensures !Matches(l, Repeat(z, n))
  {
    CoversKeys(l, Repeat(z, n));
    if Matches(l, Repeat(z, n)) {
      LiteralsAreMarks(l, Repeat(z, n), z);
      FillerHasNoMarks(z, n);
    }
  }

  lemma {:induction false} TrailingDStarCovers(l: Chunks, r: Chunks)
    requires Covers(l, r) && l != [] && l[|l| - 1] == DStar
    ensures Covers(l, r + [DStar])
    decreases |l| + |r|
  {
    if |l| == 1 {
      assert l == [DStar];
      DStarCoversAll(r + [DStar]);
    } else {
      if r != [] {
        assert (r + [DStar])[0] == r[0] && (r + [DStar])[1..] == r[1..] + [DStar];
      }
      if l[0] == DStar && Covers(l[1..], r) {
        TrailingDStarCovers(l[1..], r);
      } else {
        TrailingDStarCovers(if l[0] == DStar then l else l[1..], r[1..]);
      }
    }
  }

  lemma {:induction false} WordAppend(a: Chunks, b: Chunks, n: nat, z: string)
    ensures Word(a + b, n, z) == Word(a, n, z) + Word(b, n, z)
  {
    if a == [] {
      assert a + b == b;
    } else {
      assert (a + b)[0] == a[0] && (a + b)[1..] == a[1..] + b;
      WordAppend(a[1..], b, n, z);
    }
  }

  lemma WordOfDStar(r: Chunks, n: nat, z: string)
    ensures Word(r + [DStar], n, z) == Word(r, n, z) + Repeat(z, n)
  {
    WordAppend(r, [DStar], n, z);
    assert Word([DStar], n, z) == Repeat(z, n) + Word([], n, z);
  }

  lemma {:induction false} WordWithoutDStar(r: Chunks, n: nat, z: string)
    requires DStar !in r
    ensures Word(r, n, z) == Word(r, 0, z) && |Word(r, n, z)| == |r|
  {
    if r != [] {
      WordWithoutDStar(r[1..], n, z);
    }
  }

  lemma {:induction false} WordOfKey(r: Chunks, n: nat, z: string)
    requires r != [] && n > 0
    ensures Word(r, n, z) != []
  {
  }

  lemma TrailingIsComplete(l: Chunks, r: Chunks)
    requires Canonical(l) && Canonical(r) && DStarOnlyTrails(r) && KeysWithin(r, l)
    ensures Covers(l, r)
  {
    var z, n := FreshFor(l + r), |l| + 1;
    LegalIsNotWild(z);
    if r[|r| - 1] == DStar {
      var front := r[..|r| - 1];
      assert r == front + [DStar] && DStar !in front && front != [];
      WordOfDStar(front, 0, z);
      WordOfDStar(front, n, z);
      WordWithoutDStar(front, n, z);
      WordMatches(r, 0, z);
      WordMatches(r, n, z);
      var x := Word(front, 0, z);
      assert Concrete(x) && x + Repeat(z, 0) == x && x + Repeat(z, n) != [];
      PlainWordIsCovered(l, front, z);
      if l[|l| - 1] != DStar {
        LongTail(l, x, n, z);
      }
      TrailingDStarCovers(l, front);
    } else {
      assert DStar !in r;
      WordWithoutDStar(r, 0, z);
      WordMatches(r, 0, z);
      PlainWordIsCovered(l, r, z);
    }
  }

  lemma LeftIsComplete(l: Chunks, r: Chunks)
    requires Canonical(l) && Canonical(r) && NoStarBeforeDStar(l) && KeysWithin(r, l)
    ensures Covers(l, r)
  {
    var z, n := FreshFor(l + r), |l| + 1;
    LegalIsNotWild(z);
    WordMatches(r, n, z);
    WordOfKey(r, n, z);
    LongWordIsCovered(l, r, n, z);
  }

  /** Includes is exact unless the left side has a `*` before a `**` and the right side
      has a `**` other than at its end. */
  lemma CoversIsExact(l: Chunks, r: Chunks)
    requires Canonical(l) && Canonical(r) && (NoStarBeforeDStar(l) || DStarOnlyTrails(r))
    ensures Covers(l, r) <==> KeysWithin(r, l)
  {
    forall w | Concrete(w) && Matches(r, w) && Covers(l, r)
      ensures Matches(l, w)
    {
      CoversIsSound(l, r, w);
    }
    if KeysWithin(r, l) {
      if NoStarBeforeDStar(l) { LeftIsComplete(l, r); } else { TrailingIsComplete(l, r); }
    }
  }

  // ----- both conditions are needed -----

  lemma {:induction false} LiteralsAppend(a: Chunks, b: Chunks)
    ensures Literals(a + b) == Literals(a) + Literals(b)
  {
    if a == [] {
      assert a + b == b;
    } else {
      assert (a + b)[0] == a[0] && (a + b)[1..] == a[1..] + b;
      LiteralsAppend(a[1..], b);
    }
  }

  /** `*` followed by `**` with its neighbours, and the expression it includes without
      covering it: the `**` comes first and a literal stands for the `*`. */
  lemma {:induction false} StarCannotTakeDStar(u: Chunks, v: Chunks, z: string, y: Chunks)
    requires WellShaped(u + [Star, DStar] + v) && Legal(z) && z !in u
    ensures !Tight(u + [Star, DStar] + v, Word(u, 0, z) + [DStar, z] + y, z)
  {
    var l, r := u + [Star, DStar] + v, Word(u, 0, z) + [DStar, z] + y;
    LegalIsNotWild(z);
    if u == [] {
      assert l[0] == Star && r[0] == DStar;
    } else {
      TailShape(l);
      WordStep(u, z);
      assert l[0] == u[0] && l[1..] == u[1..] + [Star, DStar] + v;
      StarCannotTakeDStar(u[1..], v, z, y);
      if u[0] == DStar {
        assert u[1..] != [] && l[1] == u[1];
        LegalIsNotWild(u[1]);
        assert r[0] == u[1];
        assert u[1] in u;
      } else {
        assert r[1..] == Word(u[1..], 0, z) + [DStar, z] + y;
      }
    }
  }

  lemma SameMarks(u: Chunks, v: Chunks, z: string)
    requires Legal(z) && z !in u && z !in v
    ensures Literals(u + [Star, DStar] + v) == Marks(Word(u, 0, z) + [DStar, z] + Word(v, 0, z), z)
  {
    hide Marks, Literals, Word;
    MarksOfWord(u, 0, z);
    MarksOfWord(v, 0, z);
    MarksAppend(Word(u, 0, z) + [DStar, z], Word(v, 0, z), z);
    MarksAppend(Word(u, 0, z), [DStar, z], z);
    LiteralsAppend(u + [Star, DStar], v);
    LiteralsAppend(u, [Star, DStar]);
    TwoWild(z);
  }

  lemma TwoWild(z: string)
    ensures Marks([DStar, z], z) == 0 && Literals([Star, DStar]) == 0
  {
    assert [DStar, z][1..] == [z] && [Star, DStar][1..] == [DStar] && [z][1..] == [] && [DStar][1..] == [];
    assert Marks([z], z) == 0 && Literals([DStar]) == 0;
  }

  lemma StandInIsIncluded(u: Chunks, v: Chunks, z: string, w: Chunks)
    requires KnownChunks(u) && KnownChunks(v) && Legal(z)
    requires Concrete(w) && Matches(Word(u, 0, z) + [DStar, z] + Word(v, 0, z), w)
    ensures Matches(u + [Star, DStar] + v, w)
  {
    hide Matches, Word;
    var j := MatchesSplit(Word(u, 0, z) + [DStar, z], Word(v, 0, z), w);
    var i := MatchesSplit(Word(u, 0, z), [DStar, z], w[..j]);
    var a, b, c := w[..j][..i], w[..j][i..], w[j..];
    WordMatches(u, 0, z);
    WordMatches(v, 0, z);
    CoversKeys(u, Word(u, 0, z));
    CoversKeys(v, Word(v, 0, z));
    CoversIsSound(u, Word(u, 0, z), a);
    CoversIsSound(v, Word(v, 0, z), c);
    NeedsAChunk(z, b);
    TailRules(b);
    MatchesJoined(u, [Star, DStar], a, b);
    assert a + b == w[..j];
    MatchesJoined(u + [Star, DStar], v, w[..j], c);
    assert w[..j] + c == w;
  }

  lemma NeedsAChunk(z: string, w: Chunks)
    requires Matches([DStar, z], w) && Legal(z)
    ensures w != []
  {
    WildIsNotLegal();
    assert [DStar, z][1..] == [z] && !Matches([z], []);
  }

  /** An expression with a `*` before a `**` includes one that the scan rejects. */
  lemma LeftNeedsCondition(l: Chunks) returns (r: Chunks)
    requires Canonical(l) && !NoStarBeforeDStar(l)
    ensures Canonical(r) && KeysWithin(r, l) && !Covers(l, r)
  {
    var i :| 0 <= i < |l| - 1 && l[i] == Star && l[i + 1] == DStar;
    var u, v, z := l[..i], l[i + 2..], FreshFor(l);
    assert l == u + [Star, DStar] + v;
    r := Word(u, 0, z) + [DStar, z] + Word(v, 0, z);
    LegalIsNotWild(z);
    forall w | Concrete(w) && Matches(r, w)
      ensures Matches(l, w)
    {
      StandInIsIncluded(u, v, z, w);
    }
    SameMarks(u, v, z);
    StarCannotTakeDStar(u, v, z, Word(v, 0, z));
    if Covers(l, r) {
      ExactCountIsTight(l, r, z);
    }
    StandInShape(Word(u, 0, z), z, Word(v, 0, z));
  }

  lemma StandInShape(a: Chunks, z: string, b: Chunks)
    requires Concrete(a) && Legal(z) && Concrete(b)
    ensures Canonical(a + [DStar, z] + b)
  {
    WildIsNotLegal();
    var r := a + [DStar, z] + b;
    assert forall i :: 0 <= i < |r| ==> i == |a| || Legal(r[i]);
  }

  /** The Includes answer is right for every right side exactly for these left sides. */
  lemma CompleteForLeft(l: Chunks)
    requires Canonical(l)
    ensures NoStarBeforeDStar(l) <==> forall r | Canonical(r) :: Covers(l, r) <==> KeysWithin(r, l)
  {
    if NoStarBeforeDStar(l) {
      forall r | Canonical(r)
        ensures Covers(l, r) <==> KeysWithin(r, l)
      {
        CoversIsExact(l, r);
      }
    } else {
      var r := LeftNeedsCondition(l);
    }
  }

  /** Chunks that need a chunk of the key. */
  function Solid(p: Chunks): nat {
    if p == [] then 0 else (if p[0] == DStar then 0 else 1) + Solid(p[1..])
  }

  lemma {:induction false} SolidIsMinimum(p: Chunks, w: Chunks)
    requires Matches(p, w)
    ensures |w| >= Solid(p)
    decreases |p| + |w|
  {
    if p != [] {
      if p[0] == DStar && Matches(p[1..], w) {
        SolidIsMinimum(p[1..], w);
      } else {
        SolidIsMinimum(if p[0] == DStar then p else p[1..], w[1..]);
      }
    }
  }

  lemma {:induction false} StarsThenDStar(k: nat, w: Chunks)
    requires |w| >= k
    ensures Matches(Repeat(Star, k) + [DStar], w)
  {
    var p := Repeat(Star, k) + [DStar];
    if k == 0 {
      assert p == [DStar];
      EverythingMatches(w);
    } else {
      assert p[1..] == Repeat(Star, k - 1) + [DStar];
      StarsThenDStar(k - 1, w[1..]);
    }
  }

  lemma {:induction false} StarsMissDStar(k: nat, r: Chunks, i: nat)
    requires i < |r| && r[i] == DStar && i < k
    ensures !Covers(Repeat(Star, k) + [DStar], r)
  {
    var p := Repeat(Star, k) + [DStar];
    assert p[0] == Star && p[1..] == Repeat(Star, k - 1) + [DStar];
    if i > 0 {
      StarsMissDStar(k - 1, r[1..], i - 1);
    }
  }

  /** Chunks before the first `**`, and the one after it. */
  lemma {:induction false} SolidAround(r: Chunks, i: nat)
    requires WellShaped(r) && i < |r| - 1 && r[i] == DStar && forall j :: 0 <= j < i ==> r[j] != DStar
    ensures Solid(r) > i
    decreases i
  {
    TailShape(r);
    if i == 0 {
      LegalIsNotWild(r[1]);
      assert r[1..][0] == r[1];
    } else {
      assert forall j :: 0 <= j < i - 1 ==> r[1..][j] == r[j + 1];
      SolidAround(r[1..], i - 1);
    }
  }

  lemma {:induction false} FirstDStar(r: Chunks) returns (i: nat)
    requires DStar in r
    ensures i < |r| && r[i] == DStar && forall j :: 0 <= j < i ==> r[j] != DStar
  {
    if r[0] == DStar {
      i := 0;
    } else {
      assert r == [r[0]] + r[1..];
      var k := FirstDStar(r[1..]);
      i := k + 1;
      assert forall j :: 0 < j < i ==> r[j] == r[1..][j - 1];
    }
  }

  /** An expression with any other `**` is included in one whose scan rejects it. */
  lemma RightNeedsCondition(r: Chunks) returns (l: Chunks)
    requires Canonical(r) && !DStarOnlyTrails(r)
    ensures Canonical(l) && KeysWithin(r, l) && !Covers(l, r)
  {
    var i := FirstDStar(r);
    var k := if r == [DStar] then 1 else Solid(r);
    if i < |r| - 1 {
      SolidAround(r, i);
    } else {
      assert r == [DStar];
    }
    l := Repeat(Star, k) + [DStar];
    StarsMissDStar(k, r, i);
    forall w | Concrete(w) && w != [] && Matches(r, w)
      ensures Matches(l, w)
    {
      SolidIsMinimum(r, w);
      StarsThenDStar(k, w);
    }
  }

  /** ... and for every left side exactly for these right sides. */
  lemma CompleteForRight(r: Chunks)
    requires Canonical(r)
    ensures DStarOnlyTrails(r) <==> forall l | Canonical(l) :: Covers(l, r) <==> KeysWithin(r, l)
  {
    if DStarOnlyTrails(r) {
      forall l | Canonical(l)
        ensures Covers(l, r) <==> KeysWithin(r, l)
      {
        CoversIsExact(l, r);
      }
    } else {
      var l := RightNeedsCondition(r);
    }
  }

  /** For one: `*` `**` matches every key of `**` `a`, yet the scan says no. */
  lemma IncludesMisses()
    ensures Canonical([Star, DStar]) && Canonical([DStar, "a"])
    ensures KeysWithin([DStar, "a"], [Star, DStar]) && !Covers([Star, DStar], [DStar, "a"])
  {
    assert Repeat(Star, 1) + [DStar] == [Star, DStar];
    assert Legal("a");
    StarsMissDStar(1, [DStar, "a"], 0);
    forall w | Concrete(w) && Matches([DStar, "a"], w)
      ensures Matches([Star, DStar], w)
    {
      NeedsAChunk("a", w);
      TailRules(w);
    }
  }

  // ----- an order on key expressions -----

  /** Mutual inclusion is equality. */
  lemma CoversAntisymmetric(p: Chunks, q: Chunks)
    requires Canonical(p) && Canonical(q)
    ensures Covers(p, q) && Covers(q, p) <==> p == q
  {
    if Covers(p, q) && Covers(q, p) {
      forall w | Concrete(w)
        ensures Matches(p, w) == Matches(q, w)
      {
        if Matches(q, w) { CoversIsSound(p, q, w); }
        if Matches(p, w) { CoversIsSound(q, p, w); }
      }
      CanonicalFormsAreUnique(p, q);
    } else {
      CoversItself(p);
    }
  }

  lemma IncludesMeansIntersects(l: Chunks, r: Chunks)
    requires Canonical(l) && Canonical(r) && Covers(l, r)
    ensures exists w :: w != [] && Common(l, r, w)
  {
    var w := Word(r, 1, FreshFor([]));
    WordMatches(r, 1, FreshFor([]));
    WordOfKey(r, 1, FreshFor([]));
    CoversIsSound(l, r, w);
    assert Common(l, r, w);
  }

  /** Includes decides covering; a positive answer is always right, and so is a negative
      one unless `*` precedes `**` on the left and a `**` on the right is not trailing. */
  method Includes(k: string, other: string) returns (r: bool)
    requires Valid(k) && Valid(other)
    ensures r <==> Covers(SplitAll(k), SplitAll(other))
    ensures r ==> KeysWithin(SplitAll(other), SplitAll(k))
    ensures NoStarBeforeDStar(SplitAll(k)) || DStarOnlyTrails(SplitAll(other)) ==>
              (r <==> KeysWithin(SplitAll(other), SplitAll(k)))
  {
    hide Covers, Matches, Canonical;
    ValidLeft(k);
    ValidLeft(other);
    var l, o := SplitAll(k), SplitAll(other);
    if NoStarBeforeDStar(l) || DStarOnlyTrails(o) {
      CoversIsExact(l, o);
    }
    forall w | Concrete(w) && Matches(o, w) && Covers(l, o)
      ensures Matches(l, w)
    {
      CoversIsSound(l, o, w);
    }
    if k == other {
      CoversItself(l);
      return true;
    }
    r := LtrIncludes(k, other);
  }
}
