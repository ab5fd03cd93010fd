/**
 Exactly when one key expression includes another, pair by pair: the reference for the
 scan of internal/keyexpr/include.go. A run of `*` that leads to a `**` takes any stretch
 of the other side with at least as many chunks that need a chunk of the key.
 */
module KeyWithin {
  import opened KeySets
  import opened KeyCovers
  import opened KeyInclude

  /** Any number of `*`, then `**`. */
  predicate Counting(l: Chunks) {
    l != [] && (l[0] == DStar || (l[0] == Star && Counting(l[1..])))
  }

  function Stars(l: Chunks): (k: nat)
    requires Counting(l)
    ensures k < |l| && l == Repeat(Star, k) + [DStar] + l[k + 1..]
  {
    if l[0] == DStar then 0 else 1 + Stars(l[1..])
  }

  predicate Absorbs(l: Chunks, r: Chunks)
    decreases |l|
  {
    if l == [] then r == []
    else if Counting(l) then
      var k := Stars(l);
      exists i :: 0 <= i <= |r| && Solid(r[..i]) >= k && Absorbs(l[k + 1..], r[i..])
    else r != [] && r[0] != DStar && (l[0] == Star || l[0] == r[0]) && Absorbs(l[1..], r[1..])
  }

  // ----- every key of the right side is a key of the left side -----

  lemma StretchIsTaken(k: nat, a: Chunks, b: Chunks, w: Chunks) returns (j: nat)
    requires Solid(a) >= k && Matches(a + b, w)
    ensures j <= |w| && Matches(Repeat(Star, k) + [DStar], w[..j]) && Matches(b, w[j..])
  {
    hide Matches;
    j := MatchesSplit(a, b, w);
    SolidIsMinimum(a, w[..j]);
    StarsThenDStar(k, w[..j]);
  }

  lemma RunThenRest(l: Chunks, j: nat, w: Chunks)
    requires Counting(l) && j <= |w|
    requires Matches(Repeat(Star, Stars(l)) + [DStar], w[..j]) && Matches(l[Stars(l) + 1..], w[j..])
    ensures Matches(l, w)
  {
    hide Matches, Counting;
    MatchesJoined(Repeat(Star, Stars(l)) + [DStar], l[Stars(l) + 1..], w[..j], w[j..]);
    assert w == w[..j] + w[j..];
  }

  lemma {:induction false} AbsorbsIsSound(l: Chunks, r: Chunks, w: Chunks)
    requires Absorbs(l, r) && Matches(r, w)
    ensures Matches(l, w)
    decreases |l|
  {
    hide Counting, Stars, Solid;
    if Counting(l) {
      var k := Stars(l);
      var i :| 0 <= i <= |r| && Solid(r[..i]) >= k && Absorbs(l[k + 1..], r[i..]);
      assert r == r[..i] + r[i..];
      var j := StretchIsTaken(k, r[..i], r[i..], w);
      AbsorbsIsSound(l[k + 1..], r[i..], w[j..]);
      RunThenRest(l, j, w);
    } else if l != [] {
      AbsorbsIsSound(l[1..], r[1..], w[1..]);
    }
  }

  // ----- how the left side may grow on the right -----

  /** Where the stretch of a run ends. */
  predicate EndsAt(l: Chunks, r: Chunks, i: nat)
    requires Counting(l)
  {
    i <= |r| && Solid(r[..i]) >= Stars(l) && Absorbs(l[Stars(l) + 1..], r[i..])
  }

  lemma AbsorbsTo(l: Chunks, r: Chunks, i: nat)
    requires Counting(l) && EndsAt(l, r, i)
    ensures Absorbs(l, r)
  {
  }

  lemma StretchEnd(l: Chunks, r: Chunks) returns (i: nat)
    requires Counting(l) && Absorbs(l, r)
    ensures EndsAt(l, r, i)
  {
    var k := Stars(l);
    i :| 0 <= i <= |r| && Solid(r[..i]) >= k && Absorbs(l[k + 1..], r[i..]);
  }

  lemma SolidFront(r: Chunks, i: nat)
    requires r != [] && i < |r|
    ensures Solid(r[..i + 1]) == Solid(r[1..][..i]) + if r[0] == DStar then 0 else 1
    ensures r[i + 1..] == r[1..][i..]
  {
    assert r[..i + 1][1..] == r[1..][..i];
  }

  lemma AbsorbsMore(l: Chunks, r: Chunks)
    requires Counting(l) && r != [] && Absorbs(l, r[1..])
    ensures Absorbs(l, r)
  {
    var i := StretchEnd(l, r[1..]);
    hide Absorbs, Solid, Stars;
    SolidFront(r, i);
    AbsorbsTo(l, r, i + 1);
  }

  lemma StarAbsorbs(l: Chunks, r: Chunks)
    requires Counting(l) && l[0] == Star && r != [] && r[0] != DStar && Absorbs(l[1..], r[1..])
    ensures Absorbs(l, r)
  {
    var i := StretchEnd(l[1..], r[1..]);
    hide Absorbs, Solid;
    SolidFront(r, i);
    var k := Stars(l);
    assert Stars(l[1..]) == k - 1 && l[1..][k..] == l[k + 1..];
    AbsorbsTo(l, r, i + 1);
  }

  lemma DStarAbsorbs(l: Chunks, r: Chunks)
    requires l != [] && l[0] == DStar && (l == [DStar] || Absorbs(l[1..], r))
    ensures Absorbs(l, r)
  {
    assert Stars(l) == 0;
    assert r[..0] == [] && r[0..] == r && r[|r|..] == [];
    AbsorbsTo(l, r, if l == [DStar] then |r| else 0);
  }

  // ----- a key of the right side that tells the two apart -----

  /** The chunks before the next run of wildcards that ends in `**` fit the front of `r`. */
  predicate BlockFits(l: Chunks, r: Chunks) {
    l == [] || Counting(l) || (r != [] && r[0] != DStar && (l[0] == Star || l[0] == r[0]) && BlockFits(l[1..], r[1..]))
  }

  function BlockLength(l: Chunks): (n: nat)
    ensures n <= |l|
  {
    if l == [] || Counting(l) then 0 else 1 + BlockLength(l[1..])
  }

  function Letter(c: string, z: string): string {
    if c == Star then z else c
  }

  /** While `l` counts chunks, `**` on the right gives none; while `l` looks for its next
      block, it gives `n` times `z`; the first place where the block fits is taken. */
  function Foil(l: Chunks, r: Chunks, n: nat, z: string): Chunks
    decreases |l| + |r|
  {
    if r == [] then []
    else if Counting(l) && l[0] == Star then
      if r[0] == DStar then Foil(l, r[1..], n, z) else [Letter(r[0], z)] + Foil(l[1..], r[1..], n, z)
    else if Counting(l) && DStar in l[1..] then
      if r[0] == DStar then Repeat(z, n) + Foil(l, r[1..], n, z)
      else if BlockFits(l[1..], r) then Foil(l[1..], r, n, z)
      else [Letter(r[0], z)] + Foil(l, r[1..], n, z)
    else if Counting(l) || l == [] || r[0] == DStar then Word(r, n, z)
    else [Letter(r[0], z)] + Foil(l[1..], r[1..], n, z)
  }

  lemma {:induction false} FoilMatches(l: Chunks, r: Chunks, n: nat, z: string)
    requires KnownChunks(r) && Legal(z)
    ensures Matches(r, Foil(l, r, n, z)) && Concrete(Foil(l, r, n, z))
    decreases |l| + |r|
  {
    hide Legal;
    WordMatches(r, n, z);
    if r != [] {
      var x := Letter(r[0], z);
      if Counting(l) && l[0] == Star {
        FoilMatches(if r[0] == DStar then l else l[1..], r[1..], n, z);
      } else if Counting(l) && DStar in l[1..] {
        if r[0] == DStar {
          FoilMatches(l, r[1..], n, z);
          AbsorbRun(r, n, z, Foil(l, r[1..], n, z));
        } else if BlockFits(l[1..], r) {
          FoilMatches(l[1..], r, n, z);
        } else {
          FoilMatches(l, r[1..], n, z);
          assert ([x] + Foil(l, r[1..], n, z))[1..] == Foil(l, r[1..], n, z);
        }
      } else if !(Counting(l) || l == [] || r[0] == DStar) {
        FoilMatches(l[1..], r[1..], n, z);
      }
    }
  }

  // ----- when the left side matches it -----

  /** `z` is not in `l`, and `n` of them are more than its stars can take. */
  predicate Apart(l: Chunks, n: nat, z: string) {
    WellShaped(l) && z !in l && Legal(z) && n > |l|
  }

  lemma ApartTail(l: Chunks, n: nat, z: string)
    requires Apart(l, n, z) && l != []
    ensures Apart(l[1..], n, z) && l[0] != z && !Wild(z)
    ensures l[0] == DStar ==> l == [DStar] || (Legal(l[1]) && !Counting(l[1..]))
  {
    TailShape(l);
    LegalIsNotWild(z);
    if |l| > 1 && l[0] == DStar {
      LegalIsNotWild(l[1]);
    }
  }

  lemma {:induction false} AnchoredTakesNoRun(l: Chunks, n: nat, z: string, y: Chunks)
    requires Apart(l, n, z) && !Counting(l)
    ensures !Matches(l, Repeat(z, n) + y)
  {
    hide Legal;
    RunStep(z, n, y);
    if l != [] {
      ApartTail(l, n, z);
      if l[0] == Star {
        AnchoredTakesNoRun(l[1..], n - 1, z, y);
      }
    }
  }

  lemma {:induction false} WithoutDStar(l: Chunks, w: Chunks)
    requires DStar !in l && Matches(l, w)
    ensures |w| == |l|
  {
    if l != [] {
      WithoutDStar(l[1..], w[1..]);
    }
  }

  lemma CountingHasDStar(l: Chunks)
    ensures Counting(l) ==> DStar in l
  {
    if Counting(l) {
      assert l[Stars(l)] == DStar;
    }
  }

  lemma {:induction false} ExactBlock(l: Chunks, r: Chunks, n: nat, z: string)
    requires Apart(l, n, z) && DStar !in l && Matches(l, Word(r, n, z))
    ensures Absorbs(l, r)
  {
    hide Legal;
    WithoutDStar(l, Word(r, n, z));
    CountingHasDStar(l);
    if l != [] {
      ApartTail(l, n, z);
      assert Word(r, n, z)[1..] == Word(r[1..], n, z);
      ExactBlock(l[1..], r[1..], n, z);
    }
  }

  lemma {:induction false} LastBlock(l: Chunks, r: Chunks, n: nat, z: string)
    requires Apart(l, n, z) && l != [] && l[0] == DStar && DStar !in l[1..] && Matches(l, Word(r, n, z))
    ensures Absorbs(l, r)
    decreases |r|
  {
    hide Legal, Absorbs;
    ApartTail(l, n, z);
    if l == [DStar] {
      DStarAbsorbs(l, r);
    } else if Matches(l[1..], Word(r, n, z)) {
      ExactBlock(l[1..], r, n, z);
      DStarAbsorbs(l, r);
    } else {
      if r[0] == DStar {
        StripRun(l, n, z, Word(r[1..], n, z));
      } else {
        assert Word(r, n, z)[1..] == Word(r[1..], n, z);
      }
      LastBlock(l, r[1..], n, z);
      AbsorbsMore(l, r);
    }
  }

  /** Where a block was taken, the key shows the chunks of `r`. */
  lemma {:induction false} TakenFront(p: Chunks, q: Chunks, r: Chunks, n: nat, z: string)
    requires BlockFits(q, r) && BlockLength(p) <= BlockLength(q) && Apart(p, n, z)
    requires Matches(p, Foil(q, r, n, z))
    ensures BlockFits(p, r)
    decreases |p|
  {
    hide Legal;
    if p != [] && !Counting(p) {
      ApartTail(p, n, z);
      assert Foil(q, r, n, z)[1..] == Foil(q[1..], r[1..], n, z);
      TakenFront(p[1..], q[1..], r[1..], n, z);
    }
  }

  /** A block that fits the front of the key fits the front of `r`. */
  lemma {:induction false} SearchedFront(p: Chunks, l: Chunks, r: Chunks, n: nat, z: string)
    requires l != [] && l[0] == DStar && DStar in l[1..] && BlockLength(p) <= BlockLength(l[1..])
    requires Apart(p, n, z) && Matches(p, Foil(l, r, n, z))
    ensures BlockFits(p, r)
    decreases |p|
  {
    hide Legal;
    if p != [] && !Counting(p) {
      ApartTail(p, n, z);
      if r[0] == DStar {
        AnchoredTakesNoRun(p, n, z, Foil(l, r[1..], n, z));
      } else if BlockFits(l[1..], r) {
        TakenFront(p, l[1..], r, n, z);
      } else {
        assert Foil(l, r, n, z)[1..] == Foil(l, r[1..], n, z);
        SearchedFront(p[1..], l, r[1..], n, z);
      }
    }
  }

  lemma {:induction false} BlockOnFront(q: Chunks, r: Chunks, n: nat, z: string)
    requires BlockFits(q, r)
    ensures var b, w := BlockLength(q), Foil(q, r, n, z); b <= |w| && Matches(q[..b], w[..b])
  {
    if q != [] && !Counting(q) {
      BlockOnFront(q[1..], r[1..], n, z);
      var b, w := BlockLength(q), Foil(q, r, n, z);
      assert q[..b][1..] == q[1..][..b - 1];
      assert w[1..] == Foil(q[1..], r[1..], n, z) && w[..b][1..] == w[1..][..b - 1];
    }
  }

  lemma {:induction false} BlockThenCounting(l: Chunks)
    requires DStar in l
    ensures Counting(l[BlockLength(l)..]) && DStar !in l[..BlockLength(l)]
  {
    if !Counting(l) {
      BlockThenCounting(l[1..]);
      var b := BlockLength(l);
      assert l[b..] == l[1..][b - 1..] && l[..b] == [l[0]] + l[1..][..b - 1];
    }
  }

  lemma CountingTakesMore(c: Chunks, y: Chunks, v: Chunks)
    requires Counting(c) && Matches(c, v)
    ensures Matches(c, y + v)
  {
    var k := Stars(c);
    var run := Repeat(Star, k) + [DStar];
    var i := MatchesSplit(run, c[k + 1..], v);
    SolidIsMinimum(run, v[..i]);
    SolidRun(k);
    StarsThenDStar(k, y + v[..i]);
    MatchesJoined(run, c[k + 1..], y + v[..i], v[i..]);
    assert y + v == y + v[..i] + v[i..];
  }

  lemma {:induction false} SolidRun(k: nat)
    ensures Solid(Repeat(Star, k) + [DStar]) == k
  {
    if k > 0 {
      assert (Repeat(Star, k) + [DStar])[1..] == Repeat(Star, k - 1) + [DStar];
      SolidRun(k - 1);
    } else {
      assert Repeat(Star, 0) + [DStar] == [DStar] && [DStar][1..] == [];
    }
  }

  /** Taking the first place where a block fits loses nothing, as long as a run of
      wildcards with a `**` follows it. */
  lemma FirstPlaceSuffices(l: Chunks, w: Chunks)
    requires l != [] && l[0] == DStar && DStar in l[1..] && Matches(l, w)
    requires BlockLength(l[1..]) <= |w| && Matches(l[1..][..BlockLength(l[1..])], w[..BlockLength(l[1..])])
    ensures Matches(l[1..], w)
  {
    hide Matches, Counting, BlockLength;
    var rest, b := l[1..], BlockLength(l[1..]);
    var block, more := rest[..b], rest[b..];
    BlockThenCounting(rest);
    assert l == [DStar] + rest && rest == block + more;
    var i := MatchesSplit([DStar], rest, w);
    var j := MatchesSplit(block, more, w[i..]);
    MovedToFront(block, more, w[..i], w[i..][..j], w[i..][j..], w);
  }

  lemma MovedToFront(block: Chunks, more: Chunks, u: Chunks, v: Chunks, rest: Chunks, w: Chunks)
    requires w == u + v + rest && DStar !in block && Matches(block, v)
    requires Counting(more) && Matches(more, rest) && |block| <= |w| && Matches(block, w[..|block|])
    ensures Matches(block + more, w)
  {
    hide Matches, Counting;
    WithoutDStar(block, v);
    var y := (u + v)[|block|..];
    CountingTakesMore(more, y, rest);
    MatchesJoined(block, more, w[..|block|], y + rest);
    assert w == w[..|block|] + (y + rest);
  }

  lemma NothingMatches(l: Chunks)
    requires WellShaped(l) && Matches(l, [])
    ensures l == [] || l == [DStar]
  {
    CoversKeys(l, []);
    OnlyDStarsCoverNothing(l);
  }

  lemma {:induction false} FoilTells(l: Chunks, r: Chunks, n: nat, z: string)
    requires Apart(l, n, z) && Matches(l, Foil(l, r, n, z))
    ensures Absorbs(l, r)
    decreases |l| + |r|
  {
    hide Legal;
    if r == [] {
      NothingMatches(l);
      if l != [] {
        DStarAbsorbs(l, r);
      }
    } else if l != [] {
      ApartTail(l, n, z);
      if Counting(l) && l[0] == Star {
        FoilTellsStar(l, r, n, z);
      } else if Counting(l) && DStar in l[1..] {
        FoilTellsDStar(l, r, n, z);
      } else if Counting(l) {
        LastBlock(l, r, n, z);
      } else if r[0] == DStar {
        AnchoredTakesNoRun(l, n, z, Word(r[1..], n, z));
      } else {
        assert Foil(l, r, n, z)[1..] == Foil(l[1..], r[1..], n, z);
        FoilTells(l[1..], r[1..], n, z);
      }
    }
  }

  lemma {:induction false} FoilTellsStar(l: Chunks, r: Chunks, n: nat, z: string)
    requires Apart(l, n, z) && Matches(l, Foil(l, r, n, z)) && Counting(l) && l[0] == Star && r != []
    ensures Absorbs(l, r)
    decreases |l| + |r|, 0
  {
    hide Legal, Absorbs;
    ApartTail(l, n, z);
    if r[0] == DStar {
      FoilTells(l, r[1..], n, z);
      AbsorbsMore(l, r);
    } else {
      assert Foil(l, r, n, z)[1..] == Foil(l[1..], r[1..], n, z);
      FoilTells(l[1..], r[1..], n, z);
      StarAbsorbs(l, r);
    }
  }

  lemma {:induction false} FoilTellsDStar(l: Chunks, r: Chunks, n: nat, z: string)
    requires Apart(l, n, z) && Matches(l, Foil(l, r, n, z)) && l != [] && l[0] == DStar && DStar in l[1..] && r != []
    ensures Absorbs(l, r)
    decreases |l| + |r|, 0
  {
    hide Legal, Absorbs, BlockFits, BlockLength;
    ApartTail(l, n, z);
    if r[0] == DStar {
      StripRun(l, n, z, Foil(l, r[1..], n, z));
      FoilTells(l, r[1..], n, z);
      AbsorbsMore(l, r);
    } else if BlockFits(l[1..], r) {
      BlockOnFront(l[1..], r, n, z);
      FirstPlaceSuffices(l, Foil(l, r, n, z));
      FoilTells(l[1..], r, n, z);
      DStarAbsorbs(l, r);
    } else {
      if Matches(l[1..], Foil(l, r, n, z)) {
        SearchedFront(l[1..], l, r, n, z);
      }
      assert Foil(l, r, n, z)[1..] == Foil(l, r[1..], n, z);
      FoilTells(l, r[1..], n, z);
      AbsorbsMore(l, r);
    }
  }

  // ----- the theorem -----

  /** Inclusion of canonical expressions, pair by pair: over keys, which are not empty,
      `*` followed by `**` also includes `**`. */
  predicate Included(r: Chunks, l: Chunks) {
    Absorbs(l, r) || (l == [Star, DStar] && r == [DStar])
  }

  lemma IncludedExactly(l: Chunks, r: Chunks)
    requires Canonical(l) && Canonical(r)
    ensures KeysWithin(r, l) <==> Included(r, l)
  {
    hide Absorbs, Foil;
    if Included(r, l) {
      forall w | Concrete(w) && w != [] && Matches(r, w)
        ensures Matches(l, w)
      {
        if Absorbs(l, r) {
          AbsorbsIsSound(l, r, w);
        } else {
          StarsThenDStar(1, w);
          assert Repeat(Star, 1) + [DStar] == l;
        }
      }
    }
    if KeysWithin(r, l) {
      var z, n := FreshFor(l), |l| + 1;
      var w := Foil(l, r, n, z);
      FoilMatches(l, r, n, z);
      if w != [] {
        FoilTells(l, r, n, z);
      } else {
        EmptyKey(r);
        forall v: Chunks
          ensures Matches([DStar], v)
        {
          EverythingMatches(v);
        }
        SameNonEmptyKeys(l, r);
        if l == [DStar] {
          FoilTells(l, r, n, z);
        }
      }
    }
  }

  /** The scan answers a pair rightly unless the left side absorbs the right one without
      covering it chunk by chunk. */
  lemma ScanErrsExactly(l: Chunks, r: Chunks)
    requires Canonical(l) && Canonical(r)
    ensures (Covers(l, r) <==> KeysWithin(r, l)) <==> (Included(r, l) ==> Covers(l, r))
  {
    hide Covers, Matches, Included;
    IncludedExactly(l, r);
    forall w | Concrete(w) && Matches(r, w) && Covers(l, r)
      ensures Matches(l, w)
    {
      CoversIsSound(l, r, w);
    }
  }
}
