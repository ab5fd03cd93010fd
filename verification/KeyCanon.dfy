/**
 Rewriting to canonical form (internal/keyexpr/keyexpr.go:91-130) and what it is for:
 two strings with the same keys become the same string.
 */
module KeyCanon {
  import opened Wrappers
  import opened KeySets
  import opened KeyCovers
  import opened KeyText

  /** Empty chunks are tolerated and dropped. */
  function NonEmpty(cs: Chunks): Chunks {
    if cs == [] then []
    else NonEmpty(cs[..|cs| - 1]) + if cs[|cs| - 1] == "" then [] else [cs[|cs| - 1]]
  }

  /** A chunk appended to a canonical tail and the tail normalised again. */
  function Pushed(acc: Chunks, c: string): Chunks {
    if c == "" then acc
    else if acc != [] && acc[|acc| - 1] == DStar && c == DStar then acc
    else if acc != [] && acc[|acc| - 1] == DStar && c == Star then acc[..|acc| - 1] + [Star, DStar]
    else acc + [c]
  }

  function Compact(cs: Chunks): Chunks {
    if cs == [] then [] else Pushed(Compact(cs[..|cs| - 1]), cs[|cs| - 1])
  }

  function Canonized(s: string): Result<string, KeyError> {
    if s == "" then Failure(Empty)
    else
      var compact := Compact(SplitAll(s));
      if compact == [] then Failure(NoChunks) else Success(JoinAll(compact))
  }

  // ----- the rewriting keeps the keys -----

  lemma SameKeysInContext(u: Chunks, v: Chunks, v': Chunks)
    requires forall w :: Matches(v, w) == Matches(v', w)
    ensures forall w :: Matches(u + v, w) == Matches(u + v', w)
  {
    forall w
      ensures Matches(u + v, w) == Matches(u + v', w)
    {
      MatchesConcat(u, v, w);
      MatchesConcat(u, v', w);
    }
  }

  lemma TailRules(w: Chunks)
    ensures Matches([DStar, DStar], w) && Matches([DStar], w)
    ensures Matches([DStar, Star], w) == Matches([Star, DStar], w) == (w != [])
  {
    var twice, after, before := [DStar, DStar], [DStar, Star], [Star, DStar];
    assert twice[1..] == [DStar] && before[1..] == [DStar] && after[1..] == [Star];
    EverythingMatches(w);
    if w != [] {
      EverythingMatches(w[1..]);
      LastChunk(w);
    }
  }

  lemma {:induction false} LastChunk(w: Chunks)
    requires w != []
    ensures Matches([DStar, Star], w)
  {
    var p := [DStar, Star];
    assert p[1..] == [Star] && [Star][1..] == [];
    if |w| > 1 {
      LastChunk(w[1..]);
    }
  }

  lemma PushedKeepsKeys(acc: Chunks, c: string)
    requires c != ""
    ensures forall w :: Matches(Pushed(acc, c), w) == Matches(acc + [c], w)
  {
    if acc != [] && acc[|acc| - 1] == DStar && Wild(c) {
      var u := acc[..|acc| - 1];
      forall w
        ensures Matches([DStar, DStar], w) && Matches([DStar], w)
        ensures Matches([DStar, Star], w) == Matches([Star, DStar], w)
      {
        TailRules(w);
      }
      SameKeysInContext(u, [DStar, c], if c == DStar then [DStar] else [Star, DStar]);
      assert acc + [c] == u + [DStar, c] && acc == u + [DStar];
    }
  }

  lemma {:induction false} CompactKeepsKeys(cs: Chunks)
    ensures forall w :: Matches(Compact(cs), w) == Matches(NonEmpty(cs), w)
    ensures Compact(cs) == [] <==> NonEmpty(cs) == []
  {
    if cs != [] {
      var init, c := cs[..|cs| - 1], cs[|cs| - 1];
      CompactKeepsKeys(init);
      if c != "" {
        PushedKeepsKeys(Compact(init), c);
        SameKeysBefore(Compact(init), NonEmpty(init), [c]);
      } else {
        assert NonEmpty(cs) == NonEmpty(init);
      }
    }
  }

  lemma SameKeysBefore(u: Chunks, u': Chunks, v: Chunks)
    requires forall w :: Matches(u, w) == Matches(u', w)
    ensures forall w :: Matches(u + v, w) == Matches(u' + v, w)
  {
    forall w
      ensures Matches(u + v, w) == Matches(u' + v, w)
    {
      MatchesConcat(u, v, w);
      MatchesConcat(u', v, w);
    }
  }

  // ----- the result is canonical -----

  lemma PushedShape(acc: Chunks, c: string)
    requires Ordered(acc)
    ensures Ordered(Pushed(acc, c))
    ensures c != "" ==> (KnownChunks(Pushed(acc, c)) <==> KnownChunks(acc) && (Legal(c) || Wild(c)))
  {
    var r := Pushed(acc, c);
    if c != "" {
      if acc != [] && acc[|acc| - 1] == DStar && c == Star {
        assert acc == acc[..|acc| - 1] + [DStar];
        assert forall i :: 0 <= i < |acc| - 1 ==> r[i] == acc[i];
        assert |acc| > 1 ==> acc[|acc| - 2] == DStar ==> !Wild(acc[|acc| - 2 + 1]);
      } else if r == acc + [c] {
        assert r[|acc|] == c;
        assert forall i :: 0 <= i < |acc| ==> r[i] == acc[i];
      }
    }
  }

  lemma {:induction false} CompactShape(cs: Chunks)
    ensures Ordered(Compact(cs))
    ensures KnownChunks(Compact(cs)) <==> KnownChunks(NonEmpty(cs))
  {
    if cs != [] {
      var init, c := cs[..|cs| - 1], cs[|cs| - 1];
      CompactShape(init);
      PushedShape(Compact(init), c);
      if c == "" {
        assert NonEmpty(cs) == NonEmpty(init);
      } else {
        var all := NonEmpty(init) + [c];
        assert all[|all| - 1] == c;
        assert forall i :: 0 <= i < |NonEmpty(init)| ==> all[i] == NonEmpty(init)[i];
      }
    }
  }

  lemma {:induction false} CanonicalIsCompact(cs: Chunks)
    requires WellShaped(cs)
    ensures Compact(cs) == cs && NonEmpty(cs) == cs
  {
    if cs != [] {
      var init, c := cs[..|cs| - 1], cs[|cs| - 1];
      assert cs == init + [c];
      forall i | 0 <= i < |init| - 1 && init[i] == DStar
        ensures !Wild(init[i + 1])
      {
        assert cs[i] == DStar;
      }
      CanonicalIsCompact(init);
      if init != [] && init[|init| - 1] == DStar {
        assert cs[|init| - 1] == DStar && !Wild(cs[|init| - 1 + 1]);
      }
    }
  }

  lemma {:induction false} CompactOf(cs: Chunks)
    ensures forall i :: 0 <= i < |Compact(cs)| ==> Compact(cs)[i] in cs || Wild(Compact(cs)[i])
  {
    if cs != [] {
      CompactOf(cs[..|cs| - 1]);
    }
  }

  // ----- Autocanonize -----

  function Autocanonized(s: string): Option<string> {
    match Canonized(s)
    case Success(t) => (if Valid(t) then Some(t) else None)
    case Failure(_) => None
  }

  lemma CompactSurvivesJoin(s: string)
    requires Compact(SplitAll(s)) != []
    ensures SplitAll(JoinAll(Compact(SplitAll(s)))) == Compact(SplitAll(s))
  {
    var cs := SplitAll(s);
    JoinOfSplit(s);
    CompactOf(cs);
    forall i | 0 <= i < |Compact(cs)|
      ensures NoSlash(Compact(cs)[i])
    {
    }
    SplitOfJoin(Compact(cs));
  }

  /** Autocanonize succeeds exactly when there is a non-empty chunk and every non-empty
      chunk is a legal literal or a wildcard; the result is canonical and has the same
      keys. */
  lemma AutocanonizeIsExact(s: string)
    ensures var cs := NonEmpty(SplitAll(s));
            && (Autocanonized(s).Some? <==> cs != [] && KnownChunks(cs))
            && (Autocanonized(s).Some? ==>
                  var t := Autocanonized(s).value;
                  Valid(t) && forall w :: Matches(SplitAll(t), w) == Matches(cs, w))
  {
    var cs := SplitAll(s);
    CompactKeepsKeys(cs);
    CompactShape(cs);
    if s == "" {
      assert cs == [""];
      assert NonEmpty([""]) == [];
    } else if Compact(cs) != [] {
      CompactSurvivesJoin(s);
    }
  }

  lemma EmptyIsInvalid()
    ensures !Valid("")
  {
    assert SplitAll("")[0] == "";
    WildIsNotLegal();
  }

  lemma ValidIsUnchanged(s: string)
    requires Valid(s)
    ensures Autocanonized(s) == Some(s)
  {
    CanonicalIsCompact(SplitAll(s));
    JoinOfSplit(s);
    EmptyIsInvalid();
  }

  lemma AutocanonizeIsIdempotent(s: string)
    ensures Autocanonized(s).Some? ==> Autocanonized(Autocanonized(s).value) == Autocanonized(s)
  {
    if Autocanonized(s).Some? {
      ValidIsUnchanged(Autocanonized(s).value);
    }
  }

  /** Set equality is string equality. */
  lemma EqualKeysAreEqualStrings(s: string, t: string)
    requires Valid(s) && Valid(t)
    ensures SameKeys(SplitAll(s), SplitAll(t)) <==> s == t
  {
    CanonicalFormsAreUnique(SplitAll(s), SplitAll(t));
    JoinOfSplit(s);
    JoinOfSplit(t);
  }

  /** Strings that denote the same keys, written in any way, canonize to one string. */
  lemma AutocanonizeDecidesEquality(s: string, t: string)
    requires Autocanonized(s).Some? && Autocanonized(t).Some?
    ensures SameKeys(NonEmpty(SplitAll(s)), NonEmpty(SplitAll(t))) <==> Autocanonized(s) == Autocanonized(t)
  {
    AutocanonizeIsExact(s);
    AutocanonizeIsExact(t);
    var a, b := Autocanonized(s).value, Autocanonized(t).value;
    EqualKeysAreEqualStrings(a, b);
    if SameKeys(NonEmpty(SplitAll(s)), NonEmpty(SplitAll(t))) {
      assert SameKeys(SplitAll(a), SplitAll(b));
    }
  }

  // ----- Join -----

  function JoinedWith(k: string, suffix: string): Option<string> {
    if k == "" then Autocanonized(suffix) else Autocanonized(k + "/" + suffix)
  }

  lemma {:induction false} NonEmptyAppend(a: Chunks, b: Chunks)
    ensures NonEmpty(a + b) == NonEmpty(a) + NonEmpty(b)
    decreases |b|
  {
    if b == [] {
      assert a + b == a;
    } else {
      assert (a + b)[..|a + b| - 1] == a + b[..|b| - 1];
      NonEmptyAppend(a, b[..|b| - 1]);
    }
  }

  lemma NonEmptyOfJoin(k: string, suffix: string)
    requires Valid(k)
    ensures NonEmpty(SplitAll(k + "/" + suffix)) == SplitAll(k) + NonEmpty(SplitAll(suffix))
    ensures KnownChunks(SplitAll(k) + NonEmpty(SplitAll(suffix))) <==> KnownChunks(NonEmpty(SplitAll(suffix)))
  {
    hide SplitAll, NonEmpty, KnownChunks, Ordered;
    var p, cs := SplitAll(k), NonEmpty(SplitAll(suffix));
    SplitAcross(k, suffix);
    NonEmptyAppend(p, SplitAll(suffix));
    CanonicalIsCompact(p);
    KnownBoth(p, cs);
  }

  lemma KnownBoth(p: Chunks, q: Chunks)
    ensures KnownChunks(p + q) <==> KnownChunks(p) && KnownChunks(q)
  {
    assert forall i :: 0 <= i < |p| ==> p[i] == (p + q)[i];
    assert forall i :: 0 <= i < |q| ==> q[i] == (p + q)[|p| + i];
  }

  /** The keys of a join are a key of the first part followed by a key of the suffix. */
  lemma JoinConcatenates(k: string, suffix: string)
    requires Valid(k)
    ensures var cs := NonEmpty(SplitAll(suffix));
            && (JoinedWith(k, suffix).Some? <==> KnownChunks(cs))
            && (JoinedWith(k, suffix).Some? ==> forall w ::
                  Matches(SplitAll(JoinedWith(k, suffix).value), w)
                  <==> exists i :: 0 <= i <= |w| && Matches(SplitAll(k), w[..i]) && Matches(cs, w[i..]))
  {
    hide Matches, SplitAll, Autocanonized, KnownChunks, NonEmpty;
    var p, cs := SplitAll(k), NonEmpty(SplitAll(suffix));
    EmptyIsInvalid();
    NonEmptyOfJoin(k, suffix);
    AutocanonizeIsExact(k + "/" + suffix);
    forall w
      ensures Matches(p + cs, w) <==> exists i :: 0 <= i <= |w| && Matches(p, w[..i]) && Matches(cs, w[i..])
    {
      MatchesConcat(p, cs, w);
    }
  }

  // ----- the loops -----

  /** Appends each non-empty chunk and normalises the tail until no rule fires. */
  method Canonize(s: string) returns (r: Result<string, KeyError>)
    ensures r == Canonized(s)
  {
    hide Ordered, SplitAll, JoinAll;
    if s == "" {
      return Failure(Empty);
    }
    var chunks := SplitAll(s);
    var compact: Chunks := [];
    for i := 0 to |chunks|
      invariant compact == Compact(chunks[..i])
    {
      var c := chunks[i];
      assert chunks[..i + 1][..i] == chunks[..i];
      if c == "" {
        continue;
      }
      CompactShape(chunks[..i]);
      compact := Settle(compact, c);
    }
    assert chunks[..|chunks|] == chunks;
    if |compact| == 0 {
      return Failure(NoChunks);
    }
    r := Success(JoinAll(compact));
  }

  /** Appends one chunk and rewrites the tail until no rule applies. */
  method Settle(acc: Chunks, c: string) returns (compact: Chunks)
    requires Ordered(acc) && c != ""
    ensures compact == Pushed(acc, c)
  {
    compact := acc + [c];
    ghost var settled := false;
    while |compact| >= 2
      invariant Tail(acc, c, compact, settled)
      decreases |compact|, !settled
    {
      var last, prev := compact[|compact| - 1], compact[|compact| - 2];
      if last == DStar && prev == DStar {
        compact := compact[..|compact| - 1];
        settled := true;
      } else if last == Star && prev == DStar {
        compact := compact[..|compact| - 2] + [Star, DStar];
        settled := true;
      } else {
        break;
      }
    }
  }

  /** Where the normalisation of `acc` with `c` appended stands. */
  predicate Tail(acc: Chunks, c: string, compact: Chunks, settled: bool) {
    && Ordered(acc) && c != ""
    && compact == (if settled then Pushed(acc, c) else acc + [c])
    && (settled ==> acc != [] && acc[|acc| - 1] == DStar && Wild(c))
  }

  method Autocanonize(s: string) returns (r: Result<string, KeyError>)
    ensures r.Success? <==> Autocanonized(s).Some?
    ensures r.Success? ==> Autocanonized(s) == Some(r.value)
  {
    var t :- Canonize(s);
    var error := Validate(t);
    r := if error.Some? then Failure(error.value) else Success(t);
  }
}
