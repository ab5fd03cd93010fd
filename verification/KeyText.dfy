/**
 Key expressions as strings (internal/keyexpr/keyexpr.go, join.go): splitting at
 slashes, validation, and rewriting to canonical form.
 */
module KeyText {
  import opened Wrappers
  import opened KeySets

  // ----- splitting and joining -----

  /** The position of the first slash, or the length. */
  function Slash(s: string): (i: nat)
    ensures i <= |s| && (i < |s| ==> s[i] == '/')
    ensures forall j :: 0 <= j < i ==> s[j] != '/'
  {
    if s == "" || s[0] == '/' then 0 else 1 + Slash(s[1..])
  }

  /** First chunk and the rest after the slash; no slash leaves no rest. */
  function SplitChunk(s: string): (string, string) {
    (s[..Slash(s)], if Slash(s) < |s| then s[Slash(s) + 1..] else "")
  }

  /** All chunks, empty ones included. */
  function SplitAll(s: string): (cs: Chunks)
    ensures |cs| > 0
    decreases |s|
  {
    if Slash(s) == |s| then [s] else [s[..Slash(s)]] + SplitAll(s[Slash(s) + 1..])
  }

  function JoinAll(cs: Chunks): string
    decreases |cs|
  {
    if |cs| == 0 then "" else if |cs| == 1 then cs[0] else cs[0] + "/" + JoinAll(cs[1..])
  }

  predicate NoSlash(c: string) {
    forall i :: 0 <= i < |c| ==> c[i] != '/'
  }

  lemma SlashAfter(c: string, s: string)
    requires NoSlash(c)
    ensures Slash(c) == |c| && Slash(c + "/" + s) == |c|
  {
    var t := c + "/" + s;
    assert t[|c|] == '/';
    assert forall j :: 0 <= j < |c| ==> t[j] == c[j];
  }

  lemma JoinFirst(c: string, cs: Chunks)
    requires |cs| > 0
    ensures JoinAll([c] + cs) == c + "/" + JoinAll(cs)
  {
    assert ([c] + cs)[1..] == cs;
  }

  lemma CutAtSlash(s: string)
    requires Slash(s) < |s|
    ensures NoSlash(s[..Slash(s)]) && s == s[..Slash(s)] + "/" + s[Slash(s) + 1..]
    ensures SplitAll(s) == [s[..Slash(s)]] + SplitAll(s[Slash(s) + 1..])
  {
    hide SplitAll;
    Glue(s, Slash(s));
    SplitUnfolds(s);
  }

  lemma Glue(s: string, i: nat)
    requires i < |s| && s[i] == '/'
    ensures s == s[..i] + "/" + s[i + 1..]
  {
  }

  lemma SplitUnfolds(s: string)
    requires Slash(s) < |s|
    ensures SplitAll(s) == [s[..Slash(s)]] + SplitAll(s[Slash(s) + 1..])
  {
    hide Slash;
  }

  lemma {:induction false} JoinOfSplit(s: string)
    ensures JoinAll(SplitAll(s)) == s
    ensures forall i :: 0 <= i < |SplitAll(s)| ==> NoSlash(SplitAll(s)[i])
    decreases |s|
  {
    hide NoSlash, JoinAll, SplitAll;
    var i := Slash(s);
    if i < |s| {
      var head, tail := s[..i], s[i + 1..];
      CutAtSlash(s);
      JoinOfSplit(tail);
      JoinFirst(head, SplitAll(tail));
    } else {
      NoSlashAtAll(s);
    }
  }

  lemma NoSlashAtAll(s: string)
    requires Slash(s) == |s|
    ensures NoSlash(s) && SplitAll(s) == [s] && JoinAll([s]) == s
  {
  }

  lemma SplitFirst(c: string, s: string)
    requires NoSlash(c)
    ensures SplitAll(c) == [c] && SplitAll(c + "/" + s) == [c] + SplitAll(s)
  {
    SlashAfter(c, s);
    var t := c + "/" + s;
    assert t[..|c|] == c && t[|c| + 1..] == s;
  }

  lemma {:induction false} SplitOfJoin(cs: Chunks)
    requires |cs| > 0 && forall i :: 0 <= i < |cs| ==> NoSlash(cs[i])
    ensures SplitAll(JoinAll(cs)) == cs
  {
    SplitFirst(cs[0], JoinAll(cs[1..]));
    if |cs| > 1 {
      SplitOfJoin(cs[1..]);
    }
  }

  lemma AtSlash(a: string, b: string)
    requires Slash(a) < |a|
    ensures var head, tail := a[..Slash(a)], a[Slash(a) + 1..];
            NoSlash(head) && a == head + "/" + tail && a + "/" + b == head + "/" + (tail + "/" + b)
  {
    Glue(a, Slash(a));
    Regroup(a[..Slash(a)], "/", a[Slash(a) + 1..], b);
  }

  lemma Regroup(a: string, slash: string, b: string, c: string)
    ensures (a + slash + b) + slash + c == a + slash + (b + slash + c)
  {
  }

  lemma {:induction false} SplitAcross(a: string, b: string)
    ensures SplitAll(a + "/" + b) == SplitAll(a) + SplitAll(b)
    decreases |a|
  {
    hide SplitAll;
    if Slash(a) == |a| {
      SplitFirst(a, b);
    } else {
      var head, tail := a[..Slash(a)], a[Slash(a) + 1..];
      AtSlash(a, b);
      SplitAcross(tail, b);
      SplitFirst(head, tail);
      SplitFirst(head, tail + "/" + b);
      assert [head] + SplitAll(tail) + SplitAll(b) == [head] + (SplitAll(tail) + SplitAll(b));
    }
  }

  // ----- validation -----

  /** Canonical form of a string. */
  predicate Valid(s: string) {
    Canonical(SplitAll(s))
  }

  datatype KeyError = Empty | BoundarySlash | Forbidden | EmptyChunk | BadChunk | NotCanonical | NoChunks

  predicate ContainsAny(s: string, chars: string) {
    exists i :: 0 <= i < |chars| && chars[i] in s
  }

  predicate Somewhere(cs: Chunks, ch: char) {
    exists i :: 0 <= i < |cs| && ch in cs[i]
  }

  lemma SomewhereFirst(c: string, cs: Chunks, ch: char)
    ensures Somewhere([c] + cs, ch) <==> ch in c || Somewhere(cs, ch)
  {
    var all := [c] + cs;
    assert all[0] == c;
    assert forall i :: 0 <= i < |cs| ==> all[i + 1] == cs[i];
    assert forall i :: 0 < i < |all| ==> all[i] == cs[i - 1];
  }

  lemma {:induction false} CharInChunk(s: string, ch: char)
    requires ch != '/'
    ensures ch in s <==> Somewhere(SplitAll(s), ch)
    decreases |s|
  {
    var i := Slash(s);
    if i < |s| {
      hide SplitAll, Somewhere;
      var head, rest := s[..i], s[i + 1..];
      CharInChunk(rest, ch);
      CutAtSlash(s);
      SomewhereFirst(head, SplitAll(rest), ch);
    } else {
      NoSlashAtAll(s);
      assert [s][0] == s;
    }
  }

  /** A chunk without a star in it. */
  predicate Plain(c: string) {
    '*' !in c
  }

  lemma LegalInParts(c: string)
    requires NoSlash(c) && !ContainsAny(c, "#?$")
    ensures Legal(c) <==> c != "" && Plain(c)
  {
    assert "#?$"[0] !in c && "#?$"[1] !in c && "#?$"[2] !in c;
    if c != "" && Plain(c) {
      forall i | 0 <= i < |c|
        ensures c[i] !in Reserved
      {
        assert c[i] in c;
      }
    }
  }

  lemma ForbiddenIsNotKnown(c: string)
    requires ContainsAny(c, "#?$")
    ensures !Legal(c) && !Wild(c)
  {
    var i :| 0 <= i < 3 && "#?$"[i] in c;
    var j :| 0 <= j < |c| && c[j] == "#?$"[i];
    assert c[j] in Reserved;
  }

  /** What each complaint says about the string. */
  predicate Explains(e: KeyError, s: string) {
    match e
    case Empty => s == ""
    case BoundarySlash => "" in SplitAll(s)
    case Forbidden => ContainsAny(s, "#?$")
    case EmptyChunk => "" in SplitAll(s)
    case BadChunk => exists c :: c in SplitAll(s) && !Plain(c) && !Wild(c)
    case NotCanonical => !Ordered(SplitAll(s))
    case NoChunks => false
  }

  lemma ComplaintsAreRight(e: KeyError, s: string)
    requires Explains(e, s)
    ensures !Valid(s)
  {
    match e
    case Empty => assert SplitAll(s)[0] == "";
    case Forbidden => ForbiddenSomewhere(s);
    case BadChunk =>
      var c :| c in SplitAll(s) && !Plain(c) && !Wild(c);
      StarIsNotLegal(c);
    case _ =>
  }

  lemma StarIsNotLegal(c: string)
    requires !Plain(c)
    ensures !Legal(c)
  {
    var i :| 0 <= i < |c| && c[i] == '*';
    assert c[i] in Reserved;
  }

  lemma ShapeGrows(chunks: Chunks, i: nat)
    requires i < |chunks| && WellShaped(chunks[..i]) && (Legal(chunks[i]) || Wild(chunks[i]))
    requires i > 0 && chunks[i - 1] == DStar ==> !Wild(chunks[i])
    ensures WellShaped(chunks[..i + 1])
  {
    assert chunks[..i + 1] == chunks[..i] + [chunks[i]];
  }

  lemma NotOrderedAt(chunks: Chunks, i: nat)
    requires 0 < i < |chunks| && chunks[i - 1] == DStar && Wild(chunks[i])
    ensures !Ordered(chunks)
  {
    assert chunks[i - 1] == DStar && Wild(chunks[i - 1 + 1]);
  }

  /** The checks of validate, in its order: a complaint is always justified, and there
      is one unless the string is canonical. */
  method Validate(s: string) returns (error: Option<KeyError>)
    ensures error.None? <==> Valid(s)
    ensures error.Some? ==> Explains(error.value, s)
    ensures error == Some(Empty) <==> s == ""
  {
    hide Legal, WellShaped, Ordered, SplitAll, ContainsAny, Explains;
    error := FirstComplaint(s);
    if error.Some? {
      ComplaintsAreRight(error.value, s);
    }
  }

  method FirstComplaint(s: string) returns (error: Option<KeyError>)
    ensures error.None? ==> Valid(s)
    ensures error.Some? ==> Explains(error.value, s)
    ensures error == Some(Empty) <==> s == ""
  {
    hide Legal, WellShaped, Ordered, SplitAll, ContainsAny;
    if s == "" {
      return Some(Empty);
    }
    var chunks := SplitAll(s);
    JoinOfSplit(s);
    BoundaryChunks(s);
    if s[0] == '/' || s[|s| - 1] == '/' {
      return Some(BoundarySlash);
    }
    if ContainsAny(s, "#?$") {
      return Some(Forbidden);
    }
    ForbiddenNowhere(s);
    var prev := "";
    NoShape();
    for i := 0 to |chunks|
      invariant prev == if i == 0 then "" else chunks[i - 1]
      invariant WellShaped(chunks[..i])
    {
      var c := chunks[i];
      LegalInParts(c);
      if c == "" {
        return Some(EmptyChunk);
      }
      if '*' in c && c != Star && c != DStar {
        return Some(BadChunk);
      }
      if prev == DStar && (c == DStar || c == Star) {
        NotOrderedAt(chunks, i);
        return Some(NotCanonical);
      }
      ShapeGrows(chunks, i);
      prev := c;
    }
    assert chunks[..|chunks|] == chunks;
    error := None;
  }

  lemma NoShape()
    ensures WellShaped([])
  {
  }

  lemma {:induction false} BoundaryChunks(s: string)
    requires s != ""
    ensures s[0] == '/' ==> SplitAll(s)[0] == ""
    ensures s[|s| - 1] == '/' ==> "" in SplitAll(s)
    decreases |s|
  {
    var i := Slash(s);
    if i < |s| {
      var rest := s[i + 1..];
      assert SplitAll(s)[1..] == SplitAll(rest);
      if rest != "" {
        assert rest[|rest| - 1] == s[|s| - 1];
        BoundaryChunks(rest);
      } else {
        assert SplitAll(rest) == [""];
        assert SplitAll(s)[1] == "";
      }
    }
  }

  lemma ForbiddenSomewhere(s: string)
    requires ContainsAny(s, "#?$")
    ensures !Valid(s)
  {
    var i :| 0 <= i < 3 && "#?$"[i] in s;
    CharInChunk(s, "#?$"[i]);
    var j :| 0 <= j < |SplitAll(s)| && "#?$"[i] in SplitAll(s)[j];
    ForbiddenIsNotKnown(SplitAll(s)[j]);
  }

  lemma ForbiddenNowhere(s: string)
    requires !ContainsAny(s, "#?$")
    ensures forall j :: 0 <= j < |SplitAll(s)| ==> !ContainsAny(SplitAll(s)[j], "#?$")
  {
    forall j | 0 <= j < |SplitAll(s)|
      ensures !ContainsAny(SplitAll(s)[j], "#?$")
    {
      forall i | 0 <= i < 3
        ensures "#?$"[i] !in SplitAll(s)[j]
      {
        CharInChunk(s, "#?$"[i]);
        assert "#?$"[i] !in s;
      }
    }
  }
}
