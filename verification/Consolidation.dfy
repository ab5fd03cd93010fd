/**
 Reply consolidation of a Get (zenoh/get.go:282-449): the streaming translators against
 what each mode promises about the whole stream of replies. The stream is what arrives
 until the channel closes.
 */
module Consolidation {
  import opened Wrappers
  import opened Buffer

  /** A data reply for a key, with or without a timestamp, or an error reply. */
  datatype Reply = Data(key: string, ts: Option<uint64>, payload: bytes) | Error(payload: bytes) {
    predicate For(k: string) {
      Data? && key == k
    }

    predicate Stamped() {
      Data? && ts.Some?
    }
  }

  type Replies = seq<Reply>

  datatype Mode = Auto | NoConsolidation | Monotonic | Latest

  // ----- Monotonic -----

  /** A reply passes unless its timestamp is not above every earlier one of its key. */
  predicate Newest(rs: Replies, i: nat)
    requires i < |rs|
  {
    rs[i].Stamped() ==>
      forall j :: 0 <= j < i && rs[j].Stamped() && rs[j].key == rs[i].key ==> rs[j].ts.value < rs[i].ts.value
  }

  function Increasing(rs: Replies): (out: Replies)
    ensures |out| <= |rs|
  {
    if |rs| == 0 then []
    else Increasing(rs[..|rs| - 1]) + if Newest(rs, |rs| - 1) then [rs[|rs| - 1]] else []
  }

  /** The high-water marks after some replies. */
  ghost predicate HighWater(marks: map<string, uint64>, rs: Replies) {
    && (forall k :: k in marks ==> exists j :: 0 <= j < |rs| && rs[j].For(k) && rs[j].ts == Some(marks[k]))
    && (forall j :: 0 <= j < |rs| && rs[j].Stamped() ==> rs[j].key in marks && rs[j].ts.value <= marks[rs[j].key])
  }

  method TranslateMonotonic(rs: Replies) returns (out: Replies)
    ensures out == Increasing(rs)
  {
    var marks: map<string, uint64> := map[];
    out := [];
    for i := 0 to |rs|
      invariant out == Increasing(rs[..i])
      invariant HighWater(marks, rs[..i])
    {
      var r := rs[i];
      assert rs[..i + 1][..i] == rs[..i] && rs[..i + 1][i] == r;
      ghost var before := marks;
      MarksDecide(marks, rs, i);
      if r.Stamped() {
        if r.key in marks && r.ts.value <= marks[r.key] {
          continue;
        }
        marks := marks[r.key := r.ts.value];
      }
      out := out + [r];
    }
    assert rs[..|rs|] == rs;
  }

  lemma MarksDecide(marks: map<string, uint64>, rs: Replies, i: nat)
    requires i < |rs| && HighWater(marks, rs[..i])
    ensures var r := rs[i];
            var low := r.Stamped() && r.key in marks && r.ts.value <= marks[r.key];
            && (Newest(rs[..i + 1], i) <==> !low)
            && HighWater(if r.Stamped() && !low then marks[r.key := r.ts.value] else marks, rs[..i + 1])
  {
    var now := rs[..i + 1];
    assert forall j :: 0 <= j < i ==> now[j] == rs[..i][j];
    var r := rs[i];
    var low := r.Stamped() && r.key in marks && r.ts.value <= marks[r.key];
    if low {
      var j :| 0 <= j < |rs[..i]| && rs[..i][j].For(r.key) && rs[..i][j].ts == Some(marks[r.key]);
      assert now[j].Stamped() && now[j].key == now[i].key;
    }
    var after := if r.Stamped() && !low then marks[r.key := r.ts.value] else marks;
    forall k | k in after
      ensures exists j :: 0 <= j < |now| && now[j].For(k) && now[j].ts == Some(after[k])
    {
      if r.Stamped() && !low && k == r.key {
        assert now[i].For(k) && now[i].ts == Some(after[k]);
      } else {
        var j :| 0 <= j < |rs[..i]| && rs[..i][j].For(k) && rs[..i][j].ts == Some(marks[k]);
        assert now[j].For(k) && now[j].ts == Some(after[k]);
      }
    }
  }

  // ----- Latest -----

  function Errors(rs: Replies): Replies {
    if |rs| == 0 then []
    else Errors(rs[..|rs| - 1]) + if rs[|rs| - 1].Error? then [rs[|rs| - 1]] else []
  }

  /** The keys in the order in which they first appear. */
  function Keys(rs: Replies): seq<string> {
    if |rs| == 0 then []
    else
      var before, r := Keys(rs[..|rs| - 1]), rs[|rs| - 1];
      if r.Data? && r.key !in before then before + [r.key] else before
  }

  /** The i-th reply is the one to keep for `k`. Nothing unstamped follows it. If it is
      unstamped itself, it is the last of its key; if it is stamped, it is above all
      stamps of its key since the last unstamped reply, and not below any later one. */
  predicate Wins(rs: Replies, k: string, i: nat) {
    && i < |rs| && rs[i].For(k)
    && (forall j :: i < j < |rs| && rs[j].For(k) ==>
          rs[i].Stamped() && rs[j].Stamped() && rs[j].ts.value <= rs[i].ts.value)
    && (rs[i].Stamped() ==> forall j :: 0 <= j < i && Counts(rs, k, j, i) ==> rs[j].ts.value < rs[i].ts.value)
  }

  /** A stamped reply with no unstamped one of its key between it and the i-th. */
  predicate Counts(rs: Replies, k: string, j: nat, i: nat)
    requires j < i <= |rs|
  {
    rs[j].For(k) && rs[j].Stamped() && forall m :: j < m < i && rs[m].For(k) ==> rs[m].Stamped()
  }

  lemma WinnerIsUnique(rs: Replies, k: string, i: nat, j: nat)
    requires Wins(rs, k, i) && Wins(rs, k, j)
    ensures i == j
  {
    if i < j {
      assert Counts(rs, k, i, j);
    } else if j < i {
      assert Counts(rs, k, j, i);
    }
  }

  /** Both stamped, the first not later than the second. */
  predicate NotAfter(a: Reply, b: Reply) {
    a.Stamped() && b.Stamped() && a.ts.value <= b.ts.value
  }

  /** All stamped: the winner is the earliest of the greatest timestamps. */
  lemma AllStampedWinner(rs: Replies, k: string, i: nat)
    requires forall j :: 0 <= j < |rs| && rs[j].For(k) ==> rs[j].Stamped()
    ensures Wins(rs, k, i) <==>
            && i < |rs| && rs[i].For(k)
            && (forall j :: 0 <= j < |rs| && rs[j].For(k) ==> NotAfter(rs[j], rs[i]))
            && (forall j :: 0 <= j < i && rs[j].For(k) ==> !NotAfter(rs[i], rs[j]))
  {
    if i < |rs| && rs[i].For(k) {
      forall j | 0 <= j < i && rs[j].For(k)
        ensures Counts(rs, k, j, i)
      {
      }
    }
  }

  /** None stamped: the winner is the last. */
  lemma NoneStampedWinner(rs: Replies, k: string, i: nat)
    requires forall j :: 0 <= j < |rs| && rs[j].For(k) ==> !rs[j].Stamped()
    ensures Wins(rs, k, i) <==> i < |rs| && rs[i].For(k) && forall j :: i < j < |rs| ==> !rs[j].For(k)
  {
  }

  /** Mixed: what came before the last unstamped reply does not matter. */
  lemma LastUnstampedDecides(rs: Replies, k: string, u: nat, i: nat)
    requires u < |rs| && rs[u].For(k) && !rs[u].Stamped()
    requires forall j :: u < j < |rs| && rs[j].For(k) ==> rs[j].Stamped()
    ensures Wins(rs, k, i) <==> i >= u && Wins(rs[u..], k, i - u)
  {
    var tail := rs[u..];
    assert forall j :: u <= j < |rs| ==> rs[j] == tail[j - u];
    assert forall j :: 0 <= j < |tail| ==> tail[j] == rs[u + j];
    if u < i < |rs| {
      forall j | 0 <= j < i
        ensures Counts(rs, k, j, i) <==> j > u && Counts(tail, k, j - u, i - u)
      {
        if j > u && Counts(tail, k, j - u, i - u) {
          assert forall m :: j < m < i ==> rs[m] == tail[m - u];
        }
      }
    }
  }

  lemma {:induction false} KeysAreDistinct(rs: Replies)
    ensures forall a, b :: 0 <= a < b < |Keys(rs)| ==> Keys(rs)[a] != Keys(rs)[b]
    ensures forall k :: k in Keys(rs) <==> exists i :: 0 <= i < |rs| && rs[i].For(k)
  {
    if |rs| > 0 {
      var n := |rs| - 1;
      var before := rs[..n];
      KeysAreDistinct(before);
      forall k
        ensures k in Keys(rs) <==> exists i :: 0 <= i < |rs| && rs[i].For(k)
      {
        if k in Keys(before) {
          var i :| 0 <= i < n && before[i].For(k);
          assert rs[i].For(k);
        } else {
          assert forall i :: 0 <= i < n ==> rs[i] == before[i];
        }
      }
    }
  }

  /** Earlier in the list means first seen earlier. */
  lemma {:induction false} KeysInArrivalOrder(rs: Replies, a: nat, b: nat, j: nat)
    requires a < b < |Keys(rs)| && j < |rs| && rs[j].For(Keys(rs)[b])
    ensures exists i :: 0 <= i < j && rs[i].For(Keys(rs)[a])
    decreases |rs|
  {
    var n := |rs| - 1;
    var before := rs[..n];
    KeysAreDistinct(before);
    KeysAreDistinct(rs);
    if b < |Keys(before)| && j < n {
      KeysInArrivalOrder(before, a, b, j);
      var i :| 0 <= i < j && before[i].For(Keys(before)[a]);
      assert rs[i].For(Keys(rs)[a]);
    } else if b < |Keys(before)| {
      assert Keys(before)[b] in Keys(before);
      var first :| 0 <= first < n && before[first].For(Keys(before)[b]);
      KeysInArrivalOrder(before, a, b, first);
      var i :| 0 <= i < first && before[i].For(Keys(before)[a]);
      assert rs[i].For(Keys(rs)[a]);
    } else {
      assert Keys(rs)[a] in Keys(before);
      var i :| 0 <= i < n && before[i].For(Keys(rs)[a]);
      assert rs[i].For(Keys(rs)[a]);
      assert forall x :: 0 <= x < n ==> rs[x] == before[x] && !before[x].For(Keys(rs)[b]);
    }
  }

  /** What Latest must put out: all errors in arrival order, then for each key, in order
      of first arrival, its winner. */
  ghost predicate IsLatest(rs: Replies, out: Replies) {
    && |out| == |Errors(rs)| + |Keys(rs)|
    && out[..|Errors(rs)|] == Errors(rs)
    && forall m :: 0 <= m < |Keys(rs)| ==> IsWinner(rs, Keys(rs)[m], out[|Errors(rs)| + m])
  }

  ghost predicate IsWinner(rs: Replies, k: string, r: Reply) {
    exists i: nat :: Wins(rs, k, i) && rs[i] == r
  }

  /** There is only one such output. */
  lemma LatestIsUnique(rs: Replies, a: Replies, b: Replies)
    requires IsLatest(rs, a) && IsLatest(rs, b)
    ensures a == b
  {
    var e := |Errors(rs)|;
    forall x | 0 <= x < |a|
      ensures a[x] == b[x]
    {
      if x < e {
        assert a[x] == a[..e][x] && b[x] == b[..e][x];
      } else {
        var m := x - e;
        assert IsWinner(rs, Keys(rs)[m], a[e + m]) && IsWinner(rs, Keys(rs)[m], b[e + m]);
        var i: nat :| Wins(rs, Keys(rs)[m], i) && rs[i] == a[x];
        var j: nat :| Wins(rs, Keys(rs)[m], j) && rs[j] == b[x];
        WinnerIsUnique(rs, Keys(rs)[m], i, j);
      }
    }
  }

  /** The buffered winners after some replies. */
  ghost predicate Buffers(best: map<string, Reply>, order: seq<string>, rs: Replies) {
    && order == Keys(rs)
    && (forall k :: k in best <==> k in order)
    && forall k :: k in best ==> IsWinner(rs, k, best[k])
  }

  /** The reply replaces the buffered one unless both are stamped and it is not newer. */
  predicate Replaces(prev: Reply, r: Reply) {
    !NotAfter(r, prev)
  }

  lemma WinnerMoves(rs: Replies, i: nat, k: string, prev: Reply)
    requires i < |rs| && IsWinner(rs[..i], k, prev)
    ensures !rs[i].For(k) ==> IsWinner(rs[..i + 1], k, prev)
    ensures rs[i].For(k) && !Replaces(prev, rs[i]) ==> IsWinner(rs[..i + 1], k, prev)
    ensures rs[i].For(k) && Replaces(prev, rs[i]) ==> IsWinner(rs[..i + 1], k, rs[i])
  {
    var was, now, r := rs[..i], rs[..i + 1], rs[i];
    assert forall j :: 0 <= j < i ==> now[j] == was[j];
    var w: nat :| Wins(was, k, w) && was[w] == prev;
    forall j | 0 <= j < w
      ensures Counts(now, k, j, w) == Counts(was, k, j, w)
    {
      assert forall m :: j < m < w ==> now[m] == was[m];
    }
    if !r.For(k) || !Replaces(prev, r) {
      assert Wins(now, k, w);
    } else {
      NewWinner(was, k, w, r);
      assert now == was + [r];
      assert Wins(now, k, i);
    }
  }

  lemma NewWinner(was: Replies, k: string, w: nat, r: Reply)
    requires Wins(was, k, w) && r.For(k) && Replaces(was[w], r)
    ensures Wins(was + [r], k, |was|)
  {
    var now, i := was + [r], |was|;
    if r.Stamped() {
      forall j | 0 <= j < i && Counts(now, k, j, i)
        ensures now[j].ts.value < r.ts.value
      {
        if j < w {
          assert forall m :: j < m <= w ==> now[m] == was[m];
          assert now[w].Stamped() && Counts(was, k, j, w);
        }
      }
    }
  }

  method TranslateLatest(rs: Replies) returns (out: Replies)
    ensures IsLatest(rs, out)
  {
    hide IsWinner, Keys;
    var best: map<string, Reply>, order: seq<string>, errors: Replies := map[], [], [];
    NothingBuffered();
    for i := 0 to |rs|
      invariant errors == Errors(rs[..i])
      invariant Buffers(best, order, rs[..i])
    {
      assert rs[..i + 1][..i] == rs[..i] && rs[..i + 1][i] == rs[i];
      ghost var best0, order0 := best, order;
      best, order, errors := Take(best, order, errors, rs[i]);
      TakeBuffers(best0, order0, rs, i);
    }
    assert rs[..|rs|] == rs;
    out := errors;
    for m := 0 to |order|
      invariant |out| == |errors| + m && out[..|errors|] == errors
      invariant forall j :: 0 <= j < m ==> out[|errors| + j] == best[order[j]]
    {
      assert order[m] in order;
      out := out + [best[order[m]]];
    }
    forall m | 0 <= m < |order|
      ensures IsWinner(rs, order[m], out[|errors| + m])
    {
      assert order[m] in best;
    }
  }

  /** One reply into the buffer. */
  method Take(best: map<string, Reply>, order: seq<string>, errors: Replies, r: Reply)
    returns (best': map<string, Reply>, order': seq<string>, errors': Replies)
    requires forall k :: k in best <==> k in order
    ensures errors' == errors + if r.Error? then [r] else []
    ensures order' == if r.Data? && r.key !in order then order + [r.key] else order
    ensures best' == if r.Data? && (r.key !in order || Replaces(best[r.key], r)) then best[r.key := r] else best
  {
    best', order', errors' := best, order, errors;
    if r.Error? {
      errors' := errors + [r];
      return;
    }
    if r.key in best {
      var prev := best[r.key];
      if r.ts.Some? && prev.Stamped() && r.ts.value <= prev.ts.value {
        return;
      }
      best' := best[r.key := r];
      return;
    }
    best' := best[r.key := r];
    order' := order + [r.key];
  }

  lemma NothingBuffered()
    ensures Buffers(map[], [], [])
  {
  }

  lemma TakeBuffers(best: map<string, Reply>, order: seq<string>, rs: Replies, i: nat)
    requires i < |rs| && Buffers(best, order, rs[..i])
    ensures var r := rs[i];
            var order' := if r.Data? && r.key !in order then order + [r.key] else order;
            var best' := if r.Data? && (r.key !in order || Replaces(best[r.key], r)) then best[r.key := r] else best;
            Buffers(best', order', rs[..i + 1])
  {
    var r, now := rs[i], rs[..i + 1];
    assert now[..i] == rs[..i] && now[i] == r;
    var best' := if r.Data? && (r.key !in order || Replaces(best[r.key], r)) then best[r.key := r] else best;
    forall k | k in best'
      ensures IsWinner(now, k, best'[k])
    {
      if k in best {
        WinnerMoves(rs, i, k, best[k]);
      } else {
        FirstOfItsKey(rs, i);
      }
    }
  }

  lemma FirstOfItsKey(rs: Replies, i: nat)
    requires i < |rs| && rs[i].Data? && rs[i].key !in Keys(rs[..i])
    ensures IsWinner(rs[..i + 1], rs[i].key, rs[i])
  {
    KeysAreDistinct(rs[..i]);
    assert forall j :: 0 <= j < i ==> rs[..i][j] == rs[..i + 1][j];
    assert Wins(rs[..i + 1], rs[i].key, i);
  }

  // ----- budget -----

  /** Forwards the first `n` replies of a stream. */
  method BudgetLimit(rs: Replies, n: uint32) returns (out: Replies)
    ensures out == if |rs| <= n then rs else rs[..n]
  {
    out := [];
    var count: uint32 := 0;
    while count < n
      invariant count <= n && count <= |rs| && out == rs[..count]
    {
      if count == |rs| {
        return;
      }
      out := out + [rs[count]];
      count := count + 1;
    }
  }

  lemma {:induction false} LatestIsNotLonger(rs: Replies)
    ensures |Errors(rs)| + |Keys(rs)| <= |rs|
  {
    if |rs| > 0 {
      LatestIsNotLonger(rs[..|rs| - 1]);
    }
  }

  /** A whole Get: an optional budget, then the translator of the mode. Whatever the
      mode, a budget caps the number of replies the caller sees. */
  method Translate(rs: Replies, budget: uint32, mode: Mode) returns (out: Replies)
    ensures budget > 0 ==> |out| <= budget
    ensures var seen := if 0 < budget < |rs| then rs[..budget] else rs;
            match mode
            case NoConsolidation => out == seen
            case Monotonic => out == Increasing(seen)
            case _ => IsLatest(seen, out)
  {
    var seen := rs;
    if budget > 0 {
      seen := BudgetLimit(rs, budget);
    }
    LatestIsNotLonger(seen);
    match mode
    case NoConsolidation => out := seen;
    case Monotonic => out := TranslateMonotonic(seen);
    case _ => out := TranslateLatest(seen);
  }
}
