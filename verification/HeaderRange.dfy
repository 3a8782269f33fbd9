/**
 Ranges of headers from two sources (core/exchange.go, core/routing_exchange.go): old headers
 from peers, recent ones from a consensus node, height by height and all at once.
 */
module HeaderRange {
  import opened Basics

  datatype Header = Header(height: nat, time: int, hash: int)

  /** Consecutive heights right behind `from`, all below `to`. */
  ghost predicate IsRun(from: nat, to: nat, hs: seq<Header>) {
    && (forall i :: 0 <= i < |hs| ==> hs[i].height == from + 1 + i)
    && (hs != [] ==> from + |hs| < to)
  }

  // ---------------------------------------------------------------- the consensus node

  /** What the consensus node has at a height, if it answers at all. */
  type Fetch = nat -> Option<Header>

  ghost predicate Faithful(fetch: Fetch) {
    forall h: nat :: fetch(h).Some? ==> fetch(h).value.height == h
  }

  /** The headers from `from` on up to the first height that cannot be fetched. */
  function Prefix(fetch: Fetch, from: nat, amount: nat): seq<Header>
    decreases amount
  {
    if amount == 0 then []
    else match fetch(from)
      case None => []
      case Some(h) => [h] + Prefix(fetch, from + 1, amount - 1)
  }

  lemma {:induction false} PrefixIsRun(fetch: Fetch, from: nat, amount: nat)
    requires Faithful(fetch)
    ensures var hs := Prefix(fetch, from, amount);
      && |hs| <= amount && (forall i :: 0 <= i < |hs| ==> fetch(from + i) == Some(hs[i]) && hs[i].height == from + i)
      && (|hs| < amount ==> fetch(from + |hs|).None?)
    decreases amount
  {
    if amount > 0 && fetch(from).Some? {
      var hs, t := Prefix(fetch, from, amount), Prefix(fetch, from + 1, amount - 1);
      PrefixIsRun(fetch, from + 1, amount - 1);
      forall i | 0 <= i < |hs| ensures fetch(from + i) == Some(hs[i]) && hs[i].height == from + i {
        if i > 0 { assert fetch(from + 1 + (i - 1)) == Some(t[i - 1]); }
      }
      assert |t| < amount - 1 ==> fetch(from + 1 + |t|).None?;
    }
  }

  /** The filled slots in front of the first empty one. */
  lemma {:induction false} SlotsPrefix(fetch: Fetch, from: nat, slots: seq<Option<Header>>, n: nat)
    requires n <= |slots| && forall i :: 0 <= i < |slots| ==> slots[i] == fetch(from + i)
    requires forall i :: 0 <= i < n ==> slots[i].Some?
    requires n < |slots| ==> slots[n].None?
    ensures |Prefix(fetch, from, |slots|)| == n
    ensures forall i :: 0 <= i < n ==> Prefix(fetch, from, |slots|)[i] == slots[i].value
    decreases |slots|
  {
    if slots != [] {
      assert slots[0] == fetch(from + 0);
      if n > 0 {
        var t := slots[1..];
        forall i | 0 <= i < |t| ensures t[i] == fetch(from + 1 + i) {
          assert slots[i + 1] == fetch(from + (i + 1));
        }
        SlotsPrefix(fetch, from + 1, t, n - 1);
      }
    }
  }

  function Indices(n: nat): (r: set<nat>)
    ensures forall i: nat :: i in r <==> i < n
  {
    if n == 0 then {} else Indices(n - 1) + {n - 1}
  }

  /** Every height is fetched, in whatever order, each into its own slot. */
  method FetchAll(fetch: Fetch, from: nat, amount: nat) returns (slots: array<Option<Header>>)
    ensures fresh(slots) && slots.Length == amount && forall i :: 0 <= i < amount ==> slots[i] == fetch(from + i)
  {
    slots := new Option<Header>[amount](_ => None);
    var todo: set<nat> := Indices(amount);
    while todo != {}
      invariant forall i :: i in todo ==> 0 <= i < amount
      invariant forall i :: 0 <= i < amount && i !in todo ==> slots[i] == fetch(from + i)
      decreases |todo|
    {
      var i: nat :| i in todo;
      todo := todo - {i};
      slots[i] := fetch(from + i);
    }
  }

  /** The headers in front of the first slot left empty. */
  method Leading(slots: array<Option<Header>>) returns (headers: seq<Header>)
    ensures |headers| <= slots.Length && forall i :: 0 <= i < |headers| ==> slots[i] == Some(headers[i])
    ensures |headers| < slots.Length ==> slots[|headers|].None?
  {
    headers := [];
    while |headers| < slots.Length && slots[|headers|].Some?
      invariant |headers| <= slots.Length && forall i :: 0 <= i < |headers| ==> slots[i] == Some(headers[i])
      decreases slots.Length - |headers|
    {
      headers := headers + [slots[|headers|].value];
    }
  }

  /**
   getRangeByHeight: if some heights fail, the headers in front of the first failure are returned, and an
   error only if there are none.
   */
  method FetchRange(fetch: Fetch, from: nat, amount: nat) returns (r: Option<seq<Header>>)
    ensures r == if amount > 0 && fetch(from).None? then None else Some(Prefix(fetch, from, amount))
  {
    if amount == 0 {
      return Some([]);
    }
    var slots := FetchAll(fetch, from, amount);
    var headers := Leading(slots);
    SlotsPrefix(fetch, from, slots[..], |headers|);
    assert slots[0] == fetch(from + 0);
    if headers == [] {
      return None;
    }
    assert headers == Prefix(fetch, from, amount);
    r := Some(headers);
  }

  type Verifier = (Header, Header) -> bool

  /** Each header verifies against the one before it, the first against `from`. */
  predicate Linked(verify: Verifier, from: Header, hs: seq<Header>)
    decreases |hs|
  {
    hs == [] || (verify(from, hs[0]) && Linked(verify, hs[0], hs[1..]))
  }

  /** The consensus node has the first header of the range, if it is not empty, and what it has verifies. */
  ghost predicate CoreAnswers(fetch: Fetch, verify: Verifier, from: Header, to: nat)
    requires from.height < to
  {
    && (from.height + 1 < to ==> fetch(from.height + 1).Some?)
    && Linked(verify, from, Prefix(fetch, from.height + 1, to - from.height - 1))
  }

  /** The number of headers asked for, as a uint64. */
  function Amount(from: nat, to: nat): nat { (to - (from + 1)) % U64 }

  lemma AmountIsRight(from: nat, to: nat)
    requires from < I63 && to < U64
    ensures if from < to then Amount(from, to) == to - from - 1 else Amount(from, to) >= I63
  {
    if from >= to { assert to - (from + 1) + U64 == Amount(from, to); }
  }

  /** Each header verified against the one before it. */
  method VerifyAll(verify: Verifier, from: Header, hs: seq<Header>) returns (ok: bool)
    ensures ok <==> Linked(verify, from, hs)
  {
    var last, i := from, 0;
    assert hs[0..] == hs;
    while i < |hs|
      invariant i <= |hs|
      invariant Linked(verify, from, hs) <==> Linked(verify, last, hs[i..])
    {
      assert hs[i..][1..] == hs[i + 1..];
      if !verify(last, hs[i]) {
        return false;
      }
      last, i := hs[i], i + 1;
    }
    ok := true;
  }

  /**
   The core exchange's GetRangeByHeight. The amount wraps around if `to` is not above `from`, and making a slice
   panics if it is longer than `maxLen`, what the runtime can allocate; so it panics exactly for such ranges.
   */
  method GetCoreRange(fetch: Fetch, verify: Verifier, from: Header, to: nat, maxLen: nat) returns (r: Option<seq<Header>>, panics: bool)
    requires Faithful(fetch) && from.height < I63 && to < U64 && maxLen < I63
    ensures panics <==> to <= from.height || to - from.height - 1 > maxLen
    ensures panics ==> r.None?
    ensures r.Some? ==> r.value == Prefix(fetch, from.height + 1, to - from.height - 1)
    ensures r.Some? ==> Linked(verify, from, r.value) && IsRun(from.height, to, r.value)
    ensures !panics ==> (r.Some? <==> CoreAnswers(fetch, verify, from, to))
  {
    var amount := Amount(from.height, to);
    AmountIsRight(from.height, to);
    if amount > maxLen {
      return None, true;
    }
    panics := false;
    r := FetchRange(fetch, from.height + 1, amount);
    if r.None? {
      return;
    }
    PrefixIsRun(fetch, from.height + 1, amount);
    var ok := VerifyAll(verify, from, r.value);
    if !ok {
      r := None;
    }
  }

  // ---------------------------------------------------------------- routing

  /** A header's height is an int64. */
  ghost predicate Int64Heights(hs: seq<Header>) { forall i :: 0 <= i < |hs| ==> hs[i].height < I63 }

  /** What peers answer: consecutive headers behind `from`, below the given height, perhaps not all. */
  type Peers = (Header, nat) -> Option<seq<Header>>

  ghost predicate Honest(peers: Peers) {
    forall from: Header, to: nat :: from.height < to && peers(from, to).Some? ==>
      IsRun(from.height, to, peers(from, to).value) && Int64Heights(peers(from, to).value)
  }

  /** The estimated last height outside the window; 0 if `from` is inside. */
  function CutoffHeight(from: Header, now: int, window: int, blockTime: nat): nat
    requires blockTime > 0
  {
    var cutoffTime := now - window;
    if from.time >= cutoffTime then 0 else from.height + (cutoffTime - from.time) / blockTime
  }

  lemma RunsJoin(from: nat, mid: nat, to: nat, xs: seq<Header>, ys: seq<Header>)
    requires IsRun(from, mid, xs) && mid <= to && IsRun(from + |xs|, to, ys)
    ensures IsRun(from, to, xs + ys)
  {
  }

  function LastOf(from: Header, hs: seq<Header>): Header {
    if hs == [] then from else hs[|hs| - 1]
  }

  /** The range in two parts: peers up to and including the cutoff, the consensus node from there on. */
  method GetSplitRange(peers: Peers, fetch: Fetch, verify: Verifier, from: Header, to: nat, cutoff: nat, maxLen: nat)
    returns (r: Option<seq<Header>>, panics: bool)
    requires Honest(peers) && Faithful(fetch) && from.height < I63 && to < U64 && maxLen < I63 && from.height < cutoff + 1 < to
    ensures r.Some? ==> peers(from, cutoff + 1).Some? && IsRun(from.height, to, r.value)
    ensures panics ==> r.None? && to - from.height - 1 > maxLen
    ensures !panics && peers(from, cutoff + 1).Some? ==> var last := LastOf(from, peers(from, cutoff + 1).value);
      last.height < to && (r.Some? <==> CoreAnswers(fetch, verify, last, to))
    ensures r.Some? ==> var past := peers(from, cutoff + 1).value; var last := LastOf(from, past);
      && past <= r.value && Linked(verify, last, r.value[|past|..])
      && r.value[|past|..] == Prefix(fetch, last.height + 1, to - last.height - 1)
  {
    var past := peers(from, cutoff + 1);
    if past.None? {
      return None, false;
    }
    var headers, last := past.value, from;
    if |headers| > 0 {
      last := headers[|headers| - 1];
    }
    assert last == LastOf(from, headers) && last.height == from.height + |headers| < to;
    var recent;
    recent, panics := GetCoreRange(fetch, verify, last, to, maxLen);
    if recent.None? {
      return None, panics;
    }
    RunsJoin(from.height, cutoff + 1, to, headers, recent.value);
    r := Some(headers + recent.value);
  }

  /**
   The routing exchange's GetRangeByHeight. Wherever the cutoff falls and whatever fails: what is
   returned is one run of heights behind `from` and below `to`, without a gap at the seam. The amount asked of
   the consensus node never wraps around: only a range longer than `maxLen` makes it panic.
   */
  method GetRangeByHeight(peers: Peers, fetch: Fetch, verify: Verifier, from: Header, to: nat, now: int, window: int, blockTime: nat, maxLen: nat)
    returns (r: Option<seq<Header>>, panics: bool)
    requires Honest(peers) && Faithful(fetch) && blockTime > 0 && from.height < I63 && to < U64 && maxLen < I63
    ensures from.height >= to ==> r.None? && !panics
    ensures panics ==> r.None? && to - from.height - 1 > maxLen
    ensures from.height < to && r.None? && !panics ==> var cutoff := CutoffHeight(from, now, window, blockTime);
      if from.height + 1 > cutoff then !CoreAnswers(fetch, verify, from, to)
      else if to <= cutoff + 1 then peers(from, to).None?
      else peers(from, cutoff + 1).None? || var last := LastOf(from, peers(from, cutoff + 1).value);
        last.height < to && !CoreAnswers(fetch, verify, last, to)
    ensures r.Some? ==> IsRun(from.height, to, r.value)
    ensures r.Some? ==> var cutoff := CutoffHeight(from, now, window, blockTime);
      if from.height + 1 > cutoff then r.value == Prefix(fetch, from.height + 1, to - from.height - 1) && Linked(verify, from, r.value)
      else if to <= cutoff + 1 then r == peers(from, to)
      else peers(from, cutoff + 1).Some? && var past := peers(from, cutoff + 1).value;
        past <= r.value && Linked(verify, LastOf(from, past), r.value[|past|..])
  {
    panics := false;
    if from.height == to {
      return None, false;
    }
    if from.height > to {
      return None, false;
    }
    var startHeight := from.height + 1;
    var cutoff := CutoffHeight(from, now, window, blockTime);
    if startHeight > cutoff {
      r, panics := GetCoreRange(fetch, verify, from, to, maxLen);
      return;
    }
    if to <= cutoff + 1 {
      return peers(from, to), false;
    }
    r, panics := GetSplitRange(peers, fetch, verify, from, to, cutoff, maxLen);
  }
}
