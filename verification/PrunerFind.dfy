/**
 Which headers are old enough to be pruned (pruner/find.go): a guess from the block time,
 corrected header by header. Whatever the guess, the result is the longest run of headers
 after the last pruned one that are not newer than the cutoff, up to a fixed number.
 */
module PrunerFind {
  import opened Basics

  const MaxHeadersPerLoop: nat := 512

  datatype Header = Header(height: nat, time: int)

  /** The header store: consecutive heights from the tail to the head, at strictly increasing times. */
  datatype Chain = Chain(headers: seq<Header>) {
    ghost predicate Valid() {
      && headers != []
      && (forall i :: 0 <= i < |headers| ==> headers[i].height == headers[0].height + i)
      && (forall i, j :: 0 <= i < j < |headers| ==> headers[i].time < headers[j].time)
    }

    function Tail(): Header
      requires headers != []
    {
      headers[0]
    }

    function Head(): Header
      requires headers != []
    {
      headers[|headers| - 1]
    }

    predicate Has(h: nat) {
      headers != [] && headers[0].height <= h < headers[0].height + |headers|
    }

    function At(h: nat): Header
      requires Has(h)
    {
      headers[h - headers[0].height]
    }

    function GetByHeight(h: nat): Option<Header> {
      if Has(h) then Some(At(h)) else None
    }

    /** The headers above `from` and below `to`. */
    function GetRangeByHeight(from: nat, to: nat): seq<Header>
      requires Has(from) && from < to && Has(to - 1)
    {
      headers[from + 1 - headers[0].height..to - headers[0].height]
    }
  }

  /** The first header to prune; the genesis block is adopted as last pruned without being pruned. */
  function First(lastPruned: nat): nat { if lastPruned == 1 then 1 else lastPruned + 1 }

  predicate StandsAt(chain: Chain, h: nat, x: Header) { chain.Has(h) && x == chain.At(h) }

  /** The longest run of headers from `first` on that are not after the cutoff, up to the maximum. */
  ghost predicate LongestRun(chain: Chain, first: nat, cutoff: int, hs: seq<Header>) {
    && |hs| <= MaxHeadersPerLoop
    && (forall i :: 0 <= i < |hs| ==> StandsAt(chain, first + i, hs[i]) && hs[i].time <= cutoff)
    && (|hs| == MaxHeadersPerLoop || !chain.Has(first + |hs|) || chain.At(first + |hs|).time > cutoff)
  }

  /** There is only one such run. */
  lemma LongestRunUnique(chain: Chain, first: nat, cutoff: int, hs: seq<Header>, hs': seq<Header>)
    requires LongestRun(chain, first, cutoff, hs) && LongestRun(chain, first, cutoff, hs')
    ensures hs == hs'
  {
    assert |hs| < |hs'| ==> hs'[|hs|].time <= cutoff;
    assert |hs'| < |hs| ==> hs[|hs'|].time <= cutoff;
  }

  /** Less than one block time before the cutoff, or at the head: there is nothing to look for. */
  predicate NothingToFind(chain: Chain, lastPruned: Header, cutoff: int, blockTime: nat)
    requires chain.headers != []
  {
    cutoff - lastPruned.time < blockTime || lastPruned.height >= chain.Head().height
  }

  /** The search would have to know whether there is a header behind the head. */
  predicate AsksBeyondHead(chain: Chain, first: nat, cutoff: int)
    requires chain.headers != []
  {
    chain.Head().time <= cutoff && chain.Head().height + 1 - first <= MaxHeadersPerLoop
  }

  /** calculateEstimatedCutoff: as many heights as block times fit, neither past the head nor too many. */
  method EstimateCutoff(chain: Chain, lastPruned: Header, cutoff: int, blockTime: nat) returns (estimate: nat)
    requires chain.Valid() && chain.Has(lastPruned.height)
    requires blockTime > 0 && lastPruned.time < cutoff
    ensures lastPruned.height <= estimate <= chain.Head().height && estimate - lastPruned.height <= MaxHeadersPerLoop
    ensures estimate == lastPruned.height <==> NothingToFind(chain, lastPruned, cutoff, blockTime)
  {
    var range := (cutoff - lastPruned.time) / blockTime;
    DivZero(cutoff - lastPruned.time, blockTime);
    estimate := lastPruned.height + range;
    if chain.Head().height < estimate {
      estimate := chain.Head().height;
    }
    if estimate - lastPruned.height > MaxHeadersPerLoop {
      estimate := lastPruned.height + MaxHeadersPerLoop;
    }
  }

  lemma DivZero(a: nat, b: nat)
    requires b > 0
    ensures a / b == 0 <==> a < b
  {
  }

  /** Consecutive headers of the store from height `first` on. */
  ghost predicate RunFrom(chain: Chain, first: nat, hs: seq<Header>) {
    && chain.headers != [] && chain.headers[0].height <= first
    && first - chain.headers[0].height + |hs| <= |chain.headers|
    && hs == chain.headers[first - chain.headers[0].height..][..|hs|]
  }

  lemma RunFromAt(chain: Chain, first: nat, hs: seq<Header>, i: nat)
    requires RunFrom(chain, first, hs) && i < |hs|
    ensures StandsAt(chain, first + i, hs[i])
  {
  }

  lemma RunGrows(chain: Chain, first: nat, hs: seq<Header>, next: Header)
    requires chain.Valid() && RunFrom(chain, first, hs) && hs != []
    requires chain.GetByHeight(hs[|hs| - 1].height + 1) == Some(next)
    ensures RunFrom(chain, first, hs + [next])
  {
    RunFromAt(chain, first, hs, |hs| - 1);
    var t := chain.headers[first - chain.headers[0].height..];
    assert t[..|hs| + 1] == t[..|hs|] + [t[|hs|]];
  }

  /** The run that is not after the cutoff, cut from one that was long enough. */
  lemma CutIsLongest(chain: Chain, first: nat, cutoff: int, all: seq<Header>, hs: seq<Header>)
    requires RunFrom(chain, first, all) && hs <= all && |hs| <= MaxHeadersPerLoop
    requires forall i :: 0 <= i < |hs| ==> hs[i].time <= cutoff
    requires if |hs| < |all| then all[|hs|].time > cutoff else |all| == MaxHeadersPerLoop
    ensures LongestRun(chain, first, cutoff, hs)
  {
    forall i | 0 <= i < |hs| ensures StandsAt(chain, first + i, hs[i]) {
      RunFromAt(chain, first, all, i);
      assert hs[i] == all[i];
    }
    if |hs| < |all| { RunFromAt(chain, first, all, |hs|); }
  }

  lemma SliceTwice(s: seq<Header>, i: nat, n: nat)
    requires i + n <= |s|
    ensures s[i..][..n] == s[i..i + n]
  {
  }

  lemma OneInFront(chain: Chain, x: Header, hs: seq<Header>)
    requires StandsAt(chain, x.height, x) && RunFrom(chain, x.height + 1, hs)
    ensures RunFrom(chain, x.height, [x] + hs)
  {
    var i := x.height - chain.headers[0].height;
    SliceTwice(chain.headers, i, |hs| + 1);
    SliceTwice(chain.headers, i + 1, |hs|);
    assert [x] + hs == chain.headers[i..i + |hs| + 1];
  }

  /** The estimated range, with the genesis block in front if it is still to be pruned. */
  method FetchRange(chain: Chain, lastPruned: Header, estimate: nat) returns (hs: seq<Header>)
    requires chain.Valid() && chain.GetByHeight(lastPruned.height) == Some(lastPruned)
    requires lastPruned.height < estimate <= chain.Head().height && estimate - lastPruned.height <= MaxHeadersPerLoop
    ensures RunFrom(chain, First(lastPruned.height), hs)
    ensures First(lastPruned.height) + |hs| == estimate + 1 && 0 < |hs| <= MaxHeadersPerLoop + 1
  {
    hs := chain.GetRangeByHeight(lastPruned.height, estimate + 1);
    SliceTwice(chain.headers, lastPruned.height + 1 - chain.headers[0].height, |hs|);
    if lastPruned.height == 1 {
      OneInFront(chain, lastPruned, hs);
      hs := [lastPruned] + hs;
    }
  }

  /** Fetches header after header until one is newer than the cutoff or there are enough. */
  method Extend(chain: Chain, first: nat, cutoff: int, found: seq<Header>) returns (r: Option<seq<Header>>)
    requires chain.Valid() && RunFrom(chain, first, found) && 0 < |found| <= MaxHeadersPerLoop + 1
    ensures r.None? <==> AsksBeyondHead(chain, first, cutoff)
    ensures r.Some? ==> RunFrom(chain, first, r.value) && 0 < |r.value|
    ensures r.Some? ==> |r.value| == MaxHeadersPerLoop || (|r.value| < MaxHeadersPerLoop + 1 && r.value[|r.value| - 1].time > cutoff)
  {
    var hs := found;
    while true
      invariant RunFrom(chain, first, hs) && 0 < |hs| <= MaxHeadersPerLoop + 1
      decreases MaxHeadersPerLoop + 1 - |hs|
    {
      if |hs| > MaxHeadersPerLoop {
        return Some(hs[..MaxHeadersPerLoop]);
      }
      var last := hs[|hs| - 1];
      if last.time > cutoff {
        assert chain.Head().time >= last.time;
        return Some(hs);
      }
      var next := chain.GetByHeight(last.height + 1);
      if next.None? {
        assert last == chain.Head();
        return None;
      }
      RunGrows(chain, first, hs, next.value);
      hs := hs + [next.value];
    }
  }

  /** Cuts the run at the first header that is newer than the cutoff. */
  method CutAtCutoff(hs: seq<Header>, cutoff: int) returns (r: seq<Header>)
    ensures r <= hs && (forall i :: 0 <= i < |r| ==> r[i].time <= cutoff)
    ensures |r| < |hs| ==> hs[|r|].time > cutoff
  {
    for i := 0 to |hs|
      invariant forall k :: 0 <= k < i ==> hs[k].time <= cutoff
    {
      if hs[i].time > cutoff {
        return hs[..i];
      }
    }
    r := hs;
  }

  /**
   The headers to prune next. `chain` is the store's content, `cutoffHead` the head that was
   read first, which the store may have outgrown since.
   */
  method FindPruneableHeaders(chain: Chain, cutoffHead: Header, lastPruned: Header, window: int, blockTime: nat)
    returns (r: Option<seq<Header>>)
    requires chain.Valid() && blockTime > 0
    requires chain.GetByHeight(cutoffHead.height) == Some(cutoffHead) && chain.GetByHeight(lastPruned.height) == Some(lastPruned)
    ensures NothingToFind(chain, lastPruned, cutoffHead.time - window, blockTime) ==> r == Some([])
    ensures !NothingToFind(chain, lastPruned, cutoffHead.time - window, blockTime) ==>
      (r.None? <==> AsksBeyondHead(chain, First(lastPruned.height), cutoffHead.time - window))
    ensures !NothingToFind(chain, lastPruned, cutoffHead.time - window, blockTime) && r.Some? ==>
      LongestRun(chain, First(lastPruned.height), cutoffHead.time - window, r.value)
  {
    var cutoff := cutoffHead.time - window;
    if lastPruned.time >= cutoff {
      return Some([]);
    }
    var estimate := EstimateCutoff(chain, lastPruned, cutoff, blockTime);
    if lastPruned.height >= estimate {
      return Some([]);
    }
    var hs := FetchRange(chain, lastPruned, estimate);
    r := Extend(chain, First(lastPruned.height), cutoff, hs);
    if r.Some? {
      hs := CutAtCutoff(r.value, cutoff);
      CutIsLongest(chain, First(lastPruned.height), cutoff, r.value, hs);
      r := Some(hs);
    }
  }

  /** With a positive window the search never fails: the head it started from is newer than the cutoff. */
  lemma PositiveWindowNeverAsksBeyondHead(chain: Chain, cutoffHead: Header, first: nat, window: int)
    requires chain.Valid() && chain.GetByHeight(cutoffHead.height) == Some(cutoffHead) && window > 0
    ensures !AsksBeyondHead(chain, first, cutoffHead.time - window)
  {
    assert chain.Head().time >= cutoffHead.time by {
      var i := cutoffHead.height - chain.headers[0].height;
      assert chain.headers[i] == cutoffHead;
    }
  }

  /** A window that is not negative leaves a header to look at whenever a block time fits. */
  lemma HeadIsNotBeforeCutoff(chain: Chain, cutoffHead: Header, lastPruned: Header, window: int, blockTime: nat)
    requires chain.Valid() && chain.GetByHeight(cutoffHead.height) == Some(cutoffHead) && chain.GetByHeight(lastPruned.height) == Some(lastPruned)
    requires window >= 0 && blockTime > 0 && cutoffHead.time - window - lastPruned.time >= blockTime
    ensures !NothingToFind(chain, lastPruned, cutoffHead.time - window, blockTime)
  {
    var i, j := lastPruned.height - chain.headers[0].height, cutoffHead.height - chain.headers[0].height;
    assert chain.headers[i] == lastPruned && chain.headers[j] == cutoffHead;
  }

  /** With no window at all it does fail: the header to prune is there, and the search asks for one behind the head. */
  method NoWindowExample() returns (chain: Chain, r: Option<seq<Header>>)
    ensures chain.Valid() && chain.Has(3) && LongestRun(chain, 3, 20, [chain.At(3)])
    ensures r.None?
  {
    chain := Chain([Header(1, 0), Header(2, 10), Header(3, 20)]);
    assert StandsAt(chain, 3, Header(3, 20));
    r := FindPruneableHeaders(chain, Header(3, 20), Header(2, 10), 0, 10);
  }
}
