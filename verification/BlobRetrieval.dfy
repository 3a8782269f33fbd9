/**
 Retrieval of blobs from the shares of a namespace: the incremental parser of
 blob/parser.go and the row loop of blob/service.go, against a simple parse of the
 flattened shares.
 */
module BlobRetrieval {
  import opened Basics

  /** A share: whether it is padding, and how many shares the sequence starting at it takes. */
  datatype Share = Share(padding: bool, needed: nat, payload: nat)

  /** The namespace's shares of one row, the column of the first of them, and their proof. */
  datatype Row = Row(start: nat, shares: seq<Share>, proof: nat)

  datatype Blob = Blob(content: nat, index: int)

  datatype Outcome = Found(blob: Blob, proofs: seq<nat>) | NotFound | BadBlob

  // ---------------------------------------------------------------- specification

  /** A share with its position in the extended square and the number of its row among the given rows. */
  datatype Located = Located(share: Share, index: int, row: nat)

  /** The position of a row's first cell in the extended square. */
  function RowStart(row: int, width: nat): int { row * width }

  function LocateRow(row: Row, r: nat, first: int, width: nat): seq<Located> {
    seq(|row.shares|, i requires 0 <= i < |row.shares| => Located(row.shares[i], RowStart(first + r, width) + row.start + i, r))
  }

  /** All shares in order, located; `first` is the row of the square that rows[0] is. */
  function Flatten(rows: seq<Row>, first: int, width: nat): seq<Located> {
    if rows == [] then []
    else Flatten(rows[..|rows| - 1], first, width) + LocateRow(rows[|rows| - 1], |rows| - 1, first, width)
  }

  /** A row without shares proves absence and ends retrieval. */
  function UntilAbsence(rows: seq<Row>): seq<Row> {
    if rows == [] || rows[0].shares == [] then [] else [rows[0]] + UntilAbsence(rows[1..])
  }

  function SharesOf(flat: seq<Located>): seq<Share> {
    seq(|flat|, i requires 0 <= i < |flat| => flat[i].share)
  }

  datatype Span = Span(start: nat, length: nat)

  /** The simple parse: skip padding, then take as many shares as the first one says. */
  function Spans(flat: seq<Located>, k: nat): seq<Span>
    decreases |flat| - k
  {
    if k >= |flat| then []
    else if flat[k].share.padding then Spans(flat, k + 1)
    else var n := flat[k].share.needed;
      if n == 0 || k + n > |flat| then [] else [Span(k, n)] + Spans(flat, k + n)
  }

  function BlobAt(flat: seq<Located>, sp: Span, build: seq<Share> -> Option<nat>): Option<Blob>
    requires sp.start + sp.length <= |flat| && sp.length > 0
  {
    match build(SharesOf(flat[sp.start..sp.start + sp.length]))
    case None => None
    case Some(content) => Some(Blob(content, flat[sp.start].index))
  }

  function ProofsOf(rows: seq<Row>): seq<nat> {
    seq(|rows|, i requires 0 <= i < |rows| => rows[i].proof)
  }

  ghost predicate ValidFlat(flat: seq<Located>, rows: seq<Row>) {
    && (forall i :: 0 <= i < |flat| ==> flat[i].row < |rows|)
    && (forall i, j :: 0 <= i <= j < |flat| ==> flat[i].row <= flat[j].row)
  }

  ghost predicate InRange(sp: Span, flat: seq<Located>) {
    0 < sp.length && sp.start + sp.length <= |flat|
  }

  /** The blob was built from this span. */
  ghost predicate BuiltFrom(blob: Blob, sp: Span, flat: seq<Located>, build: seq<Share> -> Option<nat>) {
    InRange(sp, flat) && BlobAt(flat, sp, build) == Some(blob)
  }

  /** The proofs of exactly the rows the span's shares lie in. */
  function SpanProofs(sp: Span, flat: seq<Located>, rows: seq<Row>): seq<nat>
    requires InRange(sp, flat) && ValidFlat(flat, rows)
  {
    ProofsOf(rows[flat[sp.start].row..flat[sp.start + sp.length - 1].row + 1])
  }

  /**
   The answer retrieval has to give: blobs are tried in the order of the simple parse, from
   the first on; the answer is the first that satisfies `verify`, with its rows' proofs.
   */
  ghost predicate Answers(outcome: Outcome, tried: seq<Blob>, flat: seq<Located>, rows: seq<Row>,
                          build: seq<Share> -> Option<nat>, verify: Blob -> bool)
    requires ValidFlat(flat, rows)
  {
    var spans := Spans(flat, 0);
    && |tried| <= |spans|
    && (forall i :: 0 <= i < |tried| ==> BuiltFrom(tried[i], spans[i], flat, build))
    && (forall i :: 0 <= i < |tried| - 1 ==> !verify(tried[i]))
    && match outcome
       case Found(blob, proofs) =>
         && tried != [] && blob == tried[|tried| - 1] && verify(blob)
         && proofs == SpanProofs(spans[|tried| - 1], flat, rows)
       case NotFound =>
         |tried| == |spans| && (tried != [] ==> !verify(tried[|tried| - 1]))
       case BadBlob =>
         && |tried| < |spans| && (tried != [] ==> !verify(tried[|tried| - 1]))
         && InRange(spans[|tried|], flat) && BlobAt(flat, spans[|tried|], build).None?
  }

  // ---------------------------------------------------------------- parser.go

  function PaddingRun(shares: seq<Share>): (n: nat)
    ensures n <= |shares|
    ensures forall i :: 0 <= i < n ==> shares[i].padding
    ensures n < |shares| ==> !shares[n].padding
  {
    if shares == [] || !shares[0].padding then 0 else 1 + PaddingRun(shares[1..])
  }

  class Parser {
    var index: int
    var length: nat
    var shares: seq<Share>

    constructor ()
      ensures index == 0 && length == 0 && shares == []
    {
      index, length, shares := 0, 0, [];
    }

    predicate IsEmpty()
      reads this
    {
      index == 0 && length == 0 && |shares| == 0
    }

    method Reset()
      modifies this
      ensures IsEmpty()
    {
      index, length, shares := 0, 0, [];
    }

    method SkipPadding(shrs: seq<Share>) returns (rest: seq<Share>)
      modifies this`index
      ensures index == PaddingRun(shrs) && rest == shrs[PaddingRun(shrs)..]
    {
      var offset := 0;
      while offset < |shrs| && shrs[offset].padding
        invariant offset <= |shrs| && PaddingRun(shrs) == offset + PaddingRun(shrs[offset..])
      {
        assert shrs[offset..][1..] == shrs[offset + 1..];
        offset := offset + 1;
      }
      index := offset;
      rest := shrs[offset..];
    }

    /** Finds the first share of the next blob; fails when there is none. */
    method Set(at: int, shrs: seq<Share>) returns (rest: seq<Share>, ok: bool)
      modifies this`index, this`length
      ensures ok <==> PaddingRun(shrs) < |shrs|
      ensures ok ==> rest == shrs[PaddingRun(shrs)..] && index == at + PaddingRun(shrs) && length == rest[0].needed
    {
      if |shrs| == 0 {
        return [], false;
      }
      rest := SkipPadding(shrs);
      if |rest| == 0 {
        return [], false;
      }
      index := index + at;
      length := rest[0].needed;
      ok := true;
    }

    /** Collects shares until the blob is complete and gives back the others. */
    method AddShares(shrs: seq<Share>) returns (rest: seq<Share>, complete: bool)
      modifies this`shares
      ensures complete <==> |old(shares)| < length <= |old(shares)| + |shrs|
      ensures complete ==> shares == old(shares) + shrs[..length - |old(shares)|] && rest == shrs[length - |old(shares)|..]
      ensures !complete ==> shares == old(shares) + shrs && rest == []
    {
      for i := 0 to |shrs|
        invariant shares == old(shares) + shrs[..i]
        invariant !(|old(shares)| < length <= |old(shares)| + i)
      {
        shares := shares + [shrs[i]];
        if |shares| == length {
          return shrs[i + 1..], true;
        }
      }
      return [], false;
    }

    method Parse(build: seq<Share> -> Option<nat>) returns (blob: Option<Blob>)
      ensures blob == if length != |shares| || build(shares).None? then None else Some(Blob(build(shares).value, index))
    {
      if length != |shares| {
        return None;
      }
      match build(shares)
      case None => blob := None;
      case Some(content) => blob := Some(Blob(content, index));
    }
  }

  // ---------------------------------------------------------------- facts about flattened rows

  lemma {:induction false} UntilAbsenceShape(rows: seq<Row>)
    ensures var u := UntilAbsence(rows);
      && |u| <= |rows| && u == rows[..|u|]
      && (forall i :: 0 <= i < |u| ==> u[i].shares != [])
      && (|u| < |rows| ==> rows[|u|].shares == [])
  {
    if rows != [] && rows[0].shares != [] { UntilAbsenceShape(rows[1..]); }
  }

  /** Where row `r` begins in the flattened shares. */
  function Offset(rows: seq<Row>, r: nat): nat
    requires r <= |rows|
  {
    if r == 0 then 0 else Offset(rows, r - 1) + |rows[r - 1].shares|
  }

  lemma {:induction false} OffsetPrefix(rows: seq<Row>, m: nat, r: nat)
    requires r <= m <= |rows|
    ensures Offset(rows[..m], r) == Offset(rows, r)
  {
    if r > 0 { OffsetPrefix(rows, m, r - 1); }
  }

  lemma {:induction false} FlattenLength(rows: seq<Row>, first: int, width: nat)
    ensures |Flatten(rows, first, width)| == Offset(rows, |rows|)
  {
    if rows != [] {
      var m := |rows| - 1;
      FlattenLength(rows[..m], first, width);
      OffsetPrefix(rows, m, m);
    }
  }

  lemma {:induction false} FlattenAt(rows: seq<Row>, first: int, width: nat, r: nat, c: nat)
    requires r < |rows| && c < |rows[r].shares|
    ensures var flat := Flatten(rows, first, width);
      && Offset(rows, r) + c < |flat|
      && flat[Offset(rows, r) + c] == Located(rows[r].shares[c], RowStart(first + r, width) + rows[r].start + c, r)
  {
    var m := |rows| - 1;
    FlattenLength(rows[..m], first, width);
    OffsetPrefix(rows, m, m);
    if r < m {
      FlattenAt(rows[..m], first, width, r, c);
      OffsetPrefix(rows, m, r);
    }
  }

  lemma {:induction false} FlattenValid(rows: seq<Row>, first: int, width: nat)
    ensures ValidFlat(Flatten(rows, first, width), rows)
  {
    if rows != [] {
      var m := |rows| - 1;
      FlattenValid(rows[..m], first, width);
    }
  }

  lemma {:induction false} RowWithin(rows: seq<Row>, first: int, width: nat, r: nat)
    requires r < |rows|
    ensures Offset(rows, r) + |rows[r].shares| <= |Flatten(rows, first, width)|
  {
    FlattenLength(rows, first, width);
    OffsetMonotone(rows, r + 1, |rows|);
    assert Offset(rows, r + 1) == Offset(rows, r) + |rows[r].shares|;
  }

  lemma {:induction false} OffsetMonotone(rows: seq<Row>, r: nat, m: nat)
    requires r <= m <= |rows|
    ensures Offset(rows, r) <= Offset(rows, m)
  {
    if r < m { OffsetMonotone(rows, r, m - 1); }
  }

  lemma {:induction false} SharesOfConcat(flat: seq<Located>, a: nat, b: nat, c: nat)
    requires a <= b <= c <= |flat|
    ensures SharesOf(flat[a..c]) == SharesOf(flat[a..b]) + SharesOf(flat[b..c])
  {
  }

  lemma {:induction false} SpansSkip(flat: seq<Located>, k: nat, m: nat)
    requires k + m <= |flat| && forall i :: k <= i < k + m ==> flat[i].share.padding
    ensures Spans(flat, k) == Spans(flat, k + m)
    decreases m
  {
    if m > 0 { SpansSkip(flat, k + 1, m - 1); }
  }

  // ---------------------------------------------------------------- service.go

  /** The parser has opened the blob starting at `k` and has read its shares up to `q`, not enough of them yet. */
  ghost predicate Opened(p: Parser, flat: seq<Located>, k: nat, q: nat)
    reads p
  {
    && k <= q <= |flat| && k < |flat|
    && !flat[k].share.padding
    && p.index == flat[k].index
    && p.length == flat[k].share.needed
    && p.shares == SharesOf(flat[k..q])
    && !(0 < p.length <= q - k)
  }

  lemma ProofsOfSnoc(rows: seq<Row>, a: nat, r: nat)
    requires a <= r < |rows|
    ensures ProofsOf(rows[a..r]) + [rows[r].proof] == ProofsOf(rows[a..r + 1])
  {
  }

  /** Row `r` with its shares lies at `o` in the flattened shares, and its first share is at position `base` of the square. */
  ghost predicate RowAt(flat: seq<Located>, row: Row, o: nat, r: nat, base: int) {
    && o + |row.shares| <= |flat|
    && forall i :: 0 <= i < |row.shares| ==> flat[o + i] == Located(row.shares[i], base + i, r)
  }

  lemma FlattenRowAt(rows: seq<Row>, first: int, width: nat, r: nat)
    requires r < |rows|
    ensures RowAt(Flatten(rows, first, width), rows[r], Offset(rows, r), r, RowStart(first + r, width) + rows[r].start)
  {
    RowWithin(rows, first, width, r);
    forall i | 0 <= i < |rows[r].shares|
      ensures Flatten(rows, first, width)[Offset(rows, r) + i] ==
              Located(rows[r].shares[i], RowStart(first + r, width) + rows[r].start + i, r)
    {
      FlattenAt(rows, first, width, r, i);
    }
  }

  /** Skipping the padding in front of the next blob, at column `c` of the row. */
  lemma SkipInRow(flat: seq<Located>, row: Row, o: nat, r: nat, base: int, c: nat)
    requires RowAt(flat, row, o, r, base) && c <= |row.shares|
    ensures Spans(flat, o + c) == Spans(flat, o + c + PaddingRun(row.shares[c..]))
  {
    var m := PaddingRun(row.shares[c..]);
    forall i | o + c <= i < o + c + m ensures flat[i].share.padding {
      assert row.shares[c..][i - o - c].padding;
      assert flat[o + (i - o)].share == row.shares[i - o];
    }
    SpansSkip(flat, o + c, m);
  }

  /** Reading the row from column `c` to `d` continues what was read of the blob at `k`. */
  lemma ReadInRow(flat: seq<Located>, row: Row, o: nat, r: nat, base: int, c: nat, d: nat, k: nat)
    requires RowAt(flat, row, o, r, base) && c <= d <= |row.shares| && k <= o + c
    ensures SharesOf(flat[k..o + c]) + row.shares[c..d] == SharesOf(flat[k..o + d])
  {
    assert SharesOf(flat[o + c..o + d]) == row.shares[c..d] by {
      forall i | 0 <= i < d - c ensures SharesOf(flat[o + c..o + d])[i] == row.shares[c..d][i] {
        assert flat[o + (c + i)].share == row.shares[c + i];
      }
    }
    SharesOfConcat(flat, k, o + c, o + d);
  }

  /** The unfinished blob at `k`, with the shares read up to `q` and the row proofs it has touched. */
  ghost predicate Pending(p: Parser, proofs: seq<nat>, rows: seq<Row>, flat: seq<Located>, k: nat, q: nat, r: nat)
    requires ValidFlat(flat, rows)
    reads p
  {
    && k <= q <= |flat| && r < |rows|
    && (if k == q then p.IsEmpty() else Opened(p, flat, k, q))
    && (k < q ==> flat[k].row <= r)
    && proofs == ProofsOf(rows[if k < q then flat[k].row else r..r + 1])
  }

  /** Feeding the rest of the row to a parser that has a blob open. */
  method FeedRow(p: Parser, appShares: seq<Share>, build: seq<Share> -> Option<nat>,
                 ghost flat: seq<Located>, ghost row: Row, ghost o: nat, ghost r: nat, ghost base: int, ghost c: nat, ghost k: nat)
    returns (rest: seq<Share>, complete: bool, blob: Option<Blob>)
    requires RowAt(flat, row, o, r, base) && c <= |row.shares| && appShares == row.shares[c..]
    requires Opened(p, flat, k, o + c)
    modifies p`shares
    ensures complete <==> 0 < p.length && k + p.length <= o + |row.shares|
    ensures complete ==> k + p.length > o + c && rest == row.shares[k + p.length - o..]
    ensures complete ==> flat[k + p.length - 1].row == r
    ensures complete ==> p.length <= |flat| - k && blob == BlobAt(flat, Span(k, p.length), build)
    ensures !complete ==> p.shares == SharesOf(flat[k..o + |row.shares|])
  {
    ghost var had := |p.shares|;
    blob := None;
    rest, complete := p.AddShares(appShares);
    if complete {
      ghost var d := c + (p.length - had);
      ReadInRow(flat, row, o, r, base, c, d, k);
      assert appShares[..p.length - had] == row.shares[c..d];
      assert p.shares == SharesOf(flat[k..k + p.length]);
      assert flat[o + (d - 1)] == Located(row.shares[d - 1], base + (d - 1), r);
      blob := p.Parse(build);
    } else {
      ReadInRow(flat, row, o, r, base, c, |row.shares|, k);
    }
  }

  /** The blobs tried so far were all refused, and the simple parse has the shares from `k` on left. */
  ghost predicate Remains(flat: seq<Located>, build: seq<Share> -> Option<nat>, verify: Blob -> bool, k: nat, tried: seq<Blob>) {
    var spans := Spans(flat, 0);
    && |tried| <= |spans|
    && spans[|tried|..] == Spans(flat, k)
    && forall i :: 0 <= i < |tried| ==> BuiltFrom(tried[i], spans[i], flat, build) && !verify(tried[i])
  }

  lemma RemainsSkips(flat: seq<Located>, row: Row, o: nat, r: nat, base: int, c: nat,
                     build: seq<Share> -> Option<nat>, verify: Blob -> bool, tried: seq<Blob>)
    requires RowAt(flat, row, o, r, base) && c <= |row.shares|
    requires Remains(flat, build, verify, o + c, tried)
    ensures Remains(flat, build, verify, o + c + PaddingRun(row.shares[c..]), tried)
  {
    SkipInRow(flat, row, o, r, base, c);
  }

  lemma NextSpan(flat: seq<Located>, build: seq<Share> -> Option<nat>, verify: Blob -> bool, k: nat, n: nat, tried: seq<Blob>)
    requires Remains(flat, build, verify, k, tried)
    requires k < |flat| && !flat[k].share.padding && n == flat[k].share.needed && 0 < n && k + n <= |flat|
    ensures var spans := Spans(flat, 0);
      |tried| < |spans| && spans[|tried|] == Span(k, n) && spans[|tried| + 1..] == Spans(flat, k + n)
  {
    var spans := Spans(flat, 0);
    assert spans[|tried|..] == [Span(k, n)] + Spans(flat, k + n);
    assert spans[|tried|] == spans[|tried|..][0];
    assert spans[|tried| + 1..] == spans[|tried|..][1..];
  }

  lemma BlobAnswers(outcome: Outcome, blob: Blob, flat: seq<Located>, rows: seq<Row>, build: seq<Share> -> Option<nat>, verify: Blob -> bool,
                    k: nat, n: nat, tried: seq<Blob>)
    requires ValidFlat(flat, rows) && Remains(flat, build, verify, k, tried)
    requires k < |flat| && !flat[k].share.padding && n == flat[k].share.needed && 0 < n && k + n <= |flat|
    requires BlobAt(flat, Span(k, n), build) == Some(blob) && verify(blob)
    requires outcome == Found(blob, SpanProofs(Span(k, n), flat, rows))
    ensures Answers(outcome, tried + [blob], flat, rows, build, verify)
  {
    NextSpan(flat, build, verify, k, n, tried);
  }

  lemma BlobRefused(blob: Blob, flat: seq<Located>, build: seq<Share> -> Option<nat>, verify: Blob -> bool,
                    k: nat, n: nat, tried: seq<Blob>)
    requires Remains(flat, build, verify, k, tried)
    requires k < |flat| && !flat[k].share.padding && n == flat[k].share.needed && 0 < n && k + n <= |flat|
    requires BlobAt(flat, Span(k, n), build) == Some(blob) && !verify(blob)
    ensures Remains(flat, build, verify, k + n, tried + [blob])
  {
    NextSpan(flat, build, verify, k, n, tried);
  }

  /** What is done with a completed blob: hand it out if it is the wanted one, else forget it and trim the proofs. */
  method TryBlob(p: Parser, blob: Option<Blob>, verify: Blob -> bool, spanning: bool, kept: seq<nat>, before: seq<Blob>,
                 ghost build: seq<Share> -> Option<nat>, ghost rows: seq<Row>, ghost flat: seq<Located>,
                 ghost k: nat, ghost n: nat, ghost r: nat)
    returns (outcome: Option<Outcome>, proofs: seq<nat>, tried: seq<Blob>)
    requires ValidFlat(flat, rows) && k < |flat| && !flat[k].share.padding && n == flat[k].share.needed
    requires 0 < n && k + n <= |flat| && blob == BlobAt(flat, Span(k, n), build)
    requires flat[k + n - 1].row == r && (!spanning ==> flat[k].row == r)
    requires kept == ProofsOf(rows[flat[k].row..r + 1])
    requires Remains(flat, build, verify, k, before)
    modifies p
    ensures outcome.Some? ==> Answers(outcome.value, tried, flat, rows, build, verify)
    ensures outcome.None? ==>
      Remains(flat, build, verify, k + n, tried) && p.IsEmpty() && proofs == ProofsOf(rows[r..r + 1])
  {
    proofs, tried := kept, before;
    if blob.None? {
      NextSpan(flat, build, verify, k, n, before);
      return Some(BadBlob), proofs, tried;
    }
    tried := tried + [blob.value];
    if verify(blob.value) {
      BlobAnswers(Found(blob.value, proofs), blob.value, flat, rows, build, verify, k, n, before);
      return Some(Found(blob.value, proofs)), proofs, tried;
    }
    BlobRefused(blob.value, flat, build, verify, k, n, before);
    outcome := None;
    p.Reset();
    if spanning {
      proofs := proofs[|proofs| - 1..];
    }
  }

  /** How one turn of the inner loop ends. */
  datatype Turn = Answered(outcome: Outcome) | RowRead | Refused(rest: seq<Share>)

  /** What a turn on the row at `o` that began with `had` unread shares leaves behind. */
  ghost predicate TurnOk(t: Turn, p: Parser, proofs: seq<nat>, tried: seq<Blob>, k: nat, had: nat, row: Row, o: nat, r: nat,
                         rows: seq<Row>, flat: seq<Located>, build: seq<Share> -> Option<nat>, verify: Blob -> bool)
    requires ValidFlat(flat, rows)
    reads p
  {
    match t
    case Answered(outcome) => Answers(outcome, tried, flat, rows, build, verify)
    case RowRead => Remains(flat, build, verify, k, tried) && Pending(p, proofs, rows, flat, k, o + |row.shares|, r)
    case Refused(rest) =>
      && Remains(flat, build, verify, k, tried)
      && |rest| < had <= |row.shares| && rest == row.shares[|row.shares| - |rest|..]
      && k == o + (|row.shares| - |rest|)
      && p.IsEmpty() && r < |rows| && proofs == ProofsOf(rows[r..r + 1])
  }

  /** A blob is open at `k`: feed it, and try it once it is complete. */
  method Feed(p: Parser, row: Row, build: seq<Share> -> Option<nat>, verify: Blob -> bool, spanning: bool,
              appShares: seq<Share>, kept: seq<nat>, before: seq<Blob>, ghost rows: seq<Row>, ghost flat: seq<Located>,
              ghost o: nat, ghost r: nat, ghost base: int, ghost c: nat, ghost k0: nat)
    returns (t: Turn, proofs: seq<nat>, tried: seq<Blob>, ghost k: nat)
    requires ValidFlat(flat, rows) && RowAt(flat, row, o, r, base) && r < |rows|
    requires c < |row.shares| && appShares == row.shares[c..]
    requires Opened(p, flat, k0, o + c) && flat[k0].row <= r && (!spanning ==> flat[k0].row == r)
    requires kept == ProofsOf(rows[flat[k0].row..r + 1])
    requires Remains(flat, build, verify, k0, before)
    modifies p
    ensures TurnOk(t, p, proofs, tried, k, |appShares|, row, o, r, rows, flat, build, verify)
  {
    proofs, tried, k := kept, before, k0;
    var rest, complete, blob := FeedRow(p, appShares, build, flat, row, o, r, base, c, k0);
    if !complete {
      return RowRead, proofs, tried, k;
    }
    ghost var n := p.length;
    var outcome;
    outcome, proofs, tried := TryBlob(p, blob, verify, spanning, kept, before, build, rows, flat, k0, n, r);
    k := k0 + n;
    t := if outcome.Some? then Answered(outcome.value) else Refused(rest);
  }

  /** Opening the next blob of the row, or finding only padding. */
  method OpenBlob(p: Parser, at: int, appShares: seq<Share>,
                  ghost flat: seq<Located>, ghost row: Row, ghost o: nat, ghost r: nat, ghost base: int, ghost c: nat)
    returns (rest: seq<Share>, ok: bool, ghost d: nat)
    requires RowAt(flat, row, o, r, base) && c <= |row.shares| && appShares == row.shares[c..] && at == base + c
    requires p.IsEmpty()
    modifies p
    ensures d == c + PaddingRun(row.shares[c..]) <= |row.shares| && (ok <==> d < |row.shares|)
    ensures !ok ==> p.IsEmpty()
    ensures ok ==> rest == row.shares[d..] && Opened(p, flat, o + d, o + d) && flat[o + d].row == r
  {
    rest, ok := p.Set(at, appShares);
    d := c + PaddingRun(appShares);
    if !ok {
      p.Reset();
    } else {
      assert flat[o + d] == Located(row.shares[d], base + d, r);
    }
  }

  /** A turn of the inner loop that finds the parser empty at column `c`. */
  method OpenAndFeed(p: Parser, row: Row, at: int, build: seq<Share> -> Option<nat>, verify: Blob -> bool,
                     appShares: seq<Share>, kept: seq<nat>, before: seq<Blob>, ghost rows: seq<Row>, ghost flat: seq<Located>,
                     ghost o: nat, ghost r: nat, ghost base: int, ghost c: nat)
    returns (t: Turn, proofs: seq<nat>, tried: seq<Blob>, ghost k: nat)
    requires ValidFlat(flat, rows) && RowAt(flat, row, o, r, base) && r < |rows|
    requires c <= |row.shares| && appShares == row.shares[c..] && at == base + c
    requires p.IsEmpty() && kept == ProofsOf(rows[r..r + 1])
    requires Remains(flat, build, verify, o + c, before)
    modifies p
    ensures TurnOk(t, p, proofs, tried, k, |appShares|, row, o, r, rows, flat, build, verify)
  {
    RemainsSkips(flat, row, o, r, base, c, build, verify, before);
    var rest, ok, d := OpenBlob(p, at, appShares, flat, row, o, r, base, c);
    if !ok {
      return RowRead, kept, before, o + d;
    }
    t, proofs, tried, k := Feed(p, row, build, verify, false, rest, kept, before, rows, flat, o, r, base, d, o + d);
  }

  /** The inner loop behind a refused blob; the parser is empty at the start of every turn. */
  method ScanRest(p: Parser, row: Row, rowAt: int, build: seq<Share> -> Option<nat>, verify: Blob -> bool,
                  t0: Turn, kept: seq<nat>, before: seq<Blob>,
                  ghost rows: seq<Row>, ghost flat: seq<Located>, ghost o: nat, ghost r: nat, ghost k0: nat)
    returns (t: Turn, proofs: seq<nat>, tried: seq<Blob>, ghost k: nat)
    requires ValidFlat(flat, rows) && RowAt(flat, row, o, r, rowAt + row.start)
    requires TurnOk(t0, p, kept, before, k0, |row.shares|, row, o, r, rows, flat, build, verify)
    modifies p
    ensures !t.Refused?
    ensures TurnOk(t, p, proofs, tried, k, |row.shares|, row, o, r, rows, flat, build, verify)
    decreases t0.Refused?, if t0.Refused? then |t0.rest| else 0
  {
    t, proofs, tried, k := t0, kept, before, k0;
    while t.Refused?
      invariant TurnOk(t, p, proofs, tried, k, |row.shares|, row, o, r, rows, flat, build, verify)
      decreases t.Refused?, if t.Refused? then |t.rest| else 0
    {
      var c := |row.shares| - |t.rest|;
      ghost var had := |t.rest|;
      t, proofs, tried, k := OpenAndFeed(p, row, rowAt + row.start + c, build, verify, t.rest, proofs, tried,
                                         rows, flat, o, r, rowAt + row.start, c);
    }
  }

  /** One row: every blob that ends in it is built and tried; an unfinished one stays in the parser. */
  method ScanRow(p: Parser, row: Row, rowAt: int, build: seq<Share> -> Option<nat>, verify: Blob -> bool,
                 kept: seq<nat>, before: seq<Blob>,
                 ghost rows: seq<Row>, ghost flat: seq<Located>, ghost o: nat, ghost r: nat, ghost k0: nat)
    returns (t: Turn, proofs: seq<nat>, tried: seq<Blob>, ghost k: nat)
    requires ValidFlat(flat, rows) && RowAt(flat, row, o, r, rowAt + row.start) && |row.shares| > 0
    requires Pending(p, kept, rows, flat, k0, o, r)
    requires Remains(flat, build, verify, k0, before)
    modifies p
    ensures !t.Refused?
    ensures TurnOk(t, p, proofs, tried, k, |row.shares|, row, o, r, rows, flat, build, verify)
  {
    ghost var base := rowAt + row.start;
    if p.IsEmpty() {
      t, proofs, tried, k := OpenAndFeed(p, row, rowAt + row.start, build, verify, row.shares, kept, before,
                                         rows, flat, o, r, base, 0);
    } else {
      // the blob left open by the rows before; only it can span rows
      t, proofs, tried, k := Feed(p, row, build, verify, true, row.shares, kept, before, rows, flat, o, r, base, 0, k0);
    }
    t, proofs, tried, k := ScanRest(p, row, rowAt, build, verify, t, proofs, tried, rows, flat, o, r, k);
  }

  /** The first row of the square whose namespace range may hold the namespace, or -1. */
  method FirstRow(outside: seq<bool>) returns (i: int)
    ensures i == -1 ==> forall k :: 0 <= k < |outside| ==> outside[k]
    ensures i != -1 ==> 0 <= i < |outside| && !outside[i] && forall k :: 0 <= k < i ==> outside[k]
  {
    for k := 0 to |outside|
      invariant forall j :: 0 <= j < k ==> outside[j]
    {
      if !outside[k] {
        return k;
      }
    }
    return -1;
  }

  /** At the end of the rows nothing complete is left. */
  lemma EndAnswers(p: Parser, proofs: seq<nat>, flat: seq<Located>, rows: seq<Row>, build: seq<Share> -> Option<nat>,
                   verify: Blob -> bool, k: nat, tried: seq<Blob>)
    requires ValidFlat(flat, rows) && Remains(flat, build, verify, k, tried)
    requires k == |flat| || Opened(p, flat, k, |flat|)
    ensures Answers(NotFound, tried, flat, rows, build, verify)
  {
    assert Spans(flat, k) == [];
  }

  ghost predicate IsFirstRow(first: int, outside: seq<bool>) {
    if first == -1 then forall k :: 0 <= k < |outside| ==> outside[k]
    else 0 <= first < |outside| && !outside[first] && forall k :: 0 <= k < first ==> outside[k]
  }

  /** Between rows: an open blob keeps the proofs of the rows it has touched, otherwise there are none. */
  ghost predicate Between(p: Parser, proofs: seq<nat>, rows: seq<Row>, flat: seq<Located>, k: nat, q: nat, r: nat)
    requires ValidFlat(flat, rows)
    reads p
  {
    && k <= q <= |flat| && r <= |rows|
    && (if k == q then p.IsEmpty() && proofs == []
        else Opened(p, flat, k, q) && flat[k].row < r && proofs == ProofsOf(rows[flat[k].row..r]))
  }

  lemma EnterRow(p: Parser, proofs: seq<nat>, rows: seq<Row>, flat: seq<Located>, k: nat, q: nat, r: nat)
    requires ValidFlat(flat, rows) && Between(p, proofs, rows, flat, k, q, r) && r < |rows|
    ensures Pending(p, proofs + [rows[r].proof], rows, flat, k, q, r)
  {
    if k < q { ProofsOfSnoc(rows, flat[k].row, r); }
  }

  /** The body of the row loop, on row `r` of the rows before the first absence. */
  method NextRow(p: Parser, row: Row, rowIndex: int, width: nat, build: seq<Share> -> Option<nat>, verify: Blob -> bool,
                 kept: seq<nat>, before: seq<Blob>, ghost rows: seq<Row>, ghost flat: seq<Located>, ghost r: nat, ghost k0: nat)
    returns (outcome: Option<Outcome>, proofs: seq<nat>, tried: seq<Blob>, ghost k: nat)
    requires flat == Flatten(rows, rowIndex - r, width) && ValidFlat(flat, rows)
    requires r < |rows| && rows[r] == row && |row.shares| > 0
    requires Between(p, kept, rows, flat, k0, Offset(rows, r), r)
    requires Remains(flat, build, verify, k0, before)
    modifies p
    ensures outcome.Some? ==> Answers(outcome.value, tried, flat, rows, build, verify)
    ensures outcome.None? ==>
      Remains(flat, build, verify, k, tried) && Between(p, proofs, rows, flat, k, Offset(rows, r + 1), r + 1)
  {
    ghost var o := Offset(rows, r);
    FlattenRowAt(rows, rowIndex - r, width, r);
    EnterRow(p, kept, rows, flat, k0, o, r);
    var t;
    t, proofs, tried, k := ScanRow(p, row, RowStart(rowIndex, width), build, verify, kept + [row.proof], before, rows, flat, o, r, k0);
    if t.Answered? {
      return Some(t.outcome), proofs, tried, k;
    }
    outcome := None;
    if p.IsEmpty() {
      proofs := [];
    }
  }

  /** The row loop, up to the first row without shares. */
  method RetrieveRows(rows: seq<Row>, first: int, width: nat, build: seq<Share> -> Option<nat>, verify: Blob -> bool,
                      ghost live: seq<Row>, ghost flat: seq<Located>)
    returns (outcome: Outcome, tried: seq<Blob>)
    requires flat == Flatten(live, first, width) && ValidFlat(flat, live) && |flat| == Offset(live, |live|)
    requires |live| <= |rows| && live == rows[..|live|] && (|live| < |rows| ==> rows[|live|].shares == [])
    requires forall i :: 0 <= i < |live| ==> live[i].shares != []
    ensures Answers(outcome, tried, flat, live, build, verify)
  {
    var rowIndex := first;
    var p := new Parser();
    var proofs: seq<nat> := [];
    tried := [];
    ghost var k: nat := 0;
    var r := 0;
    while r < |rows| && |rows[r].shares| != 0
      invariant r <= |live| && rowIndex == first + r
      invariant Between(p, proofs, live, flat, k, Offset(live, r), r)
      invariant Remains(flat, build, verify, k, tried)
    {
      assert rows[r] == live[r];
      var found;
      found, proofs, tried, k := NextRow(p, rows[r], rowIndex, width, build, verify, proofs, tried, live, flat, r, k);
      if found.Some? {
        return found.value, tried;
      }
      rowIndex := rowIndex + 1;
      r := r + 1;
    }
    assert r == |live|;
    assert Offset(live, r) == |flat|;
    EndAnswers(p, proofs, flat, live, build, verify, k, tried);
    return NotFound, tried;
  }

  /**
   Retrieval over the rows of a namespace: the answer is the one of the simple parse of the
   flattened shares, wherever the rows cut blobs and padding.
   */
  method Retrieve(outside: seq<bool>, rows: seq<Row>, build: seq<Share> -> Option<nat>, verify: Blob -> bool)
    returns (outcome: Outcome, tried: seq<Blob>, first: int)
    ensures IsFirstRow(first, outside)
    ensures var live := UntilAbsence(rows); var flat := Flatten(live, first, |outside|);
      ValidFlat(flat, live) && Answers(outcome, tried, flat, live, build, verify)
  {
    first := FirstRow(outside);
    ghost var live := UntilAbsence(rows);
    UntilAbsenceShape(rows);
    FlattenValid(live, first, |outside|);
    FlattenLength(live, first, |outside|);
    outcome, tried := RetrieveRows(rows, first, |outside|, build, verify, live, Flatten(live, first, |outside|));
  }

  /** All blobs of the namespace, in order; `None` when one of them cannot be built. */
  method GetBlobs(outside: seq<bool>, rows: seq<Row>, build: seq<Share> -> Option<nat>)
    returns (blobs: Option<seq<Blob>>, first: int)
    ensures IsFirstRow(first, outside)
    ensures var flat := Flatten(UntilAbsence(rows), first, |outside|); var spans := Spans(flat, 0);
      match blobs
      case Some(bs) => |bs| == |spans| && forall i :: 0 <= i < |bs| ==> BuiltFrom(bs[i], spans[i], flat, build)
      case None => exists sp :: sp in spans && InRange(sp, flat) && BlobAt(flat, sp, build).None?
  {
    var outcome, tried;
    outcome, tried, first := Retrieve(outside, rows, build, (b: Blob) => false);
    match outcome
    case BadBlob => blobs := None;
    case NotFound => blobs := Some(tried);
    case Found(_, _) => assert false;
  }

  // ---------------------------------------------------------------- layouts

  /** A namespace as it is laid out: runs of padding, and blobs that each take as many shares as their first one says. */
  datatype Segment = Padding(shares: seq<Share>) | Content(shares: seq<Share>)

  ghost predicate ValidSegment(sg: Segment) {
    match sg
    case Padding(shares) => forall i :: 0 <= i < |shares| ==> shares[i].padding
    case Content(shares) => shares != [] && !shares[0].padding && shares[0].needed == |shares|
  }

  ghost predicate ValidLayout(ls: seq<Segment>) {
    forall i :: 0 <= i < |ls| ==> ValidSegment(ls[i])
  }

  function LayoutShares(ls: seq<Segment>): seq<Share> {
    if ls == [] then [] else ls[0].shares + LayoutShares(ls[1..])
  }

  function SegmentSpans(sg: Segment, off: nat): seq<Span> {
    if sg.Content? then [Span(off, |sg.shares|)] else []
  }

  /** The contents of the layout, as spans counted from `off`. */
  function LayoutSpans(ls: seq<Segment>, off: nat): seq<Span> {
    if ls == [] then []
    else SegmentSpans(ls[0], off) + LayoutSpans(ls[1..], off + |ls[0].shares|)
  }

  lemma SegmentAt(flat: seq<Located>, k: nat, a: seq<Share>, b: seq<Share>)
    requires k <= |flat| && SharesOf(flat)[k..] == a + b
    ensures k + |a| <= |flat| && SharesOf(flat)[k + |a|..] == b
    ensures forall i :: k <= i < k + |a| ==> flat[i].share == a[i - k]
  {
    var all := SharesOf(flat);
    assert |all| - k == |a| + |b|;
    forall i | k <= i < k + |a| ensures flat[i].share == a[i - k] {
      assert all[k..][i - k] == (a + b)[i - k];
    }
    assert all[k + |a|..] == all[k..][|a|..];
  }

  lemma SegmentParses(sg: Segment, flat: seq<Located>, k: nat)
    requires ValidSegment(sg) && k + |sg.shares| <= |flat|
    requires forall i :: k <= i < k + |sg.shares| ==> flat[i].share == sg.shares[i - k]
    ensures Spans(flat, k) == SegmentSpans(sg, k) + Spans(flat, k + |sg.shares|)
  {
    if sg.Padding? {
      SpansSkip(flat, k, |sg.shares|);
    }
  }

  lemma LayoutSpansFrom(ls: seq<Segment>, k: nat, all: seq<Span>, rest: seq<Span>)
    requires ls != [] && all == SegmentSpans(ls[0], k) + rest && rest == LayoutSpans(ls[1..], k + |ls[0].shares|)
    ensures all == LayoutSpans(ls, k)
  {
  }

  lemma {:induction false} LayoutParsesFrom(ls: seq<Segment>, flat: seq<Located>, k: nat)
    requires ValidLayout(ls) && k <= |flat| && SharesOf(flat)[k..] == LayoutShares(ls)
    ensures Spans(flat, k) == LayoutSpans(ls, k)
  {
    if ls != [] {
      var sg := ls[0];
      SegmentAt(flat, k, sg.shares, LayoutShares(ls[1..]));
      SegmentParses(sg, flat, k);
      LayoutParsesFrom(ls[1..], flat, k + |sg.shares|);
      LayoutSpansFrom(ls, k, Spans(flat, k), Spans(flat, k + |sg.shares|));
    }
  }

  function RowShares(rows: seq<Row>): seq<Share> {
    if rows == [] then [] else RowShares(rows[..|rows| - 1]) + rows[|rows| - 1].shares
  }

  lemma {:induction false} FlattenShares(rows: seq<Row>, first: int, width: nat)
    ensures SharesOf(Flatten(rows, first, width)) == RowShares(rows)
  {
    if rows != [] {
      var m := |rows| - 1;
      FlattenShares(rows[..m], first, width);
      var a, b := Flatten(rows[..m], first, width), LocateRow(rows[m], m, first, width);
      assert SharesOf(a + b) == SharesOf(a) + SharesOf(b);
      assert SharesOf(b) == rows[m].shares;
    }
  }

  /** However a layout is cut into rows, the simple parse of the rows finds exactly its contents. */
  lemma LayoutCutAnywhere(ls: seq<Segment>, rows: seq<Row>, first: int, width: nat)
    requires ValidLayout(ls) && RowShares(rows) == LayoutShares(ls)
    ensures Spans(Flatten(rows, first, width), 0) == LayoutSpans(ls, 0)
  {
    var flat := Flatten(rows, first, width);
    FlattenShares(rows, first, width);
    assert SharesOf(flat)[0..] == SharesOf(flat);
    LayoutParsesFrom(ls, flat, 0);
  }
}
