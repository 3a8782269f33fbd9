/**
 The cache of axes and proofs in front of a data square (share/eds/proofs_cache.go). Erasure
 coding, Merkle trees and proofs are functions of the data about which nothing is assumed.
 */
module ProofsCache {
  import opened Basics

  type Share = int
  type Tree = int
  type Proof = int
  type Namespace = int
  type NamespaceData = int

  datatype Axis = Row | Col

  /** Half of the shares of an axis, from which the others can be computed. */
  datatype Half = Half(shares: seq<Share>, parity: bool)

  datatype Sample = Proven(share: Share, proof: Proof, proofType: Axis)

  /** What libraries compute: any of it may fail. */
  datatype Library = Library(
    extend: Half -> Option<seq<Share>>,
    build: (nat, seq<Share>) -> Option<Tree>,
    prove: (Tree, nat) -> Option<Proof>,
    byNamespace: (Tree, Namespace) -> Option<NamespaceData>)

  /** The accessor behind the cache; its answers may differ and fail from one attempt to the next. */
  datatype Inner = Inner(
    size: nat -> Option<nat>,
    axisHalf: (nat, Axis, nat) -> Option<Half>,
    sample: (nat, nat, nat) -> Option<Sample>,
    rowNamespaceData: (nat, Namespace, nat) -> Option<NamespaceData>)

  /** The extended square: `line` gives the shares of an axis, `width` of them. */
  datatype Square = Square(width: nat, line: (Axis, nat) -> seq<Share>)

  // ---------------------------------------------------------------- right answers

  /** A half of the right axis, be it the data or the parity half. */
  ghost predicate HalfOf(lib: Library, sq: Square, axis: Axis, i: nat, h: Half) {
    lib.extend(h) == Some(sq.line(axis, i))
  }

  function ProofOf(lib: Library, sq: Square, axis: Axis, i: nat, j: nat): Option<Proof> {
    match lib.build(i, sq.line(axis, i))
    case None => None
    case Some(tree) => lib.prove(tree, j)
  }

  /** The share at the coordinates, proved against its row or its column. */
  ghost predicate SampleOf(lib: Library, sq: Square, row: nat, col: nat, s: Sample)
    requires forall axis, i :: |sq.line(axis, i)| == sq.width
    requires row < sq.width && col < sq.width
  {
    match s.proofType
    case Row => s.share == sq.line(Row, row)[col] && Some(s.proof) == ProofOf(lib, sq, Row, row, col)
    case Col => s.share == sq.line(Col, col)[row] && Some(s.proof) == ProofOf(lib, sq, Col, col, row)
  }

  function NamespaceDataOf(lib: Library, sq: Square, ns: Namespace, row: nat): Option<NamespaceData> {
    match lib.build(row, sq.line(Row, row))
    case None => None
    case Some(tree) => lib.byNamespace(tree, ns)
  }

  ghost predicate SquareOk(sq: Square) {
    sq.width > 0 && forall axis, i :: |sq.line(axis, i)| == sq.width
  }

  ghost predicate SizeRight(inner: Inner, sq: Square, n: nat) {
    inner.size(n).Some? ==> inner.size(n).value == sq.width
  }

  ghost predicate HalfRight(inner: Inner, lib: Library, sq: Square, n: nat, axis: Axis, i: nat) {
    inner.axisHalf(n, axis, i).Some? ==> HalfOf(lib, sq, axis, i, inner.axisHalf(n, axis, i).value)
  }

  ghost predicate SampleRight(inner: Inner, lib: Library, sq: Square, n: nat, row: nat, col: nat)
    requires SquareOk(sq)
  {
    row < sq.width && col < sq.width && inner.sample(n, row, col).Some? ==>
      SampleOf(lib, sq, row, col, inner.sample(n, row, col).value)
  }

  ghost predicate RowRight(inner: Inner, lib: Library, sq: Square, n: nat, ns: Namespace, row: nat) {
    inner.rowNamespaceData(n, ns, row).Some? ==> inner.rowNamespaceData(n, ns, row) == NamespaceDataOf(lib, sq, ns, row)
  }

  /** The accessor behind the cache gives right answers when it gives any. */
  ghost predicate InnerOk(inner: Inner, lib: Library, sq: Square)
    requires SquareOk(sq)
  {
    && (forall n: nat :: SizeRight(inner, sq, n))
    && (forall n: nat, axis: Axis, i: nat :: HalfRight(inner, lib, sq, n, axis, i))
    && (forall n: nat, row: nat, col: nat :: SampleRight(inner, lib, sq, n, row, col))
    && (forall n: nat, ns: Namespace, row: nat :: RowRight(inner, lib, sq, n, ns, row))
  }

  // ---------------------------------------------------------------- the cache

  /** What is known of an axis: a half; all shares, once they were needed; then the tree. */
  datatype Entry = Entry(half: Half, shares: seq<Share>, proofs: Option<Tree>)

  ghost predicate EntryOk(lib: Library, sq: Square, axis: Axis, i: nat, e: Entry) {
    && HalfOf(lib, sq, axis, i, e.half)
    && (e.shares != [] ==> e.shares == sq.line(axis, i))
    && (e.proofs.Some? ==> e.shares != [] && e.proofs == lib.build(i, sq.line(axis, i)))
  }

  /** The cached axes, by type and index. */
  type Axes = map<Axis, map<nat, Entry>>

  ghost predicate EntryAt(lib: Library, sq: Square, c: Axes, axis: Axis, i: nat) {
    axis in c && i in c[axis] ==> EntryOk(lib, sq, axis, i, c[axis][i])
  }

  ghost predicate AxesOk(lib: Library, sq: Square, c: Axes) {
    && Row in c && Col in c
    && |c[Row]| <= AxisCacheSize(sq.width) && |c[Col]| <= AxisCacheSize(sq.width)
    && forall axis: Axis, i: nat :: EntryAt(lib, sq, c, axis, i)
  }

  /** What was cached and still is has lost nothing. */
  ghost predicate GrownAt(c: Axes, c': Axes, axis: Axis, i: nat) {
    axis in c && axis in c' && i in c[axis] && i in c'[axis] ==> Upgrades(c[axis][i], c'[axis][i])
  }

  ghost predicate Grown(c: Axes, c': Axes) {
    forall axis: Axis, i: nat :: GrownAt(c, c', axis, i)
  }

  /** Nothing that was cached is missing. */
  ghost predicate Upgrades(e: Entry, e': Entry) {
    e'.half == e.half && (e.shares != [] ==> e'.shares == e.shares) && (e.proofs.Some? ==> e'.proofs == e.proofs)
  }

  const AxisCacheBudget: nat := 32 * 1024 * 1024
  const CachedAxisCost: nat := 4
  const ShareSize: nat := 512

  function AtLeastOne(n: nat): nat { if n < 1 then 1 else n }

  function AxisCacheSize(edsSize: nat): nat {
    AtLeastOne(AxisCacheBudget / (CachedAxisCost * AtLeastOne(edsSize) * ShareSize))
  }

  /** The cached axes stay within the budget, unless already a single one is too much; one more would not fit. */
  lemma AxesFitBudget(edsSize: nat)
    ensures var cost := CachedAxisCost * AtLeastOne(edsSize) * ShareSize;
      && AxisCacheSize(edsSize) >= 1
      && (AxisCacheSize(edsSize) > 1 ==> AxisCacheSize(edsSize) * cost <= AxisCacheBudget)
      && AxisCacheBudget < (AxisCacheSize(edsSize) + 1) * cost
  {
    var cost := CachedAxisCost * AtLeastOne(edsSize) * ShareSize;
    QuotientFits(AxisCacheBudget, cost);
  }

  lemma QuotientFits(a: nat, b: nat)
    requires b > 0
    ensures (a / b) * b <= a < (a / b + 1) * b
  {
  }

  /** Caching what is right, and more than was cached, keeps the cache right. */
  lemma StoredOk(lib: Library, sq: Square, c: Axes, axis: Axis, i: nat, e: Entry, axes: map<nat, Entry>)
    requires AxesOk(lib, sq, c) && EntryOk(lib, sq, axis, i, e) && (i in c[axis] ==> Upgrades(c[axis][i], e))
    requires |axes| <= AxisCacheSize(sq.width) && i in axes && axes[i] == e
    requires forall k :: k in axes && k != i ==> k in c[axis] && axes[k] == c[axis][k]
    ensures AxesOk(lib, sq, c[axis := axes]) && Grown(c, c[axis := axes])
  {
    var c' := c[axis := axes];
    forall a: Axis, k: nat ensures EntryAt(lib, sq, c', a, k) && GrownAt(c, c', a, k) {
      assert EntryAt(lib, sq, c, a, k);
    }
  }

  lemma NotGrown(c: Axes)
    ensures Grown(c, c)
  {
  }

  // ---------------------------------------------------------------- all shares

  /**
   The loop that collects the rows of the original square. A parity half has the whole row computed,
   but into the variable in which the rows are collected: what was in it is replaced.
   */
  function Accumulate(halves: seq<Half>, sq: Square): seq<Share>
    requires SquareOk(sq)
    decreases |halves|
  {
    if halves == [] then []
    else
      var n := |halves| - 1;
      var row := sq.line(Row, n);
      if halves[n].parity then row + row[..sq.width / 2] else Accumulate(halves[..n], sq) + halves[n].shares
  }

  lemma AccumulateSnoc(halves: seq<Half>, h: Half, sq: Square)
    requires SquareOk(sq)
    ensures var row := sq.line(Row, |halves|);
      Accumulate(halves + [h], sq) == if h.parity then row + row[..sq.width / 2] else Accumulate(halves, sq) + h.shares
  {
    assert (halves + [h])[..|halves|] == halves;
  }

  /** The original square: the first half of each of the first `n` rows. */
  function OriginalRows(sq: Square, n: nat): seq<Share>
    requires SquareOk(sq)
  {
    if n == 0 then [] else OriginalRows(sq, n - 1) + sq.line(Row, n - 1)[..sq.width / 2]
  }

  /** The data half is the beginning of the extended axis. */
  ghost predicate Systematic(lib: Library) {
    forall h: Half :: !h.parity && lib.extend(h).Some? ==> h.shares <= lib.extend(h).value && |lib.extend(h).value| == 2 * |h.shares|
  }

  /** If all rows were read as data halves, the shares are those of the original square. */
  lemma {:induction false} DataHalvesGiveSquare(lib: Library, sq: Square, halves: seq<Half>)
    requires SquareOk(sq) && Systematic(lib)
    requires AllData(halves) && forall i :: 0 <= i < |halves| ==> HalfOf(lib, sq, Row, i, halves[i])
    ensures Accumulate(halves, sq) == OriginalRows(sq, |halves|)
    decreases |halves|
  {
    if halves != [] {
      var n := |halves| - 1;
      DataHalvesGiveSquare(lib, sq, halves[..n]);
      assert HalfOf(lib, sq, Row, n, halves[n]);
      assert halves[n].shares == sq.line(Row, n)[..sq.width / 2];
    }
  }

  lemma {:induction false} OriginalLength(sq: Square, n: nat)
    requires SquareOk(sq)
    ensures |OriginalRows(sq, n)| == n * (sq.width / 2)
  {
    if n > 0 {
      OriginalLength(sq, n - 1);
      Distribute(n - 1, sq.width / 2);
    }
  }

  lemma Distribute(n: nat, w: nat)
    ensures (n + 1) * w == n * w + w
  {
  }

  /** The last row read as a parity half is row `k`. */
  ghost predicate LastParity(halves: seq<Half>, k: nat) {
    k < |halves| && halves[k].parity && forall i :: k < i < |halves| ==> !halves[i].parity
  }

  lemma {:induction false} ParityLength(lib: Library, sq: Square, halves: seq<Half>, k: nat)
    requires SquareOk(sq) && Systematic(lib) && LastParity(halves, k) && sq.width % 2 == 0
    requires forall i :: 0 <= i < |halves| ==> HalfOf(lib, sq, Row, i, halves[i])
    ensures |Accumulate(halves, sq)| == (|halves| - k + 2) * (sq.width / 2)
    decreases |halves|
  {
    var n, w := |halves| - 1, sq.width / 2;
    if k == n {
      assert 3 * w == sq.width + w;
    } else {
      ParityLength(lib, sq, halves[..n], k);
      assert HalfOf(lib, sq, Row, n, halves[n]) && |halves[n].shares| == w;
      Distribute(n - k + 2, w);
    }
  }

  /** Otherwise there are not even as many, unless the last row read as a parity half is the third. */
  lemma ParityHalfLosesRows(lib: Library, sq: Square, halves: seq<Half>, k: nat)
    requires SquareOk(sq) && Systematic(lib) && LastParity(halves, k) && sq.width % 2 == 0 && k != 2
    requires forall i :: 0 <= i < |halves| ==> HalfOf(lib, sq, Row, i, halves[i])
    ensures Accumulate(halves, sq) != OriginalRows(sq, |halves|)
  {
    ParityLength(lib, sq, halves, k);
    OriginalLength(sq, |halves|);
    DifferentCounts(|halves| - k + 2, |halves|, sq.width / 2);
  }

  /** The third row happens to stand for the first two: its data for the first, its parity for the second. */
  ghost predicate ThirdRowStandsIn(sq: Square)
    requires SquareOk(sq)
  {
    var w := sq.width / 2;
    sq.line(Row, 0)[..w] == sq.line(Row, 2)[..w] && sq.line(Row, 1)[..w] == sq.line(Row, 2)[w..]
  }

  lemma SplitEqual(a: seq<Share>, b: seq<Share>, c: seq<Share>, d: seq<Share>)
    requires |a| == |c|
    ensures a + b == c + d <==> a == c && b == d
  {
    if a + b == c + d {
      assert a == (a + b)[..|a|] && b == (a + b)[|a|..];
      assert c == (c + d)[..|c|] && d == (c + d)[|c|..];
    }
  }

  lemma ThreeRows(sq: Square)
    requires SquareOk(sq) && sq.width % 2 == 0
    ensures var w, row := sq.width / 2, sq.line(Row, 2);
      row + row[..w] == OriginalRows(sq, 3) <==> ThirdRowStandsIn(sq)
  {
    var w := sq.width / 2;
    var r0, r1, row := sq.line(Row, 0)[..w], sq.line(Row, 1)[..w], sq.line(Row, 2);
    assert OriginalRows(sq, 1) == r0;
    assert OriginalRows(sq, 2) == r0 + r1;
    assert OriginalRows(sq, 3) == r0 + r1 + row[..w];
    SplitEqual(row, row[..w], r0 + r1, row[..w]);
    assert row == row[..w] + row[w..];
    SplitEqual(row[..w], row[w..], r0, r1);
  }

  lemma {:induction false} ThirdParityRow(lib: Library, sq: Square, halves: seq<Half>)
    requires SquareOk(sq) && Systematic(lib) && LastParity(halves, 2) && sq.width % 2 == 0
    requires forall i :: 0 <= i < |halves| ==> HalfOf(lib, sq, Row, i, halves[i])
    ensures Accumulate(halves, sq) == OriginalRows(sq, |halves|) <==> ThirdRowStandsIn(sq)
    decreases |halves|
  {
    var n := |halves| - 1;
    if n == 2 {
      ThreeRows(sq);
    } else {
      ThirdParityRow(lib, sq, halves[..n]);
      assert HalfOf(lib, sq, Row, n, halves[n]);
      assert halves[n].shares == sq.line(Row, n)[..sq.width / 2];
      ParityLength(lib, sq, halves[..n], 2);
      OriginalLength(sq, n);
      SplitEqual(Accumulate(halves[..n], sq), halves[n].shares, OriginalRows(sq, n), halves[n].shares);
    }
  }

  ghost predicate AllData(halves: seq<Half>) { forall i :: 0 <= i < |halves| ==> !halves[i].parity }

  lemma {:induction false} FindLastParity(halves: seq<Half>) returns (k: nat)
    requires !AllData(halves)
    ensures LastParity(halves, k)
    decreases |halves|
  {
    var n := |halves| - 1;
    if halves[n].parity {
      k := n;
    } else {
      k := FindLastParity(halves[..n]);
    }
  }

  /**
   Exactly when the loop returns the original square: every row was read as a data half, or the last one read
   as a parity half is the third and happens to stand for the first two.
   */
  lemma SharesRightExactly(lib: Library, sq: Square, halves: seq<Half>)
    requires SquareOk(sq) && Systematic(lib) && sq.width % 2 == 0
    requires forall i :: 0 <= i < |halves| ==> HalfOf(lib, sq, Row, i, halves[i])
    ensures Accumulate(halves, sq) == OriginalRows(sq, |halves|) <==>
      AllData(halves) || (LastParity(halves, 2) && ThirdRowStandsIn(sq))
  {
    if AllData(halves) {
      DataHalvesGiveSquare(lib, sq, halves);
    } else {
      var k := FindLastParity(halves);
      if k == 2 {
        ThirdParityRow(lib, sq, halves);
      } else {
        ParityHalfLosesRows(lib, sq, halves, k);
      }
    }
  }

  /** A code of two shares, the second one more than the first. */
  function Successor(): Library {
    Library((h: Half) => if |h.shares| != 1 then None
                         else if h.parity then Some([h.shares[0] - 1, h.shares[0]])
                         else Some([h.shares[0], h.shares[0] + 1]),
            (i: nat, shares: seq<Share>) => None, (t: Tree, i: nat) => None, (t: Tree, ns: Namespace) => None)
  }

  /** A square of one share, read as its parity half, comes back as three shares. */
  lemma ParityHalfExample() returns (sq: Square, halves: seq<Half>)
    ensures SquareOk(sq) && Systematic(Successor()) && |halves| == sq.width / 2 == 1
    ensures HalfOf(Successor(), sq, Row, 0, halves[0])
    ensures OriginalRows(sq, 1) == [5] && Accumulate(halves, sq) == [5, 6, 5]
  {
    sq := Square(2, (axis: Axis, i: nat) => [5, 6]);
    halves := [Half([6], true)];
    assert OriginalRows(sq, 0) == [];
    assert halves[..0] == [];
  }

  lemma {:induction false} MoreRows(a: nat, b: nat, w: nat)
    requires a < b && w > 0
    ensures a * w < b * w
  {
    Distribute(b - 1, w);
    if a < b - 1 { MoreRows(a, b - 1, w); }
  }

  lemma DifferentCounts(a: nat, b: nat, w: nat)
    requires a != b && w > 0
    ensures a * w != b * w
  {
    if a < b { MoreRows(a, b, w); } else { MoreRows(b, a, w); }
  }

  class Cache {
    const inner: Inner
    const lib: Library
    ghost const sq: Square

    /** Read without storing. */
    const disableCache: bool

    /** 0 until the accessor has told it; nothing is cached before that. */
    var size: nat
    var axisCache: Axes

    /** How often the accessor was asked for its size, and for anything else. */
    var asked: nat
    var attempt: nat

    ghost predicate Valid()
      reads this
    {
      && SquareOk(sq) && InnerOk(inner, lib, sq) && AxesOk(lib, sq, axisCache)
      && (size != 0 ==> size == sq.width)
      && (size == 0 ==> axisCache[Row] == map[] && axisCache[Col] == map[])
    }

    method Size() returns (r: Option<nat>)
      requires Valid()
      modifies this`size, this`asked
      ensures Valid() && (old(size) != 0 ==> size == old(size) && asked == old(asked))
      ensures r == if size == 0 then None else Some(sq.width)
      ensures size == 0 ==> inner.size(old(asked)).None?
    {
      if size != 0 {
        return Some(size);
      }
      r := inner.size(asked);
      assert SizeRight(inner, sq, asked);
      asked := asked + 1;
      if r.Some? {
        size := r.value;
      }
    }

    /** The axis is not cached and the accessor cannot read it. */
    ghost predicate Unread(c: Axes, n: nat, axis: Axis, i: nat) {
      axis in c && i !in c[axis] && inner.axisHalf(n, axis, i).None?
    }

    method GetAxis(axis: Axis, i: nat) returns (e: Option<Entry>)
      requires Valid()
      modifies this`size, this`asked
      ensures Valid() && (old(size) != 0 ==> size == old(size))
      ensures e == if i in axisCache[axis] then Some(axisCache[axis][i]) else None
      ensures e.Some? ==> EntryOk(lib, sq, axis, i, e.value) && size != 0
    {
      var known := Size();
      if known.None? {
        return None;
      }
      e := if i in axisCache[axis] then Some(axisCache[axis][i]) else None;
      assert EntryAt(lib, sq, axisCache, axis, i);
    }

    /** Adds an axis, of which no less may be known than before; when there is no room, another one is evicted. */
    method StoreAxis(axis: Axis, i: nat, e: Entry)
      requires Valid() && EntryOk(lib, sq, axis, i, e)
      requires i in axisCache[axis] ==> Upgrades(axisCache[axis][i], e)
      modifies this`axisCache, this`size, this`asked
      ensures Valid() && Grown(old(axisCache), axisCache) && (old(size) != 0 ==> size == old(size))
      ensures if size == 0 then axisCache == old(axisCache) else i in axisCache[axis] && axisCache[axis][i] == e
    {
      NotGrown(axisCache);
      var known := Size();
      if known.None? {
        return;
      }
      var axes := Added(axisCache[axis], i, e, AxisCacheSize(known.value));
      StoredOk(lib, sq, axisCache, axis, i, e, axes);
      axisCache := axisCache[axis := axes];
    }

    method ReadHalf(axis: Axis, i: nat) returns (h: Option<Half>)
      requires Valid()
      modifies this`attempt
      ensures Valid() && (h.Some? ==> HalfOf(lib, sq, axis, i, h.value))
      ensures h == inner.axisHalf(old(attempt), axis, i)
      ensures attempt == old(attempt) + 1
    {
      h := inner.axisHalf(attempt, axis, i);
      assert HalfRight(inner, lib, sq, attempt, axis, i);
      attempt := attempt + 1;
    }

    /** A half of the axis: the cached one, or one that is then cached. */
    method AxisHalf(axis: Axis, i: nat) returns (h: Option<Half>)
      requires Valid()
      modifies this
      ensures Valid() && Grown(old(axisCache), axisCache)
      ensures h.Some? ==> HalfOf(lib, sq, axis, i, h.value)
      ensures h == if i in old(axisCache[axis]) then Some(old(axisCache[axis])[i].half) else inner.axisHalf(old(attempt), axis, i)
    {
      NotGrown(axisCache);
      var ax := GetAxis(axis, i);
      if ax.Some? {
        return Some(ax.value.half);
      }
      h := ReadHalf(axis, i);
      if h.Some? && !disableCache {
        StoreAxis(axis, i, Entry(h.value, [], None));
      }
    }

    /** The axis as cached, or as just read, with whatever is known of it. */
    method LoadAxis(axis: Axis, i: nat) returns (e: Option<Entry>)
      requires Valid()
      modifies this`attempt, this`size, this`asked
      ensures Valid() && (e.Some? ==> EntryOk(lib, sq, axis, i, e.value))
      ensures old(size) != 0 ==> size == old(size)
      ensures i in axisCache[axis] ==> e == Some(axisCache[axis][i])
      ensures e.Some? && e.value.proofs.Some? ==> size != 0
      ensures e.None? ==> Unread(old(axisCache), old(attempt), axis, i)
    {
      e := GetAxis(axis, i);
      if e.None? {
        var h := ReadHalf(axis, i);
        e := if h.None? then None else Some(Entry(h.value, [], None));
      }
    }

    /** All shares of the axis. */
    method AxisShares(axis: Axis, i: nat) returns (r: Option<seq<Share>>)
      requires Valid()
      modifies this
      ensures Valid() && Grown(old(axisCache), axisCache)
      ensures r.Some? ==> r.value == sq.line(axis, i)
      ensures r.None? ==> Unread(old(axisCache), old(attempt), axis, i)
    {
      NotGrown(axisCache);
      var ax := LoadAxis(axis, i);
      if ax.None? {
        return None;
      }
      if ax.value.shares != [] {
        return Some(ax.value.shares);
      }
      r := lib.extend(ax.value.half);
      if r.Some? && !disableCache {
        StoreAxis(axis, i, ax.value.(shares := r.value));
      }
    }

    /** The shares and the tree of an entry computed, where they are missing. */
    method Complete(axis: Axis, i: nat, e: Entry) returns (r: Option<Entry>)
      requires Valid() && EntryOk(lib, sq, axis, i, e) && e.proofs.None?
      ensures r.Some? ==> EntryOk(lib, sq, axis, i, r.value) && r.value.proofs.Some? && Upgrades(e, r.value)
      ensures r.None? ==> lib.build(i, sq.line(axis, i)).None?
    {
      var shares := Some(e.shares);
      if e.shares == [] {
        shares := lib.extend(e.half);
        if shares.None? {
          return None;
        }
      }
      var tree := lib.build(i, shares.value);
      r := if tree.None? then None else Some(e.(shares := shares.value, proofs := tree));
    }

    /** axisWithProofs: the axis with its tree. */
    method AxisWithProofs(axis: Axis, i: nat) returns (r: Option<Entry>)
      requires Valid()
      modifies this
      ensures Valid() && Grown(old(axisCache), axisCache)
      ensures r.Some? ==> EntryOk(lib, sq, axis, i, r.value) && r.value.proofs.Some?
      ensures r.None? ==> Unread(old(axisCache), old(attempt), axis, i) || lib.build(i, sq.line(axis, i)).None? || size == 0
      ensures r.Some? ==> size != 0
      ensures i in old(axisCache[axis]) && old(axisCache[axis])[i].proofs.Some? ==> axisCache == old(axisCache) && r == Some(axisCache[axis][i])
    {
      NotGrown(axisCache);
      var ax := LoadAxis(axis, i);
      if ax.None? || ax.value.proofs.Some? {
        return ax;
      }
      var known := Size();
      if known.None? {
        return None;
      }
      r := Complete(axis, i, ax.value);
      if r.Some? && !disableCache {
        StoreAxis(axis, i, r.value);
      }
    }

    /** A share with its proof, from the cached tree of its row or from the accessor. */
    method Sample(row: nat, col: nat) returns (r: Option<Sample>)
      requires Valid() && row < sq.width && col < sq.width
      modifies this`attempt, this`size, this`asked
      ensures Valid()
      ensures r.Some? ==> SampleOf(lib, sq, row, col, r.value)
      ensures r.None? ==> inner.sample(old(attempt), row, col).None? || ProofOf(lib, sq, Row, row, col).None?
    {
      var ax := GetAxis(Row, row);
      if ax.None? || ax.value.proofs.None? {
        r := inner.sample(attempt, row, col);
        assert SampleRight(inner, lib, sq, attempt, row, col);
        attempt := attempt + 1;
        return;
      }
      var proof := lib.prove(ax.value.proofs.value, col);
      r := if proof.None? then None else Some(Proven(ax.value.shares[col], proof.value, Row));
    }

    /** The shares of a namespace in a row. Requests that must not fill the cache use what is in it, or the accessor. */
    method RowNamespaceData(ns: Namespace, row: nat, cacheDisabled: bool) returns (r: Option<NamespaceData>)
      requires Valid()
      modifies this
      ensures Valid() && Grown(old(axisCache), axisCache)
      ensures cacheDisabled ==> axisCache == old(axisCache)
      ensures r.Some? ==> r == NamespaceDataOf(lib, sq, ns, row)
      ensures r.None? && NamespaceDataOf(lib, sq, ns, row).Some? ==>
        size == 0 || Unread(old(axisCache), old(attempt), Row, row) || (cacheDisabled && inner.rowNamespaceData(old(attempt), ns, row).None?)
    {
      if cacheDisabled {
        NotGrown(axisCache);
        var ax := GetAxis(Row, row);
        if ax.None? || ax.value.proofs.None? {
          r := inner.rowNamespaceData(attempt, ns, row);
          assert RowRight(inner, lib, sq, attempt, ns, row);
          attempt := attempt + 1;
          return;
        }
      }
      var ax := AxisWithProofs(Row, row);
      r := if ax.None? then None else lib.byNamespace(ax.value.proofs.value, ns);
    }

    /** The shares of the original square, row by row; `halves` are the halves that were read. */
    method Shares() returns (r: Option<seq<Share>>, ghost halves: seq<Half>)
      requires Valid()
      modifies this
      ensures Valid()
      ensures r.Some? ==> |halves| == sq.width / 2 && r.value == Accumulate(halves, sq)
      ensures forall i :: 0 <= i < |halves| ==> HalfOf(lib, sq, Row, i, halves[i])
    {
      var shares: seq<Share> := [];
      halves := [];
      var known := Size();
      if known.None? {
        return None, halves;
      }
      for i := 0 to known.value / 2
        invariant Valid() && |halves| == i && known.value == sq.width
        invariant forall k :: 0 <= k < i ==> HalfOf(lib, sq, Row, k, halves[k])
        invariant shares == Accumulate(halves, sq)
      {
        var ax := AxisHalf(Row, i);
        if ax.None? {
          return None, halves;
        }
        var half := ax.value.shares;
        if ax.value.parity {
          var all := AxisShares(Row, i);
          if all.None? {
            return None, halves;
          }
          shares := all.value;
          half := shares[..known.value / 2];
        }
        AccumulateSnoc(halves, ax.value, sq);
        halves := halves + [ax.value];
        shares := shares + half;
      }
      r := Some(shares);
    }
  }

  /** The cache's map with one more entry and no more than `capacity` in all. */
  method Added(axes: map<nat, Entry>, i: nat, e: Entry, capacity: nat) returns (r: map<nat, Entry>)
    requires |axes| <= capacity && capacity >= 1
    ensures |r| <= capacity && i in r && r[i] == e
    ensures forall k :: k in r && k != i ==> k in axes && r[k] == axes[k]
  {
    r := axes[i := e];
    if |r| > capacity {
      assert r.Keys == axes.Keys + {i};
      var rest := r.Keys - {i};
      assert |rest| == |r| - 1 > 0;
      var victim :| victim in rest;
      assert (r - {victim}).Keys == r.Keys - {victim};
      r := r - {victim};
    }
  }
}
