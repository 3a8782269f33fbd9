/**
 A data square as a stream of bytes and back (share/eds/share_reader.go, share/eds/read.go).
 */
module ShareStream {
  import opened Basics

  // ---------------------------------------------------------------- writing the stream

  datatype Status = More | EOF | GetShareFailed

  /** The array holds the bytes from `off` on. */
  ghost predicate Shows(a: seq<Byte>, off: nat, bytes: seq<Byte>) {
    off + |bytes| <= |a| && forall k :: 0 <= k < |bytes| ==> a[off + k] == bytes[k]
  }

  /** Go's copy: more bytes behind those written from `off` on. */
  method Copy(p: array<Byte>, off: nat, written: nat, bytes: seq<Byte>, ghost out: seq<Byte>)
    requires Shows(p[..], off, out) && written == |out| && off + written + |bytes| <= p.Length
    modifies p
    ensures Shows(p[..], off, out + bytes) && p[..off] == old(p[..off])
  {
    forall k | off + written <= k < off + written + |bytes| {
      p[k] := bytes[k - (off + written)];
    }
  }

  lemma ShownSlice(a: seq<Byte>, off: nat, bytes: seq<Byte>)
    requires Shows(a, off, [] + bytes)
    ensures a[off..off + |bytes|] == bytes
  {
    assert [] + bytes == bytes;
  }

  lemma HandOut(delivered: seq<Byte>, buf: seq<Byte>, n: nat)
    requires n <= |buf|
    ensures delivered + buf[..n] + buf[n..] == delivered + buf
  {
  }

  /** Reads the shares of a square in row-major order; a share that does not fit waits in `buf`. */
  class ShareReader {
    const getShare: (nat, nat) -> Option<seq<Byte>>
    const odsSize: nat
    const total: nat
    var buf: seq<Byte>
    var current: nat

    /** What callers have been given so far. */
    ghost var delivered: seq<Byte>

    constructor (odsSize: nat, getShare: (nat, nat) -> Option<seq<Byte>>)
      ensures Valid() && this.getShare == getShare && this.odsSize == odsSize && delivered == [] && buf == [] && current == 0
    {
      this.odsSize, this.getShare, this.total := odsSize, getShare, odsSize * odsSize;
      buf, current, delivered := [], 0, [];
    }

    ghost function Share(k: nat): seq<Byte> {
      if odsSize == 0 then []
      else match getShare(k / odsSize, k % odsSize)
        case None => []
        case Some(bytes) => bytes
    }

    /** The first `k` shares, one after the other. */
    ghost function Bytes(k: nat): seq<Byte> {
      if k == 0 then [] else Bytes(k - 1) + Share(k - 1)
    }

    /** Nothing is lost and nothing comes twice. */
    ghost predicate Valid()
      reads this
    {
      total == odsSize * odsSize && current <= total && delivered + buf == Bytes(current)
    }

    /** The share cannot be read. */
    ghost predicate Unreadable(k: nat) {
      odsSize > 0 && getShare(k / odsSize, k % odsSize).None?
    }

    /** There is a next share and it cannot be read. */
    ghost predicate Missing()
      reads this
    {
      current < total && Unreadable(current)
    }

    /** Share `k`, not before share `i`, cannot be read, and it is needed for the first `n` bytes of the square. */
    ghost predicate BreaksAt(k: nat, i: nat, n: nat) {
      i <= k < total && Unreadable(k) && |Bytes(k)| < n
    }

    ghost predicate BreaksWithin(i: nat, n: nat) { exists k: nat :: BreaksAt(k, i, n) }

    /** A share that is needed for the next `n` bytes cannot be read. */
    ghost predicate Breaks(n: nat)
      reads this
    {
      BreaksWithin(current, |delivered| + n)
    }

    lemma ReadPast(i: nat, c: nat, n: nat)
      requires i <= c <= total && (forall k :: i <= k < c ==> !Unreadable(k)) && (|Bytes(c)| >= n || c == total)
      ensures !BreaksWithin(i, n)
    {
      forall k: nat ensures !BreaksAt(k, i, n) {
        if c <= k < total { BytesArePrefix(c, k); }
      }
    }

    lemma BreaksLater(i: nat, c: nat, n: nat)
      requires i <= c <= total && forall k :: i <= k < c ==> !Unreadable(k)
      ensures BreaksWithin(i, n) <==> BreaksWithin(c, n)
      ensures c == total ==> !BreaksWithin(i, n)
    {
      forall k: nat ensures BreaksAt(k, i, n) <==> BreaksAt(k, c, n) {
      }
    }

    /** The next share of the square. */
    method NextShare() returns (r: Option<seq<Byte>>)
      requires current < total == odsSize * odsSize
      ensures r.None? <==> Unreadable(current)
      ensures r.Some? ==> r.value == Share(current)
    {
      r := getShare(current / odsSize, current % odsSize);
    }

    lemma Grows(out: seq<Byte>, more: seq<Byte>, rest: seq<Byte>, k: nat)
      requires delivered + out == Bytes(k) && more + rest == Share(k)
      ensures delivered + (out + more) + rest == Bytes(k + 1)
    {
      assert delivered + (out + more) + rest == delivered + out + (more + rest);
    }

    /** Copies the next share behind what is written; the part that does not fit is kept. */
    method TakeShare(p: array<Byte>, off: nat, written: nat, ghost out: seq<Byte>)
      returns (n: nat, ok: bool, ghost out': seq<Byte>)
      requires Shows(p[..], off, out) && written == |out| < p.Length - off
      requires current < total == odsSize * odsSize && buf == [] && delivered + out == Bytes(current)
      modifies p, this`buf, this`current
      ensures p[..off] == old(p[..off]) && Shows(p[..], off, out') && |out'| == written + n
      ensures !ok ==> current == old(current) && buf == [] && out' == out && Missing()
      ensures ok ==> current == old(current) + 1 && delivered + out' + buf == Bytes(current) && !Unreadable(old(current))
      ensures ok ==> |out'| == p.Length - off || (|out'| < p.Length - off && buf == [])
    {
      var share := NextShare();
      if share.None? {
        return 0, false, out;
      }
      var raw, emptySpace := share.value, p.Length - off - written;
      current := current + 1;
      var fits := if |raw| < emptySpace then |raw| else emptySpace;
      Copy(p, off, written, raw[..fits], out);
      Grows(out, raw[..fits], raw[fits..], current - 1);
      buf := raw[fits..];
      return fits, true, out + raw[..fits];
    }

    /** Fills `p` from `off` on: from the buffer, then from further shares, until it is full or the square is used up. */
    method Fill(p: array<Byte>, off: nat) returns (written: nat, ok: bool, ghost out: seq<Byte>)
      requires off <= p.Length && Valid() && |buf| < p.Length - off
      modifies p, this`buf, this`current
      ensures old(current) <= current <= total && p[..off] == old(p[..off])
      ensures written == |out| && Shows(p[..], off, out)
      ensures ok ==> delivered + out + buf == Bytes(current)
      ensures ok ==> written == p.Length - off || (current == total && buf == [])
      ensures !ok ==> buf == [] && delivered + out == Bytes(current) && Missing() && written < p.Length - off
      ensures forall k :: old(current) <= k < current ==> !Unreadable(k)
    {
      Copy(p, off, 0, buf, []);
      written, out, ok := |buf|, [] + buf, true;
      buf := [];
      while current < total && written < p.Length - off
        invariant old(current) <= current <= total && p[..off] == old(p[..off])
        invariant forall k :: old(current) <= k < current ==> !Unreadable(k)
        invariant written == |out| && Shows(p[..], off, out)
        invariant delivered + out + buf == Bytes(current)
        invariant written == p.Length - off || (written < p.Length - off && buf == [])
      {
        assert delivered + out + buf == delivered + out;
        var n: nat;
        n, ok, out := TakeShare(p, off, written, out);
        if !ok {
          return;
        }
        written := written + n;
      }
    }

    /** No share that can be read is empty. */
    ghost predicate NoShareIsEmpty() {
      forall k: nat :: k < total && !Unreadable(k) ==> Share(k) != []
    }

    lemma {:induction false} BytesGrow(i: nat, k: nat)
      requires NoShareIsEmpty() && i < k <= total && forall j :: i <= j < k ==> !Unreadable(j)
      ensures |Bytes(i)| < |Bytes(k)|
    {
      assert Share(k - 1) != [];
      if i < k - 1 { BytesGrow(i, k - 1); }
    }

    /** Bytes that were copied out but not handed out are missing, unless there were none. */
    lemma LostBytes(out: seq<Byte>, kept: seq<Byte>, i: nat, k: nat)
      requires NoShareIsEmpty() && i <= k <= total && forall j :: i <= j < k ==> !Unreadable(j)
      requires delivered + kept == Bytes(i) && delivered + out == Bytes(k)
      ensures delivered == Bytes(k) <==> kept == [] && i == k
    {
      if i < k {
        BytesGrow(i, k);
      } else {
        assert |delivered + kept| == |Bytes(k)|;
        assert kept == [] ==> delivered + kept == delivered;
      }
    }

    /** There is enough in the buffer. */
    method ReadBuffered(p: array<Byte>, off: nat) returns (n: nat)
      requires off <= p.Length <= off + |buf| && Valid()
      modifies p, this
      ensures p[..off] == old(p[..off]) && n == p.Length - off && current == old(current)
      ensures Valid() && delivered == old(delivered) + p[off..off + n]
    {
      n := p.Length - off;
      Copy(p, off, 0, buf[..n], []);
      ShownSlice(p[..], off, buf[..n]);
      HandOut(delivered, buf, n);
      delivered := delivered + buf[..n];
      buf := buf[n..];
    }

    /**
     Hands out the next bytes of the square. EOF comes when and only when all of them have been handed
     out. If a share cannot be read, what was copied before that is lost: the stream stays right exactly if the
     very first share needed is the missing one.
     */
    method Read(p: array<Byte>, off: nat) returns (n: nat, status: Status)
      requires off <= p.Length && Valid()
      modifies p, this
      ensures p[..off] == old(p[..off]) && off + n <= p.Length
      ensures status != GetShareFailed ==> Valid() && delivered == old(delivered) + p[off..off + n]
      ensures forall k :: old(current) <= k < current ==> !Unreadable(k)
      ensures status == EOF <==> old(current) == total && old(buf) == []
      ensures status == EOF ==> n == 0 && delivered == Bytes(total)
      ensures status == More ==> n == p.Length - off || (current == total && buf == [])
      ensures status == GetShareFailed ==> n == 0 && buf == [] && delivered == old(delivered) && Missing()
      ensures old(current) <= current && (status == GetShareFailed ==> BreaksAt(current, old(current), |old(delivered)| + p.Length - off))
      ensures status == GetShareFailed && NoShareIsEmpty() ==> (Valid() <==> old(buf) == [] && old(Missing()))
    {
      if current >= total && |buf| == 0 {
        assert delivered + buf == delivered;
        return 0, EOF;
      }
      if p.Length - off <= |buf| {
        n := ReadBuffered(p, off);
        return n, More;
      }
      var ok: bool;
      ghost var out;
      n, ok, out := Fill(p, off);
      if !ok {
        if NoShareIsEmpty() { LostBytes(out, old(buf), old(current), current); }
        assert delivered + buf == delivered;
        return 0, GetShareFailed;
      }
      delivered := delivered + out;
      status := More;
    }

    /** io.ReadFull: reads until `p` is full or the square has been handed out. */
    method ReadFull(p: array<Byte>) returns (n: nat, ok: bool)
      requires Valid()
      modifies p, this
      ensures n <= p.Length
      ensures ok ==> Valid() && delivered == old(delivered) + p[..n]
      ensures ok ==> n == p.Length || (delivered == Bytes(total) && current == total)
      ensures old(current) <= current && forall k :: old(current) <= k < current ==> !Unreadable(k)
      ensures !ok <==> old(Breaks(p.Length))
    {
      ghost var first, all := current, |delivered| + p.Length;
      n := 0;
      while n < p.Length
        invariant n <= p.Length && Valid() && delivered == old(delivered) + p[..n]
        invariant old(current) <= current && forall k :: old(current) <= k < current ==> !Unreadable(k)
        decreases p.Length - n, total - current + |buf|
      {
        ghost var before := p[..n];
        var m, status := Read(p, n);
        if status == GetShareFailed {
          assert BreaksAt(current, first, all);
          return n, false;
        }
        if status == EOF {
          ReadPast(first, current, all);
          return n, true;
        }
        assert p[..n + m] == before + p[n..n + m];
        n := n + m;
      }
      ReadPast(first, current, all);
      ok := true;
    }

    lemma {:induction false} BytesArePrefix(i: nat, k: nat)
      requires i <= k
      ensures Bytes(i) <= Bytes(k)
    {
      if i < k { BytesArePrefix(i, k - 1); }
    }

    lemma DeliveredIsPrefix()
      requires Valid()
      ensures delivered <= Bytes(total)
    {
      BytesArePrefix(current, total);
    }

    /** Whatever sizes the callers ask for: together they get the beginning of the square's bytes, or all of them. */
    method ReadInPieces(sizes: seq<nat>) returns (out: seq<Byte>, status: Status)
      requires Valid() && delivered == []
      modifies this
      ensures status != GetShareFailed ==> Valid() && out == delivered <= Bytes(total)
      ensures status == EOF ==> out == Bytes(total)
      ensures status == GetShareFailed ==> Missing()
    {
      out, status := [], More;
      for i := 0 to |sizes|
        invariant status == More && Valid() && out == delivered
      {
        var p := new Byte[sizes[i]];
        var n: nat;
        n, status := Read(p, 0);
        if status == GetShareFailed {
          return;
        }
        out := out + p[0..n];
        if status == EOF {
          BytesArePrefix(current, total);
          return;
        }
      }
      BytesArePrefix(current, total);
    }
  }

  // ---------------------------------------------------------------- reading the stream

  lemma FirstTwoCells(ods: nat)
    requires ods >= 2
    ensures 0 / ods == 0 % ods == 1 / ods == 0 && 1 % ods == 1 && ods * ods >= 2
  {
  }

  lemma FirstBytes(r: ShareReader)
    requires r.odsSize >= 2 && r.getShare(0, 0).Some? && r.getShare(0, 1).None?
    ensures r.Bytes(0) == [] && r.Bytes(1) == r.getShare(0, 0).value && !r.Unreadable(0) && r.Unreadable(1)
  {
    FirstTwoCells(r.odsSize);
    assert r.Bytes(0) == [];
  }

  /**
   Bytes do get lost, in any square whose first share can be read and whose second cannot: reading more than the
   first share copies that, fails at the second, and the caller gets neither.
   */
  method LostBytesExample(odsSize: nat, getShare: (nat, nat) -> Option<seq<Byte>>, more: nat)
    returns (r: ShareReader, n: nat, status: Status)
    requires odsSize >= 2 && getShare(0, 0).Some? && getShare(0, 0).value != [] && getShare(0, 1).None? && more > 0
    ensures fresh(r) && r.Bytes(1) == getShare(0, 0).value
    ensures n == 0 && status == GetShareFailed && r.delivered == [] && r.current == 1 && !r.Valid()
  {
    r := new ShareReader(odsSize, getShare);
    var p := new Byte[|getShare(0, 0).value| + more];
    FirstTwoCells(odsSize);
    FirstBytes(r);
    n, status := r.Read(p, 0);
    assert r.current <= 1;
    assert |r.Bytes(r.current)| < p.Length;
  }

  /** Where the bytes come from: they are there, or a share reader produces them. */
  datatype Origin = Given(rest: seq<Byte>) | Produced(reader: ShareReader)

  /** An io.Reader. */
  class Source {
    var origin: Origin

    constructor (origin: Origin)
      ensures this.origin == origin
    {
      this.origin := origin;
    }

    ghost function Repr(): set<object>
      reads this
    {
      if origin.Produced? then {this, origin.reader} else {this}
    }

    ghost predicate Valid()
      reads this, if origin.Produced? then {origin.reader} else {}
    {
      origin.Produced? ==> origin.reader.Valid()
    }

    /** The bytes not read yet. */
    ghost function Rest(): seq<Byte>
      reads this, if origin.Produced? then {origin.reader} else {}
    {
      match origin
      case Given(rest) => rest
      case Produced(r) => if |r.delivered| <= |r.Bytes(r.total)| then r.Bytes(r.total)[|r.delivered|..] else []
    }

    /** The next `n` bytes cannot all be read: one of the shares they come from is missing. */
    ghost predicate Breaks(n: nat)
      reads this, if origin.Produced? then {origin.reader} else {}
    {
      origin.Produced? && origin.reader.Breaks(n)
    }

    lemma BreaksSooner(n: nat, after: nat)
      requires Breaks(n)
      ensures Breaks(n + after)
    {
      var r := origin.reader;
      var k: nat :| r.BreaksAt(k, r.current, |r.delivered| + n);
      assert r.BreaksAt(k, r.current, |r.delivered| + (n + after));
    }

    lemma NothingBreaksNothing()
      requires Valid()
      ensures !Breaks(0)
    {
      if origin.Produced? {
        var r := origin.reader;
        forall k: nat ensures !r.BreaksAt(k, r.current, |r.delivered|) {
          if r.current <= k { r.BytesArePrefix(r.current, k); }
        }
      }
    }

    /** io.ReadFull. It fails exactly if these bytes break; the bytes `after` them do as before. */
    method ReadFull(n: nat, ghost after: nat) returns (bytes: seq<Byte>, ok: bool)
      requires Valid()
      modifies Repr()
      ensures Repr() == old(Repr())
      ensures ok <==> !old(Breaks(n))
      ensures ok ==> (Breaks(after) <==> old(Breaks(n + after))) && (|bytes| < n ==> !Breaks(after))
      ensures ok ==> Valid() && old(Rest()) == bytes + Rest() && |bytes| <= n && (|bytes| < n ==> Rest() == [])
    {
      match origin
      case Given(rest) =>
        var k := if n <= |rest| then n else |rest|;
        bytes, ok := rest[..k], true;
        origin := Given(rest[k..]);
      case Produced(r) =>
        var p := new Byte[n];
        r.DeliveredIsPrefix();
        ghost var before, first := r.delivered, r.current;
        var k;
        k, ok := r.ReadFull(p);
        bytes := p[..k];
        if ok {
          r.DeliveredIsPrefix();
          r.BreaksLater(first, r.current, |before| + n + after);
          if k < n { r.ReadPast(r.current, r.current, |r.delivered| + after); }
          CutTwice(r.Bytes(r.total), before, bytes);
        }
    }
  }

  lemma CutTwice(all: seq<Byte>, a: seq<Byte>, b: seq<Byte>)
    requires a + b <= all
    ensures |a + b| <= |all| && all[|a|..] == b + all[|a + b|..]
  {
  }

  function Padding<S>(pad: S, n: nat): seq<S> {
    if n == 0 then [] else [pad] + Padding(pad, n - 1)
  }

  /** `count` shares parsed from the bytes; if these end between two shares, the rest is padding. */
  function ParseShares<S>(d: seq<Byte>, size: nat, count: nat, parse: seq<Byte> -> Option<S>, pad: S): Option<seq<S>> {
    if count == 0 then Some([])
    else if d == [] then Some(Padding(pad, count))
    else if |d| < size || size == 0 then None
    else match parse(d[..size])
      case None => None
      case Some(x) =>
        match ParseShares(d[size..], size, count - 1, parse, pad)
        case None => None
        case Some(xs) => Some([x] + xs)
  }

  /** The shares of a whole number of chunks. */
  function ParseChunks<S>(d: seq<Byte>, size: nat, count: nat, parse: seq<Byte> -> Option<S>): Option<seq<S>>
    requires |d| == size * count && size > 0
    decreases count
  {
    if count == 0 then Some([])
    else
      ChunkFits(size, count);
      match parse(d[..size])
      case None => None
      case Some(x) =>
        match ParseChunks(d[size..], size, count - 1, parse)
        case None => None
        case Some(xs) => Some([x] + xs)
  }

  lemma ChunkFits(size: nat, count: nat)
    requires count > 0
    ensures size * count == size + size * (count - 1)
  {
  }

  lemma {:induction false} ChunkCount<S>(d: seq<Byte>, size: nat, count: nat, parse: seq<Byte> -> Option<S>)
    requires |d| == size * count && size > 0
    ensures ParseChunks(d, size, count, parse).Some? ==> |ParseChunks(d, size, count, parse).value| == count
    decreases count
  {
    if count > 0 {
      ChunkFits(size, count);
      ChunkCount(d[size..], size, count - 1, parse);
    }
  }

  /** A row of whole shares is parsed on its own, the shares behind it from the bytes behind it. */
  lemma {:induction false} ParseRow<S>(row: seq<Byte>, rest: seq<Byte>, size: nat, n: nat, count: nat, parse: seq<Byte> -> Option<S>, pad: S)
    requires |row| == size * n && size > 0 && n <= count
    ensures ParseShares(row + rest, size, count, parse, pad) ==
      match ParseChunks(row, size, n, parse)
      case None => None
      case Some(xs) =>
        match ParseShares(rest, size, count - n, parse, pad)
        case None => None
        case Some(ys) => Some(xs + ys)
    decreases n
  {
    if n == 0 {
      assert row + rest == rest;
      var r := ParseShares(rest, size, count, parse, pad);
      assert r.Some? ==> [] + r.value == r.value;
    } else {
      ChunkFits(size, n);
      assert (row + rest)[..size] == row[..size];
      assert (row + rest)[size..] == row[size..] + rest;
      if parse(row[..size]).Some? {
        var x := parse(row[..size]).value;
        ParseRow(row[size..], rest, size, n - 1, count - 1, parse, pad);
        var xs := ParseChunks(row[size..], size, n - 1, parse);
        var ys := ParseShares(rest, size, count - n, parse, pad);
        if xs.Some? && ys.Some? {
          assert [x] + (xs.value + ys.value) == [x] + xs.value + ys.value;
        }
      }
    }
  }

  /** What was found so far, in front of what the rest gives. */
  function Prepend<S>(xs: seq<S>, r: Option<seq<S>>): Option<seq<S>> {
    match r case None => None case Some(ys) => Some(xs + ys)
  }

  lemma PrependTwice<S>(xs: seq<S>, ys: seq<S>, r: Option<seq<S>>)
    ensures Prepend(xs, Prepend(ys, r)) == Prepend(xs + ys, r)
  {
    if r.Some? { assert xs + (ys + r.value) == xs + ys + r.value; }
  }

  lemma ChunkStep<S>(buf: seq<Byte>, at: nat, size: nat, k: nat, done: seq<S>, parse: seq<Byte> -> Option<S>, all: Option<seq<S>>)
    requires size > 0 && k > 0 && at <= |buf| && |buf[at..]| == size * k
    requires all == Prepend(done, ParseChunks(buf[at..], size, k, parse))
    ensures at + size <= |buf| && |buf[at + size..]| == size * (k - 1)
    ensures var x := parse(buf[at..at + size]);
      all == if x.None? then None else Prepend(done + [x.value], ParseChunks(buf[at + size..], size, k - 1, parse))
  {
    ChunkFits(size, k);
    assert buf[at..][..size] == buf[at..at + size] && buf[at..][size..] == buf[at + size..];
    var x := parse(buf[at..at + size]);
    if x.Some? { PrependTwice(done, [x.value], ParseChunks(buf[at + size..], size, k - 1, parse)); }
  }

  lemma PrependNothing<S>(r: Option<seq<S>>)
    ensures Prepend([], r) == r
  {
    if r.Some? { assert [] + r.value == r.value; }
  }

  /** fillRow: the bytes of a row parsed into their places. */
  method FillRow<S>(shares: array<S>, buf: seq<Byte>, start: nat, size: nat, n: nat, parse: seq<Byte> -> Option<S>) returns (ok: bool)
    requires size > 0 && |buf| == size * n && start + n <= shares.Length
    modifies shares
    ensures ok <==> ParseChunks(buf, size, n, parse).Some?
    ensures ok ==> shares[..start + n] == old(shares[..start]) + ParseChunks(buf, size, n, parse).value
  {
    ghost var all := ParseChunks(buf, size, n, parse);
    ghost var done, before := [], shares[..start];
    var i, at := 0, 0;
    assert buf[0..] == buf;
    PrependNothing(all);
    while i < n
      invariant i == |done| <= n && at <= |buf| && |buf[at..]| == size * (n - i)
      invariant all == Prepend(done, ParseChunks(buf[at..], size, n - i, parse))
      invariant shares[..start + i] == before + done
    {
      ChunkStep(buf, at, size, n - i, done, parse, all);
      var sh := parse(buf[at..at + size]);
      if sh.None? {
        return false;
      }
      shares[start + i] := sh.value;
      done := done + [sh.value];
      i, at := i + 1, at + size;
    }
    ok := true;
  }

  lemma {:induction false} PaddingGrows<S>(pad: S, n: nat)
    ensures |Padding(pad, n)| == n && Padding(pad, n + 1) == Padding(pad, n) + [pad]
  {
    if n > 0 { PaddingGrows(pad, n - 1); }
  }

  method PadTail<S>(shares: array<S>, from: nat, pad: S)
    requires from <= shares.Length
    modifies shares
    ensures shares[..] == old(shares[..from]) + Padding(pad, shares.Length - from)
  {
    ghost var before := shares[..from];
    PaddingGrows(pad, 0);
    for i := from to shares.Length
      invariant shares[..i] == before + Padding(pad, i - from)
    {
      shares[i] := pad;
      PaddingGrows(pad, i - from);
    }
    assert shares[..shares.Length] == shares[..];
  }

  /** Bytes that end inside a share, behind `q` whole ones, are refused. */
  lemma {:induction false} RaggedIsRefused<S>(d: seq<Byte>, size: nat, q: nat, rem: nat, count: nat, parse: seq<Byte> -> Option<S>, pad: S)
    requires |d| == size * q + rem && 0 < rem < size && q < count
    ensures ParseShares(d, size, count, parse, pad).None?
    decreases q
  {
    if q > 0 {
      ChunkFits(size, q);
      RaggedIsRefused(d[size..], size, q - 1, rem, count - 1, parse, pad);
    }
  }

  /** A row that is not full is the last one: its shares, then padding. */
  lemma LastRow<S>(bytes: seq<Byte>, size: nat, ods: nat, n: nat, count: nat, parse: seq<Byte> -> Option<S>, pad: S)
    requires size > 0 && |bytes| == size * n < size * ods && ods <= count
    ensures n < ods && ParseShares(bytes, size, count, parse, pad) ==
      match ParseChunks(bytes, size, n, parse) case None => None case Some(xs) => Some(xs + Padding(pad, count - n))
  {
    FewerChunks(size, n, ods);
    assert bytes + [] == bytes;
    ParseRow(bytes, [], size, n, count, parse, pad);
  }

  lemma FewerChunks(size: nat, n: nat, ods: nat)
    requires size * n < size * ods
    ensures n < ods
  {
  }

  /** How many whole shares there are in a row that is not full, and the bytes behind them. */
  method WholeShares(n: nat, size: nat, ods: nat) returns (q: nat, rem: nat)
    requires size > 0 && n < size * ods
    ensures n == size * q + rem && rem < size && q < ods && rem == n % size
  {
    q, rem := n / size, n % size;
    FewerChunks(size, q, ods);
  }

  /** The shares of some chunks, and padding behind them. */
  method FillPadded<S>(shares: array<S>, bytes: seq<Byte>, start: nat, size: nat, n: nat, parse: seq<Byte> -> Option<S>, pad: S)
    returns (ok: bool)
    requires size > 0 && |bytes| == size * n && start + n <= shares.Length
    modifies shares
    ensures ok <==> ParseChunks(bytes, size, n, parse).Some?
    ensures ok ==> shares[..] == old(shares[..start]) + (ParseChunks(bytes, size, n, parse).value + Padding(pad, shares.Length - start - n))
  {
    ghost var before := shares[..start];
    ok := FillRow(shares, bytes, start, size, n, parse);
    if ok {
      PadTail(shares, start + n, pad);
      Regroup(before, ParseChunks(bytes, size, n, parse).value, Padding(pad, shares.Length - start - n));
    }
  }

  /** The row loop's last turn: the stream is used up. */
  method FillLast<S>(shares: array<S>, bytes: seq<Byte>, start: nat, size: nat, ods: nat, parse: seq<Byte> -> Option<S>, pad: S)
    returns (ok: bool)
    requires size > 0 && |bytes| < size * ods && start + ods <= shares.Length
    modifies shares
    ensures ok <==> ParseShares(bytes, size, shares.Length - start, parse, pad).Some?
    ensures ok ==> shares[..] == old(shares[..start]) + ParseShares(bytes, size, shares.Length - start, parse, pad).value
  {
    var n, rem := WholeShares(|bytes|, size, ods);
    if rem != 0 {
      RaggedIsRefused(bytes, size, n, rem, shares.Length - start, parse, pad);
      return false;
    }
    LastRow(bytes, size, ods, n, shares.Length - start, parse, pad);
    ok := FillPadded(shares, bytes, start, size, n, parse, pad);
  }

  lemma Regroup<S>(x: seq<S>, y: seq<S>, z: seq<S>)
    ensures x + y + z == x + (y + z)
  {
  }

  /** A turn of the row loop: the shares of a full row put behind those already there. */
  method FillFull<S>(shares: array<S>, buf: seq<Byte>, start: nat, size: nat, ods: nat, parse: seq<Byte> -> Option<S>,
                     ghost pad: S, ghost done: seq<S>, ghost rest: seq<Byte>, ghost all: Option<seq<S>>)
    returns (ok: bool, ghost done': seq<S>)
    requires size > 0 && |buf| == size * ods && start + ods <= shares.Length && shares[..start] == done
    requires all == Prepend(done, ParseShares(buf + rest, size, shares.Length - start, parse, pad))
    modifies shares
    ensures !ok ==> all == None
    ensures ok ==> shares[..start + ods] == done' && |done'| == start + ods
    ensures ok ==> all == Prepend(done', ParseShares(rest, size, shares.Length - start - ods, parse, pad))
  {
    ParseRow(buf, rest, size, ods, shares.Length - start, parse, pad);
    ok := FillRow(shares, buf, start, size, ods, parse);
    if ok {
      ChunkCount(buf, size, ods, parse);
      ghost var xs := ParseChunks(buf, size, ods, parse).value;
      PrependTwice(done, xs, ParseShares(rest, size, shares.Length - start - ods, parse, pad));
      done' := done + xs;
    } else {
      done' := done;
    }
  }

  /** What is still to come: nothing if the `left` bytes break, else the shares `done` and those parsed from the rest. */
  ghost predicate Pending<S>(src: Source, left: nat, size: nat, count: nat, parse: seq<Byte> -> Option<S>, pad: S, done: seq<S>, want: Option<seq<S>>)
    reads src, src.Repr()
  {
    want == if src.Breaks(left) then None else Prepend(done, ParseShares(src.Rest(), size, count, parse, pad))
  }

  /** One row read and put into its place; if it is the last or cannot be read, the result is known. */
  method ReadRow<S>(src: Source, shares: array<S>, start: nat, size: nat, ods: nat, rowBytes: nat, parse: seq<Byte> -> Option<S>, pad: S,
                    ghost done: seq<S>, ghost want: Option<seq<S>>, ghost after: nat)
    returns (more: bool, r: Option<seq<S>>, ghost done': seq<S>)
    requires size > 0 && src.Valid() && shares !in src.Repr() && start + ods <= shares.Length && shares[..start] == done
    requires rowBytes == size * ods && Pending(src, rowBytes + after, size, shares.Length - start, parse, pad, done, want)
    modifies src.Repr(), shares
    ensures src.Repr() == old(src.Repr())
    ensures more ==> src.Valid() && shares[..start + ods] == done' && |done'| == start + ods
    ensures more ==> Pending(src, after, size, shares.Length - start - ods, parse, pad, done', want)
    ensures !more ==> r == want
  {
    ghost var all := Prepend(done, ParseShares(src.Rest(), size, shares.Length - start, parse, pad));
    if src.Breaks(rowBytes) { src.BreaksSooner(rowBytes, after); }
    var buf, ok := src.ReadFull(rowBytes, after);
    done' := done;
    if !ok {
      return false, None, done;
    }
    if |buf| < rowBytes {
      assert buf + src.Rest() == buf;
      ok := FillLast(shares, buf, start, size, ods, parse, pad);
      return false, if ok then Some(shares[..]) else None, done;
    }
    more, done' := FillFull(shares, buf, start, size, ods, parse, pad, done, src.Rest(), all);
    r := None;
  }

  /**
   Reads a square row by row. The result is what parsing the bytes share by share gives, unless one of the
   shares that they come from cannot be read: then there is none.
   */
  method ReadShares<S(0)>(src: Source, size: nat, odsSize: nat, parse: seq<Byte> -> Option<S>, pad: S) returns (r: Option<seq<S>>)
    requires size > 0 && src.Valid()
    modifies src.Repr()
    ensures r == if old(src.Breaks(odsSize * (size * odsSize))) then None else ParseShares(old(src.Rest()), size, odsSize * odsSize, parse, pad)
  {
    var shares := new S[odsSize * odsSize];
    CellsOfSquare(odsSize, odsSize);
    CellsOfSquare(odsSize, size * odsSize);
    ghost var all := ParseShares(src.Rest(), size, shares.Length, parse, pad);
    PrependNothing(all);
    r := ReadRows(src, shares, size, odsSize, size * odsSize, parse, pad, odsSize * (size * odsSize),
                  if src.Breaks(odsSize * (size * odsSize)) then None else all);
  }

  lemma AllDone<S>(src: Source, size: nat, parse: seq<Byte> -> Option<S>, pad: S, done: seq<S>, want: Option<seq<S>>)
    requires src.Valid() && Pending(src, 0, size, 0, parse, pad, done, want)
    ensures want == Some(done)
  {
    src.NothingBreaksNothing();
    assert done + [] == done;
  }

  /** The row loop. */
  method ReadRows<S>(src: Source, shares: array<S>, size: nat, odsSize: nat, rowBytes: nat, parse: seq<Byte> -> Option<S>, pad: S,
                     ghost left: nat, ghost want: Option<seq<S>>)
    returns (r: Option<seq<S>>)
    requires size > 0 && rowBytes == size * odsSize && shares.Length == Cells(odsSize, odsSize) && left == Cells(odsSize, rowBytes)
    requires src.Valid() && shares !in src.Repr() && Pending(src, left, size, shares.Length, parse, pad, [], want)
    modifies src.Repr(), shares
    ensures r == want
  {
    ghost var done: seq<S>, after := [], left;
    var row, start := 0, 0;
    while row < odsSize
      invariant row <= odsSize && after == Cells(odsSize - row, rowBytes) && src.Valid() && src.Repr() == old(src.Repr())
      invariant start == Cells(row, odsSize) == |done| <= shares.Length && shares[..start] == done
      invariant Pending(src, after, size, shares.Length - start, parse, pad, done, want)
    {
      CellsGrow(row + 1, odsSize, odsSize);
      after := after - rowBytes;
      var more;
      more, r, done := ReadRow(src, shares, start, size, odsSize, rowBytes, parse, pad, done, want, after);
      if !more {
        return;
      }
      row, start := row + 1, start + odsSize;
    }
    AllDone(src, size, parse, pad, done, want);
    assert shares[..start] == shares[..];
    r := Some(shares[..]);
  }

  /** The number of cells in the rows. */
  function Cells(rows: nat, ods: nat): nat {
    if rows == 0 then 0 else Cells(rows - 1, ods) + ods
  }

  lemma {:induction false} CellsOfSquare(rows: nat, ods: nat)
    ensures Cells(rows, ods) == rows * ods
  {
    if rows > 0 { CellsOfSquare(rows - 1, ods); }
  }

  lemma {:induction false} CellsGrow(rows: nat, more: nat, ods: nat)
    requires rows <= more
    ensures Cells(rows, ods) <= Cells(more, ods)
    decreases more
  {
    if rows < more { CellsGrow(rows, more - 1, ods); }
  }

  // ---------------------------------------------------------------- round trip

  /** The shares of a square as bytes, one after the other. */
  function Stream<S>(ods: seq<S>, bytes: S -> seq<Byte>): seq<Byte> {
    if ods == [] then [] else bytes(ods[0]) + Stream(ods[1..], bytes)
  }

  /** All shares have the same size and come back from their bytes. */
  ghost predicate SharesParse<S(!new)>(size: nat, bytes: S -> seq<Byte>, parse: seq<Byte> -> Option<S>) {
    size > 0 && forall x: S :: |bytes(x)| == size && parse(bytes(x)) == Some(x)
  }

  /** A stream cut between two shares gives the shares before the cut and padding for the others. */
  lemma {:induction false} CutBetweenShares<S(!new)>(ods: seq<S>, k: nat, size: nat, bytes: S -> seq<Byte>, parse: seq<Byte> -> Option<S>, pad: S)
    requires SharesParse(size, bytes, parse) && k <= |ods|
    ensures ParseShares(Stream(ods[..k], bytes), size, |ods|, parse, pad) == Some(ods[..k] + Padding(pad, |ods| - k))
    decreases k
  {
    if k == 0 {
      assert ods[..0] + Padding(pad, |ods|) == Padding(pad, |ods|);
    } else {
      var x, d := ods[0], Stream(ods[..k], bytes);
      assert ods[..k][1..] == ods[1..][..k - 1];
      assert |bytes(x)| == size && parse(bytes(x)) == Some(x);
      assert d[..size] == bytes(x) && d[size..] == Stream(ods[1..][..k - 1], bytes);
      CutBetweenShares(ods[1..], k - 1, size, bytes, parse, pad);
      assert ods[..k] == [x] + ods[1..][..k - 1];
      Regroup([x], ods[1..][..k - 1], Padding(pad, |ods| - k));
    }
  }

  lemma {:induction false} StreamLength<S(!new)>(ods: seq<S>, size: nat, bytes: S -> seq<Byte>, parse: seq<Byte> -> Option<S>)
    requires SharesParse(size, bytes, parse)
    ensures |Stream(ods, bytes)| == size * |ods|
  {
    if ods != [] {
      ChunkFits(size, |ods|);
      assert |bytes(ods[0])| == size;
      StreamLength(ods[1..], size, bytes, parse);
    }
  }

  lemma SplitCut(n: nat, size: nat, count: nat) returns (q: nat, rem: nat)
    requires size > 0 && n < size * count && n % size != 0
    ensures n == size * q + rem && 0 < rem < size && q < count
  {
    q, rem := n / size, n % size;
    FewerChunks(size, q, count);
  }

  /** A stream cut inside a share is refused. */
  lemma CutInsideShare<S(!new)>(ods: seq<S>, n: nat, size: nat, bytes: S -> seq<Byte>, parse: seq<Byte> -> Option<S>, pad: S)
    requires SharesParse(size, bytes, parse) && n < |Stream(ods, bytes)| && n % size != 0
    ensures ParseShares(Stream(ods, bytes)[..n], size, |ods|, parse, pad).None?
  {
    StreamLength(ods, size, bytes, parse);
    var q, rem := SplitCut(n, size, |ods|);
    RaggedIsRefused(Stream(ods, bytes)[..n], size, q, rem, |ods|, parse, pad);
  }

  lemma {:induction false} StreamSnoc<S>(ods: seq<S>, x: S, bytes: S -> seq<Byte>)
    ensures Stream(ods + [x], bytes) == Stream(ods, bytes) + bytes(x)
  {
    if ods == [] {
      assert ods + [x] == [x];
    } else {
      assert (ods + [x])[1..] == ods[1..] + [x];
      StreamSnoc(ods[1..], x, bytes);
    }
  }

  /** The reader's shares are those of the square, in row-major order. */
  ghost predicate ReadsSquare<S>(r: ShareReader, ods: seq<S>, bytes: S -> seq<Byte>) {
    && r.total == r.odsSize * r.odsSize == |ods|
    && forall k :: 0 <= k < |ods| ==> r.Share(k) == bytes(ods[k])
  }

  lemma {:induction false} ReaderStreams<S>(r: ShareReader, ods: seq<S>, bytes: S -> seq<Byte>, k: nat)
    requires ReadsSquare(r, ods, bytes) && k <= |ods|
    ensures r.Bytes(k) == Stream(ods[..k], bytes)
  {
    if k > 0 {
      ReaderStreams(r, ods, bytes, k - 1);
      assert r.Share(k - 1) == bytes(ods[k - 1]);
      StreamSnoc(ods[..k - 1], ods[k - 1], bytes);
      assert ods[..k - 1] + [ods[k - 1]] == ods[..k];
    }
  }

  /** Reading shares from everything a share reader hands out gives the square back. */
  lemma SquareRoundTrip<S(!new)>(r: ShareReader, ods: seq<S>, size: nat, bytes: S -> seq<Byte>, parse: seq<Byte> -> Option<S>, pad: S)
    requires SharesParse(size, bytes, parse) && ReadsSquare(r, ods, bytes)
    ensures ParseShares(r.Bytes(r.total), size, r.odsSize * r.odsSize, parse, pad) == Some(ods)
  {
    ReaderStreams(r, ods, bytes, |ods|);
    CutBetweenShares(ods, |ods|, size, bytes, parse, pad);
    assert ods[..|ods|] == ods && ods + Padding(pad, 0) == ods;
  }

  /** Reading a square through a share reader gives the square. */
  method ReadSquare<S(0,!new)>(r: ShareReader, size: nat, bytes: S -> seq<Byte>, parse: seq<Byte> -> Option<S>, pad: S, ghost ods: seq<S>)
    returns (xs: Option<seq<S>>)
    requires r.Valid() && r.delivered == [] && SharesParse(size, bytes, parse) && ReadsSquare(r, ods, bytes)
    modifies r
    ensures xs == Some(ods)
  {
    var src := new Source(Produced(r));
    forall k: nat | k < r.total ensures !r.Unreadable(k) {
      assert r.Share(k) == bytes(ods[k]) && |bytes(ods[k])| == size;
    }
    assert r.Bytes(r.total)[0..] == r.Bytes(r.total);
    SquareRoundTrip(r, ods, size, bytes, parse, pad);
    assert !src.Breaks(r.odsSize * (size * r.odsSize));
    xs := ReadShares(src, size, r.odsSize, parse, pad);
  }
}
