/**
 The Protocol Buffers codec of ExtendedHeader (header/pb/extended_header.pb.go): varints,
 size computation, the back-to-front printer, the parser and the skipping of unknown
 fields. The sub-messages are opaque values with a codec of their own.
 */
module HeaderCodec {
  import opened Basics

  datatype Error =
    | IntOverflow
    | UnexpectedEOF
    | InvalidLength
    | EndGroup
    | IllegalTag
    | IllegalWireType
    | WrongWireType
    | SubMessage

  datatype Result<+T> = Ok(value: T) | Err(error: Error)

  // ---------------------------------------------------------------- varints

  function Pow128(k: nat): (p: nat)
    ensures p >= 1
  {
    if k == 0 then 1 else 128 * Pow128(k - 1)
  }

  function EncodeVarint(v: nat): seq<Byte> {
    if v < 128 then [v] else [v % 128 + 128] + EncodeVarint(v / 128)
  }

  function BitLen(v: nat): nat {
    if v == 0 then 0 else 1 + BitLen(v / 2)
  }

  /** v | 1 */
  function OrOne(v: nat): nat { if v % 2 == 0 then v + 1 else v }

  /** The number of bytes of a varint, computed from its bit length. */
  function Sov(v: nat): nat { (BitLen(OrOne(v)) + 6) / 7 }

  /** x << 7k, within 64 bits. */
  function ShiftLeft7(x: nat, k: nat): nat {
    if k == 0 then x else 128 * ShiftLeft7(x, k - 1) % U64
  }

  /** The contribution of a varint's byte number `k`: its low seven bits, shifted. */
  function Group(b: Byte, k: nat): nat { ShiftLeft7(b % 128, k) }

  /** A varint's value and the number of bytes it takes. */
  datatype Varint = Varint(value: nat, size: nat)

  /**
   Reading the varint at the start of `d`, with `k` bytes read and their value in `acc`. The
   bit ranges are disjoint, so the or of the shifted groups is their sum; what a shift
   moves beyond 64 bits is lost, and an eleventh byte is refused.
   */
  function ReadVarint(d: seq<Byte>, k: nat, acc: nat): Result<Varint>
    decreases 10 - k
  {
    if k >= 10 then Err(IntOverflow)
    else if k >= |d| then Err(UnexpectedEOF)
    else
      var acc' := acc + Group(d[k], k);
      if d[k] < 128 then Ok(Varint(acc', k + 1)) else ReadVarint(d, k + 1, acc')
  }

  lemma {:induction false} BitLenShift(v: nat)
    requires v >= 128
    ensures BitLen(v) == 7 + BitLen(v / 128)
  {
    assert BitLen(v) == 1 + BitLen(v / 2);
    assert BitLen(v / 2) == 1 + BitLen(v / 4) by { assert v / 2 / 2 == v / 4; }
    assert BitLen(v / 4) == 1 + BitLen(v / 8) by { assert v / 4 / 2 == v / 8; }
    assert BitLen(v / 8) == 1 + BitLen(v / 16) by { assert v / 8 / 2 == v / 16; }
    assert BitLen(v / 16) == 1 + BitLen(v / 32) by { assert v / 16 / 2 == v / 32; }
    assert BitLen(v / 32) == 1 + BitLen(v / 64) by { assert v / 32 / 2 == v / 64; }
    assert BitLen(v / 64) == 1 + BitLen(v / 128) by { assert v / 64 / 2 == v / 128; }
  }

  function Pow2(n: nat): nat {
    if n == 0 then 1 else 2 * Pow2(n - 1)
  }

  lemma {:induction false} BitLenAtMost(v: nat, n: nat)
    requires v < Pow2(n)
    ensures BitLen(v) <= n
    decreases n
  {
    if v > 0 {
      assert v / 2 < Pow2(n - 1);
      BitLenAtMost(v / 2, n - 1);
    }
  }

  lemma SevenBits()
    ensures Pow2(7) == 128
  {
    assert Pow2(1) == 2;
    assert Pow2(2) == 4;
    assert Pow2(3) == 8;
    assert Pow2(4) == 16;
    assert Pow2(5) == 32;
    assert Pow2(6) == 64;
  }

  lemma {:induction false} SmallBitLen(v: nat)
    requires 1 <= v < 128
    ensures 1 <= BitLen(v) <= 7
  {
    SevenBits();
    BitLenAtMost(v, 7);
  }

  lemma {:induction false} OrOneBits(v: nat)
    requires v >= 1
    ensures BitLen(OrOne(v)) == BitLen(v)
  {
    assert OrOne(v) / 2 == v / 2;
  }

  lemma {:induction false} SovStep(v: nat)
    requires v >= 128
    ensures Sov(v) == 1 + Sov(v / 128)
  {
    BitLenShift(v);
    OrOneBits(v);
    OrOneBits(v / 128);
  }

  /** The width computed from the bit length is the number of bytes the encoder writes. */
  lemma {:induction false} SovIsEncodedLength(v: nat)
    ensures |EncodeVarint(v)| == Sov(v)
    decreases v
  {
    if v < 128 {
      SmallBitLen(OrOne(v));
    } else {
      SovIsEncodedLength(v / 128);
      SovStep(v);
    }
  }

  lemma PowerValues()
    ensures Pow128(9) == 0x8000_0000_0000_0000
  {
    assert Pow128(1) == 128;
    assert Pow128(2) == 128 * Pow128(1);
    assert Pow128(3) == 128 * Pow128(2);
    assert Pow128(4) == 128 * Pow128(3);
    assert Pow128(5) == 128 * Pow128(4);
    assert Pow128(6) == 128 * Pow128(5);
    assert Pow128(7) == 128 * Pow128(6);
    assert Pow128(8) == 128 * Pow128(7);
    assert Pow128(9) == 128 * Pow128(8);
  }

  lemma MulAtLeast(v: nat, w: nat, p: nat)
    requires v >= w
    ensures v * p >= w * p
  {
  }

  lemma {:induction false} LastGroupIsSmall(k: nat, v: nat)
    requires k <= 9 && v >= 128 && v * Pow128(k) < U64
    ensures k < 9
  {
    PowerValues();
    MulAtLeast(v, 128, Pow128(k));
  }

  lemma ProductStep(x: nat, p: nat)
    requires x * (128 * p) < U64
    ensures 128 * (x * p) == x * (128 * p) && x * p < U64
  {
  }

  lemma ModOfSmall(x: nat, y: nat)
    requires x == y < U64
    ensures x % U64 == y
  {
  }

  /** As long as nothing is shifted out, shifting multiplies by a power of 128. */
  lemma {:induction false} ShiftMultiplies(x: nat, k: nat)
    requires x * Pow128(k) < U64
    ensures ShiftLeft7(x, k) == x * Pow128(k)
  {
    if k > 0 {
      var p := Pow128(k - 1);
      ProductStep(x, p);
      ShiftMultiplies(x, k - 1);
      ModOfSmall(128 * ShiftLeft7(x, k - 1), x * Pow128(k));
    }
  }

  lemma {:induction false} GroupOfLow(low: nat, k: nat)
    requires low < 128 && low * Pow128(k) < U64
    ensures Group(low, k) == low * Pow128(k) && Group(low + 128, k) == low * Pow128(k)
  {
    assert (low + 128) % 128 == low;
    ShiftMultiplies(low, k);
  }

  lemma SplitProduct(v: nat, low: nat, high: nat, p: nat)
    requires v == 128 * high + low
    ensures high * (128 * p) + low * p == v * p && low * p <= v * p
  {
    assert high * (128 * p) == (128 * high) * p;
    assert (128 * high + low) * p == (128 * high) * p + low * p;
  }

  ghost predicate EncodedAt(v: nat, d: seq<Byte>, k: nat) {
    var e := EncodeVarint(v);
    k + |e| <= |d| && forall i :: 0 <= i < |e| ==> d[k + i] == e[i]
  }

  lemma {:induction false} EncodedTail(v: nat, d: seq<Byte>, k: nat)
    requires v >= 128 && EncodedAt(v, d, k)
    ensures d[k] == v % 128 + 128 && EncodedAt(v / 128, d, k + 1)
  {
    var e, t := EncodeVarint(v), EncodeVarint(v / 128);
    assert e == [v % 128 + 128] + t;
    assert d[k + 0] == e[0];
    forall i | 0 <= i < |t| ensures d[k + 1 + i] == t[i] {
      assert d[k + (i + 1)] == e[i + 1];
    }
  }

  /** What the encoder wrote is read back, whatever follows it, for every 64-bit value. */
  lemma {:induction false} ReadEncodedFrom(v: nat, d: seq<Byte>, k: nat, acc: nat)
    requires k <= 9 && v * Pow128(k) < U64 && EncodedAt(v, d, k)
    ensures ReadVarint(d, k, acc) == Ok(Varint(acc + v * Pow128(k), k + |EncodeVarint(v)|))
    decreases v
  {
    if v < 128 {
      assert d[k + 0] == EncodeVarint(v)[0] == v;
      GroupOfLow(v, k);
    } else {
      var low, high := v % 128, v / 128;
      LastGroupIsSmall(k, v);
      EncodedTail(v, d, k);
      SplitProduct(v, low, high, Pow128(k));
      GroupOfLow(low, k);
      ReadEncodedFrom(high, d, k + 1, acc + Group(d[k], k));
    }
  }

  lemma ReadEncoded(v: nat, rest: seq<Byte>)
    requires v < U64
    ensures ReadVarint(EncodeVarint(v) + rest, 0, 0) == Ok(Varint(v, Sov(v)))
  {
    var d := EncodeVarint(v) + rest;
    assert v * Pow128(0) == v;
    ReadEncodedFrom(v, d, 0, 0);
    SovIsEncodedLength(v);
  }

  /** Reading never goes past the bytes it has, and never depends on those behind the varint. */
  lemma {:induction false} ReadVarintPrefix(d: seq<Byte>, k: nat, acc: nat, rest: seq<Byte>)
    requires ReadVarint(d, k, acc).Ok?
    ensures k < ReadVarint(d, k, acc).value.size <= |d|
    ensures ReadVarint(d + rest, k, acc) == ReadVarint(d, k, acc)
    decreases 10 - k
  {
    if d[k] >= 128 {
      ReadVarintPrefix(d, k + 1, acc + Group(d[k], k), rest);
    }
  }

  lemma OnlyTheTopBit(y: nat, x: nat)
    requires y == I63 * x
    ensures y % U64 <= I63
  {
    assert y == U64 * (x / 2) + I63 * (x % 2);
  }

  lemma {:induction false} LastGroup(b: Byte)
    ensures Group(b, 9) <= I63
  {
    var x := b % 128;
    PowerValues();
    assert Pow128(9) == 128 * Pow128(8);
    ShiftMultiplies(x, 8);
    OnlyTheTopBit(128 * ShiftLeft7(x, 8), x);
  }

  lemma {:induction false} GroupBound(b: Byte, k: nat)
    requires k <= 8
    ensures Group(b, k) <= 127 * Pow128(k)
  {
    PowerValues();
    PowerGrows(k, 8);
    assert Pow128(9) == 128 * Pow128(8);
    MulAtLeast(127, b % 128, Pow128(k));
    ShiftMultiplies(b % 128, k);
  }

  lemma {:induction false} LastByteBound(b: Byte, acc: nat)
    requires acc < Pow128(9)
    ensures acc + Group(b, 9) < U64
  {
    LastGroup(b);
    PowerValues();
  }

  lemma {:induction false} NextByteBound(b: Byte, k: nat, acc: nat)
    requires k <= 8 && acc < Pow128(k)
    ensures acc + Group(b, k) < Pow128(k + 1)
  {
    GroupBound(b, k);
  }

  lemma {:induction false} PowersFit(k: nat)
    requires k <= 9
    ensures Pow128(k) <= I63
  {
    PowerValues();
    PowerGrows(k, 9);
  }

  lemma {:induction false} PowerGrows(k: nat, l: nat)
    requires k <= l
    ensures Pow128(k) <= Pow128(l)
  {
    if k < l { PowerGrows(k, l - 1); }
  }

  /** The value read fits 64 bits. */
  lemma {:induction false} ReadVarintBound(d: seq<Byte>, k: nat, acc: nat)
    requires k <= 9 && acc < Pow128(k)
    ensures ReadVarint(d, k, acc).Ok? ==> ReadVarint(d, k, acc).value.value < U64
    decreases 10 - k
  {
    if k < |d| {
      if k == 9 {
        LastByteBound(d[k], acc);
      } else {
        var acc' := acc + Group(d[k], k);
        assert acc' < Pow128(k + 1) <= I63 by {
          NextByteBound(d[k], k, acc);
          PowersFit(k + 1);
        }
        ReadVarintBound(d, k + 1, acc');
      }
    }
  }

  // ---------------------------------------------------------------- unknown fields

  /** How many bytes one tag and what belongs to it take, and how the nesting of groups changes. */
  datatype Hop = Hop(size: nat, depth: nat)

  /** What belongs to a tag, by its wire type; `next` is the varint that stands behind the tag. */
  function HopAfter(tag: Varint, next: Result<Varint>, depth: nat): Result<Hop> {
    var wireType := tag.value % 8;
    if wireType == 0 then
      if next.Err? then Err(next.error) else Ok(Hop(tag.size + next.value.size, depth))
    else if wireType == 1 then Ok(Hop(tag.size + 8, depth))
    else if wireType == 2 then
      if next.Err? then Err(next.error)
      else if next.value.value >= I63 then Err(InvalidLength)
      else Ok(Hop(tag.size + next.value.size + next.value.value, depth))
    else if wireType == 3 then Ok(Hop(tag.size, depth + 1))
    else if wireType == 4 then if depth == 0 then Err(EndGroup) else Ok(Hop(tag.size, depth - 1))
    else if wireType == 5 then Ok(Hop(tag.size + 4, depth))
    else Err(IllegalWireType)
  }

  /** One turn of the skipping loop on the bytes `d` that are left. */
  function HopFrom(d: seq<Byte>, depth: nat): Result<Hop> {
    match ReadVarint(d, 0, 0)
    case Err(e) => Err(e)
    case Ok(tag) => HopAfter(tag, ReadVarint(DropTo(d, tag.size), 0, 0), depth)
  }

  function DropTo(d: seq<Byte>, n: nat): seq<Byte> { if n <= |d| then d[n..] else [] }

  lemma HopPositive(d: seq<Byte>, depth: nat)
    ensures HopFrom(d, depth).Ok? ==> HopFrom(d, depth).value.size > 0
  {
    if ReadVarint(d, 0, 0).Ok? { ReadVarintPrefix(d, 0, 0, []); }
  }

  type Hopper = (seq<Byte>, nat) -> Result<Hop>

  /**
   The skipping loop: `n` bytes are behind, `d` is left, and a hop takes at least one byte. The
   sum of both is an int, so it turns negative from 2^63 on. Jumping past the end inside a
   group leaves nothing to read.
   */
  function SkipLoop(d: seq<Byte>, n: nat, depth: nat, hopper: Hopper): Result<nat>
    decreases |d|
  {
    if d == [] then Err(UnexpectedEOF)
    else match hopper(d, depth)
      case Err(e) => Err(e)
      case Ok(hop) =>
        if n + hop.size >= I63 then Err(InvalidLength)
        else if hop.depth == 0 then Ok(n + hop.size)
        else if hop.size == 0 then Err(UnexpectedEOF)
        else SkipLoop(DropTo(d, hop.size), n + hop.size, hop.depth, hopper)
  }

  function Skip(d: seq<Byte>): Result<nat> { SkipLoop(d, 0, 0, HopFrom) }

  // ---------------------------------------------------------------- the message

  datatype ExtendedHeader<M> = ExtendedHeader(
    header: Option<M>, commit: Option<M>, validatorSet: Option<M>, dah: Option<M>)
  {
    function Get(f: nat): Option<M> {
      if f == 1 then header else if f == 2 then commit else if f == 3 then validatorSet else dah
    }

    function Put(f: nat, x: M): ExtendedHeader<M> {
      if f == 1 then this.(header := Some(x))
      else if f == 2 then this.(commit := Some(x))
      else if f == 3 then this.(validatorSet := Some(x))
      else this.(dah := Some(x))
    }
  }

  /**
   The codecs of the sub-messages, by field number: their bytes, and unmarshalling, which
   merges into a value that is already there.
   */
  datatype SubCodec<!M> = SubCodec(encode: (nat, M) -> seq<Byte>, merge: (nat, Option<M>, seq<Byte>) -> Option<M>)

  /** A sub-message comes back from its own bytes, and its bytes fit in memory. */
  ghost predicate Faithful<M(!new)>(s: SubCodec<M>) {
    forall f: nat, x: M :: s.merge(f, None, s.encode(f, x)) == Some(x) && |s.encode(f, x)| < I63
  }

  function Empty<M>(): ExtendedHeader<M> { ExtendedHeader(None, None, None, None) }

  /** How many bytes a turn of a parsing loop used, and the value after it. */
  datatype Taken<M> = Taken(size: nat, message: M)

  /** The field number is the tag without its wire type, cut to a signed 32-bit number. */
  function FieldNumber(tag: nat): int {
    var n := tag / 8 % 0x1_0000_0000;
    if n < 0x8000_0000 then n else n - 0x1_0000_0000
  }

  /** Field `f`, whose `length` bytes begin at `start`: the bytes used and the message, given that `base` bytes are behind. */
  function ParseSized<M>(d: seq<Byte>, start: nat, length: nat, f: nat, base: nat, m: ExtendedHeader<M>, s: SubCodec<M>): Result<Taken<ExtendedHeader<M>>> {
    if length >= I63 then Err(InvalidLength)
    else if base + start + length >= I63 then Err(InvalidLength)
    else if start + length > |d| then Err(UnexpectedEOF)
    else match s.merge(f, m.Get(f), d[start..start + length])
      case None => Err(SubMessage)
      case Some(x) => Ok(Taken(start + length, m.Put(f, x)))
  }

  /** Field `f`, whose tag took `k` bytes. */
  function ParseKnown<M>(d: seq<Byte>, k: nat, f: nat, base: nat, m: ExtendedHeader<M>, s: SubCodec<M>): Result<Taken<ExtendedHeader<M>>> {
    match ReadVarint(DropTo(d, k), 0, 0)
    case Err(e) => Err(e)
    case Ok(len) => ParseSized(d, k + len.size, len.value, f, base, m, s)
  }

  function ParseUnknown<M>(d: seq<Byte>, base: nat, m: ExtendedHeader<M>): Result<Taken<ExtendedHeader<M>>> {
    match Skip(d)
    case Err(e) => Err(e)
    case Ok(n) =>
      if base + n >= I63 then Err(InvalidLength)
      else if n > |d| then Err(UnexpectedEOF)
      else Ok(Taken(n, m))
  }

  /** One turn of Unmarshal's loop. */
  function ParseField<M>(d: seq<Byte>, base: nat, m: ExtendedHeader<M>, s: SubCodec<M>): Result<Taken<ExtendedHeader<M>>> {
    match ReadVarint(d, 0, 0)
    case Err(e) => Err(e)
    case Ok(tag) =>
      var f := FieldNumber(tag.value);
      if tag.value % 8 == 4 then Err(EndGroup)
      else if f <= 0 then Err(IllegalTag)
      else if f > 4 then ParseUnknown(d, base, m)
      else if tag.value % 8 != 2 then Err(WrongWireType)
      else ParseKnown(d, tag.size, f, base, m, s)
  }

  lemma {:induction false} SkipAdvances(d: seq<Byte>, n: nat, depth: nat, hopper: Hopper)
    ensures SkipLoop(d, n, depth, hopper).Ok? ==> SkipLoop(d, n, depth, hopper).value >= n
    decreases |d|
  {
    if d != [] && hopper(d, depth).Ok? {
      var hop := hopper(d, depth).value;
      if hop.size > 0 { SkipAdvances(DropTo(d, hop.size), n + hop.size, hop.depth, hopper); }
    }
  }

  lemma SkipPositive(d: seq<Byte>)
    ensures Skip(d).Ok? ==> Skip(d).value > 0
  {
    if d != [] && HopFrom(d, 0).Ok? {
      HopPositive(d, 0);
      var hop := HopFrom(d, 0).value;
      SkipAdvances(DropTo(d, hop.size), hop.size, hop.depth, HopFrom);
    }
  }

  lemma ParseFieldAdvances<M>(d: seq<Byte>, base: nat, m: ExtendedHeader<M>, s: SubCodec<M>)
    ensures ParseField(d, base, m, s).Ok? ==> 0 < ParseField(d, base, m, s).value.size <= |d|
  {
    if ReadVarint(d, 0, 0).Ok? { ReadVarintPrefix(d, 0, 0, []); }
    SkipPositive(d);
  }

  /** One turn of a parsing loop: given the bytes left, how many are behind and the value so far. */
  type Turn<!T> = (seq<Byte>, nat, T) -> Result<Taken<T>>

  /** A parsing loop: turns are taken until the bytes are used up. A turn uses at least one byte and none it does not have. */
  function Loop<T>(d: seq<Byte>, base: nat, m: T, turn: Turn<T>): Result<T>
    decreases |d|
  {
    if d == [] then Ok(m)
    else match turn(d, base, m)
      case Err(e) => Err(e)
      case Ok(Taken(n, m')) => if 0 < n <= |d| then Loop(d[n..], base + n, m', turn) else Err(UnexpectedEOF)
  }

  function FieldTurn<M>(s: SubCodec<M>): Turn<ExtendedHeader<M>> {
    (d: seq<Byte>, base: nat, m: ExtendedHeader<M>) => ParseField(d, base, m, s)
  }

  /** Unmarshal, on the bytes that are left. */
  function Parse<M>(d: seq<Byte>, base: nat, m: ExtendedHeader<M>, s: SubCodec<M>): Result<ExtendedHeader<M>> {
    Loop(d, base, m, FieldTurn(s))
  }

  // ---------------------------------------------------------------- printing

  function Tag(f: nat): Byte
    requires f <= 4
  {
    8 * f + 2
  }

  function EncodeField<M>(s: SubCodec<M>, f: nat, o: Option<M>): seq<Byte>
    requires f <= 4
  {
    match o
    case None => []
    case Some(x) => [Tag(f)] + EncodeVarint(|s.encode(f, x)|) + s.encode(f, x)
  }

  /** The wire format: the present fields in the order of their numbers. */
  function Encode<M>(m: ExtendedHeader<M>, s: SubCodec<M>): seq<Byte> {
    EncodeField(s, 1, m.header) + EncodeField(s, 2, m.commit) + EncodeField(s, 3, m.validatorSet) + EncodeField(s, 4, m.dah)
  }

  function FieldSize<M>(s: SubCodec<M>, f: nat, o: Option<M>): nat {
    match o
    case None => 0
    case Some(x) => var l := |s.encode(f, x)|; 1 + l + Sov(l)
  }

  function Size<M>(m: ExtendedHeader<M>, s: SubCodec<M>): nat {
    FieldSize(s, 1, m.header) + FieldSize(s, 2, m.commit) + FieldSize(s, 3, m.validatorSet) + FieldSize(s, 4, m.dah)
  }

  lemma FieldSizeExact<M>(s: SubCodec<M>, f: nat, o: Option<M>)
    requires f <= 4
    ensures FieldSize(s, f, o) == |EncodeField(s, f, o)|
  {
    if o.Some? { SovIsEncodedLength(|s.encode(f, o.value)|); }
  }

  /** The size computed beforehand is exact. */
  lemma SizeExact<M>(m: ExtendedHeader<M>, s: SubCodec<M>)
    ensures Size(m, s) == |Encode(m, s)|
  {
    FieldSizeExact(s, 1, m.header);
    FieldSizeExact(s, 2, m.commit);
    FieldSizeExact(s, 3, m.validatorSet);
    FieldSizeExact(s, 4, m.dah);
  }

  // ---------------------------------------------------------------- round trip

  lemma ReadOneByte(b: Byte, rest: seq<Byte>)
    requires b < 128
    ensures ReadVarint([b] + rest, 0, 0) == Ok(Varint(b, 1))
  {
    GroupOfLow(b, 0);
  }

  lemma TagParts(f: nat)
    requires 1 <= f <= 4
    ensures FieldNumber(Tag(f)) == f && Tag(f) % 8 == 2
  {
    assert f == 1 || f == 2 || f == 3 || f == 4;
  }

  lemma ReadFieldHead(f: nat, n: nat, rest: seq<Byte>)
    requires 1 <= f <= 4 && n < I63
    ensures ReadVarint([Tag(f)] + EncodeVarint(n) + rest, 0, 0) == Ok(Varint(Tag(f), 1))
    ensures ReadVarint(DropTo([Tag(f)] + EncodeVarint(n) + rest, 1), 0, 0) == Ok(Varint(n, |EncodeVarint(n)|))
  {
    var e := EncodeVarint(n);
    var d := [Tag(f)] + e + rest;
    assert d == [Tag(f)] + (e + rest);
    ReadOneByte(Tag(f), e + rest);
    assert DropTo(d, 1) == e + rest;
    ReadEncoded(n, rest);
    SovIsEncodedLength(n);
  }

  /** A printed field is read back in one turn of the loop. */
  lemma ParseEncodedField<M(!new)>(s: SubCodec<M>, f: nat, x: M, rest: seq<Byte>, base: nat, m: ExtendedHeader<M>)
    requires 1 <= f <= 4 && Faithful(s) && m.Get(f).None?
    requires base + |EncodeField(s, f, Some(x))| + |rest| < I63
    ensures ParseField(EncodeField(s, f, Some(x)) + rest, base, m, s) == Ok(Taken(|EncodeField(s, f, Some(x))|, m.Put(f, x)))
  {
    var body := s.encode(f, x);
    var e := EncodeVarint(|body|);
    var d := EncodeField(s, f, Some(x)) + rest;
    assert d == [Tag(f)] + e + (body + rest);
    ReadFieldHead(f, |body|, body + rest);
    TagParts(f);
    assert d[1 + |e|..1 + |e| + |body|] == body;
    assert s.merge(f, None, body) == Some(x);
  }

  /** The bytes `e` stand for field `f` of some message: the turn reads the field back from them. */
  ghost predicate Reads<M(!new)>(turn: Turn<ExtendedHeader<M>>, e: seq<Byte>, f: nat, o: Option<M>) {
    if o.None? then e == []
    else e != [] && forall rest: seq<Byte>, base: nat, m: ExtendedHeader<M> :: ReadsAt(turn, e, f, o.value, rest, base, m)
  }

  ghost predicate ReadsAt<M>(turn: Turn<ExtendedHeader<M>>, e: seq<Byte>, f: nat, x: M, rest: seq<Byte>, base: nat, m: ExtendedHeader<M>) {
    m.Get(f).None? && base + |e| + |rest| < I63 ==> turn(e + rest, base, m) == Ok(Taken(|e|, m.Put(f, x)))
  }

  function PutOpt<M>(m: ExtendedHeader<M>, f: nat, o: Option<M>): ExtendedHeader<M> {
    if o.Some? then m.Put(f, o.value) else m
  }

  /** What the bytes behind a field come to is what the field and these bytes come to. */
  lemma LoopPrepend<M(!new)>(turn: Turn<ExtendedHeader<M>>, d: seq<Byte>, e: seq<Byte>, f: nat, o: Option<M>, rest: seq<Byte>,
                             base: nat, m: ExtendedHeader<M>, r: Result<ExtendedHeader<M>>)
    requires Reads(turn, e, f, o) && m.Get(f).None? && base + |e| + |rest| < I63 && d == e + rest
    requires Loop(rest, base + |e|, PutOpt(m, f, o), turn) == r
    ensures Loop(d, base, m, turn) == r
  {
    if o.Some? {
      assert ReadsAt(turn, e, f, o.value, rest, base, m);
      assert d[|e|..] == rest;
    } else {
      assert d == rest;
    }
  }

  lemma LoopLastField<M(!new)>(turn: Turn<ExtendedHeader<M>>, m: ExtendedHeader<M>, d: seq<Byte>, e4: seq<Byte>, base: nat)
    requires Reads(turn, e4, 4, m.dah) && base + |e4| < I63 && d == e4
    ensures Loop(d, base, m.(dah := None), turn) == Ok(m)
  {
    assert d == e4 + [];
    assert PutOpt(m.(dah := None), 4, m.dah) == m;
    LoopPrepend(turn, d, e4, 4, m.dah, [], base, m.(dah := None), Ok(m));
  }

  lemma LoopThirdField<M(!new)>(turn: Turn<ExtendedHeader<M>>, m: ExtendedHeader<M>, d: seq<Byte>, e3: seq<Byte>, d4: seq<Byte>, base: nat)
    requires Reads(turn, e3, 3, m.validatorSet) && base + |e3| + |d4| < I63 && d == e3 + d4
    requires Loop(d4, base + |e3|, m.(dah := None), turn) == Ok(m)
    ensures Loop(d, base, m.(dah := None, validatorSet := None), turn) == Ok(m)
  {
    assert PutOpt(m.(dah := None, validatorSet := None), 3, m.validatorSet) == m.(dah := None);
    LoopPrepend(turn, d, e3, 3, m.validatorSet, d4, base, m.(dah := None, validatorSet := None), Ok(m));
  }

  lemma LoopSecondField<M(!new)>(turn: Turn<ExtendedHeader<M>>, m: ExtendedHeader<M>, d: seq<Byte>, e2: seq<Byte>, d3: seq<Byte>, base: nat)
    requires Reads(turn, e2, 2, m.commit) && base + |e2| + |d3| < I63 && d == e2 + d3
    requires Loop(d3, base + |e2|, m.(dah := None, validatorSet := None), turn) == Ok(m)
    ensures Loop(d, base, ExtendedHeader(m.header, None, None, None), turn) == Ok(m)
  {
    var m1 := ExtendedHeader(m.header, None, None, None);
    assert PutOpt(m1, 2, m.commit) == m.(dah := None, validatorSet := None);
    LoopPrepend(turn, d, e2, 2, m.commit, d3, base, m1, Ok(m));
  }

  lemma LoopFirstField<M(!new)>(turn: Turn<ExtendedHeader<M>>, m: ExtendedHeader<M>, d: seq<Byte>, e1: seq<Byte>, d2: seq<Byte>)
    requires Reads(turn, e1, 1, m.header) && |e1| + |d2| < I63 && d == e1 + d2
    requires Loop(d2, |e1|, ExtendedHeader(m.header, None, None, None), turn) == Ok(m)
    ensures Loop(d, 0, Empty(), turn) == Ok(m)
  {
    assert PutOpt(Empty(), 1, m.header) == ExtendedHeader(m.header, None, None, None);
    LoopPrepend(turn, d, e1, 1, m.header, d2, 0, Empty(), Ok(m));
  }

  lemma LoopRoundTrip<M(!new)>(turn: Turn<ExtendedHeader<M>>, m: ExtendedHeader<M>, e1: seq<Byte>, e2: seq<Byte>, e3: seq<Byte>, e4: seq<Byte>,
                               d1: seq<Byte>, d2: seq<Byte>, d3: seq<Byte>)
    requires Reads(turn, e1, 1, m.header) && Reads(turn, e2, 2, m.commit)
    requires Reads(turn, e3, 3, m.validatorSet) && Reads(turn, e4, 4, m.dah)
    requires d1 == e1 + d2 && d2 == e2 + d3 && d3 == e3 + e4 && |d1| < I63
    ensures Loop(d1, 0, Empty(), turn) == Ok(m)
  {
    LoopLastField(turn, m, e4, e4, |e1| + |e2| + |e3|);
    LoopThirdField(turn, m, d3, e3, e4, |e1| + |e2|);
    LoopSecondField(turn, m, d2, e2, d3, |e1|);
    LoopFirstField(turn, m, d1, e1, d2);
  }

  lemma FieldTurnReads<M(!new)>(s: SubCodec<M>, f: nat, o: Option<M>)
    requires 1 <= f <= 4 && Faithful(s)
    ensures Reads(FieldTurn(s), EncodeField(s, f, o), f, o)
  {
    if o.Some? {
      var e := EncodeField(s, f, o);
      forall rest: seq<Byte>, base: nat, m: ExtendedHeader<M>
        ensures ReadsAt(FieldTurn(s), e, f, o.value, rest, base, m)
      {
        if m.Get(f).None? && base + |e| + |rest| < I63 {
          ParseEncodedField(s, f, o.value, rest, base, m);
        }
      }
    }
  }

  lemma EncodeNests<M>(m: ExtendedHeader<M>, s: SubCodec<M>) returns (d2: seq<Byte>, d3: seq<Byte>)
    ensures Encode(m, s) == EncodeField(s, 1, m.header) + d2
    ensures d2 == EncodeField(s, 2, m.commit) + d3 && d3 == EncodeField(s, 3, m.validatorSet) + EncodeField(s, 4, m.dah)
  {
    d3 := EncodeField(s, 3, m.validatorSet) + EncodeField(s, 4, m.dah);
    d2 := EncodeField(s, 2, m.commit) + d3;
  }

  lemma TurnRoundTrip<M(!new)>(m: ExtendedHeader<M>, s: SubCodec<M>, turn: Turn<ExtendedHeader<M>>)
    requires Reads(turn, EncodeField(s, 1, m.header), 1, m.header) && Reads(turn, EncodeField(s, 2, m.commit), 2, m.commit)
    requires Reads(turn, EncodeField(s, 3, m.validatorSet), 3, m.validatorSet) && Reads(turn, EncodeField(s, 4, m.dah), 4, m.dah)
    requires |Encode(m, s)| < I63
    ensures Loop(Encode(m, s), 0, Empty(), turn) == Ok(m)
  {
    var d2, d3 := EncodeNests(m, s);
    LoopRoundTrip(turn, m, EncodeField(s, 1, m.header), EncodeField(s, 2, m.commit), EncodeField(s, 3, m.validatorSet),
                  EncodeField(s, 4, m.dah), Encode(m, s), d2, d3);
  }

  /** Unmarshalling what was marshalled gives the message back, for every choice of present fields. */
  lemma RoundTrip<M(!new)>(m: ExtendedHeader<M>, s: SubCodec<M>)
    requires Faithful(s) && |Encode(m, s)| < I63
    ensures Parse(Encode(m, s), 0, Empty(), s) == Ok(m)
  {
    FieldTurnReads(s, 1, m.header);
    FieldTurnReads(s, 2, m.commit);
    FieldTurnReads(s, 3, m.validatorSet);
    FieldTurnReads(s, 4, m.dah);
    TurnRoundTrip(m, s, FieldTurn(s));
  }

  // ---------------------------------------------------------------- what a prefix and a position decide

  lemma DropToConcat(d: seq<Byte>, rest: seq<Byte>, n: nat)
    requires n <= |d|
    ensures DropTo(d + rest, n) == DropTo(d, n) + rest
  {
  }

  lemma HopAfterPrefix(tag: Varint, d: seq<Byte>, depth: nat, rest: seq<Byte>)
    requires HopAfter(tag, ReadVarint(d, 0, 0), depth).Ok?
    ensures HopAfter(tag, ReadVarint(d + rest, 0, 0), depth) == HopAfter(tag, ReadVarint(d, 0, 0), depth)
  {
    if ReadVarint(d, 0, 0).Ok? { ReadVarintPrefix(d, 0, 0, rest); }
  }

  lemma HopPrefix(d: seq<Byte>, depth: nat, rest: seq<Byte>)
    requires HopFrom(d, depth).Ok?
    ensures HopFrom(d + rest, depth) == HopFrom(d, depth)
  {
    ReadVarintPrefix(d, 0, 0, rest);
    var tag := ReadVarint(d, 0, 0).value;
    DropToConcat(d, rest, tag.size);
    HopAfterPrefix(tag, DropTo(d, tag.size), depth, rest);
  }

  ghost predicate HopLocalAt(hopper: Hopper, d: seq<Byte>, depth: nat, rest: seq<Byte>) {
    hopper(d, depth).Ok? ==> hopper(d + rest, depth) == hopper(d, depth)
  }

  ghost predicate HopLocal(hopper: Hopper) {
    forall d: seq<Byte>, depth: nat, rest: seq<Byte> :: HopLocalAt(hopper, d, depth, rest)
  }

  lemma {:induction false} SkipPrefix(d: seq<Byte>, n: nat, depth: nat, hopper: Hopper, rest: seq<Byte>)
    requires HopLocal(hopper)
    requires SkipLoop(d, n, depth, hopper).Ok? && SkipLoop(d, n, depth, hopper).value <= n + |d|
    ensures SkipLoop(d + rest, n, depth, hopper) == SkipLoop(d, n, depth, hopper)
    decreases |d|
  {
    assert HopLocalAt(hopper, d, depth, rest);
    var hop := hopper(d, depth).value;
    if hop.depth != 0 {
      SkipAdvances(DropTo(d, hop.size), n + hop.size, hop.depth, hopper);
      DropToConcat(d, rest, hop.size);
      SkipPrefix(DropTo(d, hop.size), n + hop.size, hop.depth, hopper, rest);
    }
  }

  lemma HopFromLocal()
    ensures HopLocal(HopFrom)
  {
    forall d: seq<Byte>, depth: nat, rest: seq<Byte>
      ensures HopLocalAt(HopFrom, d, depth, rest)
    {
      if HopFrom(d, depth).Ok? { HopPrefix(d, depth, rest); }
    }
  }

  lemma ParseSizedPrefix<M>(d: seq<Byte>, start: nat, length: nat, f: nat, base: nat, m: ExtendedHeader<M>, s: SubCodec<M>, rest: seq<Byte>)
    requires ParseSized(d, start, length, f, base, m, s).Ok?
    ensures ParseSized(d + rest, start, length, f, base, m, s) == ParseSized(d, start, length, f, base, m, s)
  {
    assert (d + rest)[start..start + length] == d[start..start + length];
  }

  lemma ParseKnownPrefix<M>(d: seq<Byte>, k: nat, f: nat, base: nat, m: ExtendedHeader<M>, s: SubCodec<M>, rest: seq<Byte>)
    requires k <= |d| && ParseKnown(d, k, f, base, m, s).Ok?
    ensures ParseKnown(d + rest, k, f, base, m, s) == ParseKnown(d, k, f, base, m, s)
  {
    DropToConcat(d, rest, k);
    ReadVarintPrefix(DropTo(d, k), 0, 0, rest);
    var len := ReadVarint(DropTo(d, k), 0, 0).value;
    ParseSizedPrefix(d, k + len.size, len.value, f, base, m, s, rest);
  }

  lemma ParseUnknownPrefix<M>(d: seq<Byte>, base: nat, m: ExtendedHeader<M>, rest: seq<Byte>)
    requires ParseUnknown(d, base, m).Ok?
    ensures ParseUnknown(d + rest, base, m) == ParseUnknown(d, base, m)
  {
    HopFromLocal();
    SkipPrefix(d, 0, 0, HopFrom, rest);
  }

  lemma ParseFieldPrefix<M>(d: seq<Byte>, base: nat, m: ExtendedHeader<M>, s: SubCodec<M>, rest: seq<Byte>)
    requires ParseField(d, base, m, s).Ok?
    ensures ParseField(d + rest, base, m, s) == ParseField(d, base, m, s)
  {
    ReadVarintPrefix(d, 0, 0, rest);
    var tag := ReadVarint(d, 0, 0).value;
    var f := FieldNumber(tag.value);
    if f > 4 {
      ParseUnknownPrefix(d, base, m, rest);
    } else {
      ParseKnownPrefix(d, tag.size, f, base, m, s, rest);
    }
  }

  /** A field that was parsed is parsed the same way whatever follows it. */
  ghost predicate LocalAt<T>(turn: Turn<T>, d: seq<Byte>, base: nat, m: T, rest: seq<Byte>) {
    turn(d, base, m).Ok? ==> 0 < turn(d, base, m).value.size <= |d| && turn(d + rest, base, m) == turn(d, base, m)
  }

  ghost predicate Local<T(!new)>(turn: Turn<T>) {
    forall d: seq<Byte>, base: nat, m: T, rest: seq<Byte> :: LocalAt(turn, d, base, m, rest)
  }

  /** One turn of the loop takes the same bytes whatever stands behind them. */
  lemma LoopTurnPrefix<T(!new)>(pre: seq<Byte>, base: nat, m: T, turn: Turn<T>, rest: seq<Byte>)
    requires Local(turn) && pre != [] && Loop(pre, base, m, turn).Ok?
    ensures turn(pre, base, m).Ok?
    ensures var Taken(n, m') := turn(pre, base, m).value;
            && 0 < n <= |pre|
            && Loop(pre, base, m, turn) == Loop(pre[n..], base + n, m', turn)
            && Loop(pre + rest, base, m, turn) == Loop(pre[n..] + rest, base + n, m', turn)
  {
    assert LocalAt(turn, pre, base, m, rest);
    var n := turn(pre, base, m).value.size;
    assert (pre + rest)[n..] == pre[n..] + rest;
  }

  lemma {:induction false} LoopPrefix<T(!new)>(pre: seq<Byte>, base: nat, m: T, turn: Turn<T>, rest: seq<Byte>, r: T)
    requires Local(turn) && Loop(pre, base, m, turn) == Ok(r)
    ensures Loop(pre + rest, base, m, turn) == Loop(rest, base + |pre|, r, turn)
    decreases |pre|
  {
    if pre == [] {
      assert pre + rest == rest;
    } else {
      var Taken(n, m') := turn(pre, base, m).value;
      LoopTurnPrefix(pre, base, m, turn, rest);
      LoopPrefix(pre[n..], base + n, m', turn, rest, r);
    }
  }

  /** Same message, or both an error; which error may depend on the position in the input. */
  ghost predicate Agree<T>(r: Result<T>, r': Result<T>) {
    if r.Ok? then r == r' else r'.Err?
  }

  /** Only the kind of error depends on how many bytes are behind. */
  ghost predicate MovableAt<T>(turn: Turn<T>, d: seq<Byte>, base: nat, base': nat, m: T) {
    base + |d| < I63 && base' + |d| < I63 ==> Agree(turn(d, base, m), turn(d, base', m))
  }

  ghost predicate Movable<T(!new)>(turn: Turn<T>) {
    forall d: seq<Byte>, base: nat, base': nat, m: T :: MovableAt(turn, d, base, base', m)
  }

  lemma {:induction false} LoopAnywhere<T(!new)>(d: seq<Byte>, base: nat, base': nat, m: T, turn: Turn<T>)
    requires Movable(turn) && base + |d| < I63 && base' + |d| < I63
    ensures Agree(Loop(d, base, m, turn), Loop(d, base', m, turn))
    decreases |d|
  {
    if d != [] {
      assert MovableAt(turn, d, base, base', m);
      if turn(d, base, m).Ok? {
        var Taken(n, m') := turn(d, base, m).value;
        if 0 < n <= |d| { LoopAnywhere(d[n..], base + n, base' + n, m', turn); }
      }
    }
  }

  lemma FieldTurnLocal<M(!new)>(s: SubCodec<M>)
    ensures Local(FieldTurn(s))
  {
    forall d: seq<Byte>, base: nat, m: ExtendedHeader<M>, rest: seq<Byte>
      ensures LocalAt(FieldTurn(s), d, base, m, rest)
    {
      if ParseField(d, base, m, s).Ok? {
        ParseFieldAdvances(d, base, m, s);
        ParseFieldPrefix(d, base, m, s, rest);
      }
    }
  }

  lemma FieldTurnMovable<M(!new)>(s: SubCodec<M>)
    ensures Movable(FieldTurn(s))
  {
  }

  // ---------------------------------------------------------------- well-formed unknown fields

  /** The bytes of one varint and nothing else; not necessarily the shortest form. */
  ghost predicate IsVarint(b: seq<Byte>) {
    ReadVarint(b, 0, 0).Ok? && ReadVarint(b, 0, 0).value.size == |b|
  }

  function VarintValue(b: seq<Byte>): nat
    requires ReadVarint(b, 0, 0).Ok?
  {
    ReadVarint(b, 0, 0).value.value
  }

  /** A field of the wire format, as sections "Message Structure" and "Groups" of the encoding specification describe it. */
  datatype WireField =
    | VarintField(tag: seq<Byte>, value: seq<Byte>)
    | Fixed64Field(tag: seq<Byte>, value: seq<Byte>)
    | BytesField(tag: seq<Byte>, length: seq<Byte>, value: seq<Byte>)
    | GroupField(tag: seq<Byte>, fields: seq<WireField>, end: seq<Byte>)
    | Fixed32Field(tag: seq<Byte>, value: seq<Byte>)

  function Wire(f: WireField): seq<Byte>
    decreases f, 1
  {
    match f
    case VarintField(tag, value) => tag + value
    case Fixed64Field(tag, value) => tag + value
    case BytesField(tag, length, value) => tag + length + value
    case GroupField(tag, fields, end) => tag + WireAll(fields) + end
    case Fixed32Field(tag, value) => tag + value
  }

  function WireAll(fs: seq<WireField>): seq<Byte>
    decreases fs, 0
  {
    if fs == [] then [] else Wire(fs[0]) + WireAll(fs[1..])
  }

  ghost predicate IsTag(b: seq<Byte>, wireType: nat) {
    IsVarint(b) && VarintValue(b) % 8 == wireType
  }

  ghost predicate WellFormed(f: WireField)
    decreases f, 1
  {
    match f
    case VarintField(tag, value) => IsTag(tag, 0) && IsVarint(value)
    case Fixed64Field(tag, value) => IsTag(tag, 1) && |value| == 8
    case BytesField(tag, length, value) => IsTag(tag, 2) && IsVarint(length) && VarintValue(length) == |value|
    case GroupField(tag, fields, end) => IsTag(tag, 3) && AllWellFormed(fields) && IsTag(end, 4)
    case Fixed32Field(tag, value) => IsTag(tag, 5) && |value| == 4
  }

  ghost predicate AllWellFormed(fs: seq<WireField>)
    decreases fs, 0
  {
    fs == [] || (WellFormed(fs[0]) && AllWellFormed(fs[1..]))
  }

  lemma ReadVarintThen(b: seq<Byte>, rest: seq<Byte>)
    requires IsVarint(b)
    ensures ReadVarint(b + rest, 0, 0) == Ok(Varint(VarintValue(b), |b|)) && DropTo(b + rest, |b|) == rest && b != []
  {
    ReadVarintPrefix(b, 0, 0, rest);
  }

  // What a hop does with the bytes of a plain field, of a group's start and of its end.

  ghost predicate HopsAt(hopper: Hopper, w: seq<Byte>, rest: seq<Byte>, depth: nat, after: nat) {
    hopper(w + rest, depth) == Ok(Hop(|w|, after))
  }

  ghost predicate Plain(hopper: Hopper, w: seq<Byte>) {
    w != [] && forall rest: seq<Byte>, depth: nat :: HopsAt(hopper, w, rest, depth, depth)
  }

  ghost predicate OpensAt(hopper: Hopper, w: seq<Byte>, rest: seq<Byte>, depth: nat) {
    HopsAt(hopper, w, rest, depth, depth + 1)
  }

  ghost predicate Opens(hopper: Hopper, w: seq<Byte>) {
    w != [] && forall rest: seq<Byte>, depth: nat :: OpensAt(hopper, w, rest, depth)
  }

  ghost predicate ClosesAt(hopper: Hopper, w: seq<Byte>, rest: seq<Byte>, depth: nat) {
    HopsAt(hopper, w, rest, depth + 1, depth)
  }

  ghost predicate Closes(hopper: Hopper, w: seq<Byte>) {
    w != [] && forall rest: seq<Byte>, depth: nat :: ClosesAt(hopper, w, rest, depth)
  }

  lemma SkipHop(hopper: Hopper, w: seq<Byte>, rest: seq<Byte>, n: nat, depth: nat, after: nat)
    requires w != [] && HopsAt(hopper, w, rest, depth, after) && n + |w| < I63
    ensures SkipLoop(w + rest, n, depth, hopper) == if after == 0 then Ok(n + |w|) else SkipLoop(rest, n + |w|, after, hopper)
  {
    assert DropTo(w + rest, |w|) == rest;
  }

  /** The hops over a field's bytes are as its form says, in nested groups too. */
  ghost predicate HopsField(hopper: Hopper, f: WireField)
    decreases f, 1
  {
    if f.GroupField? then Opens(hopper, f.tag) && HopsFields(hopper, f.fields) && Closes(hopper, f.end)
    else Plain(hopper, Wire(f))
  }

  ghost predicate HopsFields(hopper: Hopper, fs: seq<WireField>)
    decreases fs, 0
  {
    fs == [] || (HopsField(hopper, fs[0]) && HopsFields(hopper, fs[1..]))
  }

  lemma SkipGroup(hopper: Hopper, tag: seq<Byte>, body: seq<Byte>, end: seq<Byte>, rest: seq<Byte>, n: nat, depth: nat)
    requires Opens(hopper, tag) && Closes(hopper, end) && n + |tag| + |body| + |end| < I63
    requires SkipLoop(body + (end + rest), n + |tag|, depth + 1, hopper) == SkipLoop(end + rest, n + |tag| + |body|, depth + 1, hopper)
    ensures SkipLoop(tag + body + end + rest, n, depth, hopper) ==
            if depth == 0 then Ok(n + |tag| + |body| + |end|) else SkipLoop(rest, n + |tag| + |body| + |end|, depth, hopper)
  {
    assert OpensAt(hopper, tag, body + (end + rest), depth);
    assert tag + body + end + rest == tag + (body + (end + rest));
    SkipHop(hopper, tag, body + (end + rest), n, depth, depth + 1);
    assert ClosesAt(hopper, end, rest, depth);
    SkipHop(hopper, end, rest, n + |tag| + |body|, depth + 1, depth);
  }

  /** Skipping passes exactly the bytes of a field, however deeply its groups nest. */
  lemma {:induction false} SkipField(hopper: Hopper, f: WireField, rest: seq<Byte>, n: nat, depth: nat)
    requires HopsField(hopper, f) && n + |Wire(f)| < I63
    ensures SkipLoop(Wire(f) + rest, n, depth, hopper) ==
            if depth == 0 then Ok(n + |Wire(f)|) else SkipLoop(rest, n + |Wire(f)|, depth, hopper)
    decreases f, 1
  {
    if f.GroupField? {
      SkipFields(hopper, f.fields, f.end + rest, n + |f.tag|, depth + 1);
      SkipGroup(hopper, f.tag, WireAll(f.fields), f.end, rest, n, depth);
    } else {
      assert HopsAt(hopper, Wire(f), rest, depth, depth);
      SkipHop(hopper, Wire(f), rest, n, depth, depth);
    }
  }

  lemma {:induction false} SkipFields(hopper: Hopper, fs: seq<WireField>, rest: seq<Byte>, n: nat, depth: nat)
    requires HopsFields(hopper, fs) && depth > 0 && n + |WireAll(fs)| < I63
    ensures SkipLoop(WireAll(fs) + rest, n, depth, hopper) == SkipLoop(rest, n + |WireAll(fs)|, depth, hopper)
    decreases fs, 0
  {
    if fs == [] {
      assert WireAll(fs) + rest == rest;
    } else {
      var w, more := Wire(fs[0]), WireAll(fs[1..]);
      assert WireAll(fs) + rest == w + (more + rest);
      SkipField(hopper, fs[0], more + rest, n, depth);
      SkipFields(hopper, fs[1..], rest, n + |w|, depth);
    }
  }

  lemma HopSimple(tag: seq<Byte>, value: seq<Byte>, wireType: nat)
    requires IsTag(tag, wireType) && ((wireType == 1 && |value| == 8) || (wireType == 5 && |value| == 4))
    ensures Plain(HopFrom, tag + value)
  {
    forall rest: seq<Byte>, depth: nat ensures HopsAt(HopFrom, tag + value, rest, depth, depth) {
      assert tag + value + rest == tag + (value + rest);
      ReadVarintThen(tag, value + rest);
    }
    ReadVarintThen(tag, []);
  }

  lemma HopVarint(tag: seq<Byte>, value: seq<Byte>)
    requires IsTag(tag, 0) && IsVarint(value)
    ensures Plain(HopFrom, tag + value)
  {
    forall rest: seq<Byte>, depth: nat ensures HopsAt(HopFrom, tag + value, rest, depth, depth) {
      assert tag + value + rest == tag + (value + rest);
      ReadVarintThen(tag, value + rest);
      ReadVarintThen(value, rest);
    }
    ReadVarintThen(tag, []);
  }

  lemma HopBytes(tag: seq<Byte>, length: seq<Byte>, value: seq<Byte>)
    requires IsTag(tag, 2) && IsVarint(length) && VarintValue(length) == |value| < I63
    ensures Plain(HopFrom, tag + length + value)
  {
    forall rest: seq<Byte>, depth: nat ensures HopsAt(HopFrom, tag + length + value, rest, depth, depth) {
      assert tag + length + value + rest == tag + (length + (value + rest));
      ReadVarintThen(tag, length + (value + rest));
      ReadVarintThen(length, value + rest);
    }
    ReadVarintThen(tag, []);
  }

  lemma HopEdges(tag: seq<Byte>)
    ensures IsTag(tag, 3) ==> Opens(HopFrom, tag)
    ensures IsTag(tag, 4) ==> Closes(HopFrom, tag)
  {
    if IsTag(tag, 3) || IsTag(tag, 4) {
      forall rest: seq<Byte>, depth: nat
        ensures IsTag(tag, 3) ==> OpensAt(HopFrom, tag, rest, depth)
        ensures IsTag(tag, 4) ==> ClosesAt(HopFrom, tag, rest, depth)
      {
        ReadVarintThen(tag, rest);
      }
      ReadVarintThen(tag, []);
    }
  }

  lemma {:induction false} WellFormedHops(f: WireField)
    requires WellFormed(f) && |Wire(f)| < I63
    ensures HopsField(HopFrom, f)
    decreases f, 1
  {
    match f
    case VarintField(tag, value) => HopVarint(tag, value);
    case Fixed64Field(tag, value) => HopSimple(tag, value, 1);
    case BytesField(tag, length, value) => HopBytes(tag, length, value);
    case GroupField(tag, fields, end) =>
      HopEdges(tag);
      HopEdges(end);
      AllWellFormedHop(fields);
    case Fixed32Field(tag, value) => HopSimple(tag, value, 5);
  }

  lemma {:induction false} AllWellFormedHop(fs: seq<WireField>)
    requires AllWellFormed(fs) && |WireAll(fs)| < I63
    ensures HopsFields(HopFrom, fs)
    decreases fs, 0
  {
    if fs != [] {
      WellFormedHops(fs[0]);
      AllWellFormedHop(fs[1..]);
    }
  }

  /** Skip returns the exact length of a well-formed field. */
  lemma SkipExact(f: WireField, rest: seq<Byte>)
    requires WellFormed(f) && |Wire(f)| < I63
    ensures Skip(Wire(f) + rest) == Ok(|Wire(f)|)
  {
    WellFormedHops(f);
    SkipField(HopFrom, f, rest, 0, 0);
  }

  ghost predicate UnknownNumber(f: WireField)
    requires WellFormed(f)
  {
    FieldNumber(VarintValue(f.tag)) > 4
  }

  lemma WireStartsWithTag(f: WireField) returns (tail: seq<Byte>)
    requires WellFormed(f)
    ensures Wire(f) == f.tag + tail && VarintValue(f.tag) % 8 != 4 && IsVarint(f.tag)
  {
    tail := Wire(f)[|f.tag|..];
  }

  lemma ReadLeadingTag(w: seq<Byte>, tag: seq<Byte>, tail: seq<Byte>, rest: seq<Byte>)
    requires w == tag + tail && IsVarint(tag)
    ensures ReadVarint(w + rest, 0, 0) == ReadVarint(tag, 0, 0)
  {
    assert w + rest == tag + (tail + rest);
    ReadVarintThen(tag, tail + rest);
  }

  lemma ParseUnknownBytes<M>(d: seq<Byte>, size: nat, tag: Varint, base: nat, m: ExtendedHeader<M>, s: SubCodec<M>)
    requires ReadVarint(d, 0, 0) == Ok(tag) && tag.value % 8 != 4 && FieldNumber(tag.value) > 4
    requires Skip(d) == Ok(size) && size <= |d| && base + size < I63
    ensures ParseField(d, base, m, s) == Ok(Taken(size, m))
  {
  }

  /** One turn of Unmarshal's loop passes an unknown field without touching the message. */
  lemma ParseUnknownField<M>(f: WireField, rest: seq<Byte>, base: nat, m: ExtendedHeader<M>, s: SubCodec<M>)
    requires WellFormed(f) && UnknownNumber(f) && base + |Wire(f)| < I63
    ensures ParseField(Wire(f) + rest, base, m, s) == Ok(Taken(|Wire(f)|, m))
  {
    SkipExact(f, rest);
    var tail := WireStartsWithTag(f);
    ReadLeadingTag(Wire(f), f.tag, tail, rest);
    ParseUnknownBytes(Wire(f) + rest, |Wire(f)|, ReadVarint(f.tag, 0, 0).value, base, m, s);
  }

  lemma LoopPasses<T>(w: seq<Byte>, post: seq<Byte>, base: nat, m: T, turn: Turn<T>)
    requires w != [] && turn(w + post, base, m) == Ok(Taken(|w|, m))
    ensures Loop(w + post, base, m, turn) == Loop(post, base + |w|, m, turn)
  {
    assert (w + post)[|w|..] == post;
  }

  lemma AgreeAfter<T(!new)>(post: seq<Byte>, base: nat, base': nat, m: T, turn: Turn<T>, r: Result<T>, r': Result<T>)
    requires Movable(turn) && base + |post| < I63 && base' + |post| < I63
    requires r == Loop(post, base, m, turn) && r' == Loop(post, base', m, turn)
    ensures Agree(r, r')
  {
    LoopAnywhere(post, base, base', m, turn);
  }

  lemma LoopResumes<T(!new)>(pre: seq<Byte>, post: seq<Byte>, m0: T, m: T, turn: Turn<T>, r: Result<T>)
    requires Local(turn) && Loop(pre, 0, m0, turn) == Ok(m) && r == Loop(pre + post, 0, m0, turn)
    ensures r == Loop(post, |pre|, m, turn)
  {
    LoopPrefix(pre, 0, m0, turn, post, m);
  }

  lemma LoopResumesPast<T(!new)>(pre: seq<Byte>, w: seq<Byte>, post: seq<Byte>, m0: T, m: T, turn: Turn<T>, r: Result<T>)
    requires Local(turn) && Loop(pre, 0, m0, turn) == Ok(m) && r == Loop(pre + (w + post), 0, m0, turn)
    requires w != [] && turn(w + post, |pre|, m) == Ok(Taken(|w|, m))
    ensures r == Loop(post, |pre| + |w|, m, turn)
  {
    LoopResumes(pre, w + post, m0, m, turn, r);
    LoopPasses(w, post, |pre|, m, turn);
  }

  lemma LoopIgnores<T(!new)>(pre: seq<Byte>, w: seq<Byte>, post: seq<Byte>, m0: T, m: T, turn: Turn<T>, r: Result<T>, r': Result<T>)
    requires Local(turn) && Movable(turn) && |pre| + |w| + |post| < I63
    requires Loop(pre, 0, m0, turn) == Ok(m)
    requires w != [] && turn(w + post, |pre|, m) == Ok(Taken(|w|, m))
    requires r == Loop(pre + post, 0, m0, turn) && r' == Loop(pre + (w + post), 0, m0, turn)
    ensures Agree(r, r')
  {
    LoopResumes(pre, post, m0, m, turn, r);
    LoopResumesPast(pre, w, post, m0, m, turn, r');
    AgreeAfter(post, |pre|, |pre| + |w|, m, turn, r, r');
  }

  /**
   Inserting a well-formed unknown field between two fields changes nothing: the same message
   is decoded, or the input is refused either way.
   */
  lemma UnknownFieldIgnored<M(!new)>(pre: seq<Byte>, f: WireField, post: seq<Byte>, s: SubCodec<M>, m: ExtendedHeader<M>)
    requires WellFormed(f) && UnknownNumber(f) && |pre| + |Wire(f)| + |post| < I63
    requires Parse(pre, 0, Empty(), s) == Ok(m)
    ensures Agree(Parse(pre + post, 0, Empty(), s), Parse(pre + Wire(f) + post, 0, Empty(), s))
  {
    FieldTurnLocal(s);
    FieldTurnMovable(s);
    ParseUnknownField(f, post, |pre|, m, s);
    assert Wire(f) != [] by {
      var tail := WireStartsWithTag(f);
      ReadVarintThen(f.tag, []);
    }
    assert pre + Wire(f) + post == pre + (Wire(f) + post);
    LoopIgnores(pre, Wire(f), post, Empty(), m, FieldTurn(s),
                Parse(pre + post, 0, Empty(), s), Parse(pre + Wire(f) + post, 0, Empty(), s));
  }
}
