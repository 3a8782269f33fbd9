/**
 The loops of header/pb/extended_header.pb.go: reading with an index that moves forward and
 printing into a buffer from its end, each proved against the format in HeaderCodec.
 */
module HeaderMarshal {
  import opened Basics
  import opened HeaderCodec

  // ---------------------------------------------------------------- reading

  /** The or of one more byte's low bits into the value; what the whole reads is left to the bytes behind it. */
  method AddGroup(b: Byte, k: nat, acc: nat, ghost d: seq<Byte>, ghost all: Result<Varint>) returns (acc': nat)
    requires k < 10 && k < |d| && d[k] == b && all == ReadVarint(d, k, acc)
    ensures all == if b < 128 then Ok(Varint(acc', k + 1)) else ReadVarint(d, k + 1, acc')
  {
    acc' := acc + Group(b, k);
  }

  lemma VarintCut(d: seq<Byte>, k: nat, acc: nat, r: Result<Varint>)
    requires r == ReadVarint(d, k, acc) && (k >= 10 || k >= |d|)
    ensures r == Err(if k >= 10 then IntOverflow else UnexpectedEOF)
  {
  }

  /** The varint loop: a shift that grows by seven and one byte per turn. */
  method DecodeVarint(data: seq<Byte>, start: nat) returns (r: Result<Varint>)
    requires start <= |data|
    ensures r == ReadVarint(data[start..], 0, 0)
  {
    var value: nat, shift, index := 0, 0, start;
    ghost var d := data[start..];
    ghost var all := ReadVarint(d, 0, 0);
    while true
      invariant start <= index <= |data| && shift == 7 * (index - start) <= 70
      invariant all == ReadVarint(d, index - start, value)
      decreases 70 - shift
    {
      if shift >= 64 {
        VarintCut(d, index - start, value, all);
        return Err(IntOverflow);
      }
      if index >= |data| {
        VarintCut(d, index - start, value, all);
        return Err(UnexpectedEOF);
      }
      var b := data[index];
      value := AddGroup(b, index - start, value, d, all);
      index := index + 1;
      if b < 128 {
        return Ok(Varint(value, index - start));
      }
      shift := shift + 7;
    }
  }

  /** The rest of a turn of the skipping loop, from the end of the tag on. */
  method HopPast(data: seq<Byte>, next: nat, tag: Varint, depth: nat) returns (r: Result<Hop>)
    requires next <= |data|
    ensures r == HopAfter(tag, ReadVarint(data[next..], 0, 0), depth)
  {
    var wireType := tag.value % 8;
    if wireType == 0 {
      var v := DecodeVarint(data, next);
      r := if v.Err? then Err(v.error) else Ok(Hop(tag.size + v.value.size, depth));
    } else if wireType == 1 {
      r := Ok(Hop(tag.size + 8, depth));
    } else if wireType == 2 {
      var length := DecodeVarint(data, next);
      if length.Err? {
        r := Err(length.error);
      } else if length.value.value >= I63 {
        r := Err(InvalidLength);
      } else {
        r := Ok(Hop(tag.size + length.value.size + length.value.value, depth));
      }
    } else if wireType == 3 {
      r := Ok(Hop(tag.size, depth + 1));
    } else if wireType == 4 {
      r := if depth == 0 then Err(EndGroup) else Ok(Hop(tag.size, depth - 1));
    } else if wireType == 5 {
      r := Ok(Hop(tag.size + 4, depth));
    } else {
      r := Err(IllegalWireType);
    }
  }

  lemma VarintFits(data: seq<Byte>, index: nat, v: Varint)
    requires index <= |data| && ReadVarint(data[index..], 0, 0) == Ok(v)
    ensures 0 < v.size && index + v.size <= |data| && data[index + v.size..] == DropTo(data[index..], v.size)
  {
    ReadVarintPrefix(data[index..], 0, 0, []);
  }

  lemma HopAtTag(data: seq<Byte>, index: nat, tag: Varint, depth: nat)
    requires index <= |data| && ReadVarint(data[index..], 0, 0) == Ok(tag)
    ensures index + tag.size <= |data|
    ensures HopFrom(data[index..], depth) == HopAfter(tag, ReadVarint(data[index + tag.size..], 0, 0), depth)
  {
    VarintFits(data, index, tag);
  }

  /** One turn of the skipping loop: a tag and what belongs to it. */
  method HopOver(data: seq<Byte>, index: nat, depth: nat) returns (r: Result<Hop>)
    requires index <= |data|
    ensures r == HopFrom(data[index..], depth)
  {
    var wire := DecodeVarint(data, index);
    if wire.Err? {
      return Err(wire.error);
    }
    HopAtTag(data, index, wire.value, depth);
    r := HopPast(data, index + wire.value.size, wire.value, depth);
  }

  lemma SkipTurn(data: seq<Byte>, index: nat, depth: nat, hopper: Hopper, hop: Hop, r: Result<nat>)
    requires index < |data| && r == SkipLoop(DropTo(data, index), index, depth, hopper)
    requires hopper(data[index..], depth) == Ok(hop) && hop.size > 0
    ensures r == if index + hop.size >= I63 then Err(InvalidLength)
                 else if hop.depth == 0 then Ok(index + hop.size)
                 else SkipLoop(DropTo(data, index + hop.size), index + hop.size, hop.depth, hopper)
  {
    assert DropTo(data[index..], hop.size) == DropTo(data, index + hop.size);
  }

  lemma SkipFails(data: seq<Byte>, index: nat, depth: nat, hopper: Hopper, r: Result<nat>)
    requires r == SkipLoop(DropTo(data, index), index, depth, hopper)
    requires index >= |data| || hopper(data[index..], depth).Err?
    ensures r == Err(if index >= |data| then UnexpectedEOF else hopper(data[index..], depth).error)
  {
  }

  ghost predicate HopperAt(hopper: Hopper, d: seq<Byte>, depth: nat) {
    hopper(d, depth) == HopFrom(d, depth)
  }

  ghost predicate IsHopper(hopper: Hopper) {
    forall d: seq<Byte>, depth: nat :: HopperAt(hopper, d, depth)
  }

  method HopTurn(data: seq<Byte>, index: nat, depth: nat, ghost hopper: Hopper) returns (r: Result<Hop>)
    requires index < |data| && IsHopper(hopper)
    ensures r == hopper(data[index..], depth) && (r.Ok? ==> r.value.size > 0)
  {
    r := HopOver(data, index, depth);
    assert HopperAt(hopper, data[index..], depth);
    HopPositive(data[index..], depth);
  }

  method SkipWith(data: seq<Byte>, ghost hopper: Hopper) returns (r: Result<nat>)
    requires IsHopper(hopper)
    ensures r == SkipLoop(data, 0, 0, hopper)
  {
    var index, depth := 0, 0;
    ghost var all := SkipLoop(data, 0, 0, hopper);
    while index < |data|
      invariant all == SkipLoop(DropTo(data, index), index, depth, hopper)
      decreases |data| - index
    {
      var hop := HopTurn(data, index, depth, hopper);
      if hop.Err? {
        SkipFails(data, index, depth, hopper, all);
        return Err(hop.error);
      }
      SkipTurn(data, index, depth, hopper, hop.value, all);
      index, depth := index + hop.value.size, hop.value.depth;
      if index >= I63 {
        return Err(InvalidLength);
      }
      if depth == 0 {
        return Ok(index);
      }
    }
    SkipFails(data, index, depth, hopper, all);
    r := Err(UnexpectedEOF);
  }

  /** The bytes an unknown field takes, nested groups and all. */
  method SkipUnknown(data: seq<Byte>) returns (r: Result<nat>)
    ensures r == Skip(data)
  {
    r := SkipWith(data, HopFrom);
  }

  /** A sub-message of `length` bytes that begins at `from`. */
  method UnmarshalSized<M>(data: seq<Byte>, index: nat, from: nat, length: nat, f: nat, m: ExtendedHeader<M>, s: SubCodec<M>)
    returns (r: Result<Taken<ExtendedHeader<M>>>)
    requires index <= from && index <= |data|
    ensures r == ParseSized(data[index..], from - index, length, f, index, m, s)
  {
    if length >= I63 {
      return Err(InvalidLength);
    }
    var post := from + length;
    if post >= I63 {
      return Err(InvalidLength);
    }
    if post > |data| {
      return Err(UnexpectedEOF);
    }
    assert data[from..post] == data[index..][from - index..post - index];
    var x := s.merge(f, m.Get(f), data[from..post]);
    r := if x.None? then Err(SubMessage) else Ok(Taken(post - index, m.Put(f, x.value)));
  }

  lemma KnownByLength<M>(data: seq<Byte>, index: nat, k: nat, f: nat, m: ExtendedHeader<M>, s: SubCodec<M>, length: Result<Varint>)
    requires index + k <= |data| && length == ReadVarint(data[index + k..], 0, 0)
    ensures ParseKnown(data[index..], k, f, index, m, s) ==
      match length case Err(e) => Err(e) case Ok(len) => ParseSized(data[index..], k + len.size, len.value, f, index, m, s)
  {
    assert data[index + k..] == DropTo(data[index..], k);
  }

  /** A known field, whose tag took `k` bytes: its length, then a sub-message of that many bytes. */
  method UnmarshalKnown<M>(data: seq<Byte>, index: nat, k: nat, f: nat, m: ExtendedHeader<M>, s: SubCodec<M>)
    returns (r: Result<Taken<ExtendedHeader<M>>>)
    requires index + k <= |data|
    ensures r == ParseKnown(data[index..], k, f, index, m, s)
  {
    var start := index + k;
    var length := DecodeVarint(data, start);
    KnownByLength(data, index, k, f, m, s, length);
    if length.Err? {
      return Err(length.error);
    }
    r := UnmarshalSized(data, index, start + length.value.size, length.value.value, f, m, s);
  }

  /** One turn of Unmarshal's loop; an unknown field is skipped from its tag on. */
  method UnmarshalField<M>(data: seq<Byte>, index: nat, m: ExtendedHeader<M>, s: SubCodec<M>)
    returns (r: Result<Taken<ExtendedHeader<M>>>)
    requires index <= |data|
    ensures r == ParseField(data[index..], index, m, s)
  {
    var wire := DecodeVarint(data, index);
    if wire.Err? {
      return Err(wire.error);
    }
    VarintFits(data, index, wire.value);
    var fieldNum, wireType := FieldNumber(wire.value.value), wire.value.value % 8;
    if wireType == 4 {
      return Err(EndGroup);
    }
    if fieldNum <= 0 {
      return Err(IllegalTag);
    }
    if fieldNum > 4 {
      var skippy := SkipUnknown(data[index..]);
      if skippy.Err? {
        return Err(skippy.error);
      }
      if index + skippy.value >= I63 {
        return Err(InvalidLength);
      }
      if index + skippy.value > |data| {
        return Err(UnexpectedEOF);
      }
      return Ok(Taken(skippy.value, m));
    }
    if wireType != 2 {
      return Err(WrongWireType);
    }
    r := UnmarshalKnown(data, index, wire.value.size, fieldNum, m, s);
  }

  lemma LoopTurn<T>(data: seq<Byte>, index: nat, m: T, turn: Turn<T>, n: nat, m': T, r: Result<T>)
    requires index < |data| && r == Loop(data[index..], index, m, turn)
    requires turn(data[index..], index, m) == Ok(Taken(n, m')) && 0 < n <= |data| - index
    ensures r == Loop(data[index + n..], index + n, m', turn)
  {
    assert data[index..][n..] == data[index + n..];
  }

  lemma LoopFails<T>(data: seq<Byte>, index: nat, m: T, turn: Turn<T>, r: Result<T>)
    requires index < |data| && r == Loop(data[index..], index, m, turn) && turn(data[index..], index, m).Err?
    ensures r == Err(turn(data[index..], index, m).error)
  {
  }

  ghost predicate TurnAt<M>(turn: Turn<ExtendedHeader<M>>, s: SubCodec<M>, d: seq<Byte>, base: nat, m: ExtendedHeader<M>) {
    turn(d, base, m) == ParseField(d, base, m, s)
  }

  ghost predicate IsTurn<M(!new)>(turn: Turn<ExtendedHeader<M>>, s: SubCodec<M>) {
    forall d: seq<Byte>, base: nat, m: ExtendedHeader<M> :: TurnAt(turn, s, d, base, m)
  }

  method UnmarshalTurn<M(!new)>(data: seq<Byte>, index: nat, m: ExtendedHeader<M>, s: SubCodec<M>, ghost turn: Turn<ExtendedHeader<M>>)
    returns (r: Result<Taken<ExtendedHeader<M>>>)
    requires index < |data| && IsTurn(turn, s)
    ensures r == turn(data[index..], index, m) && (r.Ok? ==> 0 < r.value.size <= |data| - index)
  {
    r := UnmarshalField(data, index, m, s);
    assert TurnAt(turn, s, data[index..], index, m);
    ParseFieldAdvances(data[index..], index, m, s);
  }

  method UnmarshalLoop<M(!new)>(data: seq<Byte>, m: ExtendedHeader<M>, s: SubCodec<M>, ghost turn: Turn<ExtendedHeader<M>>)
    returns (r: Result<ExtendedHeader<M>>)
    requires IsTurn(turn, s)
    ensures r == Loop(data, 0, m, turn)
  {
    var index, cur := 0, m;
    ghost var all := Loop(data, 0, m, turn);
    assert data[0..] == data;
    while index < |data|
      invariant index <= |data| && all == Loop(data[index..], index, cur, turn)
    {
      var next := UnmarshalTurn(data, index, cur, s, turn);
      if next.Err? {
        LoopFails(data, index, cur, turn, all);
        return Err(next.error);
      }
      LoopTurn(data, index, cur, turn, next.value.size, next.value.message, all);
      index, cur := index + next.value.size, next.value.message;
    }
    r := Ok(cur);
  }

  /** Unmarshal: the fields found in the data are merged into `m`. */
  method Unmarshal<M(!new)>(data: seq<Byte>, m: ExtendedHeader<M>, s: SubCodec<M>) returns (r: Result<ExtendedHeader<M>>)
    ensures r == Parse(data, 0, m, s)
  {
    r := UnmarshalLoop(data, m, s, FieldTurn(s));
  }

  // ---------------------------------------------------------------- printing

  /** After writing: `w` stands at `from`, everything else is as before. */
  ghost predicate Written(before: seq<Byte>, after: seq<Byte>, from: nat, w: seq<Byte>) {
    |before| == |after| && from + |w| <= |after| &&
    forall k :: 0 <= k < |after| ==> after[k] == if from <= k < from + |w| then w[k - from] else before[k]
  }

  lemma WrittenAfter(s0: seq<Byte>, s1: seq<Byte>, s2: seq<Byte>, p: nat, w: seq<Byte>, v: seq<Byte>)
    requires Written(s0, s1, p, w) && Written(s1, s2, p + |w|, v)
    ensures Written(s0, s2, p, w + v)
  {
  }

  lemma WrittenBefore(s0: seq<Byte>, s1: seq<Byte>, s2: seq<Byte>, p: nat, w: seq<Byte>, q: nat, v: seq<Byte>)
    requires Written(s0, s1, p, w) && Written(s1, s2, q, v) && q + |v| == p
    ensures Written(s0, s2, q, v + w)
  {
  }

  method PutByte(a: array<Byte>, i: nat, b: Byte)
    requires i < a.Length
    modifies a
    ensures Written(old(a[..]), a[..], i, [b])
  {
    a[i] := b;
  }

  /** Writes a varint that ends just before `offset` and returns where it starts. */
  method PutVarint(a: array<Byte>, offset: nat, v: nat) returns (base: nat)
    requires Sov(v) <= offset <= a.Length
    modifies a
    ensures base == offset - Sov(v) && |EncodeVarint(v)| == Sov(v)
    ensures Written(old(a[..]), a[..], base, EncodeVarint(v))
  {
    SovIsEncodedLength(v);
    base := offset - Sov(v);
    var i, rest := base, v;
    ghost var done: seq<Byte>, s0 := [], a[..];
    while rest >= 128
      invariant i == base + |done| && i + |EncodeVarint(rest)| == offset
      invariant done + EncodeVarint(rest) == EncodeVarint(v)
      invariant Written(s0, a[..], base, done)
      decreases rest
    {
      ghost var s1 := a[..];
      PutByte(a, i, rest % 128 + 128);
      WrittenAfter(s0, s1, a[..], base, done, [rest % 128 + 128]);
      EncodeUnfolds(done, rest);
      done := done + [rest % 128 + 128];
      rest := rest / 128;
      i := i + 1;
    }
    ghost var s1 := a[..];
    PutByte(a, i, rest);
    WrittenAfter(s0, s1, a[..], base, done, [rest]);
  }

  lemma EncodeUnfolds(done: seq<Byte>, v: nat)
    requires v >= 128
    ensures done + [v % 128 + 128] + EncodeVarint(v / 128) == done + EncodeVarint(v)
    ensures |EncodeVarint(v)| == 1 + |EncodeVarint(v / 128)|
  {
  }

  /** A sub-message's own printer: its bytes end just before `end`. */
  method PutBytes(a: array<Byte>, end: nat, w: seq<Byte>) returns (start: nat)
    requires |w| <= end <= a.Length
    modifies a
    ensures start == end - |w| && Written(old(a[..]), a[..], start, w)
  {
    start := end - |w|;
    forall k | start <= k < end {
      a[k] := w[k - start];
    }
  }

  /** Prints one field, last part first: the sub-message, its length, the tag. */
  method PutSome<M>(a: array<Byte>, end: nat, f: nat, x: M, s: SubCodec<M>) returns (i: nat)
    requires f <= 4 && FieldSize(s, f, Some(x)) <= end <= a.Length
    modifies a
    ensures i == end - FieldSize(s, f, Some(x)) && Written(old(a[..]), a[..], i, EncodeField(s, f, Some(x)))
  {
    var body := s.encode(f, x);
    ghost var s0, length := a[..], EncodeVarint(|body|);
    i := PutBytes(a, end, body);
    ghost var s1 := a[..];
    i := PutVarint(a, i, |body|);
    ghost var s2 := a[..];
    WrittenBefore(s0, s1, s2, i + |length|, body, i, length);
    i := i - 1;
    PutByte(a, i, Tag(f));
    WrittenBefore(s0, s2, a[..], i + 1, length + body, i, [Tag(f)]);
    assert [Tag(f)] + (length + body) == [Tag(f)] + length + body;
  }

  /** Prints a field, if it is there, in front of the bytes `w` that are already printed. */
  method PutField<M>(a: array<Byte>, end: nat, f: nat, o: Option<M>, s: SubCodec<M>, ghost s0: seq<Byte>, ghost w: seq<Byte>)
    returns (i: nat)
    requires f <= 4 && FieldSize(s, f, o) <= end <= a.Length && Written(s0, a[..], end, w)
    modifies a
    ensures i == end - FieldSize(s, f, o) && Written(s0, a[..], i, EncodeField(s, f, o) + w)
  {
    if o.None? {
      assert EncodeField(s, f, o) + w == w;
      return end;
    }
    ghost var s1 := a[..];
    i := PutSome(a, end, f, o.value, s);
    FieldSizeExact(s, f, o);
    WrittenBefore(s0, s1, a[..], end, w, i, EncodeField(s, f, o));
  }

  lemma WholeTail(before: seq<Byte>, after: seq<Byte>, from: nat, w: seq<Byte>)
    requires Written(before, after, from, w) && from + |w| == |after|
    ensures after == before[..from] + w
  {
  }

  /** The four fields from the last to the first. */
  method PutFields<M>(a: array<Byte>, m: ExtendedHeader<M>, s: SubCodec<M>) returns (i: nat)
    requires Size(m, s) <= a.Length
    modifies a
    ensures i == a.Length - Size(m, s)
    ensures Written(old(a[..]), a[..], i, EncodeField(s, 1, m.header) +
      (EncodeField(s, 2, m.commit) + (EncodeField(s, 3, m.validatorSet) + (EncodeField(s, 4, m.dah) + []))))
  {
    ghost var s0, w := a[..], [];
    i := PutField(a, a.Length, 4, m.dah, s, s0, w);
    w := EncodeField(s, 4, m.dah) + w;
    i := PutField(a, i, 3, m.validatorSet, s, s0, w);
    w := EncodeField(s, 3, m.validatorSet) + w;
    i := PutField(a, i, 2, m.commit, s, s0, w);
    w := EncodeField(s, 2, m.commit) + w;
    i := PutField(a, i, 1, m.header, s, s0, w);
  }

  lemma Regroup(x: seq<Byte>, y: seq<Byte>, z: seq<Byte>, u: seq<Byte>)
    ensures x + (y + (z + (u + []))) == x + y + z + u
  {
  }

  /** The message ends at the end of the buffer and nothing before it is touched. */
  method MarshalToSizedBuffer<M>(a: array<Byte>, m: ExtendedHeader<M>, s: SubCodec<M>) returns (n: nat)
    requires Size(m, s) <= a.Length
    modifies a
    ensures n == |Encode(m, s)| <= a.Length
    ensures a[..] == old(a[..])[..a.Length - n] + Encode(m, s)
  {
    SizeExact(m, s);
    ghost var s0 := a[..];
    var i := PutFields(a, m, s);
    Regroup(EncodeField(s, 1, m.header), EncodeField(s, 2, m.commit), EncodeField(s, 3, m.validatorSet), EncodeField(s, 4, m.dah));
    WholeTail(s0, a[..], i, Encode(m, s));
    n := a.Length - i;
  }

  /** A buffer of the computed size is filled completely. */
  method Marshal<M>(m: ExtendedHeader<M>, s: SubCodec<M>) returns (data: seq<Byte>)
    ensures data == Encode(m, s)
  {
    SizeExact(m, s);
    var a := new Byte[Size(m, s)];
    var n := MarshalToSizedBuffer(a, m, s);
    data := a[..n];
  }
}
