/**
 * The generated code itself: the writer fills a buffer from its end towards
 * its start, the parsers walk an index forwards.
 */
module Codec {
  import opened Wrappers
  import opened Wire
  import opened WireFields
  import opened Messages

  // ---------------------------------------------------------------- writing backwards

  /** From `before` to `after`, `part` was put at `i..end` and nothing else changed. */
  ghost predicate Wrote(before: bytes, after: bytes, i: nat, end: nat, part: bytes) {
    && |before| == |after| && i + |part| == end <= |after|
    && after == before[..i] + part + before[end..]
  }

  /** Writing in front of what was just written. */
  lemma WroteBoth(s0: bytes, s1: bytes, s2: bytes, i: nat, mid: nat, end: nat, first: bytes, second: bytes)
    requires Wrote(s0, s1, mid, end, second) && Wrote(s1, s2, i, mid, first)
    ensures Wrote(s0, s2, i, end, first + second)
  {
    assert s1[..i] == s0[..i];
    assert s1[mid..] == second + s0[end..];
    assert s0[..i] + first + (second + s0[end..]) == s0[..i] + (first + second) + s0[end..];
  }

  lemma WroteNothing(s: bytes, end: nat)
    requires end <= |s|
    ensures Wrote(s, s, end, end, [])
  {
  }

  /** `encodeVarintAttribute`. */
  method EncodeVarint(buf: array<byte>, offset: nat, v: nat) returns (base: nat)
    requires Sov(v) <= offset <= buf.Length
    modifies buf
    ensures Wrote(old(buf[..]), buf[..], base, offset, Varint(v))
  {
    hide Sov, Varint, Wrote;
    SovIsLength(v);
    base := offset - Sov(v);
    var at: nat, rest: nat := base, v;
    ghost var s0, head: bytes := buf[..], [];
    WroteNothing(s0, base);
    while rest >= 128
      invariant base <= at && at + |Varint(rest)| == offset
      invariant head + Varint(rest) == Varint(v)
      invariant Wrote(s0, buf[..], base, at, head)
    {
      VarintUnfolds(rest);
      var b := (rest % 128 + 128) as byte;
      WroteOne(s0, buf[..], base, at, head, b);
      buf[at] := b;
      assert head + ([b] + Varint(rest / 128)) == (head + [b]) + Varint(rest / 128);
      head := head + [b];
      rest := rest / 128;
      at := at + 1;
    }
    VarintUnfolds(rest);
    WroteOne(s0, buf[..], base, at, head, rest as byte);
    buf[at] := rest as byte;
  }

  lemma {:induction false} VarintUnfolds(v: nat)
    ensures v < 128 ==> Varint(v) == [v as byte]
    ensures v >= 128 ==> Varint(v) == [(v % 128 + 128) as byte] + Varint(v / 128)
  {
  }

  /** One more byte behind what was written so far. */
  lemma WroteOne(s0: bytes, s1: bytes, i: nat, at: nat, head: bytes, b: byte)
    requires Wrote(s0, s1, i, at, head) && at < |s0|
    ensures |s1| == |s0| && Wrote(s0, s1[at := b], i, at + 1, head + [b])
  {
    assert s1[at..] == s0[at..];
    assert s1[at := b] == s0[..i] + head + ([b] + s0[at + 1..]);
  }

  /** Copy a payload so that it ends at `end`. */
  method CopyBytes(buf: array<byte>, end: nat, payload: bytes) returns (i: nat)
    requires |payload| <= end <= buf.Length
    modifies buf
    ensures Wrote(old(buf[..]), buf[..], i, end, payload)
  {
    hide Wrote;
    i := end - |payload|;
    ghost var s0 := buf[..];
    WroteNothing(s0, i);
    for k := 0 to |payload|
      invariant Wrote(s0, buf[..], i, i + k, payload[..k])
    {
      WroteOne(s0, buf[..], i, i + k, payload[..k], payload[k]);
      buf[i + k] := payload[k];
      assert payload[..k + 1] == payload[..k] + [payload[k]];
    }
    assert payload[..|payload|] == payload;
  }

  /** Length and tag in front of a payload that is already in place. */
  method WriteHeader(buf: array<byte>, start: nat, num: nat, len: nat) returns (i: nat)
    requires 1 <= num <= 2 && 1 + Sov(len) <= start <= buf.Length
    modifies buf
    ensures Wrote(old(buf[..]), buf[..], i, start, [(8 * num + 2) as byte] + Varint(len))
  {
    hide Sov, Varint;
    SovIsLength(len);
    ghost var s0 := buf[..];
    i := EncodeVarint(buf, start, len);
    ghost var s1 := buf[..];
    i := i - 1;
    buf[i] := (8 * num + 2) as byte;
    assert Wrote(s1, buf[..], i, i + 1, [(8 * num + 2) as byte]);
    WroteBoth(s0, s1, buf[..], i, i + 1, start, [(8 * num + 2) as byte], Varint(len));
  }

  /** A whole length-delimited field. */
  method WriteField(buf: array<byte>, end: nat, num: nat, payload: bytes) returns (i: nat)
    requires 1 <= num <= 2 && FieldSize(|payload|) <= end <= buf.Length
    modifies buf
    ensures Wrote(old(buf[..]), buf[..], i, end, FieldBytes(num, payload))
  {
    hide Sov, Varint;
    SovIsLength(|payload|);
    ghost var s0 := buf[..];
    var start := CopyBytes(buf, end, payload);
    ghost var s1 := buf[..];
    i := WriteHeader(buf, start, num, |payload|);
    WroteBoth(s0, s1, buf[..], i, start, end, [(8 * num + 2) as byte] + Varint(|payload|), payload);
    FieldAssociates(num, payload);
  }

  lemma {:induction false} FieldAssociates(num: nat, payload: bytes)
    requires 1 <= num <= 2
    ensures [(8 * num + 2) as byte] + Varint(|payload|) + payload == FieldBytes(num, payload)
  {
    hide Varint;
  }

  /** `Attribute.MarshalToSizedBuffer`: fills exactly `AttributeSize(m)` bytes. */
  method MarshalAttributeTo(m: Attribute, buf: array<byte>, end: nat) returns (n: nat)
    requires AttributeSize(m) <= end <= buf.Length
    modifies buf
    ensures n == AttributeSize(m) && Wrote(old(buf[..]), buf[..], end - n, end, AttributeBytes(m))
  {
    hide FieldBytes, FieldSize, Wrote;
    AttributeSizeIsLength(m);
    ghost var s0 := buf[..];
    var mid := WriteIfAny(buf, end, 2, m.value);
    ghost var s1 := buf[..];
    var i := WriteIfAny(buf, mid, 1, m.key);
    WroteBoth(s0, s1, buf[..], i, mid, end, FieldOrNothing(1, m.key), FieldOrNothing(2, m.value));
    n := end - i;
  }

  method WriteIfAny(buf: array<byte>, end: nat, num: nat, payload: bytes) returns (i: nat)
    requires 1 <= num <= 2 && (|payload| > 0 ==> FieldSize(|payload|) <= end) && end <= buf.Length
    modifies buf
    ensures Wrote(old(buf[..]), buf[..], i, end, FieldOrNothing(num, payload))
    ensures i == end - if |payload| > 0 then FieldSize(|payload|) else 0
  {
    hide FieldBytes, FieldSize;
    FieldSizeIsLength(num, payload);
    i := end;
    if |payload| > 0 {
      i := WriteField(buf, i, num, payload);
    } else {
      WroteNothing(buf[..], end);
    }
  }

  lemma {:induction false} RepeatedSizeSuffix(payloads: seq<bytes>, k: nat)
    requires k <= |payloads|
    ensures RepeatedSize(payloads[k..]) <= RepeatedSize(payloads)
    decreases k
  {
    if k == 0 {
      assert payloads[0..] == payloads;
    } else {
      RepeatedSizeSuffix(payloads, k - 1);
      assert payloads[k - 1..][1..] == payloads[k..];
    }
  }

  /** A repeated field, last element first. */
  method WriteRepeated(buf: array<byte>, end: nat, num: nat, payloads: seq<bytes>) returns (i: nat)
    requires 1 <= num <= 2 && RepeatedSize(payloads) <= end <= buf.Length
    modifies buf
    ensures Wrote(old(buf[..]), buf[..], i, end, Repeated(num, payloads))
    ensures i == end - RepeatedSize(payloads)
  {
    hide FieldBytes, FieldSize;
    ghost var s0 := buf[..];
    i := end;
    var k: nat := |payloads|;
    WroteNothing(s0, end);
    while k > 0
      invariant k <= |payloads| && i + RepeatedSize(payloads[k..]) == end
      invariant Wrote(s0, buf[..], i, end, Repeated(num, payloads[k..]))
    {
      k := k - 1;
      assert payloads[k..][1..] == payloads[k + 1..];
      RepeatedSizeSuffix(payloads, k);
      FieldSizeIsLength(num, payloads[k]);
      ghost var s1, mid := buf[..], i;
      i := WriteField(buf, i, num, payloads[k]);
      WroteBoth(s0, s1, buf[..], i, mid, end, FieldBytes(num, payloads[k]), Repeated(num, payloads[k + 1..]));
    }
    assert payloads[0..] == payloads;
  }

  /** `SignedBy.MarshalToSizedBuffer`. */
  method MarshalSignedByTo(m: SignedBy, buf: array<byte>, end: nat) returns (n: nat)
    requires SignedBySize(m) <= end <= buf.Length
    modifies buf
    ensures n == SignedBySize(m) && Wrote(old(buf[..]), buf[..], end - n, end, SignedByBytes(m))
  {
    hide Repeated, RepeatedSize, Wrote;
    ghost var s0 := buf[..];
    var mid := WriteRepeated(buf, end, 2, m.anyOf);
    ghost var s1 := buf[..];
    var i := WriteRepeated(buf, mid, 1, m.allOf);
    WroteBoth(s0, s1, buf[..], i, mid, end, Repeated(1, m.allOf), Repeated(2, m.anyOf));
    n := end - i;
  }

  lemma {:induction false} AttributesSizeSuffix(ms: seq<Attribute>, k: nat)
    requires k <= |ms|
    ensures AttributesSize(ms[k..]) <= AttributesSize(ms)
    decreases k
  {
    if k == 0 {
      assert ms[0..] == ms;
    } else {
      AttributesSizeSuffix(ms, k - 1);
      assert ms[k - 1..][1..] == ms[k..];
    }
  }

  /** Marshal one attribute in place and put its header in front. */
  method WriteAttribute(buf: array<byte>, end: nat, m: Attribute) returns (i: nat)
    requires FieldSize(AttributeSize(m)) <= end <= buf.Length
    modifies buf
    ensures Wrote(old(buf[..]), buf[..], i, end, FieldBytes(2, AttributeBytes(m)))
    ensures i == end - FieldSize(AttributeSize(m))
  {
    hide Sov, Varint, AttributeBytes, AttributeSize, FieldBytes;
    AttributeSizeIsLength(m);
    FieldSizeIsLength(2, AttributeBytes(m));
    ghost var s0 := buf[..];
    var size := MarshalAttributeTo(m, buf, end);
    ghost var s1 := buf[..];
    i := WriteHeader(buf, end - size, 2, size);
    WroteBoth(s0, s1, buf[..], i, end - size, end, [(8 * 2 + 2) as byte] + Varint(size), AttributeBytes(m));
    FieldAssociates(2, AttributeBytes(m));
  }

  /** Marshal the signatures in place and put their header in front. */
  method WriteSignedBy(buf: array<byte>, end: nat, m: SignedBy) returns (i: nat)
    requires FieldSize(SignedBySize(m)) <= end <= buf.Length
    modifies buf
    ensures Wrote(old(buf[..]), buf[..], i, end, FieldBytes(1, SignedByBytes(m)))
    ensures i == end - FieldSize(SignedBySize(m))
  {
    hide Sov, Varint, SignedByBytes, SignedBySize, FieldBytes;
    SignedBySizeIsLength(m);
    FieldSizeIsLength(1, SignedByBytes(m));
    ghost var s0 := buf[..];
    var size := MarshalSignedByTo(m, buf, end);
    ghost var s1 := buf[..];
    i := WriteHeader(buf, end - size, 1, size);
    WroteBoth(s0, s1, buf[..], i, end - size, end, [(8 * 1 + 2) as byte] + Varint(size), SignedByBytes(m));
    FieldAssociates(1, SignedByBytes(m));
  }

  /** The attributes, last one first. */
  method WriteAttributes(buf: array<byte>, end: nat, ms: seq<Attribute>) returns (i: nat)
    requires AttributesSize(ms) <= end <= buf.Length
    modifies buf
    ensures Wrote(old(buf[..]), buf[..], i, end, Repeated(2, EachAttribute(ms)))
    ensures i == end - AttributesSize(ms)
  {
    hide FieldBytes, FieldSize, AttributeBytes, AttributeSize;
    ghost var s0 := buf[..];
    i := end;
    var k: nat := |ms|;
    WroteNothing(s0, end);
    while k > 0
      invariant k <= |ms| && i + AttributesSize(ms[k..]) == end
      invariant Wrote(s0, buf[..], i, end, Repeated(2, EachAttribute(ms[k..])))
    {
      k := k - 1;
      assert ms[k..][1..] == ms[k + 1..];
      AttributesSizeSuffix(ms, k);
      ghost var s1, mid := buf[..], i;
      i := WriteAttribute(buf, i, ms[k]);
      assert EachAttribute(ms[k..])[1..] == EachAttribute(ms[k + 1..]);
      WroteBoth(s0, s1, buf[..], i, mid, end, FieldBytes(2, AttributeBytes(ms[k])), Repeated(2, EachAttribute(ms[k + 1..])));
    }
    assert ms[0..] == ms;
  }

  /** `PlacementRequirements.MarshalToSizedBuffer`. */
  method MarshalRequirementsTo(m: PlacementRequirements, buf: array<byte>, end: nat) returns (n: nat)
    requires RequirementsSize(m) <= end <= buf.Length
    modifies buf
    ensures n == RequirementsSize(m) && Wrote(old(buf[..]), buf[..], end - n, end, RequirementsBytes(m))
  {
    hide Repeated, FieldBytes, FieldSize, AttributesSize, Wrote;
    ghost var s0 := buf[..];
    var mid := WriteAttributes(buf, end, m.attributes);
    ghost var s1 := buf[..];
    var i := WriteSignedBy(buf, mid, m.signedBy);
    WroteBoth(s0, s1, buf[..], i, mid, end, FieldBytes(1, SignedByBytes(m.signedBy)), Repeated(2, EachAttribute(m.attributes)));
    n := end - i;
  }

  /** `PlacementRequirements.Marshal`: the whole of a buffer of exactly the computed size. */
  method MarshalRequirements(m: PlacementRequirements) returns (data: bytes)
    ensures data == RequirementsBytes(m) && |data| == RequirementsSize(m)
  {
    hide RequirementsSize, RequirementsBytes;
    var size := RequirementsSize(m);
    var buf := new byte[size];
    var n := MarshalRequirementsTo(m, buf, size);
    data := buf[..n];
  }

  // ---------------------------------------------------------------- reading forwards

  method DecodeVarint(data: bytes, pos: nat) returns (r: Result<Read, Error>)
    ensures r == ReadVarint(data, pos)
  {
    var index: nat, n: nat, acc: nat := pos, 0, 0;
    while true
      invariant pos <= index && n <= 10 && acc < Weight(n)
      invariant VarintFrom(data, index, n, acc) == ReadVarint(data, pos)
      decreases 10 - n
    {
      if 7 * n >= 64 {
        return Failure(IntOverflow);
      }
      if index >= |data| {
        return Failure(UnexpectedEOF);
      }
      var b := data[index] as int;
      GroupsDisjoint(acc, b % 128, n);
      acc := acc + Shifted(b % 128, n);
      index := index + 1;
      if b < 128 {
        return Success(Read(acc, index));
      }
      n := n + 1;
    }
  }

  /** `skipAttribute`. */
  method SkipField(data: Buffer) returns (r: Result<nat, Error>)
    ensures r == Skip(data, 0, 0)
  {
    hide ReadVarint;
    var index: nat, depth: nat := 0, 0;
    while index < |data|
      invariant Skip(data, index, depth) == Skip(data, 0, 0)
    {
      var round := SkipRoundOf(data, index, depth);
      if round.Failure? {
        return Failure(round.error);
      }
      if round.value.pos < 0 {
        return Failure(InvalidLength);
      }
      index, depth := round.value.pos, round.value.depth;
      if depth == 0 {
        return Success(index);
      }
    }
    r := Failure(UnexpectedEOF);
  }

  method SkipRoundOf(data: Buffer, pos: nat, depth: nat) returns (r: Result<Skipped, Error>)
    requires pos < |data|
    ensures r == SkipOne(data, pos, depth)
  {
    hide ReadVarint;
    var tag := DecodeVarint(data, pos);
    if tag.Failure? {
      return Failure(tag.error);
    }
    var next := tag.value.next;
    match tag.value.value % 8
    case 0 =>
      var v := DecodeVarint(data, next);
      r := if v.Failure? then Failure(v.error) else Success(Skipped(v.value.next, depth));
    case 1 => r := Success(Skipped(AddInt(next, 8), depth));
    case 2 =>
      var len := DecodeVarint(data, next);
      if len.Failure? {
        return Failure(len.error);
      }
      if Int64(len.value.value) < 0 {
        return Failure(InvalidLength);
      }
      r := Success(Skipped(AddInt(len.value.next, Int64(len.value.value)), depth));
    case 3 => r := Success(Skipped(next, depth + 1));
    case 4 => r := if depth == 0 then Failure(UnexpectedEndOfGroup) else Success(Skipped(next, depth - 1));
    case 5 => r := Success(Skipped(AddInt(next, 4), depth));
    case _ => r := Failure(IllegalWireType);
  }

  /** Tag, checks and either the bounds of a known field or the end of a skipped one. */
  method ReadField(data: Buffer, pos: nat) returns (r: Result<Field, Error>)
    requires pos < |data|
    ensures r == NextField(data, pos)
  {
    hide ReadVarint, Skip;
    var tag := DecodeVarint(data, pos);
    if tag.Failure? {
      return Failure(tag.error);
    }
    var wire := tag.value.value;
    var num := Int32(wire / 8);
    if wire % 8 == 4 {
      return Failure(EndGroupOutsideGroup);
    }
    if num <= 0 {
      return Failure(IllegalTag);
    }
    if num <= 2 {
      if wire % 8 != 2 {
        return Failure(WrongWireType);
      }
      var len := DecodeVarint(data, tag.value.next);
      if len.Failure? {
        return Failure(len.error);
      }
      var n := Int64(len.value.value);
      if n < 0 {
        return Failure(InvalidLength);
      }
      var post := AddInt(len.value.next, n);
      if post < 0 {
        return Failure(InvalidLength);
      }
      if post > |data| {
        return Failure(UnexpectedEOF);
      }
      return Success(Known(num, len.value.next, post));
    }
    var skippy := SkipField(data[pos..]);
    if skippy.Failure? {
      return Failure(skippy.error);
    }
    if AddInt(pos, skippy.value) < 0 {
      return Failure(InvalidLength);
    }
    if pos + skippy.value > |data| {
      return Failure(UnexpectedEOF);
    }
    r := Success(Unknown(pos + skippy.value));
  }

  /** `Attribute.Unmarshal`. */
  method UnmarshalAttribute(data: Buffer) returns (r: Result<Attribute, Error>)
    ensures r == ParseAttribute(data)
  {
    hide NextField;
    var m := EMPTY_ATTRIBUTE;
    var index: nat := 0;
    while index < |data|
      invariant Parse(data, index, m, HandleAttribute) == ParseAttribute(data)
    {
      var field := ReadField(data, index);
      if field.Failure? {
        return Failure(field.error);
      }
      match field.value {
        case Unknown(_) =>
        case Known(num, start, end) =>
          var payload := data[start..end];
          m := if num == 1 then m.(key := payload) else m.(value := payload);
      }
      index := field.value.end;
    }
    r := Success(m);
  }

  /** `SignedBy.Unmarshal`, into a message that may already hold entries. */
  method UnmarshalSignedBy(data: Buffer, into: SignedBy) returns (r: Result<SignedBy, Error>)
    ensures r == ParseSignedBy(data, into)
  {
    hide NextField;
    var m := into;
    var index: nat := 0;
    while index < |data|
      invariant Parse(data, index, m, HandleSignedBy) == ParseSignedBy(data, into)
    {
      var field := ReadField(data, index);
      if field.Failure? {
        return Failure(field.error);
      }
      match field.value {
        case Unknown(_) =>
        case Known(num, start, end) =>
          var payload := data[start..end];
          m := if num == 1 then m.(allOf := m.allOf + [payload]) else m.(anyOf := m.anyOf + [payload]);
      }
      index := field.value.end;
    }
    r := Success(m);
  }

  /** `PlacementRequirements.Unmarshal`. */
  method UnmarshalRequirements(data: Buffer) returns (r: Result<PlacementRequirements, Error>)
    ensures r == ParseRequirements(data)
  {
    hide NextField, ParseSignedBy, ParseAttribute;
    var m := PlacementRequirements(EMPTY_SIGNED_BY, []);
    var index: nat := 0;
    while index < |data|
      invariant Parse(data, index, m, HandleRequirements) == ParseRequirements(data)
    {
      var field := ReadField(data, index);
      if field.Failure? {
        return Failure(field.error);
      }
      match field.value {
        case Unknown(_) =>
        case Known(num, start, end) =>
          if num == 1 {
            var signedBy := UnmarshalSignedBy(data[start..end], m.signedBy);
            if signedBy.Failure? {
              return Failure(signedBy.error);
            }
            m := m.(signedBy := signedBy.value);
          } else {
            var attribute := UnmarshalAttribute(data[start..end]);
            if attribute.Failure? {
              return Failure(attribute.error);
            }
            m := m.(attributes := m.attributes + [attribute.value]);
          }
      }
      index := field.value.end;
    }
    r := Success(m);
  }

  /** Marshalling and then unmarshalling gives the message back. */
  method RoundTrip(m: PlacementRequirements) returns (r: Result<PlacementRequirements, Error>)
    requires RequirementsSize(m) < TWO63
    ensures r == Success(m)
  {
    var data := MarshalRequirements(m);
    RequirementsRoundTrip(m);
    r := UnmarshalRequirements(data);
  }
}
