/**
 * The three messages of types/attribute.pb.go: what they look like on the
 * wire, how big they are, and that parsing undoes marshalling.
 */
module Messages {
  import opened Wrappers
  import opened Wire
  import opened WireFields

  // ---------------------------------------------------------------- marshalled form

  function FieldOrNothing(num: nat, payload: bytes): bytes
    requires 1 <= num <= 2
  {
    if payload == [] then [] else FieldBytes(num, payload)
  }

  function AttributeBytes(m: Attribute): bytes {
    FieldOrNothing(1, m.key) + FieldOrNothing(2, m.value)
  }

  function Repeated(num: nat, payloads: seq<bytes>): bytes
    requires 1 <= num <= 2
  {
    if payloads == [] then [] else FieldBytes(num, payloads[0]) + Repeated(num, payloads[1..])
  }

  function SignedByBytes(m: SignedBy): bytes {
    Repeated(1, m.allOf) + Repeated(2, m.anyOf)
  }

  function EachAttribute(ms: seq<Attribute>): (r: seq<bytes>)
    ensures |r| == |ms| && forall i :: 0 <= i < |ms| ==> r[i] == AttributeBytes(ms[i])
  {
    if ms == [] then [] else [AttributeBytes(ms[0])] + EachAttribute(ms[1..])
  }

  function RequirementsBytes(m: PlacementRequirements): bytes {
    FieldBytes(1, SignedByBytes(m.signedBy)) + Repeated(2, EachAttribute(m.attributes))
  }

  // ---------------------------------------------------------------- sizes

  function FieldSize(l: nat): nat {
    1 + l + Sov(l)
  }

  function AttributeSize(m: Attribute): nat {
    (if |m.key| > 0 then FieldSize(|m.key|) else 0) + (if |m.value| > 0 then FieldSize(|m.value|) else 0)
  }

  function RepeatedSize(payloads: seq<bytes>): nat {
    if payloads == [] then 0 else FieldSize(|payloads[0]|) + RepeatedSize(payloads[1..])
  }

  function SignedBySize(m: SignedBy): nat {
    RepeatedSize(m.allOf) + RepeatedSize(m.anyOf)
  }

  function AttributesSize(ms: seq<Attribute>): nat {
    if ms == [] then 0 else FieldSize(AttributeSize(ms[0])) + AttributesSize(ms[1..])
  }

  function RequirementsSize(m: PlacementRequirements): nat {
    FieldSize(SignedBySize(m.signedBy)) + AttributesSize(m.attributes)
  }

  lemma FieldSizeIsLength(num: nat, payload: bytes)
    requires 1 <= num <= 2
    ensures |FieldBytes(num, payload)| == FieldSize(|payload|)
  {
    SovIsLength(|payload|);
  }

  lemma AttributeSizeIsLength(m: Attribute)
    ensures |AttributeBytes(m)| == AttributeSize(m)
  {
    FieldSizeIsLength(1, m.key);
    FieldSizeIsLength(2, m.value);
  }

  lemma {:induction false} RepeatedSizeIsLength(num: nat, payloads: seq<bytes>)
    requires 1 <= num <= 2
    ensures |Repeated(num, payloads)| == RepeatedSize(payloads)
  {
    if payloads != [] {
      FieldSizeIsLength(num, payloads[0]);
      RepeatedSizeIsLength(num, payloads[1..]);
    }
  }

  lemma SignedBySizeIsLength(m: SignedBy)
    ensures |SignedByBytes(m)| == SignedBySize(m)
  {
    RepeatedSizeIsLength(1, m.allOf);
    RepeatedSizeIsLength(2, m.anyOf);
  }

  lemma {:induction false} AttributesSizeIsLength(ms: seq<Attribute>)
    ensures |Repeated(2, EachAttribute(ms))| == AttributesSize(ms)
  {
    if ms != [] {
      AttributeSizeIsLength(ms[0]);
      FieldSizeIsLength(2, AttributeBytes(ms[0]));
      assert EachAttribute(ms)[1..] == EachAttribute(ms[1..]);
      AttributesSizeIsLength(ms[1..]);
    }
  }

  /** `Size` is the number of bytes of the marshalled form. */
  lemma RequirementsSizeIsLength(m: PlacementRequirements)
    ensures |RequirementsBytes(m)| == RequirementsSize(m)
  {
    SignedBySizeIsLength(m.signedBy);
    FieldSizeIsLength(1, SignedByBytes(m.signedBy));
    AttributesSizeIsLength(m.attributes);
  }

  // ---------------------------------------------------------------- parsing

  function HandleAttribute(m: Attribute, num: nat, payload: Buffer): Result<Attribute, Error> {
    Success(if num == 1 then m.(key := payload) else m.(value := payload))
  }

  function HandleSignedBy(m: SignedBy, num: nat, payload: Buffer): Result<SignedBy, Error> {
    Success(if num == 1 then m.(allOf := m.allOf + [payload]) else m.(anyOf := m.anyOf + [payload]))
  }

  const EMPTY_ATTRIBUTE := Attribute([], [])
  const EMPTY_SIGNED_BY := SignedBy([], [])

  function ParseAttribute(data: Buffer): Result<Attribute, Error> {
    Parse(data, 0, EMPTY_ATTRIBUTE, HandleAttribute)
  }

  /** A second occurrence of the SignedBy field is merged into the first. */
  function ParseSignedBy(data: Buffer, into: SignedBy): Result<SignedBy, Error> {
    Parse(data, 0, into, HandleSignedBy)
  }

  function HandleRequirements(m: PlacementRequirements, num: nat, payload: Buffer): Result<PlacementRequirements, Error> {
    if num == 1 then
      match ParseSignedBy(payload, m.signedBy)
      case Failure(e) => Failure(e)
      case Success(s) => Success(m.(signedBy := s))
    else
      match ParseAttribute(payload)
      case Failure(e) => Failure(e)
      case Success(a) => Success(m.(attributes := m.attributes + [a]))
  }

  function ParseRequirements(data: Buffer): Result<PlacementRequirements, Error> {
    Parse(data, 0, PlacementRequirements(EMPTY_SIGNED_BY, []), HandleRequirements)
  }

  // ---------------------------------------------------------------- round trips

  /** The records of a repeated field. */
  function Records(num: nat, payloads: seq<bytes>): (r: seq<Record>)
    ensures |r| == |payloads| && forall i :: 0 <= i < |r| ==> r[i] == Mine(num, payloads[i])
  {
    if payloads == [] then [] else [Mine(num, payloads[0])] + Records(num, payloads[1..])
  }

  lemma {:induction false} StreamOfRecords(num: nat, payloads: seq<bytes>)
    requires 1 <= num <= 2
    ensures Stream(Records(num, payloads)) == Repeated(num, payloads)
  {
    if payloads != [] {
      assert Records(num, payloads)[1..] == Records(num, payloads[1..]);
      StreamOfRecords(num, payloads[1..]);
    }
  }

  lemma {:induction false} StreamConcat(a: seq<Record>, b: seq<Record>)
    requires forall i :: 0 <= i < |a| ==> WellFormedRecord(a[i])
    requires forall i :: 0 <= i < |b| ==> WellFormedRecord(b[i])
    ensures Stream(a + b) == Stream(a) + Stream(b)
  {
    if a == [] {
      assert a + b == b;
    } else {
      assert (a + b)[1..] == a[1..] + b;
      StreamConcat(a[1..], b);
    }
  }

  /** A message that is a stream of records parses to their meaning. */
  lemma {:induction false} ParseRecords<M>(data: Buffer, m: M, rs: seq<Record>, handle: Handler<M>)
    requires forall i :: 0 <= i < |rs| ==> WellFormedRecord(rs[i])
    requires data == Stream(rs)
    ensures PayloadsFit(rs) && Parse(data, 0, m, handle) == Meaning(m, rs, handle)
  {
    assert data[0..0 + |Stream(rs)|] == data;
    ParseStream(data, 0, m, rs, handle);
  }

  lemma AttributeRoundTrip(m: Attribute)
    requires |AttributeBytes(m)| < TWO63
    ensures ParseAttribute(AttributeBytes(m)) == Success(m)
  {
    hide Parse, FieldBytes;
    var first := if m.key == [] then [] else [Mine(1, m.key)];
    var second := if m.value == [] then [] else [Mine(2, m.value)];
    StreamConcat(first, second);
    StreamOne(1, m.key);
    StreamOne(2, m.value);
    ParseRecords(AttributeBytes(m), EMPTY_ATTRIBUTE, first + second, HandleAttribute);
    if m.key != [] {
      MeaningStep(EMPTY_ATTRIBUTE, first[0], second, HandleAttribute);
    } else {
      assert first + second == second;
    }
    if m.value != [] {
      MeaningStep(Attribute(m.key, []), second[0], [], HandleAttribute);
      assert [second[0]] + [] == second;
    }
  }

  lemma StreamOne(num: nat, payload: bytes)
    requires 1 <= num <= 2
    ensures Stream([Mine(num, payload)]) == FieldBytes(num, payload)
  {
    hide FieldBytes;
    assert [Mine(num, payload)][1..] == [];
  }

  lemma {:induction false} MeaningStep<M>(m: M, r: Record, rest: seq<Record>, handle: Handler<M>)
    requires r.Mine? && PayloadsFit([r] + rest)
    ensures PayloadsFit(rest) && |r.payload| < TWO63
    ensures handle(m, r.num, r.payload).Success? ==>
              Meaning(m, [r] + rest, handle) == Meaning(handle(m, r.num, r.payload).value, rest, handle)
  {
    assert ([r] + rest)[1..] == rest;
  }

  function Extended(m: SignedBy, num: nat, xs: seq<bytes>): SignedBy {
    if num == 1 then m.(allOf := m.allOf + xs) else m.(anyOf := m.anyOf + xs)
  }

  lemma ExtendedStep(m: SignedBy, num: nat, xs: seq<bytes>)
    ensures Extended(m, num, []) == m
    ensures xs != [] ==> Extended(Extended(m, num, [xs[0]]), num, xs[1..]) == Extended(m, num, xs)
  {
    assert m.allOf + [] == m.allOf && m.anyOf + [] == m.anyOf;
    if xs != [] {
      assert m.allOf + [xs[0]] + xs[1..] == m.allOf + xs;
      assert m.anyOf + [xs[0]] + xs[1..] == m.anyOf + xs;
    }
  }

  lemma {:induction false} SignedByMeaning(m: SignedBy, num: nat, xs: seq<bytes>, rest: seq<Record>)
    requires PayloadsFit(Records(num, xs) + rest)
    ensures PayloadsFit(rest)
    ensures Meaning(m, Records(num, xs) + rest, HandleSignedBy) == Meaning(Extended(m, num, xs), rest, HandleSignedBy)
    decreases |xs|
  {
    ExtendedStep(m, num, xs);
    var rs := Records(num, xs) + rest;
    if xs == [] {
      assert rs == rest;
    } else {
      hide Meaning, Extended;
      var tail := Records(num, xs[1..]) + rest;
      assert rs == [Mine(num, xs[0])] + tail;
      MeaningStep(m, Mine(num, xs[0]), tail, HandleSignedBy);
      HandleExtends(m, num, xs[0]);
      SignedByMeaning(Extended(m, num, [xs[0]]), num, xs[1..], rest);
    }
  }

  lemma HandleExtends(m: SignedBy, num: nat, x: Buffer)
    ensures HandleSignedBy(m, num, x) == Success(Extended(m, num, [x]))
  {
  }

  lemma SignedByRoundTrip(m: SignedBy)
    requires |SignedByBytes(m)| < TWO63
    ensures ParseSignedBy(SignedByBytes(m), EMPTY_SIGNED_BY) == Success(m)
  {
    hide Parse, Meaning, Stream, Records;
    var first, second := Records(1, m.allOf), Records(2, m.anyOf);
    StreamConcat(first, second);
    StreamOfRecords(1, m.allOf);
    StreamOfRecords(2, m.anyOf);
    ParseRecords(SignedByBytes(m), EMPTY_SIGNED_BY, first + second, HandleSignedBy);
    SignedByMeaning(EMPTY_SIGNED_BY, 1, m.allOf, second);
    assert second == second + [];
    SignedByMeaning(SignedBy(m.allOf, []), 2, m.anyOf, []);
    NoMeaning(m, HandleSignedBy);
    assert [] + m.allOf == m.allOf && [] + m.anyOf == m.anyOf;
  }

  lemma NoMeaning<M>(m: M, handle: Handler<M>)
    ensures Meaning(m, [], handle) == Success(m)
  {
  }

  lemma HandleAddsAttribute(m: PlacementRequirements, a: Attribute)
    requires |AttributeBytes(a)| < TWO63
    ensures HandleRequirements(m, 2, AttributeBytes(a)) == Success(m.(attributes := m.attributes + [a]))
  {
    hide ParseAttribute, AttributeBytes;
    AttributeRoundTrip(a);
  }

  lemma {:induction false} FirstAttribute(m: PlacementRequirements, ms: seq<Attribute>)
    requires ms != [] && PayloadsFit(Records(2, EachAttribute(ms)))
    ensures PayloadsFit(Records(2, EachAttribute(ms[1..])))
    ensures Meaning(m, Records(2, EachAttribute(ms)), HandleRequirements) ==
            Meaning(m.(attributes := m.attributes + [ms[0]]), Records(2, EachAttribute(ms[1..])), HandleRequirements)
  {
    hide AttributeBytes, HandleRequirements, Meaning, PayloadsFit, Records, EachAttribute;
    AttributeRecords(ms);
    MeaningStep(m, Mine(2, AttributeBytes(ms[0])), Records(2, EachAttribute(ms[1..])), HandleRequirements);
    HandleAddsAttribute(m, ms[0]);
  }

  function Added(m: PlacementRequirements, ms: seq<Attribute>): PlacementRequirements {
    m.(attributes := m.attributes + ms)
  }

  lemma AddedStep(m: PlacementRequirements, ms: seq<Attribute>)
    ensures Added(m, []) == m
    ensures ms != [] ==> Added(m.(attributes := m.attributes + [ms[0]]), ms[1..]) == Added(m, ms)
  {
    assert m.attributes + [] == m.attributes;
    if ms != [] {
      assert m.attributes + [ms[0]] + ms[1..] == m.attributes + ms;
    }
  }

  lemma {:induction false} RequirementsMeaning(m: PlacementRequirements, ms: seq<Attribute>)
    requires PayloadsFit(Records(2, EachAttribute(ms)))
    ensures Meaning(m, Records(2, EachAttribute(ms)), HandleRequirements) == Success(Added(m, ms))
    decreases |ms|
  {
    hide HandleRequirements, Meaning, PayloadsFit, AttributeBytes, Added;
    AddedStep(m, ms);
    if ms == [] {
      NoMeaning(m, HandleRequirements);
    } else {
      FirstAttribute(m, ms);
      RequirementsMeaning(m.(attributes := m.attributes + [ms[0]]), ms[1..]);
    }
  }

  lemma {:induction false} AttributeRecords(ms: seq<Attribute>)
    requires ms != []
    ensures Records(2, EachAttribute(ms)) == [Mine(2, AttributeBytes(ms[0]))] + Records(2, EachAttribute(ms[1..]))
  {
    hide AttributeBytes;
    assert EachAttribute(ms)[1..] == EachAttribute(ms[1..]);
  }

  /** Unmarshal(Marshal(m)) = m. */
  lemma RequirementsRoundTrip(m: PlacementRequirements)
    requires |RequirementsBytes(m)| < TWO63
    ensures ParseRequirements(RequirementsBytes(m)) == Success(m)
  {
    hide Parse, ParseSignedBy, SignedByBytes, Records, FieldBytes;
    var head, tail := Mine(1, SignedByBytes(m.signedBy)), Records(2, EachAttribute(m.attributes));
    var rs := [head] + tail;
    assert rs[1..] == tail;
    StreamOfRecords(2, EachAttribute(m.attributes));
    var empty := PlacementRequirements(EMPTY_SIGNED_BY, []);
    ParseRecords(RequirementsBytes(m), empty, rs, HandleRequirements);
    SignedByRoundTrip(m.signedBy);
    RequirementsMeaning(PlacementRequirements(m.signedBy, []), m.attributes);
    assert [] + m.attributes == m.attributes;
  }

  // ---------------------------------------------------------------- field numbers

  /** Key and all-of are field 1, value and any-of field 2; the requirements begin with the signatures, even if there are none. */
  lemma {:induction false} FieldNumbers(a: Attribute, s: SignedBy, r: PlacementRequirements)
    ensures a.key != [] ==> AttributeBytes(a) == [0x0A] + Varint(|a.key|) + a.key + AttributeBytes(a.(key := []))
    ensures a.value != [] ==> AttributeBytes(a.(key := [])) == [0x12] + Varint(|a.value|) + a.value
    ensures s.allOf != [] ==> SignedByBytes(s)[0] == 0x0A
    ensures s.allOf == [] && s.anyOf != [] ==> SignedByBytes(s)[0] == 0x12
    ensures RequirementsBytes(r)[0] == 0x0A
    ensures r.attributes != [] ==>
              |FieldBytes(1, SignedByBytes(r.signedBy))| < |RequirementsBytes(r)|
              && RequirementsBytes(r)[|FieldBytes(1, SignedByBytes(r.signedBy))|] == 0x12
  {
    hide Varint;
  }
}
