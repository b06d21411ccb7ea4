/**
 * Field by field: what `Unmarshal` reads at a position, what `skipAttribute`
 * skips, and the theorem that a message reads back from any interleaving of
 * its fields with well-formed unknown ones.
 */
module WireFields {
  import opened Wrappers
  import opened Wire

  /** Go's int addition. */
  function AddInt(a: nat, b: nat): int {
    Int64(a + b)
  }

  // ---------------------------------------------------------------- skipping one unknown field

  datatype Skipped = Skipped(pos: int, depth: nat)

  /** One round of `skipAttribute`: a tag and what it announces. */
  function SkipOne(data: Buffer, pos: nat, depth: nat): (r: Result<Skipped, Error>)
    requires pos < |data|
    ensures r.Success? && r.value.pos >= 0 ==> r.value.pos > pos
  {
    match ReadVarint(data, pos)
    case Failure(e) => Failure(e)
    case Success(tag) =>
      var next := tag.next;
      match tag.value % 8
      case 0 =>
        (match ReadVarint(data, next)
         case Failure(e) => Failure(e)
         case Success(v) => Success(Skipped(v.next, depth)))
      case 1 => Success(Skipped(AddInt(next, 8), depth))
      case 2 =>
        (match ReadVarint(data, next)
         case Failure(e) => Failure(e)
         case Success(len) =>
           if Int64(len.value) < 0 then Failure(InvalidLength)
           else Success(Skipped(AddInt(len.next, Int64(len.value)), depth)))
      case 3 => Success(Skipped(next, depth + 1))
      case 4 => if depth == 0 then Failure(UnexpectedEndOfGroup) else Success(Skipped(next, depth - 1))
      case 5 => Success(Skipped(AddInt(next, 4), depth))
      case _ => Failure(IllegalWireType)
  }

  /** `skipAttribute` from `pos` at a group depth: the position after the field, which the caller still compares with the end. */
  function Skip(data: Buffer, pos: nat, depth: nat): (r: Result<nat, Error>)
    ensures r.Success? ==> r.value > pos
    decreases |data| - pos
  {
    if pos >= |data| then Failure(UnexpectedEOF)
    else
      match SkipOne(data, pos, depth)
      case Failure(e) => Failure(e)
      case Success(s) =>
        if s.pos < 0 then Failure(InvalidLength)
        else if s.depth == 0 then Success(s.pos)
        else Skip(data, s.pos, s.depth)
  }

  // ---------------------------------------------------------------- one field of a message

  datatype Field =
    | Known(num: nat, start: nat, end: nat)
    | Unknown(end: nat)

  function ReadLength(data: Buffer, pos: nat, num: nat): (r: Result<Field, Error>)
    ensures r.Success? ==> r.value.Known? && r.value.num == num && pos < r.value.start <= r.value.end <= |data|
  {
    match ReadVarint(data, pos)
    case Failure(e) => Failure(e)
    case Success(len) =>
      var n := Int64(len.value);
      if n < 0 then Failure(InvalidLength)
      else
        var post := AddInt(len.next, n);
        if post < 0 then Failure(InvalidLength)
        else if post > |data| then Failure(UnexpectedEOF)
        else Success(Known(num, len.next, post))
  }

  /** The body of the parsing loop, up to the field's own treatment. All three messages know the length-delimited fields 1 and 2. */
  function NextField(data: Buffer, pos: nat): (r: Result<Field, Error>)
    requires pos < |data|
    ensures r.Success? ==> pos < r.value.end <= |data|
    ensures r.Success? && r.value.Known? ==> 1 <= r.value.num <= 2 && r.value.start <= r.value.end
  {
    match ReadVarint(data, pos)
    case Failure(e) => Failure(e)
    case Success(tag) =>
      var num := Int32(tag.value / 8);
      if tag.value % 8 == 4 then Failure(EndGroupOutsideGroup)
      else if num <= 0 then Failure(IllegalTag)
      else if num <= 2 then
        if tag.value % 8 != 2 then Failure(WrongWireType) else ReadLength(data, tag.next, num)
      else
        match Skip(data[pos..], 0, 0)
        case Failure(e) => Failure(e)
        case Success(skippy) =>
          if AddInt(pos, skippy) < 0 then Failure(InvalidLength)
          else if pos + skippy > |data| then Failure(UnexpectedEOF)
          else Success(Unknown(pos + skippy))
  }

  /** What a message does with the payload of a known field. */
  type Handler<!M> = (M, nat, Buffer) -> Result<M, Error>

  /** `Unmarshal` from `pos`, into `m`. */
  function Parse<M>(data: Buffer, pos: nat, m: M, handle: Handler<M>): Result<M, Error>
    decreases |data| - pos
  {
    if pos >= |data| then Success(m)
    else
      match NextField(data, pos)
      case Failure(e) => Failure(e)
      case Success(Unknown(end)) => Parse(data, end, m, handle)
      case Success(Known(num, start, end)) =>
        match handle(m, num, data[start..end])
        case Failure(e) => Failure(e)
        case Success(n) => Parse(data, end, n, handle)
  }

  // ---------------------------------------------------------------- fields as written

  function FieldBytes(num: nat, payload: bytes): bytes
    requires 1 <= num <= 2
  {
    [(8 * num + 2) as byte] + (Varint(|payload|) + payload)
  }

  /** A well-formed field the message does not know: every wire type, groups with fields inside. */
  datatype Foreign =
    | ForeignVarint(num: nat, value: nat)
    | ForeignFixed64(num: nat, raw: bytes)
    | ForeignBytes(num: nat, raw: bytes)
    | ForeignGroup(num: nat, inner: seq<Foreign>)
    | ForeignFixed32(num: nat, raw: bytes)

  predicate WellFormed(f: Foreign) {
    && 1 <= f.num < 0x2000_0000
    && match f
       case ForeignVarint(_, value) => value < TWO64
       case ForeignFixed64(_, raw) => |raw| == 8
       case ForeignBytes(_, raw) => |raw| < TWO63
       case ForeignGroup(_, inner) => forall i :: 0 <= i < |inner| ==> WellFormed(inner[i])
       case ForeignFixed32(_, raw) => |raw| == 4
  }

  function ForeignBytesOf(f: Foreign): (r: bytes)
    ensures |r| >= 1
    decreases f, 0
  {
    match f
    case ForeignVarint(num, value) => Varint(8 * num) + Varint(value)
    case ForeignFixed64(num, raw) => Varint(8 * num + 1) + raw
    case ForeignBytes(num, raw) => Varint(8 * num + 2) + (Varint(|raw|) + raw)
    case ForeignGroup(num, inner) => GroupBytes(num, AllForeign(inner))
    case ForeignFixed32(num, raw) => Varint(8 * num + 5) + raw
  }

  function AllForeign(fs: seq<Foreign>): bytes
    decreases fs
  {
    if fs == [] then [] else ForeignBytesOf(fs[0]) + AllForeign(fs[1..])
  }

  // ---------------------------------------------------------------- skipping is exact

  /** Skipping goes over `part` at this depth and carries on, or stops if the depth is zero. */
  ghost predicate SkipsOver(data: Buffer, pos: nat, depth: nat, part: bytes) {
    Skip(data, pos, depth) == if depth == 0 then Success(pos + |part|) else Skip(data, pos + |part|, depth)
  }

  lemma InRange(x: nat)
    requires x < TWO63
    ensures Int64(x) == x
  {
  }

  lemma TagRead(data: Buffer, pos: nat, num: nat, wireType: nat)
    requires 1 <= num < 0x2000_0000 && wireType < 8
    requires At(data, pos, Varint(8 * num + wireType))
    ensures ReadVarint(data, pos) == Success(Read(8 * num + wireType, pos + |Varint(8 * num + wireType)|))
    ensures (8 * num + wireType) % 8 == wireType && (8 * num + wireType) / 8 == num
    ensures Int32(num) == num
    ensures pos < |data|
  {
    hide ReadVarint, Varint;
    VarintRoundTrip(data, pos, 8 * num + wireType);
  }

  /** One round that keeps the depth and lands behind `part`. */
  lemma SkipRound(data: Buffer, pos: nat, depth: nat, part: bytes)
    requires pos < |data| && SkipOne(data, pos, depth) == Success(Skipped(pos + |part|, depth))
    ensures SkipsOver(data, pos, depth, part)
  {
  }

  lemma {:induction false} SkipVarint(data: Buffer, pos: nat, depth: nat, num: nat, value: nat)
    requires 1 <= num < 0x2000_0000 && value < TWO64
    requires At(data, pos, Varint(8 * num) + Varint(value))
    ensures SkipsOver(data, pos, depth, Varint(8 * num) + Varint(value))
  {
    hide ReadVarint, Varint;
    AtSplit(data, pos, Varint(8 * num), Varint(value));
    TagRead(data, pos, num, 0);
    VarintRoundTrip(data, pos + |Varint(8 * num)|, value);
    SkipRound(data, pos, depth, Varint(8 * num) + Varint(value));
  }

  lemma {:induction false} SkipFixed(data: Buffer, pos: nat, depth: nat, num: nat, raw: bytes, wide: bool)
    requires 1 <= num < 0x2000_0000 && |raw| == if wide then 8 else 4
    requires At(data, pos, Varint(8 * num + if wide then 1 else 5) + raw)
    ensures SkipsOver(data, pos, depth, Varint(8 * num + if wide then 1 else 5) + raw)
  {
    hide ReadVarint, Varint;
    var wireType := if wide then 1 else 5;
    AtSplit(data, pos, Varint(8 * num + wireType), raw);
    TagRead(data, pos, num, wireType);
    InRange(pos + |Varint(8 * num + wireType)| + |raw|);
    SkipRound(data, pos, depth, Varint(8 * num + wireType) + raw);
  }

  lemma SkipBytes(data: Buffer, pos: nat, depth: nat, num: nat, raw: bytes)
    requires 1 <= num < 0x2000_0000 && |raw| < TWO63
    requires At(data, pos, Varint(8 * num + 2) + (Varint(|raw|) + raw))
    ensures SkipsOver(data, pos, depth, Varint(8 * num + 2) + (Varint(|raw|) + raw))
  {
    hide ReadVarint, Varint;
    var tag := Varint(8 * num + 2);
    AtSplit(data, pos, tag, Varint(|raw|) + raw);
    AtSplit(data, pos + |tag|, Varint(|raw|), raw);
    TagRead(data, pos, num, 2);
    VarintRoundTrip(data, pos + |tag|, |raw|);
    InRange(|raw|);
    InRange(pos + |tag| + |Varint(|raw|)| + |raw|);
    SkipRound(data, pos, depth, tag + (Varint(|raw|) + raw));
  }

  lemma SkipOpen(data: Buffer, pos: nat, depth: nat, num: nat)
    requires 1 <= num < 0x2000_0000 && At(data, pos, Varint(8 * num + 3))
    ensures Skip(data, pos, depth) == Skip(data, pos + |Varint(8 * num + 3)|, depth + 1)
  {
    hide ReadVarint, Varint;
    TagRead(data, pos, num, 3);
    assert SkipOne(data, pos, depth) == Success(Skipped(pos + |Varint(8 * num + 3)|, depth + 1));
  }

  lemma SkipClose(data: Buffer, pos: nat, depth: nat, num: nat)
    requires 1 <= num < 0x2000_0000 && At(data, pos, Varint(8 * num + 4))
    ensures Skip(data, pos, depth + 1) ==
            if depth == 0 then Success(pos + |Varint(8 * num + 4)|) else Skip(data, pos + |Varint(8 * num + 4)|, depth)
  {
    hide ReadVarint, Varint;
    TagRead(data, pos, num, 4);
    assert SkipOne(data, pos, depth + 1) == Success(Skipped(pos + |Varint(8 * num + 4)|, depth));
  }

  function GroupBytes(num: nat, body: bytes): bytes {
    Varint(8 * num + 3) + (body + Varint(8 * num + 4))
  }

  lemma {:induction false} GroupSplit(data: Buffer, pos: nat, num: nat, body: bytes)
    requires At(data, pos, GroupBytes(num, body))
    ensures At(data, pos, Varint(8 * num + 3))
    ensures At(data, pos + |Varint(8 * num + 3)|, body)
    ensures At(data, pos + |Varint(8 * num + 3)| + |body|, Varint(8 * num + 4))
  {
    AtSplit(data, pos, Varint(8 * num + 3), body + Varint(8 * num + 4));
    AtSplit(data, pos + |Varint(8 * num + 3)|, body, Varint(8 * num + 4));
  }

  lemma {:induction false} SkipGroup(data: Buffer, pos: nat, depth: nat, num: nat, body: bytes)
    requires 1 <= num < 0x2000_0000 && At(data, pos, GroupBytes(num, body))
    requires var start := pos + |Varint(8 * num + 3)|;
             Skip(data, start, depth + 1) == Skip(data, start + |body|, depth + 1)
    ensures SkipsOver(data, pos, depth, GroupBytes(num, body))
  {
    hide SkipOne, Varint;
    GroupSplit(data, pos, num, body);
    SkipOpen(data, pos, depth, num);
    SkipClose(data, pos + |Varint(8 * num + 3)| + |body|, depth, num);
  }

  /** `skipAttribute` stops exactly behind a well-formed field, nested groups included. */
  lemma {:induction false} SkipForeign(data: Buffer, pos: nat, depth: nat, f: Foreign)
    requires WellFormed(f) && At(data, pos, ForeignBytesOf(f))
    ensures SkipsOver(data, pos, depth, ForeignBytesOf(f))
    decreases f, 1
  {
    hide SkipOne, Varint;
    match f
    case ForeignVarint(num, value) => SkipVarint(data, pos, depth, num, value);
    case ForeignFixed64(num, raw) => SkipFixed(data, pos, depth, num, raw, true);
    case ForeignBytes(num, raw) => SkipBytes(data, pos, depth, num, raw);
    case ForeignFixed32(num, raw) => SkipFixed(data, pos, depth, num, raw, false);
    case ForeignGroup(num, inner) =>
      GroupSplit(data, pos, num, AllForeign(inner));
      SkipAllForeign(data, pos + |Varint(8 * num + 3)|, depth + 1, inner);
      SkipGroup(data, pos, depth, num, AllForeign(inner));
  }

  lemma {:induction false} SkipAllForeign(data: Buffer, pos: nat, depth: nat, fs: seq<Foreign>)
    requires depth > 0
    requires forall i :: 0 <= i < |fs| ==> WellFormed(fs[i])
    requires At(data, pos, AllForeign(fs))
    ensures Skip(data, pos, depth) == Skip(data, pos + |AllForeign(fs)|, depth)
    decreases fs
  {
    hide SkipOne, Varint;
    if fs != [] {
      AtSplit(data, pos, ForeignBytesOf(fs[0]), AllForeign(fs[1..]));
      SkipForeign(data, pos, depth, fs[0]);
      SkipAllForeign(data, pos + |ForeignBytesOf(fs[0])|, depth, fs[1..]);
    }
  }

  // ---------------------------------------------------------------- parsing what was written

  datatype Record =
    | Mine(num: nat, payload: bytes)
    | Other(field: Foreign)

  predicate WellFormedRecord(r: Record) {
    match r
    case Mine(num, payload) => 1 <= num <= 2
    case Other(f) => WellFormed(f) && f.num > 2
  }

  function RecordBytes(r: Record): bytes
    requires WellFormedRecord(r)
  {
    if r.Mine? then FieldBytes(r.num, r.payload) else ForeignBytesOf(r.field)
  }

  function Stream(rs: seq<Record>): bytes
    requires forall i :: 0 <= i < |rs| ==> WellFormedRecord(rs[i])
  {
    if rs == [] then [] else RecordBytes(rs[0]) + Stream(rs[1..])
  }

  predicate PayloadsFit(rs: seq<Record>) {
    rs != [] ==> (rs[0].Mine? ==> |rs[0].payload| < TWO63) && PayloadsFit(rs[1..])
  }

  /** What the known fields amount to, in order. */
  function Meaning<M>(m: M, rs: seq<Record>, handle: Handler<M>): Result<M, Error>
    requires PayloadsFit(rs)
  {
    if rs == [] then Success(m)
    else if rs[0].Other? then Meaning(m, rs[1..], handle)
    else
      match handle(m, rs[0].num, rs[0].payload)
      case Failure(e) => Failure(e)
      case Success(n) => Meaning(n, rs[1..], handle)
  }

  lemma {:induction false} SmallVarint(v: nat)
    requires v < 128
    ensures Varint(v) == [v as byte]
  {
  }

  lemma MineRead(data: Buffer, pos: nat, num: nat, payload: bytes)
    requires 1 <= num <= 2 && At(data, pos, FieldBytes(num, payload))
    ensures pos < |data| && |payload| < TWO63
    ensures NextField(data, pos) == Success(Known(num, pos + |FieldBytes(num, payload)| - |payload|, pos + |FieldBytes(num, payload)|))
    ensures data[pos + |FieldBytes(num, payload)| - |payload|..pos + |FieldBytes(num, payload)|] == payload
  {
    hide ReadVarint, Varint;
    var tag, len := [(8 * num + 2) as byte], Varint(|payload|);
    SmallVarint(8 * num + 2);
    AtSplit(data, pos, tag, len + payload);
    AtSplit(data, pos + 1, len, payload);
    TagRead(data, pos, num, 2);
    VarintRoundTrip(data, pos + 1, |payload|);
    InRange(|payload|);
    InRange(pos + 1 + |len| + |payload|);
  }

  lemma {:induction false} OtherRead(data: Buffer, pos: nat, f: Foreign)
    requires WellFormed(f) && f.num > 2 && At(data, pos, ForeignBytesOf(f))
    ensures pos < |data|
    ensures NextField(data, pos) == Success(Unknown(pos + |ForeignBytesOf(f)|))
  {
    hide ReadVarint, Varint;
    var part := ForeignBytesOf(f);
    var rest := data[pos..];
    assert rest[..|part|] == part;
    assert At(rest, 0, part);
    SkipForeign(rest, 0, 0, f);
    InRange(pos + |part|);
    var wireType := match f case ForeignVarint(_, _) => 0 case ForeignFixed64(_, _) => 1 case ForeignBytes(_, _) => 2 case ForeignGroup(_, _) => 3 case ForeignFixed32(_, _) => 5;
    var tag := Varint(8 * f.num + wireType);
    AtSplit(data, pos, tag, part[|tag|..]);
    TagRead(data, pos, f.num, wireType);
  }

  lemma {:induction false} ParseMine<M>(data: Buffer, pos: nat, m: M, num: nat, payload: bytes, handle: Handler<M>)
    requires 1 <= num <= 2 && At(data, pos, FieldBytes(num, payload))
    ensures |payload| < TWO63
    ensures Parse(data, pos, m, handle) ==
            match handle(m, num, payload)
            case Failure(e) => Failure(e)
            case Success(n) => Parse(data, pos + |FieldBytes(num, payload)|, n, handle)
  {
    hide NextField;
    MineRead(data, pos, num, payload);
  }

  lemma ParseOther<M>(data: Buffer, pos: nat, m: M, f: Foreign, handle: Handler<M>)
    requires WellFormed(f) && f.num > 2 && At(data, pos, ForeignBytesOf(f))
    ensures Parse(data, pos, m, handle) == Parse(data, pos + |ForeignBytesOf(f)|, m, handle)
  {
    hide NextField, ForeignBytesOf, WellFormed;
    OtherRead(data, pos, f);
  }

  lemma {:induction false} ParseEnd<M>(data: Buffer, m: M, handle: Handler<M>)
    ensures Parse(data, |data|, m, handle) == Success(m)
  {
  }

  /** Parsing a stream of records yields the meaning of its known fields: the others do not matter. */
  lemma {:induction false} ParseStream<M>(data: Buffer, pos: nat, m: M, rs: seq<Record>, handle: Handler<M>)
    requires forall i :: 0 <= i < |rs| ==> WellFormedRecord(rs[i])
    requires At(data, pos, Stream(rs)) && pos + |Stream(rs)| == |data|
    ensures PayloadsFit(rs)
    ensures Parse(data, pos, m, handle) == Meaning(m, rs, handle)
    decreases |rs|
  {
    hide Parse, FieldBytes, ForeignBytesOf;
    if rs == [] {
      ParseEnd(data, m, handle);
    } else {
      var part := RecordBytes(rs[0]);
      AtSplit(data, pos, part, Stream(rs[1..]));
      if rs[0].Mine? {
        ParseMine(data, pos, m, rs[0].num, rs[0].payload, handle);
        var handled := handle(m, rs[0].num, rs[0].payload);
        ParseStream(data, pos + |part|, if handled.Success? then handled.value else m, rs[1..], handle);
      } else {
        ParseOther(data, pos, m, rs[0].field, handle);
        ParseStream(data, pos + |part|, m, rs[1..], handle);
      }
    }
  }

  function OnlyMine(rs: seq<Record>): seq<Record> {
    if rs == [] then [] else (if rs[0].Mine? then [rs[0]] else []) + OnlyMine(rs[1..])
  }

  lemma {:induction false} OnlyMineMeans<M>(m: M, rs: seq<Record>, handle: Handler<M>)
    requires PayloadsFit(rs)
    ensures PayloadsFit(OnlyMine(rs))
    ensures Meaning(m, OnlyMine(rs), handle) == Meaning(m, rs, handle)
  {
    if rs != [] {
      if rs[0].Mine? {
        assert OnlyMine(rs)[1..] == OnlyMine(rs[1..]);
        var handled := handle(m, rs[0].num, rs[0].payload);
        OnlyMineMeans(if handled.Success? then handled.value else m, rs[1..], handle);
      } else {
        assert OnlyMine(rs) == OnlyMine(rs[1..]);
        OnlyMineMeans(m, rs[1..], handle);
      }
    }
  }

  /** Inserting well-formed unknown fields anywhere between known ones does not change the result. */
  lemma {:induction false} UnknownFieldsIgnored<M>(m: M, rs: seq<Record>, handle: Handler<M>)
    requires forall i :: 0 <= i < |rs| ==> WellFormedRecord(rs[i])
    requires |Stream(rs)| < TWO63
    ensures forall r :: r in OnlyMine(rs) ==> WellFormedRecord(r)
    ensures |Stream(OnlyMine(rs))| < TWO63
    ensures Parse(Stream(rs), 0, m, handle) == Parse(Stream(OnlyMine(rs)), 0, m, handle)
  {
    ParseStream(Stream(rs), 0, m, rs, handle);
    OnlyMineMeans(m, rs, handle);
    OnlyMineShorter(rs);
    ParseStream(Stream(OnlyMine(rs)), 0, m, OnlyMine(rs), handle);
  }

  lemma {:induction false} OnlyMineShorter(rs: seq<Record>)
    requires forall i :: 0 <= i < |rs| ==> WellFormedRecord(rs[i])
    ensures forall r :: r in OnlyMine(rs) ==> WellFormedRecord(r)
    ensures |Stream(OnlyMine(rs))| <= |Stream(rs)|
  {
    if rs != [] {
      OnlyMineShorter(rs[1..]);
      if rs[0].Mine? {
        assert OnlyMine(rs)[1..] == OnlyMine(rs[1..]);
      } else {
        assert OnlyMine(rs) == OnlyMine(rs[1..]);
      }
    }
  }

  // ---------------------------------------------------------------- malformed input

  /** A tag no message reads: an end of a group, a field number that is not positive, or a known field of another wire type. */
  predicate MalformedTag(tag: nat) {
    var num := tag / 8 % 0x1_0000_0000;
    tag % 8 == 4 || num == 0 || num >= 0x8000_0000 || (num <= 2 && tag % 8 != 2)
  }

  /** Bytes that begin with such a tag are refused, and with them the message, whatever follows. */
  lemma {:induction false} MalformedTagRefused<M>(data: Buffer, pos: nat, tag: nat, m: M, handle: Handler<M>)
    requires tag < TWO64 && At(data, pos, Varint(tag)) && MalformedTag(tag)
    ensures Parse(data, pos, m, handle).Failure?
    ensures tag % 8 == 4 ==> Parse(data, pos, m, handle) == Failure(EndGroupOutsideGroup)
  {
    hide ReadVarint, Skip;
    VarintRoundTrip(data, pos, tag);
    assert |Varint(tag)| >= 1;
  }

  /** So are a known field whose announced length reaches beyond the data, and one whose length is no int. */
  lemma {:induction false} LengthBeyondRefused<M>(data: Buffer, pos: nat, num: nat, length: nat, m: M, handle: Handler<M>)
    requires 1 <= num <= 2 && length < TWO64
    requires At(data, pos, Varint(8 * num + 2) + Varint(length))
    requires pos + |Varint(8 * num + 2)| + |Varint(length)| + length > |data|
    ensures Parse(data, pos, m, handle).Failure?
  {
    hide ReadVarint, Varint, Skip;
    AtSplit(data, pos, Varint(8 * num + 2), Varint(length));
    TagRead(data, pos, num, 2);
    var next := pos + |Varint(8 * num + 2)|;
    VarintRoundTrip(data, next, length);
    LengthBeyond(data, next, num, length);
  }

  lemma {:induction false} LengthBeyond(data: Buffer, pos: nat, num: nat, length: nat)
    requires length < TWO64 && ReadVarint(data, pos) == Success(Read(length, pos + |Varint(length)|))
    requires pos + |Varint(length)| + length > |data|
    ensures ReadLength(data, pos, num).Failure?
  {
    hide ReadVarint, Varint;
  }
}
