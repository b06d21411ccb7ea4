/**
 * The protobuf wire format of Attribute, SignedBy and PlacementRequirements
 * (types/attribute.pb.go): what the generated writer and parser compute.
 * Go strings are byte sequences; machine integers are written out.
 */
module Wire {
  import opened Wrappers

  newtype byte = x: int | 0 <= x < 256

  type bytes = seq<byte>

  const TWO31 := 0x8000_0000
  const TWO32 := 0x1_0000_0000
  const TWO63 := 0x8000_0000_0000_0000
  const TWO64 := 0x1_0000_0000_0000_0000

  /** A Go slice: its length is a non-negative int64. */
  type Buffer = s: bytes | |s| < TWO63

  datatype Attribute = Attribute(key: bytes, value: bytes)

  datatype SignedBy = SignedBy(allOf: seq<bytes>, anyOf: seq<bytes>)

  datatype PlacementRequirements = PlacementRequirements(signedBy: SignedBy, attributes: seq<Attribute>)

  datatype Error =
    | IntOverflow
    | UnexpectedEOF
    | InvalidLength
    | EndGroupOutsideGroup
    | IllegalTag
    | WrongWireType
    | UnexpectedEndOfGroup
    | IllegalWireType

  /** Conversion of a uint64 to int64. */
  function Int64(x: nat): int {
    var y := x % TWO64;
    if y < TWO63 then y else y - TWO64
  }

  /** Conversion of a uint64 to int32. */
  function Int32(x: nat): int {
    var y := x % TWO32;
    if y < TWO31 then y else y - TWO32
  }

  // ---------------------------------------------------------------- varints

  function Varint(v: nat): (r: bytes)
    ensures |r| >= 1
  {
    if v < 128 then [v as byte] else [(v % 128 + 128) as byte] + Varint(v / 128)
  }

  function BitLen(x: nat): nat {
    if x == 0 then 0 else 1 + BitLen(x / 2)
  }

  /** `sovAttribute`: the size of a varint from the bit length of `x | 1`. */
  function Sov(x: nat): nat {
    (BitLen(if x % 2 == 0 then x + 1 else x) + 6) / 7
  }

  lemma BitLenOrOne(x: nat)
    requires x >= 1
    ensures BitLen(if x % 2 == 0 then x + 1 else x) == BitLen(x)
  {
    if x % 2 == 0 {
      assert (x + 1) / 2 == x / 2;
    }
  }

  lemma {:induction false} BitLenSeven(x: nat)
    requires x >= 128
    ensures BitLen(x) == 7 + BitLen(x / 128)
  {
    assert BitLen(x) == 2 + BitLen(x / 4) by {
      assert x / 2 / 2 == x / 4;
    }
    assert BitLen(x / 4) == 2 + BitLen(x / 16) by {
      assert x / 4 / 2 == x / 8 && x / 8 / 2 == x / 16;
    }
    assert BitLen(x / 16) == 2 + BitLen(x / 64) by {
      assert x / 16 / 2 == x / 32 && x / 32 / 2 == x / 64;
    }
    assert x / 64 / 2 == x / 128;
  }

  lemma {:induction false} BitLenSmall(x: nat)
    requires 1 <= x < 128
    ensures 1 <= BitLen(x) <= 7
  {
    BitLenBelow(x, 7);
  }

  function Pow2(n: nat): nat {
    if n == 0 then 1 else 2 * Pow2(n - 1)
  }

  lemma {:induction false} BitLenBelow(x: nat, n: nat)
    requires x < Pow2(n)
    ensures BitLen(x) <= n
  {
    if x > 0 {
      BitLenBelow(x / 2, n - 1);
    }
  }

  /** The size the source computes by bit length is the length of the varint. */
  lemma {:induction false} SovIsLength(v: nat)
    ensures |Varint(v)| == Sov(v)
  {
    if v < 128 {
      BitLenSmall(if v % 2 == 0 then v + 1 else v);
    } else {
      SovIsLength(v / 128);
      BitLenOrOne(v);
      BitLenOrOne(v / 128);
      BitLenSeven(v);
    }
  }

  datatype Read = Read(value: nat, next: nat)

  /** The weight of the `n`th group of seven bits. */
  function Weight(n: nat): nat {
    if n == 0 then 1 else 128 * Weight(n - 1)
  }

  /**
   * The reading loop after `n` bytes: `shift` is `7 * n`. Or-ing the next
   * group in is addition, see `GroupsDisjoint`.
   */
  function VarintFrom(data: bytes, pos: nat, n: nat, acc: nat): (r: Result<Read, Error>)
    ensures r.Success? ==> pos < r.value.next <= |data| && r.value.value < TWO64
    decreases |data| - pos
  {
    if 7 * n >= 64 then Failure(IntOverflow)
    else if pos >= |data| then Failure(UnexpectedEOF)
    else
      var b := data[pos] as int;
      var sum := (acc + (b % 128) * Weight(n)) % TWO64;
      if b < 128 then Success(Read(sum, pos + 1)) else VarintFrom(data, pos + 1, n + 1, sum)
  }

  /** A group of seven bits shifted into place in a 64-bit word, which cuts off what does not fit. */
  function Shifted(group: nat, n: nat): nat {
    (group * Weight(n)) % TWO64
  }

  lemma NinthWeight()
    ensures Weight(9) == 0x8000_0000_0000_0000 && 2 * Weight(9) == TWO64
  {
    assert Weight(1) == 128 && Weight(2) == 128 * 128 && Weight(3) == 128 * Weight(2);
    assert Weight(4) == 128 * Weight(3) && Weight(5) == 128 * Weight(4) && Weight(6) == 128 * Weight(5);
    assert Weight(7) == 128 * Weight(6) && Weight(8) == 128 * Weight(7) && Weight(9) == 128 * Weight(8);
  }

  lemma {:induction false} WeightGrows(n: nat, m: nat)
    requires n <= m
    ensures 0 < Weight(n) <= Weight(m)
  {
    if n < m {
      WeightGrows(n, m - 1);
    } else if n > 0 {
      WeightGrows(n - 1, n - 1);
    }
  }

  lemma OnceAtLeast(k: nat, m: nat)
    requires k > 0
    ensures k * m >= m
  {
  }

  lemma RemainderOf(q: nat, r: nat, m: nat)
    requires r < m
    ensures (q * m + r) % m == r
  {
    var d, e := (q * m + r) / m, (q * m + r) % m;
    assert q * m + r == d * m + e;
    if d < q {
      assert (q - d) * m == q * m - d * m;
      OnceAtLeast(q - d, m);
    } else if d > q {
      assert (d - q) * m == d * m - q * m;
      OnceAtLeast(d - q, m);
    }
  }

  /**
   * The accumulator lies below the next group, which is a multiple of its
   * weight, so the two share no bit; the sum is below the weight after it
   * and within the word, also for the tenth group, of which one bit is left.
   */
  lemma GroupsDisjoint(acc: nat, group: nat, n: nat)
    requires acc < Weight(n) && group < 128 && n < 10
    ensures Shifted(group, n) % Weight(n) == 0
    ensures acc + Shifted(group, n) < TWO64 && acc + Shifted(group, n) < Weight(n + 1)
    ensures acc + Shifted(group, n) == (acc + group * Weight(n)) % TWO64
  {
    var w := Weight(n);
    WeightGrows(n, 9);
    NinthWeight();
    if n == 9 {
      LastGroup(acc, group, w);
    } else {
      WeightGrows(n + 1, 9);
      GroupBelow(acc, group, w);
      RemainderOf(0, group * w, TWO64);
      RemainderOf(0, acc + group * w, TWO64);
      RemainderOf(group, 0, w);
    }
  }

  lemma GroupBelow(acc: nat, group: nat, w: nat)
    requires acc < w && group < 128
    ensures acc + group * w < 128 * w
  {
    assert group * w <= 127 * w;
  }

  lemma LastGroup(acc: nat, group: nat, w: nat)
    requires 2 * w == TWO64 && acc < w && group < 128
    ensures (group * w) % TWO64 == group % 2 * w && (acc + group * w) % TWO64 == acc + group % 2 * w
    ensures ((group * w) % TWO64) % w == 0 && acc + group % 2 * w < TWO64
  {
    var half, bit := group / 2, group % 2;
    assert group * w == half * TWO64 + bit * w;
    RemainderOf(half, bit * w, TWO64);
    RemainderOf(half, acc + bit * w, TWO64);
    RemainderOf(bit, 0, w);
  }

  function ReadVarint(data: bytes, pos: nat): (r: Result<Read, Error>)
    ensures r.Success? ==> pos < r.value.next <= |data| && r.value.value < TWO64
  {
    VarintFrom(data, pos, 0, 0)
  }

  /** `part` occurs in `data` at `pos`. */
  predicate At(data: bytes, pos: nat, part: bytes) {
    pos + |part| <= |data| && data[pos..pos + |part|] == part
  }

  lemma AtSplit(data: bytes, pos: nat, a: bytes, b: bytes)
    requires At(data, pos, a + b)
    ensures At(data, pos, a) && At(data, pos + |a|, b)
  {
    assert data[pos..pos + |a|] == (a + b)[..|a|] == a;
    assert data[pos + |a|..pos + |a| + |b|] == (a + b)[|a|..] == b;
  }

  lemma {:induction false} WeightLarge(n: nat)
    requires n >= 10
    ensures Weight(n) >= TWO64
  {
    if n == 10 {
      assert Weight(5) == 128 * (128 * (128 * (128 * 128))) by {
        assert Weight(1) == 128 && Weight(2) == 128 * 128 && Weight(3) == 128 * Weight(2) && Weight(4) == 128 * Weight(3);
      }
      assert Weight(6) == 128 * Weight(5) && Weight(7) == 128 * Weight(6) && Weight(8) == 128 * Weight(7);
      assert Weight(9) == 128 * Weight(8) && Weight(10) == 128 * Weight(9);
    } else {
      WeightLarge(n - 1);
    }
  }

  lemma SplitWeight(v: nat, n: nat)
    ensures v * Weight(n) == (v % 128) * Weight(n) + (v / 128) * Weight(n + 1)
  {
    var low, high, w := v % 128, v / 128, Weight(n);
    assert v == low + 128 * high;
    assert (low + 128 * high) * w == low * w + high * (128 * w);
  }

  lemma Small(x: nat)
    requires x < TWO64
    ensures x % TWO64 == x
  {
  }

  lemma {:induction false} ReadLast(data: bytes, pos: nat, n: nat, acc: nat)
    requires n < 10 && pos < |data| && data[pos] < 128
    requires acc + data[pos] as int * Weight(n) < TWO64
    ensures VarintFrom(data, pos, n, acc) == Success(Read(acc + data[pos] as int * Weight(n), pos + 1))
  {
    hide Weight;
    assert data[pos] as int % 128 == data[pos] as int;
    Small(acc + data[pos] as int * Weight(n));
  }

  lemma ReadMore(data: bytes, pos: nat, n: nat, acc: nat)
    requires n < 10 && pos < |data| && data[pos] >= 128
    requires acc + (data[pos] as int - 128) * Weight(n) < TWO64
    ensures VarintFrom(data, pos, n, acc) == VarintFrom(data, pos + 1, n + 1, acc + (data[pos] as int - 128) * Weight(n))
  {
    hide Weight;
    assert data[pos] as int % 128 == data[pos] as int - 128;
    Small(acc + (data[pos] as int - 128) * Weight(n));
  }

  lemma TimesAtLeast(v: nat, w: nat)
    requires v > 0
    ensures v * w >= w
  {
  }

  lemma {:induction false} FewBytes(v: nat, n: nat)
    requires v > 0 && v * Weight(n) < TWO64
    ensures n < 10
  {
    TimesAtLeast(v, Weight(n));
    if n >= 10 {
      WeightLarge(n);
    }
  }

  lemma {:induction false} VarintReads(data: bytes, pos: nat, n: nat, acc: nat, v: nat)
    requires At(data, pos, Varint(v))
    requires acc + v * Weight(n) < TWO64
    requires v > 0 || n == 0
    ensures VarintFrom(data, pos, n, acc) == Success(Read(acc + v * Weight(n), pos + |Varint(v)|))
    decreases v
  {
    hide VarintFrom, Weight;
    if v > 0 {
      FewBytes(v, n);
    }
    assert data[pos] == data[pos..pos + |Varint(v)|][0] == Varint(v)[0];
    if v < 128 {
      ReadLast(data, pos, n, acc);
    } else {
      SplitWeight(v, n);
      AtSplit(data, pos, [Varint(v)[0]], Varint(v / 128));
      ReadMore(data, pos, n, acc);
      VarintReads(data, pos + 1, n + 1, acc + (v % 128) * Weight(n), v / 128);
    }
  }

  /** Reading back a written varint, over the whole uint64 range. */
  lemma {:induction false} VarintRoundTrip(data: bytes, pos: nat, v: nat)
    requires v < TWO64 && At(data, pos, Varint(v))
    ensures ReadVarint(data, pos) == Success(Read(v, pos + |Varint(v)|))
  {
    VarintReads(data, pos, 0, 0, v);
  }
}
