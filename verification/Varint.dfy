/** Base 128 varints: the writer, its size function and the reader of the generated protobuf code. */
module Varint {
  import opened Wrappers
  import opened Numbers

  type Byte = b: int | 0 <= b < 256
  type UInt64 = v: int | 0 <= v < TWO_64

  datatype Error =
    | IntOverflow
    | UnexpectedEOF
    | InvalidLength
    | UnexpectedEndOfGroup
    | WrongWireType
    | EndGroup
    | IllegalTag
    | IllegalWireType

  // ---------- writing ----------

  /** Seven bits a byte, the least significant group first, the high bit set on all but the last. */
  function Encode(v: nat): (r: seq<Byte>)
    ensures |r| >= 1
  {
    if v < 128 then [v] else [v % 128 + 128] + Encode(v / 128)
  }

  /** The number of bits of a number, none for zero. */
  function Len(v: nat): nat {
    if v == 0 then 0 else 1 + Len(v / 2)
  }

  function SetLowBit(v: nat): nat {
    if v % 2 == 0 then v + 1 else v
  }

  function Sov(v: nat): nat {
    (Len(SetLowBit(v)) + 6) / 7
  }

  lemma LenHalf(v: nat)
    requires v >= 1
    ensures Len(v) == 1 + Len(v / 2)
  {
  }

  lemma LenOfSevenBits(v: nat, a: nat, b: nat, c: nat, d: nat, e: nat, f: nat)
    requires v >= 128
    requires a == v / 2 && b == a / 2 && c == b / 2 && d == c / 2 && e == d / 2 && f == e / 2
    ensures Len(v) == 7 + Len(v / 128)
  {
    LenHalf(v);
    LenHalf(a);
    LenHalf(b);
    LenHalf(c);
    LenHalf(d);
    LenHalf(e);
    LenHalf(f);
    assert f / 2 == v / 128;
  }

  lemma LenIgnoresLowBit(v: nat)
    requires v >= 1
    ensures Len(SetLowBit(v)) == Len(v)
  {
    assert SetLowBit(v) / 2 == v / 2;
  }

  function Pow2(k: nat): (p: nat)
    ensures p >= 1
  {
    if k == 0 then 1 else 2 * Pow2(k - 1)
  }

  lemma {:induction false} LenBound(v: nat, k: nat)
    requires v < Pow2(k)
    ensures Len(v) <= k
  {
    if v > 0 {
      if k > 0 { LenBound(v / 2, k - 1); }
    }
  }

  /** The size function gives exactly the number of bytes the writer uses. */
  lemma {:induction false} SovIsLength(v: nat)
    ensures |Encode(v)| == Sov(v)
  {
    if v < 128 {
      assert Pow2(3) == 8 && Pow2(5) == 4 * Pow2(3) && Pow2(7) == 4 * Pow2(5);
      LenBound(SetLowBit(v), 7);
    } else {
      SovIsLength(v / 128);
      LenIgnoresLowBit(v);
      LenIgnoresLowBit(v / 128);
      var a, d := v / 2, v / 2 / 2 / 2 / 2;
      LenOfSevenBits(v, a, a / 2, a / 2 / 2, d, d / 2, d / 2 / 2);
    }
  }

  lemma {:induction false} LengthBound(v: nat, k: nat)
    requires v < Pow128(k + 1)
    ensures |Encode(v)| <= k + 1
  {
    if v >= 128 {
      assert Pow128(k + 1) == 128 * Pow128(k);
      if k > 0 { LengthBound(v / 128, k - 1); }
    }
  }

  function Pow128(k: nat): (p: nat)
    ensures p >= 1
  {
    if k == 0 then 1 else 128 * Pow128(k - 1)
  }

  lemma AtMostTenBytes(v: UInt64)
    ensures |Encode(v)| <= 10
  {
    assert Pow128(2) == 128 * 128;
    assert Pow128(4) == 128 * 128 * Pow128(2);
    assert Pow128(6) == 128 * 128 * Pow128(4);
    assert Pow128(8) == 128 * 128 * Pow128(6);
    assert Pow128(10) == 128 * 128 * Pow128(8);
    LengthBound(v, 9);
  }

  method SovGenerated(v: UInt64) returns (n: nat)
    ensures n == |Encode(v)|
  {
    SovIsLength(v);
    n := Sov(v);
  }

  /** Writes the varint so that it ends at offset and returns where it starts. */
  method EncodeVarint(data: array<Byte>, offset: nat, v: UInt64) returns (base: nat)
    requires |Encode(v)| <= offset <= data.Length
    modifies data
    ensures base == offset - |Encode(v)|
    ensures data[base..offset] == Encode(v)
    ensures forall j :: 0 <= j < base || offset <= j < data.Length ==> data[j] == old(data[j])
  {
    var n := SovGenerated(v);
    base := offset - n;
    PutGroups(data, base, v, Encode(v));
  }

  /** Writes the groups of v from base on; code is what they are. */
  method PutGroups(data: array<Byte>, base: nat, v: nat, ghost code: seq<Byte>)
    requires code == Encode(v) && base + |code| <= data.Length
    modifies data
    ensures data[base..base + |code|] == code
    ensures forall j :: 0 <= j < base || base + |code| <= j < data.Length ==> data[j] == old(data[j])
  {
    var i: nat, rest: nat := base, v;
    ghost var k := 0;
    while rest >= 128
      invariant i == base + k && 0 <= k < |code| && code[k..] == Encode(rest)
      invariant forall j :: 0 <= j < k ==> data[base + j] == code[j]
      invariant forall j :: 0 <= j < base || base + |code| <= j < data.Length ==> data[j] == old(data[j])
    {
      var group, more := Split(rest);
      assert code[k] == code[k..][0] == group && code[k + 1..] == code[k..][1..] == Encode(more);
      data[i] := group;
      rest, i := more, i + 1;
      k := k + 1;
    }
    assert code[k..] == [rest];
    data[i] := rest;
  }

  /** The byte for the lowest seven bits, and the bits above them. */
  method Split(v: nat) returns (group: Byte, more: nat)
    requires v >= 128
    ensures Encode(v) == [group] + Encode(more)
    ensures group == v % 128 + 128 && more == v / 128
    ensures more < v
  {
    group, more := v % 128 + 128, v / 128;
  }

  // ---------- reading ----------

  predicate Width(m: nat) { m == TWO_32 || m == TWO_64 }

  lemma ModPlus(a: nat, b: nat, m: nat)
    requires Width(m)
    ensures (a % m + b) % m == (a + b) % m
  {
    if m == TWO_32 {
      assert (a % TWO_32 + b) % TWO_32 == (a + b) % TWO_32;
    } else {
      assert (a % TWO_64 + b) % TWO_64 == (a + b) % TWO_64;
    }
  }

  /** The lowest group and the others, scaled. */
  lemma Grouped(v: nat, p: nat)
    ensures v * p == v % 128 * p + v / 128 * (128 * p)
  {
    var c, rest := v % 128, v / 128;
    assert v == c + rest * 128;
    assert (c + rest * 128) * p == c * p + rest * 128 * p;
  }

  lemma GroupsAdd(x: nat, v: nat, p: nat, m: nat)
    requires Width(m)
    ensures ((x + v % 128 * p) % m + v / 128 * (128 * p)) % m == (x + v * p) % m
  {
    Grouped(v, p);
    ModPlus(x + v % 128 * p, v / 128 * (128 * p), m);
  }

  /** The number in the groups from i on, of a varint that begins at start, and where it ends. */
  function Groups(d: seq<Byte>, start: nat, i: nat): (r: Result<(nat, nat), Error>)
    requires start <= i
    ensures r.Success? ==> i < r.value.1 <= |d|
    decreases start + 10 - i
  {
    if i - start >= 10 then Failure(IntOverflow)
    else if i >= |d| then Failure(UnexpectedEOF)
    else if d[i] < 128 then Success((d[i], i + 1))
    else
      match Groups(d, start, i + 1)
      case Failure(e) => Failure(e)
      case Success((v, j)) => Success((d[i] - 128 + 128 * v, j))
  }

  /** The number at index i, truncated to one of m values, and where it ends. */
  function ReadAt(d: seq<Byte>, i: nat, m: nat): (r: Result<(nat, nat), Error>)
    requires Width(m)
    ensures r.Success? ==> r.value.0 < m && i < r.value.1 <= |d|
  {
    match Groups(d, i, i)
    case Failure(e) => Failure(e)
    case Success((v, j)) => Success((v % m, j))
  }

  /** What is read of the groups before, x, and the groups still to come make up the number. */
  predicate Continues(whole: Result<(nat, nat), Error>, rest: Result<(nat, nat), Error>, x: nat, scale: nat, m: nat)
    requires Width(m)
  {
    match rest
    case Failure(e) => whole == Failure(e)
    case Success((v, j)) => whole.Success? && whole.value.1 == j && whole.value.0 % m == (x + v * scale) % m
  }

  lemma GroupJoins(x: nat, b: Byte, v: nat, scale: nat, m: nat)
    requires Width(m) && b >= 128
    ensures ((x + b % 128 * scale) % m + v * (128 * scale)) % m == (x + (b - 128 + 128 * v) * scale) % m
  {
    var joined := b - 128 + 128 * v;
    assert joined % 128 == b % 128 && joined / 128 == v;
    GroupsAdd(x, joined, scale, m);
  }

  lemma NextGroup(whole: Result<(nat, nat), Error>, d: seq<Byte>, start: nat, i: nat, x: nat, scale: nat, m: nat)
    requires Width(m) && start <= i < |d| && i - start < 10 && d[i] >= 128
    requires Continues(whole, Groups(d, start, i), x, scale, m)
    ensures Continues(whole, Groups(d, start, i + 1), (x + d[i] % 128 * scale) % m, 128 * scale, m)
  {
    match Groups(d, start, i + 1)
    case Failure(_) =>
    case Success((v, _)) => GroupJoins(x, d[i], v, scale, m);
  }

  /**
   * Reads a number of m values, m being 2^64 or 2^32, group by group. The groups do not overlap,
   * so that or-ing a shifted group into the value adds it, less the bits that are shifted out.
   */
  method ReadVarint(d: seq<Byte>, start: nat, m: nat) returns (r: Result<(nat, nat), Error>)
    requires Width(m)
    ensures r == ReadAt(d, start, m)
  {
    ghost var whole := Groups(d, start, start);
    var i: nat, shift: nat, x: nat, scale: nat := start, 0, 0, 1;
    while true
      invariant shift == 7 * (i - start) && start <= i <= start + 10 && x < m
      invariant Continues(whole, Groups(d, start, i), x, scale, m)
      decreases start + 10 - i
    {
      if shift >= 64 {
        return Failure(IntOverflow);
      }
      if i >= |d| {
        return Failure(UnexpectedEOF);
      }
      var b := d[i];
      if b >= 128 { NextGroup(whole, d, start, i, x, scale, m); }
      i := i + 1;
      x := (x + b % 128 * scale) % m;
      if b < 128 {
        return Success((x, i));
      }
      shift, scale := shift + 7, 128 * scale;
    }
  }

  // ---------- round trip ----------

  /** s stands in d at i. */
  predicate At<T(==)>(d: seq<T>, i: nat, s: seq<T>) {
    i + |s| <= |d| && d[i..i + |s|] == s
  }

  lemma AtSplit<T>(d: seq<T>, i: nat, a: seq<T>, b: seq<T>)
    requires At(d, i, a + b)
    ensures At(d, i, a) && At(d, i + |a|, b)
  {
    assert d[i..i + |a|] == d[i..i + |a + b|][..|a|];
    assert d[i + |a|..i + |a| + |b|] == d[i..i + |a + b|][|a|..];
  }

  /** Reading what was written yields the number. */
  lemma {:induction false} GroupsWritten(d: seq<Byte>, start: nat, i: nat, v: nat)
    requires start <= i && At(d, i, Encode(v)) && i - start + |Encode(v)| <= 10
    ensures Groups(d, start, i) == Success((v, i + |Encode(v)|))
    decreases v
  {
    assert d[i] == d[i..i + |Encode(v)|][0] == Encode(v)[0];
    if v >= 128 {
      AtSplit(d, i, [v % 128 + 128], Encode(v / 128));
      GroupsWritten(d, start, i + 1, v / 128);
    }
  }

  /** Into a narrower field it yields the low bits. */
  lemma ReadWritten(d: seq<Byte>, i: nat, m: nat, v: UInt64)
    requires Width(m) && At(d, i, Encode(v))
    ensures ReadAt(d, i, m) == Success((v % m, i + |Encode(v)|))
  {
    AtMostTenBytes(v);
    GroupsWritten(d, i, i, v);
  }

  lemma ReadWhole(d: seq<Byte>, i: nat, v: UInt64)
    requires At(d, i, Encode(v))
    ensures ReadAt(d, i, TWO_64) == Success((v, i + |Encode(v)|))
  {
    ReadWritten(d, i, TWO_64, v);
  }
}
