/**
  Bytes, base-128 varints (Go's encoding/binary) and big-endian numbers.
 */
module Bytes {
  type Byte = b: nat | b < 256

  const POW32: nat := 0x1_0000_0000
  const POW64: nat := 0x1_0000_0000_0000_0000
  const POW128: nat := 0x1_0000_0000_0000_0000_0000_0000_0000_0000

  // ----- varints

  /** `binary.PutUvarint`: seven bits a byte, low first, the high bit set on all but the last. */
  function PutUvarint(v: nat): (s: seq<Byte>)
    ensures |s| >= 1
  {
    if v < 128 then [v] else [v % 128 + 128] + PutUvarint(v / 128)
  }

  /** What a reader got: the value and the bytes after it, or an error. */
  datatype Read<T> = Fail | Got(value: T, rest: seq<Byte>)

  /** `binary.ReadUvarint`, about to read byte `i` of the varint: at most ten bytes, and the tenth adds one bit. */
  function ReadUvarint(s: seq<Byte>, i: nat): Read<nat>
    requires i <= 10
    decreases 10 - i
  {
    if i == 10 || s == [] then Fail
    else if s[0] < 128 then (if i == 9 && s[0] > 1 then Fail else Got(s[0], s[1..]))
    else
      match ReadUvarint(s[1..], i + 1)
      case Fail => Fail
      case Got(v, rest) => Got(s[0] - 128 + 128 * v, rest)
  }

  /** The values that fit in the bytes from the `i`-th on. */
  function Room(i: nat): nat
    requires i <= 9
    decreases 9 - i
  {
    if i == 9 then 2 else 128 * Room(i + 1)
  }

  lemma RoomIsSixtyFourBits()
    ensures Room(0) == POW64
  {
    assert Room(9) == 2;
    assert Room(8) == 0x100;
    assert Room(7) == 0x8000;
    assert Room(6) == 0x40_0000;
    assert Room(5) == 0x2000_0000;
    assert Room(4) == 0x10_0000_0000;
    assert Room(3) == 0x800_0000_0000;
    assert Room(2) == 0x4_0000_0000_0000;
    assert Room(1) == 0x200_0000_0000_0000;
  }

  lemma {:induction false} VarintFrom(v: nat, i: nat, rest: seq<Byte>)
    requires i <= 9 && v < Room(i)
    ensures ReadUvarint(PutUvarint(v) + rest, i) == Got(v, rest)
    decreases v
  {
    var s := PutUvarint(v) + rest;
    if v < 128 {
      assert s[1..] == rest;
    } else {
      assert s[1..] == PutUvarint(v / 128) + rest;
      assert i < 9;
      VarintFrom(v / 128, i + 1, rest);
    }
  }

  /** A varint is read back, and nothing after it is touched, for every 64-bit value. */
  lemma VarintRoundTrip(v: nat, rest: seq<Byte>)
    requires v < POW64
    ensures ReadUvarint(PutUvarint(v) + rest, 0) == Got(v, rest)
  {
    RoomIsSixtyFourBits();
    VarintFrom(v, 0, rest);
  }

  /** The reading loop of `binary.ReadUvarint`. */
  method ReadVarint(raw: seq<Byte>, pos: nat) returns (ok: bool, v: nat, next: nat)
    requires pos <= |raw|
    ensures pos <= next <= |raw|
    ensures match ReadUvarint(raw[pos..], 0)
            case Fail => !ok
            case Got(w, rest) => ok && v == w && rest == raw[next..]
  {
    hide ReadUvarint;
    v, next := 0, pos;
    var scale: nat := 1;
    for i := 0 to 10
      invariant pos <= next <= |raw|
      invariant Resumes(ReadUvarint(raw[pos..], 0), ReadUvarint(raw[next..], i), v, scale)
    {
      ReadStep(raw, next, i);
      if next == |raw| {
        return false, v, next;
      }
      var b: nat := raw[next];
      next := next + 1;
      if b < 128 {
        if i == 9 && b > 1 {
          return false, v, next;
        }
        return true, v + b * scale, next;
      }
      ResumeStep(ReadUvarint(raw[pos..], 0), ReadUvarint(raw[next - 1..], i), ReadUvarint(raw[next..], i + 1), b, v, scale);
      v := v + (b - 128) * scale;
      scale := scale * 128;
    }
    ReadStep(raw, next, 10);
    ok := false;
  }

  /** `whole` is what remains to be read, scaled and added to what was read. */
  ghost predicate Resumes(whole: Read<nat>, part: Read<nat>, v: nat, scale: nat) {
    match part
    case Fail => whole == Fail
    case Got(w, rest) => whole == Got(v + w * scale, rest)
  }

  lemma ReadStep(raw: seq<Byte>, next: nat, i: nat)
    requires next <= |raw| && i <= 10
    ensures i == 10 || next == |raw| ==> ReadUvarint(raw[next..], i) == Fail
    ensures i < 10 && next < |raw| ==>
              var b := raw[next];
              ReadUvarint(raw[next..], i) ==
              if b < 128 then (if i == 9 && b > 1 then Fail else Got(b, raw[next + 1..]))
              else match ReadUvarint(raw[next + 1..], i + 1)
                   case Fail => Fail
                   case Got(v, rest) => Got(b - 128 + 128 * v, rest)
  {
    if next < |raw| {
      assert raw[next..][1..] == raw[next + 1..];
    }
  }

  lemma ResumeStep(whole: Read<nat>, part: Read<nat>, rest: Read<nat>, b: Byte, v: nat, scale: nat)
    requires b >= 128 && Resumes(whole, part, v, scale)
    requires part == match rest case Fail => Fail case Got(w, r) => Got(b - 128 + 128 * w, r)
    ensures Resumes(whole, rest, v + (b - 128) * scale, scale * 128)
  {
    if rest.Got? {
      var w := rest.value;
      assert (b - 128 + 128 * w) * scale == (b - 128) * scale + w * (scale * 128);
    }
  }

  // ----- big-endian numbers

  /** The number a big-endian byte string denotes. */
  function BigEndian(s: seq<Byte>): nat {
    if s == [] then 0 else BigEndian(s[..|s| - 1]) * 256 + s[|s| - 1]
  }

  /** The `n` low bytes of `v`, big-endian. */
  function ToBytes(v: nat, n: nat): (s: seq<Byte>)
    ensures |s| == n
    decreases n
  {
    if n == 0 then [] else ToBytes(v / 256, n - 1) + [v % 256]
  }

  function Pow256(n: nat): (r: nat)
    ensures r >= 1
  {
    if n == 0 then 1 else 256 * Pow256(n - 1)
  }

  lemma Pow256Sixteen()
    ensures Pow256(16) == POW128
  {
    assert Pow256(1) == 0x100;
    assert Pow256(2) == 0x1_0000;
    assert Pow256(3) == 0x100_0000;
    assert Pow256(4) == POW32;
    assert Pow256(5) == POW32 * 0x100;
    assert Pow256(6) == POW32 * 0x1_0000;
    assert Pow256(7) == POW32 * 0x100_0000;
    assert Pow256(8) == POW64;
    assert Pow256(9) == POW64 * 0x100;
    assert Pow256(10) == POW64 * 0x1_0000;
    assert Pow256(11) == POW64 * 0x100_0000;
    assert Pow256(12) == POW64 * POW32;
    assert Pow256(13) == POW64 * POW32 * 0x100;
    assert Pow256(14) == POW64 * POW32 * 0x1_0000;
    assert Pow256(15) == POW64 * POW32 * 0x100_0000;
  }

  lemma {:induction false} BigEndianOfBytes(v: nat, n: nat)
    requires v < Pow256(n)
    ensures BigEndian(ToBytes(v, n)) == v
    decreases n
  {
    if n > 0 {
      var s := ToBytes(v, n);
      assert s[..n - 1] == ToBytes(v / 256, n - 1);
      BigEndianOfBytes(v / 256, n - 1);
    }
  }

  /** `bytes.Compare(a, b) < 0` on byte strings of one length. */
  predicate BytesLess(a: seq<Byte>, b: seq<Byte>)
    requires |a| == |b|
  {
    a != [] && (a[0] < b[0] || (a[0] == b[0] && BytesLess(a[1..], b[1..])))
  }

  lemma {:induction false} BigEndianHead(s: seq<Byte>)
    requires s != []
    ensures BigEndian(s) == s[0] * Pow256(|s| - 1) + BigEndian(s[1..])
    ensures BigEndian(s[1..]) < Pow256(|s| - 1)
    decreases |s|
  {
    var n := |s| - 1;
    if n == 0 {
      assert s[..0] == [] && s[1..] == [];
    } else {
      var front, tail := s[..n], s[1..];
      BigEndianHead(front);
      assert tail[..n - 1] == front[1..] && tail[n - 1] == s[n];
      assert BigEndian(tail) == BigEndian(front[1..]) * 256 + s[n];
      ShiftDigit(s[0], Pow256(n - 1), BigEndian(front[1..]), s[n]);
    }
  }

  lemma ShiftDigit(d: nat, p: nat, low: nat, last: Byte)
    requires low < p
    ensures (d * p + low) * 256 + last == d * (256 * p) + (low * 256 + last)
    ensures low * 256 + last < 256 * p
  {
  }

  /** Comparing big-endian addresses byte by byte is comparing the numbers. */
  lemma {:induction false} BytesLessIsLess(a: seq<Byte>, b: seq<Byte>)
    requires |a| == |b|
    ensures BytesLess(a, b) <==> BigEndian(a) < BigEndian(b)
    decreases |a|
  {
    if a != [] {
      BigEndianHead(a);
      BigEndianHead(b);
      BytesLessIsLess(a[1..], b[1..]);
      DigitOrder(a[0], b[0], Pow256(|a| - 1), BigEndian(a[1..]), BigEndian(b[1..]));
    }
  }

  lemma DigitOrder(x: nat, y: nat, p: nat, u: nat, w: nat)
    requires u < p && w < p
    ensures x * p + u < y * p + w <==> x < y || (x == y && u < w)
  {
    if x < y {
      assert (x + 1) * p <= y * p;
    } else if y < x {
      assert (y + 1) * p <= x * p;
    }
  }
}
