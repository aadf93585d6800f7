/**
  `Encode` and `Decode` of the compact ASN base (internal/asncompact/asncompact.go), on the raw bytes before compression.
 */
module AsnCodec {
  import opened Optional
  import opened Bytes
  import opened AsnCompact

  const MAGIC: seq<Byte> := [71, 80, 88, 65, 83, 78, 49] // "GPXASN1"
  const MAX_RANGES: nat := 4_000_000
  const MAX_DECOMPRESSED: nat := 134_217_728

  /** An IPv6 range as the loaded base keeps it: two 16-byte addresses. */
  datatype Entry6 = Entry6(start: seq<Byte>, end: seq<Byte>, asn: nat)

  datatype Db = Db(v4: seq<Entry>, v6: seq<Entry6>, version: string)

  // ----- the format

  /** 32-bit unsigned subtraction. */
  function Sub32(a: nat, b: nat): nat {
    (a - b) % POW32
  }

  function Item4(e: Entry, prev: nat): seq<Byte> {
    PutUvarint(Sub32(e.start, prev)) + PutUvarint(Sub32(e.end, e.start)) + PutUvarint(e.asn)
  }

  function Body4(es: seq<Entry>, prev: nat): seq<Byte> {
    if es == [] then [] else Item4(es[0], prev) + Body4(es[1..], es[0].start)
  }

  function Item6(e: Entry): seq<Byte> {
    ToBytes(e.start, 16) + ToBytes(e.end, 16) + PutUvarint(e.asn)
  }

  function Body6(es: seq<Entry>): seq<Byte> {
    if es == [] then [] else Item6(es[0]) + Body6(es[1..])
  }

  function RawOf(v4: seq<Entry>, v6: seq<Entry>): seq<Byte> {
    MAGIC + (PutUvarint(|v4|) + (Body4(v4, 0) + (PutUvarint(|v6|) + Body6(v6))))
  }

  /** The uncompressed form of a list of ranges. */
  function EncodeRaw(ranges: seq<Range>): seq<Byte> {
    RawOf(StableSort(Valid4(ranges)), StableSort(Valid6(ranges)))
  }

  // ----- reading it back

  function ReadItem4(s: seq<Byte>, prev: nat): Read<Entry> {
    match ReadUvarint(s, 0)
    case Fail => Fail
    case Got(delta, s1) =>
      match ReadUvarint(s1, 0)
      case Fail => Fail
      case Got(length, s2) =>
        match ReadUvarint(s2, 0)
        case Fail => Fail
        case Got(asn, s3) =>
          var start := (prev + delta) % POW32;
          if delta > POW32 || length > POW32 || asn == 0 || asn > POW32 - 1 || start + length > POW32 - 1 then Fail
          else Got(Entry(start, start + length, asn), s3)
  }

  function Read4(n: nat, prev: nat, s: seq<Byte>): Read<seq<Entry>> {
    if n == 0 then Got([], s)
    else
      match ReadItem4(s, prev)
      case Fail => Fail
      case Got(e, s1) =>
        match Read4(n - 1, e.start, s1)
        case Fail => Fail
        case Got(es, rest) => Got([e] + es, rest)
  }

  function ReadItem6(s: seq<Byte>): Read<Entry6> {
    if |s| < 32 then Fail
    else
      match ReadUvarint(s[32..], 0)
      case Fail => Fail
      case Got(asn, s1) =>
        if asn == 0 || asn > POW32 - 1 then Fail else Got(Entry6(s[..16], s[16..32], asn), s1)
  }

  function Read6(n: nat, s: seq<Byte>): Read<seq<Entry6>> {
    if n == 0 then Got([], s)
    else
      match ReadItem6(s)
      case Fail => Fail
      case Got(e, s1) =>
        match Read6(n - 1, s1)
        case Fail => Fail
        case Got(es, rest) => Got([e] + es, rest)
  }

  /** Everything after the magic. */
  function ReadFamilies(s: seq<Byte>): Option<(seq<Entry>, seq<Entry6>)> {
    match ReadUvarint(s, 0)
    case Fail => None
    case Got(n4, s1) =>
      if n4 > MAX_RANGES then None
      else
        match Read4(n4, 0, s1)
        case Fail => None
        case Got(v4, s2) =>
          match ReadUvarint(s2, 0)
          case Fail => None
          case Got(n6, s3) =>
            if n6 > MAX_RANGES then None
            else
              match Read6(n6, s3)
              case Fail => None
              case Got(v6, _) => Some((v4, v6))
  }

  function DecodeRaw(raw: seq<Byte>, version: seq<Byte> -> string): Option<Db> {
    if |raw| > MAX_DECOMPRESSED || !(MAGIC <= raw) then None
    else
      match ReadFamilies(raw[|MAGIC|..])
      case None => None
      case Some(f) => Some(Db(f.0, f.1, version(raw)))
  }

  // ----- round trip

  lemma ItemRoundTrip4(e: Entry, prev: nat, rest: seq<Byte>)
    requires prev <= e.start <= e.end < POW32 && 0 < e.asn < POW32
    ensures ReadItem4(Item4(e, prev) + rest, prev) == Got(e, rest)
  {
    hide ReadUvarint, PutUvarint;
    var d, l := Sub32(e.start, prev), Sub32(e.end, e.start);
    assert d == e.start - prev && l == e.end - e.start;
    var s2 := PutUvarint(e.asn) + rest;
    var s1 := PutUvarint(l) + s2;
    assert Item4(e, prev) + rest == PutUvarint(d) + s1;
    VarintRoundTrip(d, s1);
    VarintRoundTrip(l, s2);
    VarintRoundTrip(e.asn, rest);
  }

  lemma {:induction false} BodyRoundTrip4(es: seq<Entry>, prev: nat, rest: seq<Byte>)
    requires WellFormed(es, POW32) && Sorted(es) && (es != [] ==> prev <= es[0].start)
    ensures Read4(|es|, prev, Body4(es, prev) + rest) == Got(es, rest)
    decreases |es|
  {
    hide ReadItem4, Item4;
    if es == [] {
      assert Body4(es, prev) + rest == rest;
    } else {
      var tail := Body4(es[1..], es[0].start) + rest;
      assert Body4(es, prev) + rest == Item4(es[0], prev) + tail;
      ItemRoundTrip4(es[0], prev, tail);
      BodyRoundTrip4(es[1..], es[0].start, rest);
      assert es == [es[0]] + es[1..];
    }
  }

  /** An IPv6 entry in its 16-byte form. */
  function As16(e: Entry): Entry6 {
    Entry6(ToBytes(e.start, 16), ToBytes(e.end, 16), e.asn)
  }

  function AllAs16(es: seq<Entry>): (r: seq<Entry6>)
    ensures |r| == |es|
    ensures forall i :: 0 <= i < |es| ==> r[i] == As16(es[i])
  {
    if es == [] then [] else [As16(es[0])] + AllAs16(es[1..])
  }

  lemma ItemRoundTrip6(e: Entry, rest: seq<Byte>)
    requires 0 < e.asn < POW32
    ensures ReadItem6(Item6(e) + rest) == Got(As16(e), rest)
  {
    hide ReadUvarint, PutUvarint, ToBytes;
    var s := Item6(e) + rest;
    assert s[..16] == ToBytes(e.start, 16);
    assert s[16..32] == ToBytes(e.end, 16);
    assert s[32..] == PutUvarint(e.asn) + rest;
    VarintRoundTrip(e.asn, rest);
  }

  lemma {:induction false} BodyRoundTrip6(es: seq<Entry>, rest: seq<Byte>)
    requires WellFormed(es, POW128)
    ensures Read6(|es|, Body6(es) + rest) == Got(AllAs16(es), rest)
    decreases |es|
  {
    hide ReadItem6, Item6, As16;
    if es == [] {
      assert Body6(es) + rest == rest;
    } else {
      var tail := Body6(es[1..]) + rest;
      assert Body6(es) + rest == Item6(es[0]) + tail;
      ItemRoundTrip6(es[0], tail);
      BodyRoundTrip6(es[1..], rest);
    }
  }

  lemma FamiliesRoundTrip(v4: seq<Entry>, v6: seq<Entry>)
    requires WellFormed(v4, POW32) && Sorted(v4) && WellFormed(v6, POW128)
    requires |v4| < POW64 && |v6| < POW64
    ensures ReadFamilies(RawOf(v4, v6)[|MAGIC|..]) ==
            if |v4| <= MAX_RANGES && |v6| <= MAX_RANGES then Some((v4, AllAs16(v6))) else None
  {
    hide ReadUvarint, PutUvarint, Body4, Body6, Read4, Read6, WellFormed, Sorted, AllAs16, ReadFamilies, RawOf;
    var s3 := Body6(v6);
    var s2 := PutUvarint(|v6|) + s3;
    var s1 := Body4(v4, 0) + s2;
    RawInTurn(v4, v6);
    VarintRoundTrip(|v4|, s1);
    FirstStartsAtZero(v4, s2);
    VarintRoundTrip(|v6|, s3);
    BodyRoundTrip6(v6, []);
    assert s3 + [] == s3;
    FamiliesInTurn(PutUvarint(|v4|) + s1, s1, s2, s3, v4, AllAs16(v6));
  }

  /** The four reads one after the other, and the two guards on the counts. */
  lemma FamiliesInTurn(s0: seq<Byte>, s1: seq<Byte>, s2: seq<Byte>, s3: seq<Byte>, v4: seq<Entry>, v6: seq<Entry6>)
    requires ReadUvarint(s0, 0) == Got(|v4|, s1) && Read4(|v4|, 0, s1) == Got(v4, s2)
    requires ReadUvarint(s2, 0) == Got(|v6|, s3) && Read6(|v6|, s3) == Got(v6, [])
    ensures ReadFamilies(s0) == if |v4| <= MAX_RANGES && |v6| <= MAX_RANGES then Some((v4, v6)) else None
  {
    hide ReadUvarint, Read4, Read6;
  }

  lemma RawInTurn(v4: seq<Entry>, v6: seq<Entry>)
    ensures RawOf(v4, v6)[|MAGIC|..] ==
            PutUvarint(|v4|) + (Body4(v4, 0) + (PutUvarint(|v6|) + Body6(v6)))
  {
    hide PutUvarint, Body4, Body6;
  }

  lemma FirstStartsAtZero(v4: seq<Entry>, rest: seq<Byte>)
    requires WellFormed(v4, POW32) && Sorted(v4)
    ensures Read4(|v4|, 0, Body4(v4, 0) + rest) == Got(v4, rest)
  {
    BodyRoundTrip4(v4, 0, rest);
  }

  /**
    Decoding what was encoded gives back exactly the valid ranges of each family in stable start order; the decoder's
    guards fire if and only if a family has more than 4,000,000 ranges or the raw form exceeds 128 MiB.
   */
  lemma DecodeOfEncode(ranges: seq<Range>, version: seq<Byte> -> string)
    requires |ranges| < POW64
    ensures var v4, v6, raw := StableSort(Valid4(ranges)), StableSort(Valid6(ranges)), EncodeRaw(ranges);
            DecodeRaw(raw, version) ==
            if |v4| <= 4_000_000 && |v6| <= 4_000_000 && |raw| <= 128 * 1024 * 1024
            then Some(Db(v4, AllAs16(v6), version(raw))) else None
  {
    hide ReadFamilies, Body4, Body6, PutUvarint, StableSort, Valid4, Valid6;
    var v4, v6 := StableSort(Valid4(ranges)), StableSort(Valid6(ranges));
    EncodedWellFormed(ranges);
    FamiliesRoundTrip(v4, v6);
    assert MAGIC <= RawOf(v4, v6);
  }

  /** One IPv4 range, byte by byte: the magic, one range, the start, the length, the ASN, and no IPv6 range. */
  lemma OneRangeBytes()
    ensures EncodeRaw([Range(V4(0x08080800), V4(0x080808FF), 15169)]) ==
            [71, 80, 88, 65, 83, 78, 49] + ([1] + ([0x80, 0x90, 0xA0, 0x40] + [0xFF, 0x01] + [0xC1, 0x76] + ([0] + [])))
  {
    hide Valid4, Valid6, StableSort, PutUvarint, Item4;
    var r, e := Range(V4(0x08080800), V4(0x080808FF), 15169), Entry(0x08080800, 0x080808FF, 15169);
    OneRangeSorted(r, e);
    OneRangeVarints();
    OneRangeItem(e);
    assert [e][1..] == [];
    assert Body4([], 0x08080800) == [] && Body6([]) == [];
    assert Item4(e, 0) + [] == Item4(e, 0);
    assert Body4([e], 0) == Item4(e, 0);
  }

  lemma OneRangeSorted(r: Range, e: Entry)
    requires r == Range(V4(0x08080800), V4(0x080808FF), 15169) && e == Entry(0x08080800, 0x080808FF, 15169)
    ensures StableSort(Valid4([r])) == [e] && StableSort(Valid6([r])) == []
  {
    FilterMeans([], r);
    assert [] + [r] == [r];
    assert IsV4(r.start, 0x08080800) && IsV4(r.end, 0x080808FF);
    assert Valid4([]) == [] && Valid6([]) == [];
    assert [e][..0] == [];
  }

  lemma OneRangeItem(e: Entry)
    requires e == Entry(0x08080800, 0x080808FF, 15169)
    ensures Item4(e, 0) == [0x80, 0x90, 0xA0, 0x40] + [0xFF, 0x01] + [0xC1, 0x76]
  {
    hide PutUvarint;
    OneRangeVarints();
  }

  lemma OneRangeVarints()
    ensures PutUvarint(1) == [1] && PutUvarint(0) == [0]
    ensures PutUvarint(0x08080800) == [0x80, 0x90, 0xA0, 0x40]
    ensures PutUvarint(255) == [0xFF, 0x01] && PutUvarint(15169) == [0xC1, 0x76]
  {
    assert PutUvarint(0x40) == [0x40];
    assert PutUvarint(0x40 * 128 + 0x20) == [0xA0] + [0x40];
    assert PutUvarint((0x40 * 128 + 0x20) * 128 + 0x10) == [0x90] + ([0xA0] + [0x40]);
    assert PutUvarint(0x08080800) == [0x80] + ([0x90] + ([0xA0] + [0x40]));
  }

  // ----- what any bytes decode to

  lemma {:induction false} Read4WellFormed(n: nat, prev: nat, s: seq<Byte>)
    ensures Read4(n, prev, s).Got? ==> |Read4(n, prev, s).value| == n && WellFormed(Read4(n, prev, s).value, POW32)
    decreases n
  {
    hide ReadUvarint;
    if n > 0 && ReadItem4(s, prev).Got? {
      Read4WellFormed(n - 1, ReadItem4(s, prev).value.start, ReadItem4(s, prev).rest);
    }
  }

  /** A range of two 16-byte addresses with an ASN. */
  predicate Sound6(e: Entry6) {
    |e.start| == 16 && |e.end| == 16 && 0 < e.asn < 0x1_0000_0000
  }

  lemma {:induction false} Read6Sound(n: nat, s: seq<Byte>)
    ensures Read6(n, s).Got? ==> |Read6(n, s).value| == n && forall i :: 0 <= i < n ==> Sound6(Read6(n, s).value[i])
    decreases n
  {
    hide ReadUvarint;
    if n > 0 && ReadItem6(s).Got? {
      Read6Sound(n - 1, ReadItem6(s).rest);
    }
  }

  /** Whatever the bytes, a base that decodes is within the limits and every range of it is well formed. */
  lemma DecodedSound(raw: seq<Byte>, version: seq<Byte> -> string)
    requires DecodeRaw(raw, version).Some?
    ensures var db := DecodeRaw(raw, version).value;
            && |raw| <= 128 * 1024 * 1024 && "GPXASN1" == Ascii(raw[..7]) && db.version == version(raw)
            && |db.v4| <= 4_000_000 && |db.v6| <= 4_000_000
            && (forall i :: 0 <= i < |db.v4| ==> db.v4[i].start <= db.v4[i].end < 0x1_0000_0000 && 0 < db.v4[i].asn < 0x1_0000_0000)
            && (forall i :: 0 <= i < |db.v6| ==> Sound6(db.v6[i]))
  {
    hide ReadUvarint, Read4, Read6;
    var s := raw[|MAGIC|..];
    assert raw[..7] == MAGIC;
    var n4 := ReadUvarint(s, 0);
    Read4WellFormed(n4.value, 0, n4.rest);
    var four := Read4(n4.value, 0, n4.rest);
    var n6 := ReadUvarint(four.rest, 0);
    Read6Sound(n6.value, n6.rest);
  }

  function Ascii(s: seq<Byte>): (r: string)
    ensures |r| == |s|
  {
    seq(|s|, i requires 0 <= i < |s| => s[i] as char)
  }

  lemma EncodedWellFormed(ranges: seq<Range>)
    ensures var v4, v6 := StableSort(Valid4(ranges)), StableSort(Valid6(ranges));
            && WellFormed(v4, POW32) && Sorted(v4) && |v4| <= |ranges|
            && WellFormed(v6, POW128) && Sorted(v6) && |v6| <= |ranges|
  {
    ValidWellFormed(ranges);
    StableSortFacts(Valid4(ranges), 0);
    StableSortFacts(Valid6(ranges), 0);
    WellFormedOfPermutation(Valid4(ranges), StableSort(Valid4(ranges)), POW32);
    WellFormedOfPermutation(Valid6(ranges), StableSort(Valid6(ranges)), POW128);
  }

  lemma WellFormedOfPermutation(x: seq<Entry>, y: seq<Entry>, bound: nat)
    requires WellFormed(x, bound) && multiset(x) == multiset(y)
    ensures WellFormed(y, bound)
  {
    forall i | 0 <= i < |y| ensures y[i].start <= y[i].end < bound && 0 < y[i].asn < POW32 {
      assert y[i] in multiset(y);
      assert y[i] in x;
    }
  }

  // ----- the loops of Encode

  lemma {:induction false} Body4Snoc(es: seq<Entry>, i: nat, prev: nat)
    requires i < |es|
    ensures Body4(es[..i + 1], prev) == Body4(es[..i], prev) + Item4(es[i], if i == 0 then prev else es[i - 1].start)
    decreases i
  {
    hide Item4;
    if i == 0 {
      assert es[..1] == [es[0]] && es[..1][1..] == [] && es[..0] == [];
    } else {
      var t := es[1..];
      Body4Snoc(t, i - 1, es[0].start);
      assert es[..i + 1][1..] == t[..i] && es[..i][1..] == t[..i - 1];
      assert t[i - 1] == es[i] && (i >= 2 ==> t[i - 2] == es[i - 1]);
    }
  }

  lemma {:induction false} Body6Snoc(es: seq<Entry>, i: nat)
    requires i < |es|
    ensures Body6(es[..i + 1]) == Body6(es[..i]) + Item6(es[i])
    decreases i
  {
    hide Item6;
    if i == 0 {
      assert es[..1] == [es[0]] && es[..1][1..] == [] && es[..0] == [];
    } else {
      var t := es[1..];
      Body6Snoc(t, i - 1);
      assert es[..i + 1][1..] == t[..i] && es[..i][1..] == t[..i - 1];
    }
  }

  /** The filtering loop: each valid range goes to its family. */
  method SplitFamilies(ranges: seq<Range>) returns (v4: seq<Entry>, v6: seq<Entry>)
    ensures v4 == Valid4(ranges) && v6 == Valid6(ranges)
  {
    v4, v6 := [], [];
    for i := 0 to |ranges|
      invariant v4 == Valid4(ranges[..i]) && v6 == Valid6(ranges[..i])
    {
      assert ranges[..i + 1][..i] == ranges[..i];
      var r := ranges[i];
      var s, e := Unmap(r.start), Unmap(r.end);
      if s.V4? && e.V4? && s.v4 <= e.v4 && r.asn != 0 {
        v4 := v4 + [Entry(s.v4, e.v4, r.asn)];
      } else if s.V6? && e.V6? && s.v6 <= e.v6 && r.asn != 0 {
        v6 := v6 + [Entry(s.v6, e.v6, r.asn)];
      }
    }
    assert ranges[..|ranges|] == ranges;
  }

  method WriteBody4(v4: seq<Entry>) returns (out: seq<Byte>)
    ensures out == Body4(v4, 0)
  {
    hide Body4;
    out := [];
    var prev := 0;
    EmptyBodies(v4);
    for i := 0 to |v4|
      invariant prev == if i == 0 then 0 else v4[i - 1].start
      invariant out == Body4(v4[..i], 0)
    {
      Body4Snoc(v4, i, 0);
      var s, e := v4[i].start, v4[i].end;
      out := out + (PutUvarint(Sub32(s, prev)) + PutUvarint(Sub32(e, s)) + PutUvarint(v4[i].asn));
      prev := s;
    }
    assert v4[..|v4|] == v4;
  }

  method WriteBody6(v6: seq<Entry>) returns (out: seq<Byte>)
    ensures out == Body6(v6)
  {
    hide Body6;
    out := [];
    EmptyBodies(v6);
    for i := 0 to |v6|
      invariant out == Body6(v6[..i])
    {
      Body6Snoc(v6, i);
      out := out + (ToBytes(v6[i].start, 16) + ToBytes(v6[i].end, 16) + PutUvarint(v6[i].asn));
    }
    assert v6[..|v6|] == v6;
  }

  lemma EmptyBodies(es: seq<Entry>)
    ensures Body4(es[..0], 0) == [] && Body6(es[..0]) == []
  {
  }

  /** `Encode` up to the compression. */
  method Encode(ranges: seq<Range>) returns (raw: seq<Byte>)
    ensures raw == EncodeRaw(ranges)
  {
    var v4, v6 := SplitFamilies(ranges);
    v4, v6 := StableSort(v4), StableSort(v6);
    var body4 := WriteBody4(v4);
    var body6 := WriteBody6(v6);
    raw := MAGIC + (PutUvarint(|v4|) + (body4 + (PutUvarint(|v6|) + body6)));
  }

  // ----- the loops of Decode

  ghost predicate Continues<T(!new)>(whole: Read<seq<T>>, part: Read<seq<T>>, done: seq<T>) {
    match part
    case Fail => whole == Fail
    case Got(es, rest) => whole == Got(done + es, rest)
  }

  method ReadRange4(raw: seq<Byte>, pos: nat, prev: nat) returns (ok: bool, e: Entry, next: nat)
    requires pos <= |raw|
    ensures pos <= next <= |raw|
    ensures match ReadItem4(raw[pos..], prev)
            case Fail => !ok
            case Got(x, rest) => ok && e == x && rest == raw[next..]
  {
    hide ReadUvarint;
    e := Entry(0, 0, 0);
    var ok1, delta, p1 := ReadVarint(raw, pos);
    var ok2, length, p2 := ReadVarint(raw, p1);
    var ok3, asn, p3 := ReadVarint(raw, p2);
    if !ok1 || !ok2 || !ok3 || delta > POW32 || length > POW32 || asn == 0 || asn > POW32 - 1 {
      return false, e, p3;
    }
    var start := (prev + delta) % POW32;
    if start + length > POW32 - 1 {
      return false, e, p3;
    }
    return true, Entry(start, start + length, asn), p3;
  }

  method ReadRanges4(raw: seq<Byte>, pos: nat, n: nat) returns (ok: bool, es: seq<Entry>, next: nat)
    requires pos <= |raw|
    ensures pos <= next <= |raw|
    ensures match Read4(n, 0, raw[pos..])
            case Fail => !ok
            case Got(xs, rest) => ok && es == xs && rest == raw[next..]
  {
    hide ReadItem4;
    es, next := [], pos;
    var prev := 0;
    ContinueStart(Read4(n, 0, raw[pos..]));
    for i := 0 to n
      invariant pos <= next <= |raw|
      invariant Continues(Read4(n, 0, raw[pos..]), Read4(n - i, prev, raw[next..]), es)
    {
      ghost var part := Read4(n - i, prev, raw[next..]);
      var ok1, e, p := ReadRange4(raw, next, prev);
      if !ok1 {
        return false, es, p;
      }
      ContinueStep(Read4(n, 0, raw[pos..]), part, Read4(n - i - 1, e.start, raw[p..]), es, e);
      es, next, prev := es + [e], p, e.start;
    }
    ok := true;
  }

  lemma ContinueStart<T(!new)>(whole: Read<seq<T>>)
    ensures Continues(whole, whole, [])
  {
    if whole.Got? {
      assert [] + whole.value == whole.value;
    }
  }

  lemma ContinueStep<T(!new)>(whole: Read<seq<T>>, part: Read<seq<T>>, rest: Read<seq<T>>, done: seq<T>, e: T)
    requires Continues(whole, part, done)
    requires part == match rest case Fail => Fail case Got(es, r) => Got([e] + es, r)
    ensures Continues(whole, rest, done + [e])
  {
    if rest.Got? {
      assert done + ([e] + rest.value) == (done + [e]) + rest.value;
    }
  }

  method ReadRange6(raw: seq<Byte>, pos: nat) returns (ok: bool, e: Entry6, next: nat)
    requires pos <= |raw|
    ensures pos <= next <= |raw|
    ensures match ReadItem6(raw[pos..])
            case Fail => !ok
            case Got(x, rest) => ok && e == x && rest == raw[next..]
  {
    hide ReadUvarint;
    e := Entry6([], [], 0);
    if |raw| - pos < 32 {
      return false, e, pos;
    }
    var ok1, asn, p := ReadVarint(raw, pos + 32);
    assert raw[pos..][32..] == raw[pos + 32..];
    if !ok1 || asn == 0 || asn > POW32 - 1 {
      return false, e, p;
    }
    assert raw[pos..][..16] == raw[pos..pos + 16] && raw[pos..][16..32] == raw[pos + 16..pos + 32];
    return true, Entry6(raw[pos..pos + 16], raw[pos + 16..pos + 32], asn), p;
  }

  method ReadRanges6(raw: seq<Byte>, pos: nat, n: nat) returns (ok: bool, es: seq<Entry6>, next: nat)
    requires pos <= |raw|
    ensures pos <= next <= |raw|
    ensures match Read6(n, raw[pos..])
            case Fail => !ok
            case Got(xs, rest) => ok && es == xs && rest == raw[next..]
  {
    hide ReadItem6;
    es, next := [], pos;
    ContinueStart(Read6(n, raw[pos..]));
    for i := 0 to n
      invariant pos <= next <= |raw|
      invariant Continues(Read6(n, raw[pos..]), Read6(n - i, raw[next..]), es)
    {
      ghost var part := Read6(n - i, raw[next..]);
      var ok1, e, p := ReadRange6(raw, next);
      if !ok1 {
        return false, es, p;
      }
      ContinueStep(Read6(n, raw[pos..]), part, Read6(n - i - 1, raw[p..]), es, e);
      es, next := es + [e], p;
    }
    ok := true;
  }

  /** `Decode` after the decompression. */
  method Decode(raw: seq<Byte>, version: seq<Byte> -> string) returns (db: Option<Db>)
    ensures db == DecodeRaw(raw, version)
  {
    hide ReadUvarint, Read4, Read6;
    if |raw| > MAX_DECOMPRESSED || |raw| < |MAGIC| || raw[..|MAGIC|] != MAGIC {
      return None;
    }
    var ok, n4, pos := ReadVarint(raw, |MAGIC|);
    if !ok || n4 > MAX_RANGES {
      return None;
    }
    var ok4, v4, pos4 := ReadRanges4(raw, pos, n4);
    if !ok4 {
      return None;
    }
    var ok5, n6, pos5 := ReadVarint(raw, pos4);
    if !ok5 || n6 > MAX_RANGES {
      return None;
    }
    var ok6, v6, pos6 := ReadRanges6(raw, pos5, n6);
    if !ok6 {
      return None;
    }
    return Some(Db(v4, v6, version(raw)));
  }
}
