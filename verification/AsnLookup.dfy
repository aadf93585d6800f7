/**
  `Lookup` in the loaded ASN base (internal/asncompact/asncompact.go): a binary search over the starts of one family.
 */
module AsnLookup {
  import opened Optional
  import opened Bytes
  import opened AsnCompact
  import opened AsnCodec

  predicate Covers(e: Entry, v: nat) {
    e.start <= v <= e.end
  }

  /** The ASN of the last range starting at or before `v` if that range covers it, 0 otherwise; read from the end. */
  function LastAtOrBefore(es: seq<Entry>, v: nat): nat {
    if es == [] then 0
    else
      var e := es[|es| - 1];
      if e.start > v then LastAtOrBefore(es[..|es| - 1], v) else if v <= e.end then e.asn else 0
  }

  /** The ASN of the first range of the list that covers `v`, 0 if none: the linear scan. */
  function Scan(es: seq<Entry>, v: nat): nat {
    if es == [] then 0
    else if Scan(es[..|es| - 1], v) != 0 then Scan(es[..|es| - 1], v)
    else if Covers(es[|es| - 1], v) then es[|es| - 1].asn
    else 0
  }

  // ----- the binary search

  /** `sort.Search` over the starts, then the check of the end, for IPv4. */
  method Lookup4(es: seq<Entry>, v: nat) returns (asn: nat)
    ensures Sorted(es) ==> asn == LastAtOrBefore(es, v)
  {
    var i, j := 0, |es|;
    while i < j
      invariant 0 <= i <= j <= |es|
      invariant Sorted(es) ==> forall k :: 0 <= k < i ==> es[k].start <= v
      invariant Sorted(es) ==> forall k :: j <= k < |es| ==> es[k].start > v
    {
      var h := (i + j) / 2;
      if es[h].start > v {
        j := h;
      } else {
        i := h + 1;
      }
    }
    asn := if i > 0 && v <= es[i - 1].end then es[i - 1].asn else 0;
    if Sorted(es) {
      SearchFinds(es, v, i);
    }
  }

  /** Past the first `i` entries all starts are later, so the answer is decided by entry `i - 1`. */
  lemma {:induction false} SearchFinds(es: seq<Entry>, v: nat, i: nat)
    requires i <= |es| && (forall k :: 0 <= k < i ==> es[k].start <= v) && (forall k :: i <= k < |es| ==> es[k].start > v)
    ensures LastAtOrBefore(es, v) == if i > 0 && v <= es[i - 1].end then es[i - 1].asn else 0
    decreases |es|
  {
    if i < |es| {
      SearchFinds(es[..|es| - 1], v, i);
    }
  }

  /** The numbers behind the 16-byte form. */
  function Numeric(e: Entry6): Entry {
    Entry(BigEndian(e.start), BigEndian(e.end), e.asn)
  }

  function AllNumeric(es: seq<Entry6>): (r: seq<Entry>)
    ensures |r| == |es|
    ensures forall i :: 0 <= i < |es| ==> r[i] == Numeric(es[i])
  {
    if es == [] then [] else [Numeric(es[0])] + AllNumeric(es[1..])
  }

  ghost predicate Bytes16(es: seq<Entry6>) {
    forall i :: 0 <= i < |es| ==> |es[i].start| == 16 && |es[i].end| == 16
  }

  /** The same search for IPv6, comparing addresses byte by byte. */
  method Lookup6(es: seq<Entry6>, b: seq<Byte>) returns (asn: nat)
    requires Bytes16(es) && |b| == 16
    ensures Sorted(AllNumeric(es)) ==> asn == LastAtOrBefore(AllNumeric(es), BigEndian(b))
  {
    hide BytesLess, BigEndian;
    ghost var ns, v := AllNumeric(es), BigEndian(b);
    var i, j := 0, |es|;
    while i < j
      invariant 0 <= i <= j <= |es|
      invariant Sorted(ns) ==> forall k :: 0 <= k < i ==> ns[k].start <= v
      invariant Sorted(ns) ==> forall k :: j <= k < |es| ==> ns[k].start > v
    {
      var h := (i + j) / 2;
      BytesLessIsLess(b, es[h].start);
      if BytesLess(b, es[h].start) {
        j := h;
      } else {
        i := h + 1;
      }
    }
    if i > 0 {
      BytesLessIsLess(es[i - 1].end, b);
    }
    asn := if i > 0 && !BytesLess(es[i - 1].end, b) then es[i - 1].asn else 0;
    if Sorted(ns) {
      SearchFinds(ns, v, i);
    }
  }

  /** `Lookup` on a loaded base. */
  method Lookup(db: Db, a: Addr) returns (asn: nat)
    requires Bytes16(db.v6)
    ensures Sorted(db.v4) && Sorted(AllNumeric(db.v6)) ==> asn == Answer(db.v4, AllNumeric(db.v6), a)
  {
    hide BigEndian, ToBytes;
    var u := Unmap(a);
    match u {
      case V4(v) => asn := Lookup4(db.v4, v);
      case Invalid => asn := 0;
      case V6(v) =>
        Pow256Sixteen();
        BigEndianOfBytes(v, 16);
        asn := Lookup6(db.v6, ToBytes(v, 16));
    }
  }

  /** The answer for an address, from the ranges of the two families. */
  function Answer(v4: seq<Entry>, v6: seq<Entry>, a: Addr): nat {
    match Unmap(a)
    case Invalid => 0
    case V4(v) => LastAtOrBefore(v4, v)
    case V6(v) => LastAtOrBefore(v6, v)
  }

  /**
    Which family answers, in numbers: an IPv4 address and the IPv6 addresses `::ffff:0:0` to `::ffff:ffff:ffff` are looked up
    among the IPv4 ranges, every other IPv6 address among the IPv6 ones, and an invalid address has no answer.
   */
  lemma AnswerFamily(v4: seq<Entry>, v6: seq<Entry>, v: Word32, x: Word128)
    ensures Answer(v4, v6, V4(v)) == LastAtOrBefore(v4, v)
    ensures Answer(v4, v6, V6(0xFFFF_0000_0000 + v)) == LastAtOrBefore(v4, v)
    ensures !(0xFFFF_0000_0000 <= x < 0x1_0000_0000_0000) ==> Answer(v4, v6, V6(x)) == LastAtOrBefore(v6, x)
    ensures Answer(v4, v6, Invalid) == 0
  {
    hide LastAtOrBefore;
    UnmapMeans(v, x);
  }

  // ----- on a base produced by Encode

  lemma NumericOfAs16(es: seq<Entry>)
    requires WellFormed(es, POW128)
    ensures AllNumeric(AllAs16(es)) == es && Bytes16(AllAs16(es))
  {
    hide BigEndian, ToBytes;
    Pow256Sixteen();
    forall i | 0 <= i < |es| ensures Numeric(As16(es[i])) == es[i] {
      BigEndianOfBytes(es[i].start, 16);
      BigEndianOfBytes(es[i].end, 16);
    }
  }

  /**
    Encode, decode, look up: the answer comes from the last range of the family starting at or before the address, and is
    the scan of the caller's own ranges when no address is in two of them.
   */
  method LookupAfterRoundTrip(ranges: seq<Range>, version: seq<Byte> -> string, a: Addr) returns (db: Option<Db>, asn: nat)
    requires |ranges| < POW64
    ensures var raw := EncodeRaw(ranges);
            db.Some? <==> |Valid4(ranges)| <= MAX_RANGES && |Valid6(ranges)| <= MAX_RANGES && |raw| <= MAX_DECOMPRESSED
    ensures db.Some? ==> db.value.version == version(EncodeRaw(ranges))
    ensures db.Some? ==> asn == Answer(StableSort(Valid4(ranges)), StableSort(Valid6(ranges)), a)
    ensures db.Some? && NoAddressTwice(ranges) ==> asn == ScanRanges(ranges, a)
  {
    hide ScanRanges, NoAddressTwice;
    hide EncodeRaw, DecodeRaw, StableSort, Valid4, Valid6, WellFormed;
    var raw := Encode(ranges);
    db := Decode(raw, version);
    asn := 0;
    DecodeOfEncode(ranges, version);
    EncodedWellFormed(ranges);
    SortKeepsLength(ranges);
    if db.Some? {
      NumericOfAs16(StableSort(Valid6(ranges)));
      asn := Lookup(db.value, a);
      if NoAddressTwice(ranges) {
        AnswerIsScanOfRanges(ranges, a);
      }
    }
  }

  lemma SortKeepsLength(ranges: seq<Range>)
    ensures |StableSort(Valid4(ranges))| == |Valid4(ranges)|
    ensures |StableSort(Valid6(ranges))| == |Valid6(ranges)|
  {
    StableSortFacts(Valid4(ranges), 0);
    StableSortFacts(Valid6(ranges), 0);
  }

  // ----- against the linear scan

  /** No address in both. */
  predicate Apart(x: Entry, y: Entry) {
    x.end < y.start || y.end < x.start
  }

  ghost predicate Disjoint(es: seq<Entry>) {
    forall i, j :: 0 <= i < j < |es| ==> Apart(es[i], es[j])
  }

  ghost predicate AllApart(es: seq<Entry>, e: Entry) {
    forall i :: 0 <= i < |es| ==> Apart(es[i], e)
  }

  /** The scan finds a covering range if there is one. */
  lemma {:induction false} ScanFinds(es: seq<Entry>, v: nat)
    requires forall i :: 0 <= i < |es| ==> es[i].asn != 0
    ensures Scan(es, v) == 0 <==> forall i :: 0 <= i < |es| ==> !Covers(es[i], v)
    ensures Scan(es, v) != 0 ==> exists i :: 0 <= i < |es| && Covers(es[i], v) && Scan(es, v) == es[i].asn
  {
    if es != [] {
      var k := |es| - 1;
      ScanFinds(es[..k], v);
      if Scan(es[..k], v) != 0 {
        var i :| 0 <= i < k && Covers(es[..k][i], v) && Scan(es[..k], v) == es[..k][i].asn;
        assert Covers(es[i], v);
      } else {
        assert forall i :: 0 <= i < k ==> es[..k][i] == es[i];
      }
    }
  }

  /** The search is sound on any list: an answer comes from a range that covers the address. */
  lemma {:induction false} LastSound(es: seq<Entry>, v: nat)
    ensures LastAtOrBefore(es, v) != 0 ==>
              exists i :: 0 <= i < |es| && Covers(es[i], v) && LastAtOrBefore(es, v) == es[i].asn
  {
    if es != [] {
      var k := |es| - 1;
      if es[k].start > v {
        LastSound(es[..k], v);
        if LastAtOrBefore(es[..k], v) != 0 {
          var i :| 0 <= i < k && Covers(es[..k][i], v) && LastAtOrBefore(es[..k], v) == es[..k][i].asn;
          assert Covers(es[i], v);
        }
      } else if v <= es[k].end {
        assert Covers(es[k], v);
      }
    }
  }

  /** Among disjoint ranges the one that covers `v` is the last to start at or before it. */
  lemma {:induction false} LastOfDisjoint(es: seq<Entry>, v: nat, i: nat)
    requires Sorted(es) && Disjoint(es) && i < |es| && Covers(es[i], v)
    requires forall k :: 0 <= k < |es| ==> es[k].start <= es[k].end
    ensures LastAtOrBefore(es, v) == es[i].asn
    decreases |es|
  {
    var k := |es| - 1;
    if i < k {
      assert Apart(es[i], es[k]) && es[i].start <= es[k].start <= es[k].end;
      LastOfDisjoint(es[..k], v, i);
    }
  }

  lemma PermutedIndex(x: seq<Entry>, y: seq<Entry>, i: nat) returns (j: nat)
    requires multiset(x) == multiset(y) && i < |x|
    ensures j < |y| && y[j] == x[i]
  {
    assert x[i] in multiset(y);
    j :| 0 <= j < |y| && y[j] == x[i];
  }

  lemma {:induction false} InsertApart(es: seq<Entry>, e: Entry, x: Entry)
    requires AllApart(es, x) && Apart(e, x)
    ensures AllApart(Insert(es, e), x)
  {
    if es != [] && es[|es| - 1].start > e.start {
      InsertApart(es[..|es| - 1], e, x);
    }
  }

  lemma {:induction false} SortApart(es: seq<Entry>, x: Entry)
    requires AllApart(es, x)
    ensures AllApart(StableSort(es), x)
  {
    if es != [] {
      var k := |es| - 1;
      SortApart(es[..k], x);
      InsertApart(StableSort(es[..k]), es[k], x);
    }
  }

  lemma {:induction false} DisjointInsert(es: seq<Entry>, e: Entry)
    requires Disjoint(es) && AllApart(es, e)
    ensures Disjoint(Insert(es, e))
  {
    hide Apart;
    if es != [] && es[|es| - 1].start > e.start {
      var k := |es| - 1;
      DisjointInsert(es[..k], e);
      ApartSymmetric(es[k], e);
      InsertApart(es[..k], e, es[k]);
    }
  }

  lemma ApartSymmetric(x: Entry, y: Entry)
    ensures Apart(x, y) == Apart(y, x)
  {
  }

  lemma {:induction false} DisjointSorted(es: seq<Entry>)
    requires Disjoint(es)
    ensures Disjoint(StableSort(es))
  {
    hide Apart, Insert;
    if es != [] {
      var k := |es| - 1;
      DisjointSorted(es[..k]);
      SortApart(es[..k], es[k]);
      DisjointInsert(StableSort(es[..k]), es[k]);
    }
  }

  /** For pairwise disjoint ranges the search in the sorted base is the linear scan of the list given, at every address. */
  lemma LookupIsScanWhenDisjoint(es: seq<Entry>, v: nat, bound: nat)
    requires Disjoint(es) && WellFormed(es, bound)
    ensures LastAtOrBefore(StableSort(es), v) == Scan(es, v)
  {
    hide StableSort, LastAtOrBefore, Scan;
    var sorted := StableSort(es);
    StableSortFacts(es, 0);
    WellFormedOfPermutation(es, sorted, bound);
    DisjointSorted(es);
    ScanFinds(es, v);
    LastSound(sorted, v);
    if Scan(es, v) != 0 {
      var i :| 0 <= i < |es| && Covers(es[i], v) && Scan(es, v) == es[i].asn;
      var j := PermutedIndex(es, sorted, i);
      LastOfDisjoint(sorted, v, j);
    } else if LastAtOrBefore(sorted, v) != 0 {
      var i :| 0 <= i < |sorted| && Covers(sorted[i], v);
      var j := PermutedIndex(sorted, es, i);
      assert false;
    }
  }

  // ----- from the caller's ranges to the answer

  /** The range is valid and holds the address, whichever way either of them is written. */
  predicate Holds(r: Range, a: Addr) {
    var s, e, x := Unmap(r.start), Unmap(r.end), Unmap(a);
    r.asn != 0 &&
    ((s.V4? && e.V4? && x.V4? && s.v4 <= x.v4 <= e.v4) || (s.V6? && e.V6? && x.V6? && s.v6 <= x.v6 <= e.v6))
  }

  /** The ASN of the first range given that holds the address, 0 if none does. */
  function ScanRanges(ranges: seq<Range>, a: Addr): nat {
    if ranges == [] then 0
    else if ScanRanges(ranges[..|ranges| - 1], a) != 0 then ScanRanges(ranges[..|ranges| - 1], a)
    else if Holds(ranges[|ranges| - 1], a) then ranges[|ranges| - 1].asn
    else 0
  }

  /** No address is in two of the ranges. */
  ghost predicate NoAddressTwice(ranges: seq<Range>) {
    forall i, j, a :: 0 <= i < j < |ranges| && Holds(ranges[i], a) ==> !Holds(ranges[j], a)
  }

  lemma {:induction false} ScanOfFamilies(ranges: seq<Range>, a: Addr)
    ensures ScanRanges(ranges, a) ==
            match Unmap(a)
            case Invalid => 0
            case V4(v) => Scan(Valid4(ranges), v)
            case V6(v) => Scan(Valid6(ranges), v)
  {
    if ranges != [] {
      ScanOfFamilies(ranges[..|ranges| - 1], a);
    }
  }

  /** An entry of a family comes from a range that holds the same addresses of that family. */
  lemma {:induction false} EntrySource4(ranges: seq<Range>, j: nat) returns (i: nat)
    requires j < |Valid4(ranges)|
    ensures i < |ranges|
    ensures forall v: Word32 :: Covers(Valid4(ranges)[j], v) ==> Holds(ranges[i], V4(v))
  {
    var before := ranges[..|ranges| - 1];
    if j < |Valid4(before)| {
      i := EntrySource4(before, j);
    } else {
      i := |ranges| - 1;
    }
  }

  lemma {:induction false} EntrySource6(ranges: seq<Range>, j: nat) returns (i: nat)
    requires j < |Valid6(ranges)|
    ensures i < |ranges|
    ensures forall a: Addr :: a.V6? && Unmap(a) == a && Covers(Valid6(ranges)[j], a.v6) ==> Holds(ranges[i], a)
    ensures exists a: Addr :: a.V6? && Unmap(a) == a && a.v6 == Valid6(ranges)[j].start
  {
    var before := ranges[..|ranges| - 1];
    if j < |Valid6(before)| {
      i := EntrySource6(before, j);
    } else {
      i := |ranges| - 1;
      assert Unmap(Unmap(ranges[i].start)) == Unmap(ranges[i].start);
    }
  }

  lemma NoAddressTwicePrefix(ranges: seq<Range>)
    requires ranges != [] && NoAddressTwice(ranges)
    ensures NoAddressTwice(ranges[..|ranges| - 1])
  {
  }

  lemma {:induction false} FamilyDisjoint4(ranges: seq<Range>)
    requires NoAddressTwice(ranges)
    ensures Disjoint(Valid4(ranges))
  {
    if ranges != [] {
      hide Holds, NoAddressTwice;
      var before := ranges[..|ranges| - 1];
      NoAddressTwicePrefix(ranges);
      FamilyDisjoint4(before);
      if |Valid4(ranges)| > |Valid4(before)| {
        forall j | 0 <= j < |Valid4(before)| ensures Apart(Valid4(before)[j], Valid4(ranges)[|Valid4(before)|]) {
          LastApart4(ranges, j);
        }
      }
    }
  }

  lemma LastApart4(ranges: seq<Range>, j: nat)
    requires NoAddressTwice(ranges) && ranges != []
    requires j < |Valid4(ranges[..|ranges| - 1])| < |Valid4(ranges)|
    ensures Apart(Valid4(ranges[..|ranges| - 1])[j], Valid4(ranges)[|Valid4(ranges[..|ranges| - 1])|])
  {
    var before, r := ranges[..|ranges| - 1], ranges[|ranges| - 1];
    var x, y := Valid4(before)[j], Valid4(ranges)[|Valid4(before)|];
    var i := EntrySource4(before, j);
    ValidWellFormed(before);
    if !Apart(x, y) {
      var v: Word32 := if x.start < y.start then y.start else x.start;
      assert Covers(x, v) && Covers(y, v);
      assert Holds(ranges[i], V4(v)) && Holds(r, V4(v));
      assert false;
    }
  }

  lemma {:induction false} FamilyDisjoint6(ranges: seq<Range>)
    requires NoAddressTwice(ranges)
    ensures Disjoint(Valid6(ranges))
  {
    if ranges != [] {
      hide Holds, NoAddressTwice;
      var before := ranges[..|ranges| - 1];
      NoAddressTwicePrefix(ranges);
      FamilyDisjoint6(before);
      if |Valid6(ranges)| > |Valid6(before)| {
        forall j | 0 <= j < |Valid6(before)| ensures Apart(Valid6(before)[j], Valid6(ranges)[|Valid6(before)|]) {
          LastApart6(ranges, j);
        }
      }
    }
  }

  lemma LastApart6(ranges: seq<Range>, j: nat)
    requires NoAddressTwice(ranges) && ranges != []
    requires j < |Valid6(ranges[..|ranges| - 1])| < |Valid6(ranges)|
    ensures Apart(Valid6(ranges[..|ranges| - 1])[j], Valid6(ranges)[|Valid6(ranges[..|ranges| - 1])|])
  {
    var before, r := ranges[..|ranges| - 1], ranges[|ranges| - 1];
    var x, y := Valid6(before)[j], Valid6(ranges)[|Valid6(before)|];
    var i := EntrySource6(before, j);
    ValidWellFormed(before);
    if !Apart(x, y) {
      var a: Addr :| a.V6? && Unmap(a) == a && a.v6 == x.start;
      if x.start < y.start {
        a := Unmap(r.start);
      }
      assert Covers(x, a.v6) && Covers(y, a.v6);
      assert Holds(ranges[i], a) && Holds(r, a);
      assert false;
    }
  }

  /** Ranges without a common address: the answer from the sorted families is the scan of the ranges as given. */
  lemma AnswerIsScanOfRanges(ranges: seq<Range>, a: Addr)
    requires NoAddressTwice(ranges)
    ensures Answer(StableSort(Valid4(ranges)), StableSort(Valid6(ranges)), a) == ScanRanges(ranges, a)
  {
    hide StableSort, Valid4, Valid6, LastAtOrBefore, Scan, ScanRanges, NoAddressTwice;
    ScanOfFamilies(ranges, a);
    FamilyDisjoint4(ranges);
    FamilyDisjoint6(ranges);
    ValidWellFormed(ranges);
    match Unmap(a) {
      case Invalid =>
      case V4(v) => LookupIsScanWhenDisjoint(Valid4(ranges), v, POW32);
      case V6(v) => LookupIsScanWhenDisjoint(Valid6(ranges), v, POW128);
    }
  }

  // ----- exactly when the search misses nothing

  /** Every covered address gets an answer. */
  ghost predicate Complete(es: seq<Entry>) {
    forall v: nat, i :: 0 <= i < |es| && Covers(es[i], v) ==> LastAtOrBefore(es, v) != 0
  }

  /** No range ends inside an earlier one with a gap before the next start. */
  ghost predicate NoHiddenTail(es: seq<Entry>) {
    forall i, j :: 0 <= i < j < |es| ==> TailSeen(es, i, j)
  }

  predicate TailSeen(es: seq<Entry>, i: nat, j: nat)
    requires i < j < |es|
  {
    es[i].end <= es[j].end || (j + 1 < |es| && es[j + 1].start <= es[j].end + 1)
  }

  lemma LastIndex(es: seq<Entry>, v: nat, i: nat) returns (j: nat)
    requires Sorted(es) && i < |es| && es[i].start <= v
    ensures i <= j < |es| && es[j].start <= v && (j + 1 < |es| ==> es[j + 1].start > v)
    ensures LastAtOrBefore(es, v) == if v <= es[j].end then es[j].asn else 0
  {
    j := i;
    while j + 1 < |es| && es[j + 1].start <= v
      invariant i <= j < |es| && es[j].start <= v
      decreases |es| - j
    {
      j := j + 1;
    }
    SearchFinds(es, v, j + 1);
  }

  lemma CoveredFound(es: seq<Entry>, v: nat, i: nat)
    requires Sorted(es) && NoHiddenTail(es) && i < |es| && Covers(es[i], v)
    requires forall k :: 0 <= k < |es| ==> es[k].asn != 0
    ensures LastAtOrBefore(es, v) != 0
  {
    hide LastAtOrBefore;
    var j := LastIndex(es, v, i);
    if i < j {
      assert TailSeen(es, i, j);
    }
  }

  /** On a sorted base: the search answers for every covered address if and only if no range has a hidden tail. */
  lemma CompleteIffNoHiddenTail(es: seq<Entry>, bound: nat)
    requires Sorted(es) && WellFormed(es, bound)
    ensures Complete(es) <==> NoHiddenTail(es)
  {
    hide LastAtOrBefore, Sorted, TailSeen;
    if NoHiddenTail(es) {
      forall v: nat, i | 0 <= i < |es| && Covers(es[i], v) ensures LastAtOrBefore(es, v) != 0 {
        CoveredFound(es, v, i);
      }
    } else {
      var i, j :| 0 <= i < j < |es| && !TailSeen(es, i, j);
      HiddenTailMissed(es, i, j);
    }
  }

  lemma HiddenTailMissed(es: seq<Entry>, i: nat, j: nat)
    requires Sorted(es) && i < j < |es| && es[j].start <= es[j].end && !TailSeen(es, i, j)
    ensures !Complete(es)
  {
    var v := es[j].end + 1;
    SearchFinds(es, v, j + 1);
    assert Covers(es[i], v) && LastAtOrBefore(es, v) == 0;
  }
}
