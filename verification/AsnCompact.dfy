/**
  The compact IP-to-ASN base (internal/asncompact/asncompact.go): deltas and varints for IPv4, pairs of 16-byte addresses
  for IPv6, and a binary search over the starts.

  gzip is a pair of functions, the second undoing the first; the content version is any function of the raw bytes.
 */
module AsnCompact {
  import opened Bytes

  // ----- addresses and ranges

  type Word32 = v: nat | v < POW32
  type Word128 = v: nat | v < POW128

  /** `netip.Addr` without zones: an IPv6 address is its 128-bit number. */
  datatype Addr = Invalid | V4(v4: Word32) | V6(v6: Word128)

  /** An IPv4-mapped IPv6 address (section 2.5.5.2 of RFC 4291) stands for the IPv4 address. */
  function Unmap(a: Addr): Addr {
    if a.V6? && a.v6 / POW32 == 0xFFFF then V4(a.v6 % POW32) else a
  }

  /** A range as given to `Encode`. */
  datatype Range = Range(start: Addr, end: Addr, asn: Word32)

  /** A range of one family, bounds included. */
  datatype Entry = Entry(start: nat, end: nat, asn: nat)

  /** The ranges of one family that `Encode` keeps, in the order given. */
  function Valid4(ranges: seq<Range>): seq<Entry> {
    if ranges == [] then []
    else
      var r := ranges[|ranges| - 1];
      var s, e := Unmap(r.start), Unmap(r.end);
      var before := Valid4(ranges[..|ranges| - 1]);
      if s.V4? && e.V4? && s.v4 <= e.v4 && r.asn != 0 then before + [Entry(s.v4, e.v4, r.asn)] else before
  }

  function Valid6(ranges: seq<Range>): seq<Entry> {
    if ranges == [] then []
    else
      var r := ranges[|ranges| - 1];
      var s, e := Unmap(r.start), Unmap(r.end);
      var before := Valid6(ranges[..|ranges| - 1]);
      if s.V6? && e.V6? && s.v6 <= e.v6 && r.asn != 0 then before + [Entry(s.v6, e.v6, r.asn)] else before
  }

  /** The IPv4-mapped addresses, in numbers. */
  lemma UnmapMeans(v: Word32, x: Word128)
    ensures Unmap(V4(v)) == V4(v) && Unmap(Invalid) == Invalid
    ensures Unmap(V6(0xFFFF_0000_0000 + v)) == V4(v)
    ensures !(0xFFFF_0000_0000 <= x < 0x1_0000_0000_0000) ==> Unmap(V6(x)) == V6(x)
  {
    assert (0xFFFF * POW32 + v) / POW32 == 0xFFFF && (0xFFFF * POW32 + v) % POW32 == v;
    if x / POW32 == 0xFFFF {
      assert x == 0xFFFF * POW32 + x % POW32;
    }
  }

  /** An address of the IPv4 family: written as such, or mapped. */
  predicate IsV4(a: Addr, v: Word32) {
    a == V4(v) || a == V6(0xFFFF_0000_0000 + v)
  }

  predicate IsV6(a: Addr, x: Word128) {
    a == V6(x) && !(0xFFFF_0000_0000 <= x < 0x1_0000_0000_0000)
  }

  /**
    What `Encode` keeps of one more range, in numbers: a range between two IPv4 addresses, mapped or not, goes to the IPv4
    family, one between two other IPv6 addresses to the IPv6 family, if its bounds are in order and it has an ASN;
    anything else is dropped.
   */
  lemma FilterMeans(before: seq<Range>, r: Range)
    ensures forall a: Word32, b: Word32 :: IsV4(r.start, a) && IsV4(r.end, b) ==>
              && Valid4(before + [r]) == Valid4(before) + (if a <= b && r.asn != 0 then [Entry(a, b, r.asn)] else [])
              && Valid6(before + [r]) == Valid6(before)
    ensures forall x: Word128, y: Word128 :: IsV6(r.start, x) && IsV6(r.end, y) ==>
              && Valid6(before + [r]) == Valid6(before) + (if x <= y && r.asn != 0 then [Entry(x, y, r.asn)] else [])
              && Valid4(before + [r]) == Valid4(before)
    ensures (r.start == Invalid || r.end == Invalid ||
             (exists a: Word32, y: Word128 :: (IsV4(r.start, a) && IsV6(r.end, y)) || (IsV6(r.start, y) && IsV4(r.end, a)))) ==>
              Valid4(before + [r]) == Valid4(before) && Valid6(before + [r]) == Valid6(before)
  {
    assert (before + [r])[..|before|] == before;
    UnmapFamily(r.start);
    UnmapFamily(r.end);
  }

  lemma UnmapFamily(a: Addr)
    ensures forall v: Word32 :: IsV4(a, v) ==> Unmap(a) == V4(v)
    ensures forall x: Word128 :: IsV6(a, x) ==> Unmap(a) == V6(x)
  {
    forall v: Word32 | IsV4(a, v) ensures Unmap(a) == V4(v) {
      UnmapMeans(v, 0);
    }
    forall x: Word128 | IsV6(a, x) ensures Unmap(a) == V6(x) {
      UnmapMeans(0, x);
    }
  }

  /** Well-formed entries of a family whose addresses are below `bound`. */
  ghost predicate WellFormed(es: seq<Entry>, bound: nat) {
    forall i :: 0 <= i < |es| ==> es[i].start <= es[i].end < bound && 0 < es[i].asn < POW32
  }

  lemma {:induction false} ValidWellFormed(ranges: seq<Range>)
    ensures WellFormed(Valid4(ranges), POW32) && |Valid4(ranges)| <= |ranges|
    ensures WellFormed(Valid6(ranges), POW128) && |Valid6(ranges)| <= |ranges|
  {
    if ranges != [] {
      ValidWellFormed(ranges[..|ranges| - 1]);
    }
  }

  // ----- stable sort by start

  ghost predicate Sorted(es: seq<Entry>) {
    forall i, j :: 0 <= i < j < |es| ==> es[i].start <= es[j].start
  }

  /** Insert after every entry with the same start. */
  function Insert(es: seq<Entry>, e: Entry): seq<Entry> {
    if es == [] then [e]
    else if es[|es| - 1].start <= e.start then es + [e]
    else Insert(es[..|es| - 1], e) + [es[|es| - 1]]
  }

  /** `sortRanges`. */
  function StableSort(es: seq<Entry>): seq<Entry> {
    if es == [] then [] else Insert(StableSort(es[..|es| - 1]), es[|es| - 1])
  }

  /** The entries that start at `a`, in order. */
  function StartingAt(es: seq<Entry>, a: nat): seq<Entry> {
    if es == [] then []
    else StartingAt(es[..|es| - 1], a) + (if es[|es| - 1].start == a then [es[|es| - 1]] else [])
  }

  lemma {:induction false} InsertKeeps(es: seq<Entry>, e: Entry)
    ensures multiset(Insert(es, e)) == multiset(es) + multiset{e}
    ensures |Insert(es, e)| == |es| + 1
  {
    if es != [] && es[|es| - 1].start > e.start {
      var k := |es| - 1;
      InsertKeeps(es[..k], e);
      assert es == es[..k] + [es[k]];
    }
  }

  lemma {:induction false} InsertSorted(es: seq<Entry>, e: Entry)
    requires Sorted(es)
    ensures Sorted(Insert(es, e))
  {
    if es != [] && es[|es| - 1].start > e.start {
      var k := |es| - 1;
      InsertSorted(es[..k], e);
      InsertedBelow(es[..k], e, es[k].start);
    }
  }

  lemma {:induction false} InsertedBelow(es: seq<Entry>, e: Entry, a: nat)
    requires (forall i :: 0 <= i < |es| ==> es[i].start <= a) && e.start <= a
    ensures forall i :: 0 <= i < |Insert(es, e)| ==> Insert(es, e)[i].start <= a
  {
    if es != [] && es[|es| - 1].start > e.start {
      InsertedBelow(es[..|es| - 1], e, a);
    }
  }

  lemma StartingSnoc(es: seq<Entry>, e: Entry, a: nat)
    ensures StartingAt(es + [e], a) == StartingAt(es, a) + (if e.start == a then [e] else [])
  {
    assert (es + [e])[..|es|] == es;
  }

  lemma {:induction false} InsertStable(es: seq<Entry>, e: Entry, a: nat)
    ensures StartingAt(Insert(es, e), a) == StartingAt(es, a) + (if e.start == a then [e] else [])
  {
    hide StartingAt;
    if es == [] {
      StartingSnoc([], e, a);
      assert [] + [e] == [e];
    } else if es[|es| - 1].start <= e.start {
      StartingSnoc(es, e, a);
    } else {
      var k := |es| - 1;
      InsertStable(es[..k], e, a);
      StartingSnoc(Insert(es[..k], e), es[k], a);
      StartingSnoc(es[..k], es[k], a);
      assert es == es[..k] + [es[k]];
    }
  }

  /** The sort orders the entries by start, loses and invents none, and keeps equal starts in the order given. */
  lemma {:induction false} StableSortFacts(es: seq<Entry>, a: nat)
    ensures Sorted(StableSort(es))
    ensures multiset(StableSort(es)) == multiset(es) && |StableSort(es)| == |es|
    ensures StartingAt(StableSort(es), a) == StartingAt(es, a)
  {
    hide Sorted, Insert;
    if es == [] {
      EmptySorted();
    } else {
      var k := |es| - 1;
      StableSortFacts(es[..k], a);
      InsertKeeps(StableSort(es[..k]), es[k]);
      InsertSorted(StableSort(es[..k]), es[k]);
      InsertStable(StableSort(es[..k]), es[k], a);
      assert es == es[..k] + [es[k]];
    }
  }

  lemma EmptySorted()
    ensures Sorted([])
  {
  }

  /** These facts leave no choice: two sorted lists with the same entries, in order, at every start are the same list. */
  lemma {:induction false} StableOrderUnique(x: seq<Entry>, y: seq<Entry>)
    requires Sorted(x) && Sorted(y) && forall a: nat :: StartingAt(x, a) == StartingAt(y, a)
    ensures x == y
    decreases |x| + |y|
  {
    if x != [] && y != [] {
      var i, j := |x| - 1, |y| - 1;
      LastStart(x, y);
      var a := x[i].start;
      assert StartingAt(x, a)[|StartingAt(x, a)| - 1] == x[i];
      assert StartingAt(y, a)[|StartingAt(y, a)| - 1] == y[j];
      assert x[i] == y[j];
      forall b: nat ensures StartingAt(x[..i], b) == StartingAt(y[..j], b) {
        assert StartingAt(x, b) == StartingAt(y, b);
        if b == a {
          assert StartingAt(x[..i], b) == StartingAt(x, b)[..|StartingAt(x, b)| - 1];
        } else {
          assert StartingAt(x[..i], b) + [] == StartingAt(x[..i], b);
          assert StartingAt(y[..j], b) + [] == StartingAt(y[..j], b);
        }
      }
      StableOrderUnique(x[..i], y[..j]);
      assert x == x[..i] + [x[i]] && y == y[..j] + [y[j]];
    } else if x != [] {
      StartsSomewhere(x);
      assert false;
    } else if y != [] {
      StartsSomewhere(y);
      assert false;
    }
  }

  lemma StartsSomewhere(x: seq<Entry>)
    requires x != []
    ensures StartingAt(x, x[|x| - 1].start) != []
    ensures StartingAt([], x[|x| - 1].start) == []
  {
  }

  lemma LastStart(x: seq<Entry>, y: seq<Entry>)
    requires x != [] && y != [] && Sorted(x) && Sorted(y) && forall a: nat :: StartingAt(x, a) == StartingAt(y, a)
    ensures x[|x| - 1].start == y[|y| - 1].start
  {
    LastStartAtMost(x, y);
    LastStartAtMost(y, x);
  }

  lemma LastStartAtMost(x: seq<Entry>, y: seq<Entry>)
    requires x != [] && y != [] && Sorted(y) && forall a: nat :: StartingAt(x, a) == StartingAt(y, a)
    ensures x[|x| - 1].start <= y[|y| - 1].start
  {
    hide StartingAt;
    StartsSomewhere(x);
    StartingAtSource(y, x[|x| - 1].start);
  }

  lemma {:induction false} StartingAtSource(es: seq<Entry>, a: nat)
    requires StartingAt(es, a) != []
    ensures exists i :: 0 <= i < |es| && es[i].start == a
  {
    var k := |es| - 1;
    if es[k].start != a {
      assert StartingAt(es[..k], a) + [] == StartingAt(es[..k], a);
      StartingAtSource(es[..k], a);
      var i :| 0 <= i < k && es[..k][i].start == a;
      assert es[i].start == a;
    }
  }
}
