/**
  Reception of the ASN base in chunks (internal/edge/asndb.go): chunks of one version arrive in any order, possibly
  repeated, and the base is decoded and installed when the last one is there.
 */
module AsnAssembly {
  import opened Optional
  import opened Bytes
  import opened AsnCompact
  import opened AsnCodec
  import opened AsnLookup

  const MAX_ASN_BYTES: nat := 67_108_864
  const MAX_CHUNKS: nat := 1024

  datatype Chunk = Chunk(version: string, index: int, total: int, data: seq<Byte>)

  type Parts = map<int, seq<Byte>>

  /** The base being received; `parts` is absent when nothing is in progress. */
  datatype Assembly = Assembly(version: string, total: int, parts: Option<Parts>, size: int)

  const EMPTY := Assembly("", 0, None, 0)

  // ----- one chunk, on values

  function Concat(parts: Parts, n: nat): seq<Byte> {
    if n == 0 then [] else Concat(parts, n - 1) + (if n - 1 in parts then parts[n - 1] else [])
  }

  predicate Acceptable(c: Chunk) {
    c.version != "" && 0 < c.total <= MAX_CHUNKS && 0 <= c.index < c.total
  }

  /** The assembly a chunk goes to: the one in progress if it is of the same version and size, a new one otherwise. */
  function Opened(a: Assembly, c: Chunk): Assembly {
    if a.version != c.version || a.total != c.total || a.parts.None?
    then Assembly(c.version, c.total, Some(map[]), 0) else a
  }

  /** The next state, and the whole data when this chunk completes it. */
  function Receive(a: Assembly, c: Chunk): (Assembly, Option<seq<Byte>>) {
    if !Acceptable(c) then (a, None)
    else
      var o := Opened(a, c);
      if o.parts.None? then (a, None)
      else
        var dup := c.index in o.parts.value;
        var size := if dup then o.size else o.size + |c.data|;
        if !dup && size > MAX_ASN_BYTES then (Assembly("", o.total, None, size), None)
        else
          var parts := if dup then o.parts.value else o.parts.value[c.index := c.data];
          if |parts| < o.total then (Assembly(o.version, o.total, Some(parts), size), None)
          else (Assembly("", o.total, None, size), Some(Concat(parts, o.total)))
  }

  /** What completed data does to the installed base: it must decode, and to the version announced. */
  function Install(db: Option<Db>, c: Chunk, data: Option<seq<Byte>>, gunzip: seq<Byte> -> Option<seq<Byte>>,
                   version: seq<Byte> -> string): Option<Db>
  {
    if data.None? then db
    else
      match gunzip(data.value)
      case None => db
      case Some(raw) =>
        match DecodeRaw(raw, version)
        case None => db
        case Some(d) => if d.version == c.version then Some(d) else db
  }

  class Gateway {
    var asm: Assembly
    var db: Option<Db>

    constructor ()
      ensures asm == EMPTY && db == None
    {
      asm, db := EMPTY, None;
    }

    method ApplyChunk(c: Chunk, gunzip: seq<Byte> -> Option<seq<Byte>>, version: seq<Byte> -> string)
      modifies this
      ensures asm == Receive(old(asm), c).0
      ensures db == Install(old(db), c, Receive(old(asm), c).1, gunzip, version)
    {
      hide DecodeRaw, Concat;
      if c.version == "" || c.total <= 0 || c.total > MAX_CHUNKS || c.index < 0 || c.index >= c.total {
        return;
      }
      if asm.version != c.version || asm.total != c.total || asm.parts.None? {
        asm := Assembly(c.version, c.total, Some(map[]), 0);
      }
      var parts := asm.parts.value;
      if c.index !in parts {
        asm := asm.(size := asm.size + |c.data|);
        if asm.size > MAX_ASN_BYTES {
          asm := asm.(parts := None, version := "");
          return;
        }
        parts := parts[c.index := c.data];
        asm := asm.(parts := Some(parts));
      }
      if |parts| < asm.total {
        return;
      }
      var data := Join(parts, asm.total);
      asm := asm.(parts := None, version := "");
      var raw := gunzip(data);
      if raw.None? {
        return;
      }
      var decoded := Decode(raw.value, version);
      if decoded.None? || decoded.value.version != c.version {
        return;
      }
      db := decoded;
    }
  }

  /** The concatenation loop. */
  method Join(parts: Parts, total: nat) returns (data: seq<Byte>)
    ensures data == Concat(parts, total)
  {
    data := [];
    for i := 0 to total
      invariant data == Concat(parts, i)
    {
      data := data + (if i in parts then parts[i] else []);
    }
  }

  // ----- what every chunk keeps

  /** Bytes held in the parts numbered below `n`. */
  function Held(parts: Parts, n: nat): nat {
    if n == 0 then 0 else Held(parts, n - 1) + (if n - 1 in parts then |parts[n - 1]| else 0)
  }

  ghost predicate Inv(a: Assembly) {
    match a.parts
    case None => a.version == ""
    case Some(parts) =>
      && a.version != "" && 0 < a.total <= MAX_CHUNKS
      && (forall i :: i in parts ==> 0 <= i < a.total)
      && |parts| < a.total
      && a.size == Held(parts, a.total) <= MAX_ASN_BYTES
  }

  lemma {:induction false} HeldUpdate(parts: Parts, i: nat, d: seq<Byte>, n: nat)
    requires i !in parts
    ensures Held(parts[i := d], n) == Held(parts, n) + (if i < n then |d| else 0)
  {
    if n > 0 {
      HeldUpdate(parts, i, d, n - 1);
    }
  }

  lemma {:induction false} HeldEmpty(n: nat)
    ensures Held(map[], n) == 0
  {
    if n > 0 {
      HeldEmpty(n - 1);
    }
  }

  lemma OpenedInv(a: Assembly, c: Chunk)
    requires Inv(a) && Acceptable(c)
    ensures Inv(Opened(a, c)) && Opened(a, c).parts.Some?
    ensures Opened(a, c).version == c.version && Opened(a, c).total == c.total
  {
    HeldEmpty(c.total);
  }

  lemma ReceiveInv(a: Assembly, c: Chunk)
    requires Inv(a)
    ensures Inv(Receive(a, c).0)
  {
    if Acceptable(c) {
      OpenedInv(a, c);
      var o := Opened(a, c);
      if c.index !in o.parts.value {
        HeldUpdate(o.parts.value, c.index, c.data, o.total);
      }
    }
  }

  // ----- runs

  function RunChunks(a: Assembly, cs: seq<Chunk>): Assembly {
    if cs == [] then a else Receive(RunChunks(a, cs[..|cs| - 1]), cs[|cs| - 1]).0
  }

  /** The data completed by the last chunk of the run, if it completes any. */
  function Completed(a: Assembly, cs: seq<Chunk>): Option<seq<Byte>>
    requires cs != []
  {
    Receive(RunChunks(a, cs[..|cs| - 1]), cs[|cs| - 1]).1
  }

  /** After any chunks whatever: the size is the sum of the parts held, within the limit, and a part is still missing. */
  lemma {:induction false} EveryRunKeepsInv(cs: seq<Chunk>)
    ensures Inv(RunChunks(EMPTY, cs))
    ensures var a := RunChunks(EMPTY, cs);
            a.parts.Some? ==> a.size == Held(a.parts.value, a.total) <= 64 * 1024 * 1024 && |a.parts.value| < a.total <= 1024
  {
    if cs != [] {
      EveryRunKeepsInv(cs[..|cs| - 1]);
      ReceiveInv(RunChunks(EMPTY, cs[..|cs| - 1]), cs[|cs| - 1]);
    }
  }

  function RunDb(a: Assembly, db: Option<Db>, cs: seq<Chunk>, gunzip: seq<Byte> -> Option<seq<Byte>>,
                 version: seq<Byte> -> string): Option<Db>
  {
    if cs == [] then db
    else Install(RunDb(a, db, cs[..|cs| - 1], gunzip, version), cs[|cs| - 1], Completed(a, cs), gunzip, version)
  }

  /** The base that chunk `i` of the run completes, if it completes one that decodes to the version it announces. */
  function Offered(cs: seq<Chunk>, i: nat, gunzip: seq<Byte> -> Option<seq<Byte>>, version: seq<Byte> -> string): (d: Option<Db>)
    requires i < |cs|
    ensures d.Some? ==> d.value.version == cs[i].version
  {
    match Completed(EMPTY, cs[..i + 1])
    case None => None
    case Some(data) =>
      match gunzip(data)
      case None => None
      case Some(raw) =>
        match DecodeRaw(raw, version)
        case None => None
        case Some(d) => if d.version == cs[i].version then Some(d) else None
  }

  /** `db` is the base offered by the last chunk of the run that offers any, and nothing if none does. */
  ghost predicate OfferedLast(cs: seq<Chunk>, db: Option<Db>, gunzip: seq<Byte> -> Option<seq<Byte>>,
                              version: seq<Byte> -> string)
  {
    match db
    case None => forall i :: 0 <= i < |cs| ==> Offered(cs, i, gunzip, version).None?
    case Some(d) =>
      exists i :: && 0 <= i < |cs| && Offered(cs, i, gunzip, version) == Some(d)
                  && forall j :: i < j < |cs| ==> Offered(cs, j, gunzip, version).None?
  }

  /**
    When each chunk is handled to the end before the next, the installed base is the one completed last under the version
    that its completing chunk announced.
   */
  lemma {:induction false} InstalledAsAnnounced(cs: seq<Chunk>, gunzip: seq<Byte> -> Option<seq<Byte>>, version: seq<Byte> -> string)
    ensures OfferedLast(cs, RunDb(EMPTY, None, cs, gunzip, version), gunzip, version)
  {
    if cs != [] {
      hide RunDb, OfferedLast, Offered;
      InstalledAsAnnounced(cs[..|cs| - 1], gunzip, version);
      OfferedNext(cs, RunDb(EMPTY, None, cs[..|cs| - 1], gunzip, version), gunzip, version);
      LastOffer(cs, gunzip, version);
    }
  }

  lemma OfferedNext(cs: seq<Chunk>, db: Option<Db>, gunzip: seq<Byte> -> Option<seq<Byte>>, version: seq<Byte> -> string)
    requires cs != [] && OfferedLast(cs[..|cs| - 1], db, gunzip, version)
    ensures var d := Offered(cs, |cs| - 1, gunzip, version); OfferedLast(cs, if d.Some? then d else db, gunzip, version)
  {
    hide Offered;
    OfferedPrefix(cs, gunzip, version);
    var k := |cs| - 1;
    if Offered(cs, k, gunzip, version).None? && db.Some? {
      var i :| && 0 <= i < k && Offered(cs[..k], i, gunzip, version) == db
               && forall j :: i < j < k ==> Offered(cs[..k], j, gunzip, version).None?;
      forall j | i < j < |cs| ensures Offered(cs, j, gunzip, version).None? {
        if j < k {
          assert Offered(cs[..k], j, gunzip, version).None?;
        }
      }
      assert Offered(cs, i, gunzip, version) == db;
    }
  }

  lemma OfferedPrefix(cs: seq<Chunk>, gunzip: seq<Byte> -> Option<seq<Byte>>, version: seq<Byte> -> string)
    requires cs != []
    ensures forall i :: 0 <= i < |cs| - 1 ==> Offered(cs[..|cs| - 1], i, gunzip, version) == Offered(cs, i, gunzip, version)
  {
    hide DecodeRaw, Receive, RunChunks;
    forall i | 0 <= i < |cs| - 1 ensures Offered(cs[..|cs| - 1], i, gunzip, version) == Offered(cs, i, gunzip, version) {
      assert cs[..|cs| - 1][..i + 1] == cs[..i + 1];
    }
  }

  lemma LastOffer(cs: seq<Chunk>, gunzip: seq<Byte> -> Option<seq<Byte>>, version: seq<Byte> -> string)
    requires cs != []
    ensures var d := Offered(cs, |cs| - 1, gunzip, version);
            RunDb(EMPTY, None, cs, gunzip, version) ==
            if d.Some? then d else RunDb(EMPTY, None, cs[..|cs| - 1], gunzip, version)
  {
    hide DecodeRaw, Receive, RunChunks;
    assert cs[..|cs| - 1 + 1] == cs;
  }

  // ----- decoding and installing outside the lock

  /** A chunk arrives, under the lock; or a completed base is decoded and installed, later, in any order. */
  datatype ReceiverStep = Arrive(c: Chunk) | InstallOne(i: nat)

  /** `waiting`: completed data, with the chunk that completed it, not yet decoded. */
  datatype Receiver = Receiver(asm: Assembly, waiting: seq<(Chunk, seq<Byte>)>, db: Option<Db>)

  function ReceiverNext(r: Receiver, st: ReceiverStep, gunzip: seq<Byte> -> Option<seq<Byte>>, version: seq<Byte> -> string): Receiver {
    match st
    case Arrive(c) =>
      var (asm, data) := Receive(r.asm, c);
      r.(asm := asm, waiting := r.waiting + (if data.Some? then [(c, data.value)] else []))
    case InstallOne(i) =>
      if i >= |r.waiting| then r
      else r.(waiting := r.waiting[..i] + r.waiting[i + 1..],
              db := Install(r.db, r.waiting[i].0, Some(r.waiting[i].1), gunzip, version))
  }

  function ReceiverRun(steps: seq<ReceiverStep>, gunzip: seq<Byte> -> Option<seq<Byte>>, version: seq<Byte> -> string): Receiver {
    if steps == [] then Receiver(EMPTY, [], None)
    else ReceiverNext(ReceiverRun(steps[..|steps| - 1], gunzip, version), steps[|steps| - 1], gunzip, version)
  }

  /** The chunks of a run, in order of arrival. */
  function Arrivals(steps: seq<ReceiverStep>): seq<Chunk> {
    if steps == [] then []
    else Arrivals(steps[..|steps| - 1]) + (if steps[|steps| - 1].Arrive? then [steps[|steps| - 1].c] else [])
  }

  /** The data was completed by chunk `i`. */
  ghost predicate CompletedBy(cs: seq<Chunk>, i: nat, w: (Chunk, seq<Byte>)) {
    i < |cs| && cs[i] == w.0 && Completed(EMPTY, cs[..i + 1]) == Some(w.1)
  }

  ghost predicate WasCompleted(cs: seq<Chunk>, w: (Chunk, seq<Byte>)) {
    exists i: nat :: CompletedBy(cs, i, w)
  }

  ghost predicate ReceiverInv(r: Receiver, cs: seq<Chunk>, gunzip: seq<Byte> -> Option<seq<Byte>>, version: seq<Byte> -> string) {
    && r.asm == RunChunks(EMPTY, cs)
    && (forall k :: 0 <= k < |r.waiting| ==> WasCompleted(cs, r.waiting[k]))
    && (r.db.Some? ==> exists i :: 0 <= i < |cs| && Offered(cs, i, gunzip, version) == r.db)
  }

  lemma OfferedBy(cs: seq<Chunk>, i: nat, w: (Chunk, seq<Byte>), db: Option<Db>, gunzip: seq<Byte> -> Option<seq<Byte>>,
                  version: seq<Byte> -> string)
    requires CompletedBy(cs, i, w)
    ensures var d := Offered(cs, i, gunzip, version);
            Install(db, w.0, Some(w.1), gunzip, version) == if d.Some? then d else db
  {
    hide DecodeRaw, Receive, RunChunks;
  }

  lemma ArriveInv(r: Receiver, cs: seq<Chunk>, c: Chunk, gunzip: seq<Byte> -> Option<seq<Byte>>, version: seq<Byte> -> string)
    requires ReceiverInv(r, cs, gunzip, version)
    ensures ReceiverInv(ReceiverNext(r, Arrive(c), gunzip, version), cs + [c], gunzip, version)
  {
    hide DecodeRaw, Receive, Offered;
    var u, more := ReceiverNext(r, Arrive(c), gunzip, version), cs + [c];
    assert more[..|cs|] == cs && more[..|cs| + 1] == more && more[..|more| - 1] == cs && more[|more| - 1] == c;
    assert u.asm == RunChunks(EMPTY, more);
    OfferedPrefix(more, gunzip, version);
    forall k | 0 <= k < |u.waiting| ensures WasCompleted(more, u.waiting[k]) {
      if k < |r.waiting| {
        assert WasCompleted(cs, r.waiting[k]);
        var i: nat :| CompletedBy(cs, i, r.waiting[k]);
        assert more[..i + 1] == cs[..i + 1];
        assert CompletedBy(more, i, u.waiting[k]);
      } else {
        assert CompletedBy(more, |cs|, u.waiting[k]);
      }
    }
    if r.db.Some? {
      var i :| 0 <= i < |cs| && Offered(cs, i, gunzip, version) == r.db;
      assert Offered(more, i, gunzip, version) == r.db == u.db;
    }
  }

  lemma InstallInv(r: Receiver, cs: seq<Chunk>, k: nat, gunzip: seq<Byte> -> Option<seq<Byte>>, version: seq<Byte> -> string)
    requires ReceiverInv(r, cs, gunzip, version)
    ensures ReceiverInv(ReceiverNext(r, InstallOne(k), gunzip, version), cs, gunzip, version)
  {
    hide DecodeRaw, Receive, Offered, Install, CompletedBy, RunChunks;
    if k < |r.waiting| {
      assert WasCompleted(cs, r.waiting[k]);
      var i: nat :| CompletedBy(cs, i, r.waiting[k]);
      CompletedIndex(cs, i, r.waiting[k]);
      OfferedBy(cs, i, r.waiting[k], r.db, gunzip, version);
      var u := ReceiverNext(r, InstallOne(k), gunzip, version);
      var d := Offered(cs, i, gunzip, version);
      assert u.db == if d.Some? then d else r.db;
      assert u.db.Some? ==> exists i :: 0 <= i < |cs| && Offered(cs, i, gunzip, version) == u.db;
      forall j | 0 <= j < |u.waiting| ensures WasCompleted(cs, u.waiting[j]) {
        assert u.waiting[j] == r.waiting[if j < k then j else j + 1];
      }
    }
  }

  lemma CompletedIndex(cs: seq<Chunk>, i: nat, w: (Chunk, seq<Byte>))
    requires CompletedBy(cs, i, w)
    ensures i < |cs|
  {
  }

  lemma {:induction false} EveryReceiverInv(steps: seq<ReceiverStep>, gunzip: seq<Byte> -> Option<seq<Byte>>, version: seq<Byte> -> string)
    ensures ReceiverInv(ReceiverRun(steps, gunzip, version), Arrivals(steps), gunzip, version)
  {
    hide ReceiverNext;
    if steps != [] {
      hide ReceiverInv;
      var k := |steps| - 1;
      EveryReceiverInv(steps[..k], gunzip, version);
      var r, cs := ReceiverRun(steps[..k], gunzip, version), Arrivals(steps[..k]);
      match steps[k] {
        case Arrive(c) => ArriveInv(r, cs, c, gunzip, version);
        case InstallOne(i) =>
          InstallInv(r, cs, i, gunzip, version);
          assert Arrivals(steps) == cs;
      }
    }
  }

  /** Whatever the order in which completed bases are installed, an installed base was completed under its announced version. */
  lemma InstalledInAnyOrder(steps: seq<ReceiverStep>, gunzip: seq<Byte> -> Option<seq<Byte>>, version: seq<Byte> -> string)
    ensures var r, cs := ReceiverRun(steps, gunzip, version), Arrivals(steps);
            && Inv(r.asm)
            && (r.db.Some? ==> exists i :: 0 <= i < |cs| && Offered(cs, i, gunzip, version) == r.db &&
                                           r.db.value.version == cs[i].version)
  {
    hide ReceiverRun, Receive, RunChunks, Inv, Completed;
    EveryReceiverInv(steps, gunzip, version);
    EveryRunKeepsInv(Arrivals(steps));
  }

  // ----- reassembly

  function Flatten(pieces: seq<seq<Byte>>): seq<Byte> {
    if pieces == [] then [] else Flatten(pieces[..|pieces| - 1]) + pieces[|pieces| - 1]
  }

  /** Chunks of one version, each carrying the piece of its number. */
  ghost predicate ChunksOf(cs: seq<Chunk>, v: string, pieces: seq<seq<Byte>>) {
    forall i :: 0 <= i < |cs| ==>
      && cs[i].version == v && cs[i].total == |pieces|
      && 0 <= cs[i].index < |pieces| && cs[i].data == pieces[cs[i].index]
  }

  function Indices(cs: seq<Chunk>): set<int> {
    set i | 0 <= i < |cs| :: cs[i].index
  }

  /** The numbers below `n`. */
  ghost function All(n: nat): (s: set<int>)
    ensures forall i :: i in s <==> 0 <= i < n
  {
    if n == 0 then {} else All(n - 1) + {n - 1}
  }

  /** The parts held once the chunks numbered `seen` have come. */
  ghost function PartsOf(pieces: seq<seq<Byte>>, seen: set<int>): Parts {
    map i | i in seen && 0 <= i < |pieces| :: pieces[i]
  }

  /** A set of numbers below `n` has `n` elements only if it has them all. */
  lemma {:induction false} FullWhenCounted(s: set<int>, n: nat)
    requires s <= All(n)
    ensures |s| <= n && (|s| == n <==> s == All(n))
  {
    if n == 0 {
      assert s == {};
    } else if n - 1 in s {
      var t := s - {n - 1};
      FullWhenCounted(t, n - 1);
      assert s == t + {n - 1} && All(n) == All(n - 1) + {n - 1};
      if |s| == n {
        assert t == All(n - 1);
      }
      if s == All(n) {
        assert t == All(n - 1);
      }
    } else {
      FullWhenCounted(s, n - 1);
      assert n - 1 in All(n);
    }
  }

  lemma {:induction false} HeldPart(pieces: seq<seq<Byte>>, seen: set<int>, n: nat)
    requires n <= |pieces|
    ensures Held(PartsOf(pieces, seen), n) <= |Flatten(pieces[..n])|
  {
    if n > 0 {
      HeldPart(pieces, seen, n - 1);
      assert pieces[..n][..n - 1] == pieces[..n - 1];
    }
  }

  lemma {:induction false} ConcatAll(pieces: seq<seq<Byte>>, seen: set<int>, n: nat)
    requires n <= |pieces| && All(|pieces|) <= seen
    ensures Concat(PartsOf(pieces, seen), n) == Flatten(pieces[..n])
  {
    if n > 0 {
      ConcatAll(pieces, seen, n - 1);
      assert pieces[..n][..n - 1] == pieces[..n - 1];
      assert n - 1 in All(|pieces|);
    }
  }

  /** The assembly while chunks numbered `seen` have come and one is missing. */
  ghost predicate InProgress(a: Assembly, v: string, pieces: seq<seq<Byte>>, seen: set<int>) {
    a == Assembly(v, |pieces|, Some(PartsOf(pieces, seen)), Held(PartsOf(pieces, seen), |pieces|))
  }

  lemma PartsAdd(pieces: seq<seq<Byte>>, seen: set<int>, i: int)
    requires 0 <= i < |pieces| && seen <= All(|pieces|)
    ensures PartsOf(pieces, seen + {i}) == PartsOf(pieces, seen)[i := pieces[i]]
    ensures PartsOf(pieces, seen).Keys == seen
    ensures i in seen ==> PartsOf(pieces, seen)[i := pieces[i]] == PartsOf(pieces, seen)
  {
  }

  /** One more chunk, from an assembly in progress or just opened. */
  lemma ReceiveStep(a: Assembly, c: Chunk, v: string, pieces: seq<seq<Byte>>, seen: set<int>)
    requires v != "" && 0 < |pieces| <= MAX_CHUNKS && |Flatten(pieces)| <= MAX_ASN_BYTES
    requires ChunksOf([c], v, pieces) && seen <= All(|pieces|)
    requires InProgress(Opened(a, c), v, pieces, seen)
    ensures var (next, done) := Receive(a, c);
            if seen + {c.index} == All(|pieces|)
            then done == Some(Flatten(pieces))
            else done == None && InProgress(next, v, pieces, seen + {c.index})
  {
    hide Flatten, Concat, Held, Opened;
    assert c == [c][0];
    var now := seen + {c.index};
    PartsAdd(pieces, seen, c.index);
    PartsAdd(pieces, now, c.index);
    if c.index !in seen {
      HeldUpdate(PartsOf(pieces, seen), c.index, pieces[c.index], |pieces|);
    }
    HeldPart(pieces, now, |pieces|);
    assert pieces[..|pieces|] == pieces;
    FullWhenCounted(now, |pieces|);
    assert |PartsOf(pieces, now)| == |PartsOf(pieces, now).Keys|;
    if now == All(|pieces|) {
      ConcatAll(pieces, now, |pieces|);
    }
  }

  /** No chunk of this version is in progress. */
  ghost predicate NotStarted(a: Assembly, v: string, n: nat) {
    a.version != v || a.total != n || a.parts.None?
  }

  lemma IndicesSnoc(cs: seq<Chunk>, i: nat)
    requires i < |cs|
    ensures Indices(cs[..i + 1]) == Indices(cs[..i]) + {cs[i].index}
  {
    forall x ensures x in Indices(cs[..i + 1]) <==> x in Indices(cs[..i]) + {cs[i].index} {
      if x in Indices(cs[..i + 1]) {
        var k :| 0 <= k < i + 1 && cs[..i + 1][k].index == x;
        assert k < i ==> cs[..i][k].index == x;
      }
      if x in Indices(cs[..i]) {
        var k :| 0 <= k < i && cs[..i][k].index == x;
        assert cs[..i + 1][k].index == x;
      }
      assert cs[..i + 1][i].index == cs[i].index;
    }
  }

  lemma IndicesInRange(cs: seq<Chunk>, v: string, pieces: seq<seq<Byte>>)
    requires ChunksOf(cs, v, pieces)
    ensures Indices(cs) <= All(|pieces|)
  {
  }

  lemma OpenedFresh(a: Assembly, c: Chunk, v: string, pieces: seq<seq<Byte>>)
    requires ChunksOf([c], v, pieces) && NotStarted(a, v, |pieces|)
    ensures InProgress(Opened(a, c), v, pieces, {})
  {
    assert c == [c][0];
    HeldEmpty(|pieces|);
    assert PartsOf(pieces, {}) == map[];
  }

  lemma OpenedSame(a: Assembly, c: Chunk, v: string, pieces: seq<seq<Byte>>, seen: set<int>)
    requires ChunksOf([c], v, pieces) && InProgress(a, v, pieces, seen)
    ensures Opened(a, c) == a
  {
    assert c == [c][0];
  }

  /** While a chunk is missing, the assembly holds exactly the pieces seen. */
  lemma {:induction false} Progress(a: Assembly, cs: seq<Chunk>, v: string, pieces: seq<seq<Byte>>)
    requires v != "" && 0 < |pieces| <= MAX_CHUNKS && |Flatten(pieces)| <= MAX_ASN_BYTES
    requires NotStarted(a, v, |pieces|) && ChunksOf(cs, v, pieces) && Indices(cs) != All(|pieces|)
    ensures cs != [] ==> InProgress(RunChunks(a, cs), v, pieces, Indices(cs)) && Completed(a, cs) == None
    decreases |cs|, 1
  {
    if cs != [] {
      IndicesSnoc(cs, |cs| - 1);
      assert cs[..|cs|] == cs;
      IndicesInRange(cs, v, pieces);
      LastChunk(a, cs, v, pieces);
    }
  }

  lemma LastChunk(a: Assembly, cs: seq<Chunk>, v: string, pieces: seq<seq<Byte>>)
    requires v != "" && 0 < |pieces| <= MAX_CHUNKS && |Flatten(pieces)| <= MAX_ASN_BYTES
    requires NotStarted(a, v, |pieces|) && ChunksOf(cs, v, pieces) && cs != []
    requires Indices(cs[..|cs| - 1]) != All(|pieces|)
    ensures if Indices(cs) == All(|pieces|) then Completed(a, cs) == Some(Flatten(pieces))
            else Completed(a, cs) == None && InProgress(RunChunks(a, cs), v, pieces, Indices(cs))
    decreases |cs|, 0
  {
    hide Flatten, Receive, InProgress, Indices;
    var k := |cs| - 1;
    var before, c := cs[..k], cs[k];
    var b := RunChunks(a, before);
    assert ChunksOf([c], v, pieces);
    IndicesSnoc(cs, k);
    assert cs[..k + 1] == cs;
    IndicesInRange(before, v, pieces);
    if before == [] {
      NoIndices();
      OpenedFresh(a, c, v, pieces);
    } else {
      Progress(a, before, v, pieces);
      OpenedSame(b, c, v, pieces, Indices(before));
    }
    ReceiveStep(b, c, v, pieces, Indices(before));
  }

  lemma NoIndices()
    ensures Indices([]) == {}
  {
  }

  /**
    Chunks of one version, in any order and with any repeats, started on any assembly not already receiving that version:
    nothing is produced while one is missing, and the chunk that completes the set produces the original bytes.
   */
  lemma Reassembled(a: Assembly, cs: seq<Chunk>, v: string, pieces: seq<seq<Byte>>)
    requires v != "" && 0 < |pieces| <= 1024 && |Flatten(pieces)| <= 64 * 1024 * 1024
    requires NotStarted(a, v, |pieces|) && ChunksOf(cs, v, pieces)
    requires cs != [] && Indices(cs) == All(|pieces|) && Indices(cs[..|cs| - 1]) != All(|pieces|)
    ensures Completed(a, cs) == Some(Flatten(pieces))
    ensures forall i :: 0 < i < |cs| ==> Completed(a, cs[..i]) == None
  {
    hide Flatten, Receive, RunChunks;
    LastChunk(a, cs, v, pieces);
    forall i | 0 < i < |cs| ensures Completed(a, cs[..i]) == None {
      FewerIndices(cs, i, |pieces|);
      Progress(a, cs[..i], v, pieces);
    }
  }

  lemma FewerIndices(cs: seq<Chunk>, i: nat, n: nat)
    requires i < |cs| && Indices(cs[..|cs| - 1]) != All(n) && Indices(cs) <= All(n)
    ensures Indices(cs[..i]) != All(n)
  {
    var before := cs[..|cs| - 1];
    forall x | x in Indices(cs[..i]) ensures x in Indices(before) {
      var k :| 0 <= k < i && cs[..i][k].index == x;
      assert before[k].index == x;
    }
    forall x | x in Indices(before) ensures x in All(n) {
      var k :| 0 <= k < |before| && before[k].index == x;
      assert cs[k].index == x;
    }
  }

  // ----- from the ranges of the Admin to the answers of the gateway

  ghost predicate Undoes(gunzip: seq<Byte> -> Option<seq<Byte>>, gzip: seq<Byte> -> seq<Byte>) {
    forall r :: gunzip(gzip(r)) == Some(r)
  }

  /**
    The Admin encodes and compresses any ranges within the format's limits, cuts the result in any way, and its chunks come
    in any order with repeats: the gateway installs a base of the announced version whose IPv4 and IPv6 ranges are exactly
    the valid ones in stable start order.
   */
  lemma BaseArrivesIntact(a: Assembly, db: Option<Db>, cs: seq<Chunk>, ranges: seq<Range>, pieces: seq<seq<Byte>>,
                          gzip: seq<Byte> -> seq<Byte>, gunzip: seq<Byte> -> Option<seq<Byte>>, version: seq<Byte> -> string)
    requires |ranges| < POW64 && Undoes(gunzip, gzip)
    requires |StableSort(Valid4(ranges))| <= MAX_RANGES && |StableSort(Valid6(ranges))| <= MAX_RANGES
    requires |EncodeRaw(ranges)| <= MAX_DECOMPRESSED && version(EncodeRaw(ranges)) != ""
    requires Flatten(pieces) == gzip(EncodeRaw(ranges)) && 0 < |pieces| <= MAX_CHUNKS && |Flatten(pieces)| <= MAX_ASN_BYTES
    requires var v := version(EncodeRaw(ranges)); NotStarted(a, v, |pieces|) && ChunksOf(cs, v, pieces)
    requires cs != [] && Indices(cs) == All(|pieces|) && Indices(cs[..|cs| - 1]) != All(|pieces|)
    ensures RunDb(a, db, cs, gunzip, version) ==
            Some(Db(StableSort(Valid4(ranges)), AllAs16(StableSort(Valid6(ranges))), version(EncodeRaw(ranges))))
  {
    hide Flatten, EncodeRaw, DecodeRaw, StableSort, Valid4, Valid6, Completed, ChunksOf, Indices;
    Reassembled(a, cs, version(EncodeRaw(ranges)), pieces);
    DecodeOfEncode(ranges, version);
    LastVersion(cs, version(EncodeRaw(ranges)), pieces);
  }

  lemma LastVersion(cs: seq<Chunk>, v: string, pieces: seq<seq<Byte>>)
    requires ChunksOf(cs, v, pieces) && cs != []
    ensures cs[|cs| - 1].version == v
  {
  }
}
