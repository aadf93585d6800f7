/**
  Retries of container logs (internal/edge/agentlogs.go): an Agent resends its lines until they are acknowledged, and the
  gateway recognises by their timestamp the lines it has kept.

  A call reads `since` under one lock, adds its lines one by one, waits for the disk, and only then passes `advance` under
  another lock: calls for one container, and calls for others, interleave at each of these points.
 */
module LogRetries {
  import opened AgentLogs

  // ----- calls as steps

  /** A call for lines `from..to` of the stream: what `since` told it, the next line, and the latest line it added. */
  datatype Handler = Handler(from: nat, to: nat, seen: int, at: nat, newest: int)

  /** `pos`: the first line the Agent has no acknowledgement for. `done`: the calls that have returned. */
  datatype State = State(last: map<string, int>, log: seq<Stored>, pos: nat, active: seq<Handler>, done: seq<Handler>)

  datatype Step =
    /** A call for `n` lines begins: sent from the Agent's position, or a late copy sent from an earlier one. */
    | Begin(from: nat, n: nat)
    /** A call looks at its next line; the queue of the store may be full. */
    | Line(h: nat, room: bool)
    /** A call that has looked at all its lines returns; the Agent may or may not see the acknowledgement. */
    | Finish(h: nat, acked: bool)
    /** Calls for other containers. */
    | OtherLine(line: Stored)
    | OtherAdvance(container: string, t: int)

  const INITIAL := State(map[], [], 0, [], [])

  function Without(hs: seq<Handler>, i: nat): seq<Handler>
    requires i < |hs|
  {
    hs[..i] + hs[i + 1..]
  }

  /** A call passes `advance` and returns. */
  function Return(s: State, c: string, i: nat): State
    requires i < |s.active|
  {
    s.(last := Advance(s.last, c, s.active[i].newest), active := Without(s.active, i), done := s.done + [s.active[i]])
  }

  function LineStep(s: State, c: string, stream: seq<Entry>, i: nat, room: bool): State
    requires i < |s.active| && s.active[i].at < |stream|
  {
    var h := s.active[i];
    var e := stream[h.at];
    if h.seen != 0 && e.t <= h.seen then s.(active := s.active[i := h.(at := h.at + 1)])
    else if room then
      s.(log := s.log + [Stored(c, e.t, e.line)],
         active := s.active[i := h.(at := h.at + 1, newest := if e.t > h.newest then e.t else h.newest)])
    else Return(s, c, i)
  }

  function Next(s: State, c: string, stream: seq<Entry>, st: Step): State {
    match st
    case Begin(from, n) =>
      if from > s.pos || from > |stream| then s
      else s.(active := s.active + [Handler(from, if from + n <= |stream| then from + n else |stream|, Since(s.last, c), from, 0)])
    case Line(i, room) =>
      if i < |s.active| && s.active[i].at < s.active[i].to <= |stream| then LineStep(s, c, stream, i, room) else s
    case Finish(i, acked) =>
      if i < |s.active| && s.active[i].at >= s.active[i].to then
        Return(s, c, i).(pos := if acked && s.active[i].to > s.pos then s.active[i].to else s.pos)
      else s
    case OtherLine(line) => if line.container == c then s else s.(log := s.log + [line])
    case OtherAdvance(d, t) => if d == c then s else s.(last := Advance(s.last, d, t))
  }

  function Run(c: string, stream: seq<Entry>, steps: seq<Step>): State {
    if steps == [] then INITIAL else Next(Run(c, stream, steps[..|steps| - 1]), c, stream, steps[|steps| - 1])
  }

  // ----- streams

  /** A stream as it should be stored. */
  function AsStored(c: string, entries: seq<Entry>): seq<Stored> {
    seq(|entries|, i requires 0 <= i < |entries| => Stored(c, entries[i].t, entries[i].line))
  }

  predicate Positive(stream: seq<Entry>) {
    forall i :: 0 <= i < |stream| ==> stream[i].t > 0
  }

  predicate Increasing(stream: seq<Entry>) {
    forall i, j :: 0 <= i < j < |stream| ==> stream[i].t < stream[j].t
  }

  /** How many lines of the stream are not later than `x`, counted from its beginning. */
  function Mark(stream: seq<Entry>, x: int): (m: nat)
    ensures m <= |stream|
  {
    if stream == [] then 0
    else if stream[|stream| - 1].t <= x then |stream|
    else Mark(stream[..|stream| - 1], x)
  }

  /** A position of the gateway in the stream: none, or the timestamp of a line. */
  ghost predicate OnEdge(stream: seq<Entry>, x: int) {
    var m := Mark(stream, x);
    x == if m == 0 then 0 else stream[m - 1].t
  }

  lemma {:induction false} MarkIs(stream: seq<Entry>, x: int, m: nat)
    requires Positive(stream) && Increasing(stream) && m <= |stream| && x == (if m == 0 then 0 else stream[m - 1].t)
    ensures Mark(stream, x) == m && OnEdge(stream, x)
  {
    if m < |stream| {
      MarkIs(stream[..|stream| - 1], x, m);
    }
  }

  /** A line is later than an edge exactly from its mark on. */
  lemma EdgeOrder(stream: seq<Entry>, x: int, j: nat)
    requires Positive(stream) && Increasing(stream) && OnEdge(stream, x) && j < |stream|
    ensures x != 0 && stream[j].t <= x <==> j < Mark(stream, x)
    ensures x == 0 <==> Mark(stream, x) == 0
  {
    hide Mark;
  }

  // ----- what every run keeps, however calls overlap

  /** The call added this line. */
  predicate Took(stream: seq<Entry>, h: Handler, j: nat) {
    Mark(stream, h.seen) <= j < h.at
  }

  /** How many calls added it. */
  function Takers(stream: seq<Entry>, hs: seq<Handler>, j: nat): nat {
    if hs == [] then 0 else Takers(stream, hs[..|hs| - 1], j) + (if Took(stream, hs[|hs| - 1], j) then 1 else 0)
  }

  /** How often the store holds a line of the container with this timestamp. */
  function Copies(log: seq<Stored>, c: string, t: int): nat {
    if log == [] then 0
    else Copies(log[..|log| - 1], c, t) + (if log[|log| - 1].container == c && log[|log| - 1].ts == t then 1 else 0)
  }

  /** How far the gateway has recorded the stream. */
  function Kept(s: State, c: string, stream: seq<Entry>): nat {
    Mark(stream, Since(s.last, c))
  }

  ghost predicate ActiveOk(stream: seq<Entry>, h: Handler, kept: nat) {
    && OnEdge(stream, h.seen) && h.from <= Mark(stream, h.seen) <= kept
    && h.from <= h.at <= h.to <= |stream|
    && h.newest == if h.at > Mark(stream, h.seen) then stream[h.at - 1].t else 0
  }

  ghost predicate Inv(s: State, c: string, stream: seq<Entry>) {
    && OnEdge(stream, Since(s.last, c)) && s.pos <= Kept(s, c, stream)
    && (forall i :: 0 <= i < |s.active| ==> ActiveOk(stream, s.active[i], Kept(s, c, stream)))
    && (forall j :: 0 <= j < Kept(s, c, stream) ==> Takers(stream, s.done, j) >= 1)
    && (forall j :: 0 <= j < |stream| ==>
          Copies(s.log, c, stream[j].t) == Takers(stream, s.active, j) + Takers(stream, s.done, j))
  }

  lemma {:induction false} TakersAppend(stream: seq<Entry>, x: seq<Handler>, y: seq<Handler>, j: nat)
    ensures Takers(stream, x + y, j) == Takers(stream, x, j) + Takers(stream, y, j)
    decreases |y|
  {
    hide Took;
    if y == [] {
      assert x + y == x;
    } else {
      assert (x + y)[..|x| + |y| - 1] == x + y[..|y| - 1];
      TakersAppend(stream, x, y[..|y| - 1], j);
    }
  }

  lemma TakersOne(stream: seq<Entry>, h: Handler, j: nat)
    ensures Takers(stream, [h], j) == if Took(stream, h, j) then 1 else 0
  {
    hide Took;
    assert [h][..0] == [];
    assert Takers(stream, [], j) == 0;
  }

  lemma TakersSplit(stream: seq<Entry>, hs: seq<Handler>, i: nat, j: nat)
    requires i < |hs|
    ensures Takers(stream, hs, j) == Takers(stream, Without(hs, i), j) + (if Took(stream, hs[i], j) then 1 else 0)
  {
    hide Took, Takers;
    assert hs == hs[..i] + ([hs[i]] + hs[i + 1..]);
    TakersAppend(stream, hs[..i], [hs[i]] + hs[i + 1..], j);
    TakersAppend(stream, [hs[i]], hs[i + 1..], j);
    TakersAppend(stream, hs[..i], hs[i + 1..], j);
    TakersOne(stream, hs[i], j);
  }

  lemma TakersUpdate(stream: seq<Entry>, hs: seq<Handler>, i: nat, h: Handler, j: nat)
    requires i < |hs|
    ensures Takers(stream, hs[i := h], j) + (if Took(stream, hs[i], j) then 1 else 0) ==
            Takers(stream, hs, j) + (if Took(stream, h, j) then 1 else 0)
  {
    hide Took, Takers;
    TakersSplit(stream, hs, i, j);
    TakersSplit(stream, hs[i := h], i, j);
    assert Without(hs[i := h], i) == Without(hs, i);
  }

  lemma CopiesSnoc(log: seq<Stored>, line: Stored, c: string, t: int)
    ensures Copies(log + [line], c, t) == Copies(log, c, t) + (if line.container == c && line.ts == t then 1 else 0)
  {
    assert (log + [line])[..|log|] == log;
  }

  lemma BeginInv(s: State, c: string, stream: seq<Entry>, from: nat, n: nat)
    requires Positive(stream) && Increasing(stream) && Inv(s, c, stream)
    ensures Inv(Next(s, c, stream, Begin(from, n)), c, stream)
  {
    hide Mark, Takers, Copies, OnEdge;
    var u := Next(s, c, stream, Begin(from, n));
    if u != s {
      var h := u.active[|s.active|];
      forall j | 0 <= j < |stream| ensures Takers(stream, u.active, j) == Takers(stream, s.active, j) {
        TakersAppend(stream, s.active, [h], j);
        TakersOne(stream, h, j);
      }
    }
  }

  /** A call looks at a line it has to skip. */
  lemma SkipInv(s: State, c: string, stream: seq<Entry>, i: nat)
    requires Positive(stream) && Increasing(stream) && Inv(s, c, stream) && i < |s.active| && s.active[i].at < s.active[i].to
    requires s.active[i].seen != 0 && stream[s.active[i].at].t <= s.active[i].seen
    ensures Inv(s.(active := s.active[i := s.active[i].(at := s.active[i].at + 1)]), c, stream)
  {
    hide Mark, Takers, Copies, OnEdge;
    var h := s.active[i];
    EdgeOrder(stream, h.seen, h.at);
    forall j | 0 <= j < |stream| ensures Takers(stream, s.active[i := h.(at := h.at + 1)], j) == Takers(stream, s.active, j) {
      TakersUpdate(stream, s.active, i, h.(at := h.at + 1), j);
    }
  }

  /** A call adds a line. */
  lemma AddInv(s: State, c: string, stream: seq<Entry>, i: nat)
    requires Positive(stream) && Increasing(stream) && Inv(s, c, stream) && i < |s.active| && s.active[i].at < s.active[i].to
    requires !(s.active[i].seen != 0 && stream[s.active[i].at].t <= s.active[i].seen)
    ensures Inv(LineStep(s, c, stream, i, true), c, stream)
  {
    hide Mark, Takers, Copies, OnEdge;
    var h, u := s.active[i], LineStep(s, c, stream, i, true);
    EdgeOrder(stream, h.seen, h.at);
    assert h.newest < stream[h.at].t;
    forall j | 0 <= j < |stream|
      ensures Copies(u.log, c, stream[j].t) == Takers(stream, u.active, j) + Takers(stream, u.done, j)
    {
      TakersUpdate(stream, s.active, i, u.active[i], j);
      CopiesSnoc(s.log, Stored(c, stream[h.at].t, stream[h.at].line), c, stream[j].t);
    }
  }

  /** Where a call that returns moves the record. */
  lemma AdvanceMark(last: map<string, int>, c: string, stream: seq<Entry>, h: Handler)
    requires Positive(stream) && Increasing(stream) && OnEdge(stream, Since(last, c))
    requires ActiveOk(stream, h, Mark(stream, Since(last, c)))
    ensures var x, kept := Since(Advance(last, c, h.newest), c), Mark(stream, Since(last, c));
            OnEdge(stream, x) && Mark(stream, x) == if h.at > kept then h.at else kept
  {
    hide Mark;
    var kept := Mark(stream, Since(last, c));
    if h.at > Mark(stream, h.seen) {
      MarkIs(stream, h.newest, h.at);
    }
    EdgeOrderBoth(stream, Since(last, c), h.newest);
  }

  lemma EdgeOrderBoth(stream: seq<Entry>, x: int, y: int)
    requires Positive(stream) && Increasing(stream) && OnEdge(stream, x)
    requires y == 0 || OnEdge(stream, y)
    ensures y > x ==> y != 0 && Mark(stream, y) > Mark(stream, x)
    ensures y != 0 && y <= x ==> Mark(stream, y) <= Mark(stream, x)
    ensures x >= 0
  {
    hide Mark;
  }

  lemma ReturnInv(s: State, c: string, stream: seq<Entry>, i: nat)
    requires Positive(stream) && Increasing(stream) && Inv(s, c, stream) && i < |s.active|
    ensures Inv(Return(s, c, i), c, stream)
    ensures Kept(Return(s, c, i), c, stream) == if s.active[i].at > Kept(s, c, stream) then s.active[i].at else Kept(s, c, stream)
  {
    hide Mark, Takers, Copies, OnEdge;
    var h, u := s.active[i], Return(s, c, i);
    AdvanceMark(s.last, c, stream, h);
    forall j | 0 <= j < |stream|
      ensures Takers(stream, u.active, j) + Takers(stream, u.done, j) == Takers(stream, s.active, j) + Takers(stream, s.done, j)
      ensures Takers(stream, u.done, j) == Takers(stream, s.done, j) + (if Took(stream, h, j) then 1 else 0)
    {
      TakersSplit(stream, s.active, i, j);
      TakersAppend(stream, s.done, [h], j);
      TakersOne(stream, h, j);
    }
    forall k | 0 <= k < |u.active| ensures ActiveOk(stream, u.active[k], Kept(u, c, stream)) {
      assert u.active[k] == s.active[if k < i then k else k + 1];
    }
  }

  lemma OtherInv(s: State, c: string, stream: seq<Entry>, st: Step)
    requires Inv(s, c, stream) && (st.OtherLine? || st.OtherAdvance?)
    ensures Inv(Next(s, c, stream, st), c, stream)
  {
    hide Mark, Takers, Copies, OnEdge;
    if st.OtherLine? && st.line.container != c {
      forall j | 0 <= j < |stream| ensures Copies(s.log + [st.line], c, stream[j].t) == Copies(s.log, c, stream[j].t) {
        CopiesSnoc(s.log, st.line, c, stream[j].t);
      }
    }
  }

  lemma NextInv(s: State, c: string, stream: seq<Entry>, st: Step)
    requires Positive(stream) && Increasing(stream) && Inv(s, c, stream)
    ensures Inv(Next(s, c, stream, st), c, stream)
  {
    hide Mark, Takers, Copies, OnEdge;
    match st {
      case Begin(from, n) => BeginInv(s, c, stream, from, n);
      case Line(i, room) =>
        if i < |s.active| && s.active[i].at < s.active[i].to {
          var h := s.active[i];
          if h.seen != 0 && stream[h.at].t <= h.seen {
            SkipInv(s, c, stream, i);
          } else if room {
            AddInv(s, c, stream, i);
          } else {
            ReturnInv(s, c, stream, i);
          }
        }
      case Finish(i, acked) =>
        if i < |s.active| {
          ReturnInv(s, c, stream, i);
          FinishKept(s, c, stream, i);
        }
      case OtherLine(_) => OtherInv(s, c, stream, st);
      case OtherAdvance(_, _) => OtherInv(s, c, stream, st);
    }
  }

  /** What a finished call acknowledges is recorded. */
  lemma FinishKept(s: State, c: string, stream: seq<Entry>, i: nat)
    requires Positive(stream) && Increasing(stream) && Inv(s, c, stream) && i < |s.active|
    ensures s.active[i].at >= s.active[i].to ==> s.active[i].to <= Kept(Return(s, c, i), c, stream)
  {
    hide Mark, Takers, Copies, OnEdge;
    ReturnInv(s, c, stream, i);
  }

  lemma InitialInv(c: string, stream: seq<Entry>)
    requires Positive(stream) && Increasing(stream)
    ensures Inv(INITIAL, c, stream) && Kept(INITIAL, c, stream) == 0
  {
    MarkIs(stream, 0, 0);
  }

  lemma {:induction false} EveryRunInv(c: string, stream: seq<Entry>, steps: seq<Step>)
    requires Positive(stream) && Increasing(stream)
    ensures Inv(Run(c, stream, steps), c, stream)
  {
    hide Inv, Next;
    if steps == [] {
      InitialInv(c, stream);
    } else {
      EveryRunInv(c, stream, steps[..|steps| - 1]);
      NextInv(Run(c, stream, steps[..|steps| - 1]), c, stream, steps[|steps| - 1]);
    }
  }

  /**
    Over every run, calls overlapping as they may: the store holds each line exactly as often as calls took it, a call
    taking the lines from where the record stood when it began to where it stopped; and what was acknowledged is held.
   */
  lemma CopiesAreTakers(c: string, stream: seq<Entry>, steps: seq<Step>, j: nat)
    requires Positive(stream) && Increasing(stream) && j < |stream|
    ensures var s := Run(c, stream, steps);
            && Copies(s.log, c, stream[j].t) == Takers(stream, s.active + s.done, j)
            && (j < s.pos ==> Copies(s.log, c, stream[j].t) >= 1)
  {
    hide Run, Takers, Copies, Took;
    EveryRunInv(c, stream, steps);
    var s := Run(c, stream, steps);
    TakersAppend(stream, s.active, s.done, j);
  }

  /** A line is held twice or more exactly when two different calls took it. */
  lemma HeldTwiceIff(c: string, stream: seq<Entry>, steps: seq<Step>, j: nat)
    requires Positive(stream) && Increasing(stream) && j < |stream|
    ensures var s := Run(c, stream, steps);
            var calls := s.active + s.done;
            Copies(s.log, c, stream[j].t) >= 2 <==>
            exists a, b :: 0 <= a < b < |calls| && Took(stream, calls[a], j) && Took(stream, calls[b], j)
  {
    hide Run, Takers, Copies, Took;
    CopiesAreTakers(c, stream, steps, j);
    var s := Run(c, stream, steps);
    TakersMeans(stream, s.active + s.done, j);
  }

  lemma {:induction false} TakersMeans(stream: seq<Entry>, hs: seq<Handler>, j: nat)
    ensures Takers(stream, hs, j) >= 1 <==> exists a :: 0 <= a < |hs| && Took(stream, hs[a], j)
    ensures Takers(stream, hs, j) >= 2 <==> exists a, b :: 0 <= a < b < |hs| && Took(stream, hs[a], j) && Took(stream, hs[b], j)
  {
    hide Took;
    if hs != [] {
      var k := |hs| - 1;
      var low := hs[..k];
      TakersMeans(stream, low, j);
      assert forall a :: 0 <= a < k ==> low[a] == hs[a];
      if Takers(stream, low, j) >= 1 {
        var a :| 0 <= a < |low| && Took(stream, low[a], j);
        assert Took(stream, hs[a], j);
      }
      if Takers(stream, low, j) >= 2 {
        var a, b :| 0 <= a < b < |low| && Took(stream, low[a], j) && Took(stream, low[b], j);
        assert Took(stream, hs[a], j) && Took(stream, hs[b], j);
      }
    }
  }

  // ----- calls one at a time: exactly once, in order

  /** What the store holds of one container, in order. */
  function Of(log: seq<Stored>, c: string): seq<Stored> {
    if log == [] then []
    else Of(log[..|log| - 1], c) + (if log[|log| - 1].container == c then [log[|log| - 1]] else [])
  }

  lemma OfSnoc(log: seq<Stored>, line: Stored, c: string)
    ensures Of(log + [line], c) == Of(log, c) + (if line.container == c then [line] else [])
  {
    assert (log + [line])[..|log|] == log;
  }

  lemma StoredSnoc(c: string, stream: seq<Entry>, i: nat)
    requires i < |stream|
    ensures AsStored(c, stream[..i + 1]) == AsStored(c, stream[..i]) + [Stored(c, stream[i].t, stream[i].line)]
  {
  }

  /** No call of the container begins while another is between `since` and `advance`. */
  ghost predicate Serial(c: string, stream: seq<Entry>, steps: seq<Step>) {
    forall k :: 0 <= k < |steps| && steps[k].Begin? ==> Run(c, stream, steps[..k]).active == []
  }

  /** How far the lines are in the store. */
  function Front(s: State, c: string, stream: seq<Entry>): nat {
    var kept := Kept(s, c, stream);
    if s.active != [] && s.active[0].at > kept then s.active[0].at else kept
  }

  ghost predicate SerialInv(s: State, c: string, stream: seq<Entry>) {
    && Inv(s, c, stream) && |s.active| <= 1
    && (s.active != [] ==> Mark(stream, s.active[0].seen) == Kept(s, c, stream))
    && Front(s, c, stream) <= |stream| && Of(s.log, c) == AsStored(c, stream[..Front(s, c, stream)])
  }

  lemma SerialLine(s: State, c: string, stream: seq<Entry>, room: bool)
    requires Positive(stream) && Increasing(stream) && SerialInv(s, c, stream)
    requires s.active != [] && s.active[0].at < s.active[0].to
    ensures SerialInv(LineStep(s, c, stream, 0, room), c, stream)
  {
    hide Mark, Takers, Copies, OnEdge, Of, AsStored, Inv;
    ActiveFacts(s, c, stream);
    NextInv(s, c, stream, Line(0, room));
    var h := s.active[0];
    EdgeOrder(stream, h.seen, h.at);
    if !(h.seen != 0 && stream[h.at].t <= h.seen) {
      if room {
        OfSnoc(s.log, Stored(c, stream[h.at].t, stream[h.at].line), c);
        StoredSnoc(c, stream, h.at);
      } else {
        ReturnInv(s, c, stream, 0);
      }
    }
  }

  lemma ActiveFacts(s: State, c: string, stream: seq<Entry>)
    requires Inv(s, c, stream) && s.active != []
    ensures s.active[0].at <= s.active[0].to <= |stream| && OnEdge(stream, s.active[0].seen)
    ensures s.active[0].from <= Mark(stream, s.active[0].seen) && s.active[0].from <= s.active[0].at
  {
  }

  lemma SerialNext(s: State, c: string, stream: seq<Entry>, st: Step)
    requires Positive(stream) && Increasing(stream) && SerialInv(s, c, stream) && (st.Begin? ==> s.active == [])
    ensures SerialInv(Next(s, c, stream, st), c, stream)
  {
    hide Mark, Takers, Copies, OnEdge, Of, AsStored, Inv;
    NextInv(s, c, stream, st);
    match st {
      case Begin(from, n) => PosKept(s, c, stream);
      case Line(i, room) =>
        if i < |s.active| && s.active[i].at < s.active[i].to <= |stream| {
          SerialLine(s, c, stream, room);
        }
      case Finish(i, acked) =>
        if i < |s.active| {
          ReturnInv(s, c, stream, i);
        }
      case OtherLine(line) => OfSnoc(s.log, line, c);
      case OtherAdvance(_, _) =>
    }
  }

  lemma PosKept(s: State, c: string, stream: seq<Entry>)
    requires Inv(s, c, stream)
    ensures s.pos <= Kept(s, c, stream)
  {
  }

  lemma {:induction false} SerialRun(c: string, stream: seq<Entry>, steps: seq<Step>)
    requires Positive(stream) && Increasing(stream) && Serial(c, stream, steps)
    ensures SerialInv(Run(c, stream, steps), c, stream)
  {
    hide SerialInv, Next;
    if steps == [] {
      InitialSerial(c, stream);
    } else {
      var k := |steps| - 1;
      assert steps[k].Begin? ==> Run(c, stream, steps[..k]).active == [];
      assert Serial(c, stream, steps[..k]) by {
        forall i | 0 <= i < k && steps[..k][i].Begin? ensures Run(c, stream, steps[..k][..i]).active == [] {
          assert steps[..k][..i] == steps[..i];
        }
      }
      SerialRun(c, stream, steps[..k]);
      SerialNext(Run(c, stream, steps[..k]), c, stream, steps[k]);
    }
  }

  lemma InitialSerial(c: string, stream: seq<Entry>)
    requires Positive(stream) && Increasing(stream)
    ensures SerialInv(INITIAL, c, stream)
  {
    hide Inv, Mark;
    InitialInv(c, stream);
  }

  /** The store holds a beginning of the stream that covers what was acknowledged: no loss, no repeat, in order. */
  ghost predicate ExactlyOnce(s: State, c: string, stream: seq<Entry>) {
    exists m: nat :: s.pos <= m <= |stream| && Of(s.log, c) == AsStored(c, stream[..m])
  }

  ghost predicate AlwaysExactlyOnce(c: string, stream: seq<Entry>) {
    forall steps :: Serial(c, stream, steps) ==> ExactlyOnce(Run(c, stream, steps), c, stream)
  }

  lemma SerialExactlyOnce(c: string, stream: seq<Entry>, steps: seq<Step>)
    requires Positive(stream) && Increasing(stream) && Serial(c, stream, steps)
    ensures ExactlyOnce(Run(c, stream, steps), c, stream)
  {
    hide Run, Inv, Of, AsStored, Mark;
    SerialRun(c, stream, steps);
    var s := Run(c, stream, steps);
    PosKept(s, c, stream);
    assert Of(s.log, c) == AsStored(c, stream[..Front(s, c, stream)]);
  }

  // ----- a call handled alone

  function Repeat(st: Step, n: nat): (r: seq<Step>)
    ensures |r| == n && forall i :: 0 <= i < n ==> r[i] == st
  {
    seq(n, _ => st)
  }

  lemma RunSnoc(c: string, stream: seq<Entry>, steps: seq<Step>, st: Step)
    ensures Run(c, stream, steps + [st]) == Next(Run(c, stream, steps), c, stream, st)
  {
    assert (steps + [st])[..|steps|] == steps;
  }

  lemma RepeatSnoc(steps: seq<Step>, st: Step, n: nat)
    requires n > 0
    ensures steps + Repeat(st, n) == steps + Repeat(st, n - 1) + [st]
  {
    assert Repeat(st, n) == Repeat(st, n - 1) + [st];
  }

  /** The lines of a call: those that are new with respect to what `since` told it. */
  lemma {:induction false} AloneLines(c: string, stream: seq<Entry>, steps: seq<Step>, k: nat)
    requires var s := Run(c, stream, steps);
             && Positive(stream) && |s.active| == 1 && s.active[0].at == s.active[0].from && s.active[0].newest == 0
             && s.active[0].from + k <= s.active[0].to <= |stream|
    ensures var s, u := Run(c, stream, steps), Run(c, stream, steps + Repeat(Line(0, true), k));
            var h := s.active[0];
            var news := Fresh(c, stream[h.from..h.from + k], h.seen, 0);
            u == s.(log := s.log + news, active := [h.(at := h.from + k, newest := Newest(news))])
  {
    hide Run, Fresh, Newest;
    var s := Run(c, stream, steps);
    var h := s.active[0];
    if k == 0 {
      assert steps + Repeat(Line(0, true), 0) == steps;
      NothingNew(c, stream[h.from..h.from], h.seen);
      assert s.active == [h];
    } else {
      AloneLines(c, stream, steps, k - 1);
      RepeatSnoc(steps, Line(0, true), k);
      RunSnoc(c, stream, steps + Repeat(Line(0, true), k - 1), Line(0, true));
      var batch := stream[h.from..h.from + k];
      assert batch[..k - 1] == stream[h.from..h.from + k - 1] && batch[..k] == batch && batch[k - 1] == stream[h.from + k - 1];
      FreshSnoc(c, batch, k - 1, h.seen, 0);
      NewestSnoc(Fresh(c, batch[..k - 1], h.seen, 0), Stored(c, batch[k - 1].t, batch[k - 1].line));
    }
  }

  lemma NothingNew(c: string, entries: seq<Entry>, seen: int)
    requires entries == []
    ensures Fresh(c, entries, seen, 0) == [] && Newest([]) == 0
  {
  }

  /** A call that runs alone, with room for its lines, does what `AgentLogs.Gateway.StoreAgentLogs` says of one call. */
  lemma AloneIsOneCall(c: string, stream: seq<Entry>, steps: seq<Step>, from: nat, n: nat, acked: bool)
    requires var s := Run(c, stream, steps);
             Positive(stream) && s.active == [] && from <= s.pos && from + n <= |stream|
    ensures var s, u := Run(c, stream, steps), Run(c, stream, steps + [Begin(from, n)] + Repeat(Line(0, true), n) + [Finish(0, acked)]);
            var news := Fresh(c, stream[from..from + n], Since(s.last, c), 0);
            && u.log == s.log + Taken(news, |news|) && u.last == Advance(s.last, c, Newest(Taken(news, |news|)))
            && u.active == [] && u.pos == if acked && from + n > s.pos then from + n else s.pos
  {
    hide Run, Fresh, Newest;
    var b := steps + [Begin(from, n)];
    RunSnoc(c, stream, steps, Begin(from, n));
    AloneLines(c, stream, b, n);
    RunSnoc(c, stream, b + Repeat(Line(0, true), n), Finish(0, acked));
  }

  /** And so does one whose queue is full at its first new line after the first `k`. */
  lemma AloneRefusedIsOneCall(c: string, stream: seq<Entry>, steps: seq<Step>, from: nat, n: nat, k: nat)
    requires var s := Run(c, stream, steps);
             && Positive(stream) && s.active == [] && from <= s.pos && k < n && from + n <= |stream|
             && (Since(s.last, c) != 0 ==> stream[from + k].t > Since(s.last, c))
    ensures var s, u := Run(c, stream, steps), Run(c, stream, steps + [Begin(from, n)] + Repeat(Line(0, true), k) + [Line(0, false)]);
            var news := Fresh(c, stream[from..from + n], Since(s.last, c), 0);
            var room := |Fresh(c, stream[from..from + k], Since(s.last, c), 0)|;
            && room < |news| && u.log == s.log + Taken(news, room) && u.last == Advance(s.last, c, Newest(Taken(news, room)))
            && u.active == [] && u.pos == s.pos
  {
    hide Run, Fresh, Newest;
    var s, b := Run(c, stream, steps), steps + [Begin(from, n)];
    RunSnoc(c, stream, steps, Begin(from, n));
    AloneLines(c, stream, b, k);
    RunSnoc(c, stream, b + Repeat(Line(0, true), k), Line(0, false));
    var batch, seen := stream[from..from + n], Since(s.last, c);
    assert batch[..k] == stream[from..from + k] && batch[k] == stream[from + k];
    FreshSnoc(c, batch, k, seen, 0);
    FreshPrefix(c, batch, k + 1, seen, 0);
    FreshPrefix(c, batch, k, seen, 0);
    var news, first := Fresh(c, batch, seen, 0), Fresh(c, batch[..k], seen, 0);
    assert first <= news && news[..|first|] == first;
    assert Taken(news, |first|) == first;
  }

  // ----- a timestamp that does not grow

  /** A call that began with nothing recorded adds every line it looks at. */
  lemma {:induction false} AddsAll(c: string, stream: seq<Entry>, steps: seq<Step>, n: nat, k: nat)
    requires Positive(stream) && k <= n <= |stream|
    requires Run(c, stream, steps) == State(map[], [], 0, [Handler(0, n, 0, 0, 0)], [])
    ensures var s := Run(c, stream, steps + Repeat(Line(0, true), k));
            && s.last == map[] && s.log == AsStored(c, stream[..k]) && s.pos == 0 && s.done == [] && |s.active| == 1
            && s.active[0] == Handler(0, n, 0, k, s.active[0].newest)
            && (k > 0 ==> s.active[0].newest >= stream[k - 1].t)
  {
    hide Run, Since;
    if k == 0 {
      assert steps + Repeat(Line(0, true), 0) == steps;
    } else {
      AddsAll(c, stream, steps, n, k - 1);
      RepeatSnoc(steps, Line(0, true), k);
      RunSnoc(c, stream, steps + Repeat(Line(0, true), k - 1), Line(0, true));
      StoredSnoc(c, stream, k - 1);
    }
  }

  /** The whole run: a first call for the lines up to a cut, a second one for the line after it. */
  function CutRun(i: nat): seq<Step> {
    [Begin(0, i + 1)] + Repeat(Line(0, true), i + 1) + [Finish(0, true)] + [Begin(i + 1, 1)] + [Line(0, true)] + [Finish(0, true)]
  }

  lemma FirstCall(c: string, stream: seq<Entry>, i: nat)
    requires Positive(stream) && i < |stream|
    ensures var s := Run(c, stream, [Begin(0, i + 1)] + Repeat(Line(0, true), i + 1) + [Finish(0, true)]);
            s.active == [] && s.pos == i + 1 && s.log == AsStored(c, stream[..i + 1]) && Since(s.last, c) >= stream[i].t
  {
    var b := [Begin(0, i + 1)];
    assert b[..0] == [];
    assert Run(c, stream, b) == State(map[], [], 0, [Handler(0, i + 1, 0, 0, 0)], []);
    AddsAll(c, stream, b, i + 1, i + 1);
    RunSnoc(c, stream, b + Repeat(Line(0, true), i + 1), Finish(0, true));
  }

  /** A line that is not later than what is recorded is dropped, and its call acknowledged. */
  lemma SecondCall(c: string, stream: seq<Entry>, steps: seq<Step>)
    requires var s := Run(c, stream, steps);
             && Positive(stream) && s.active == [] && s.pos < |stream| && Since(s.last, c) >= stream[s.pos].t
    ensures var s, u := Run(c, stream, steps), Run(c, stream, steps + [Begin(Run(c, stream, steps).pos, 1)] + [Line(0, true)] + [Finish(0, true)]);
            u.log == s.log && u.pos == s.pos + 1
  {
    hide Run;
    var s := Run(c, stream, steps);
    var b := Begin(s.pos, 1);
    RunSnoc(c, stream, steps, b);
    RunSnoc(c, stream, steps + [b], Line(0, true));
    RunSnoc(c, stream, steps + [b] + [Line(0, true)], Finish(0, true));
  }

  /** Cutting the batches where a timestamp does not grow loses the line after the cut, though no call overlaps another. */
  lemma CutLosesLine(c: string, stream: seq<Entry>, i: nat)
    requires Positive(stream) && i + 1 < |stream| && stream[i].t >= stream[i + 1].t
    ensures !AlwaysExactlyOnce(c, stream)
  {
    hide Run;
    FirstCall(c, stream, i);
    var first := [Begin(0, i + 1)] + Repeat(Line(0, true), i + 1) + [Finish(0, true)];
    SecondCall(c, stream, first);
    var s := Run(c, stream, CutRun(i));
    CutSerial(c, stream, i);
    AllOf(c, stream[..i + 1]);
    forall m: nat | s.pos <= m <= |stream| ensures Of(s.log, c) != AsStored(c, stream[..m]) {
      assert |AsStored(c, stream[..m])| == m;
    }
    assert !ExactlyOnce(s, c, stream);
  }

  lemma {:induction false} AllOf(c: string, entries: seq<Entry>)
    ensures Of(AsStored(c, entries), c) == AsStored(c, entries)
  {
    if entries != [] {
      var k := |entries| - 1;
      AllOf(c, entries[..k]);
      StoredSnoc(c, entries, k);
      assert entries[..k + 1] == entries;
      OfSnoc(AsStored(c, entries[..k]), Stored(c, entries[k].t, entries[k].line), c);
    }
  }

  lemma CutSerial(c: string, stream: seq<Entry>, i: nat)
    requires Positive(stream) && i < |stream|
    ensures Serial(c, stream, CutRun(i))
  {
    hide Run;
    FirstCall(c, stream, i);
    var steps := CutRun(i);
    var first := [Begin(0, i + 1)] + Repeat(Line(0, true), i + 1) + [Finish(0, true)];
    assert steps == first + [Begin(i + 1, 1)] + [Line(0, true)] + [Finish(0, true)];
    forall k | 0 <= k < |steps| && steps[k].Begin? ensures Run(c, stream, steps[..k]).active == [] {
      if k == 0 {
        NothingRun(c, stream);
        assert steps[..0] == [];
      } else {
        assert k == |first|;
        assert steps[..k] == first;
      }
    }
  }

  lemma NothingRun(c: string, stream: seq<Entry>)
    ensures Run(c, stream, []) == INITIAL
  {
  }

  lemma {:induction false} IncreasingFromNeighbours(stream: seq<Entry>)
    requires forall i :: 0 <= i && i + 1 < |stream| ==> stream[i].t < stream[i + 1].t
    ensures Increasing(stream)
  {
    if stream != [] {
      var k := |stream| - 1;
      IncreasingFromNeighbours(stream[..k]);
      forall i | 0 <= i < k ensures stream[i].t < stream[k].t {
        assert stream[k - 1].t < stream[k - 1 + 1].t;
        assert i < k - 1 ==> stream[..k][i].t < stream[..k][k - 1].t;
      }
    }
  }

  /**
    Every pattern of calls, late copies, full queues and lost acknowledgements in which no call of the container begins
    inside another stores each line once and in order, if and only if the timestamps of the stream strictly increase.
   */
  lemma ExactlyOnceIffIncreasing(c: string, stream: seq<Entry>)
    requires Positive(stream)
    ensures AlwaysExactlyOnce(c, stream) <==> Increasing(stream)
  {
    hide Run, Serial, ExactlyOnce;
    if Increasing(stream) {
      forall steps | Serial(c, stream, steps) ensures ExactlyOnce(Run(c, stream, steps), c, stream) {
        SerialExactlyOnce(c, stream, steps);
      }
    } else {
      if forall i :: 0 <= i && i + 1 < |stream| ==> stream[i].t < stream[i + 1].t {
        IncreasingFromNeighbours(stream);
      }
      var i :| 0 <= i && i + 1 < |stream| && stream[i].t >= stream[i + 1].t;
      CutLosesLine(c, stream, i);
    }
  }

  // ----- a resend that begins before the first call has returned

  /** The same `n` lines sent twice, the second call beginning before the first has passed `advance`. */
  function OverlappingRun(n: nat): seq<Step> {
    [Begin(0, n)] + [Begin(0, n)] + Repeat(Line(0, true), n) + Repeat(Line(1, true), n)
  }

  lemma {:induction false} LooksAtAll(c: string, stream: seq<Entry>, steps: seq<Step>, i: nat, n: nat, k: nat)
    requires k <= n <= |stream| && i < |Run(c, stream, steps).active|
    requires var h := Run(c, stream, steps).active[i]; h.seen == 0 && h.at == 0 && h.to == n
    ensures var s, u := Run(c, stream, steps), Run(c, stream, steps + Repeat(Line(i, true), k));
            && |u.active| == |s.active| && u.done == s.done && u.active[i].seen == 0 && u.active[i].at == k && u.active[i].to == n
            && forall j :: 0 <= j < |s.active| && j != i ==> u.active[j] == s.active[j]
  {
    hide Run;
    if k == 0 {
      assert steps + Repeat(Line(i, true), 0) == steps;
    } else {
      LooksAtAll(c, stream, steps, i, n, k - 1);
      RepeatSnoc(steps, Line(i, true), k);
      RunSnoc(c, stream, steps + Repeat(Line(i, true), k - 1), Line(i, true));
    }
  }

  /** Then every one of those lines is stored twice. */
  lemma OverlapStoresTwice(c: string, stream: seq<Entry>, n: nat, j: nat)
    requires Positive(stream) && Increasing(stream) && j < n <= |stream|
    ensures Copies(Run(c, stream, OverlappingRun(n)).log, c, stream[j].t) == 2
    ensures !ExactlyOnce(Run(c, stream, OverlappingRun(n)), c, stream)
  {
    hide Run, Takers, Copies, ExactlyOnce, Took;
    var b, bb := [Begin(0, n)], [Begin(0, n)] + [Begin(0, n)];
    NothingRun(c, stream);
    assert [] + b == b;
    RunSnoc(c, stream, [], Begin(0, n));
    RunSnoc(c, stream, b, Begin(0, n));
    LooksAtAll(c, stream, bb, 0, n, n);
    LooksAtAll(c, stream, bb + Repeat(Line(0, true), n), 1, n, n);
    var s := Run(c, stream, OverlappingRun(n));
    CopiesAreTakers(c, stream, OverlappingRun(n), j);
    assert s.active + s.done == [s.active[0]] + [s.active[1]];
    TakersAppend(stream, [s.active[0]], [s.active[1]], j);
    TakersOne(stream, s.active[0], j);
    TakersOne(stream, s.active[1], j);
    TookFromStart(stream, s.active[0], j);
    TookFromStart(stream, s.active[1], j);
    TwiceIsNotOnce(s, c, stream, j);
  }

  lemma TookFromStart(stream: seq<Entry>, h: Handler, j: nat)
    requires Positive(stream) && Increasing(stream) && h.seen == 0 && j < h.at
    ensures Took(stream, h, j)
  {
    MarkIs(stream, 0, 0);
  }

  lemma {:induction false} CopiesOf(log: seq<Stored>, c: string, t: int)
    ensures Copies(log, c, t) == Copies(Of(log, c), c, t)
  {
    if log != [] {
      var k := |log| - 1;
      CopiesOf(log[..k], c, t);
      if log[k].container == c {
        CopiesSnoc(Of(log[..k], c), log[k], c, t);
      } else {
        assert Of(log, c) == Of(log[..k], c);
      }
    }
  }

  lemma {:induction false} CopiesOfStream(c: string, stream: seq<Entry>, t: int, m: nat)
    requires Increasing(stream) && m <= |stream|
    ensures Copies(AsStored(c, stream[..m]), c, t) <= 1
    ensures (forall i :: 0 <= i < m ==> stream[i].t != t) ==> Copies(AsStored(c, stream[..m]), c, t) == 0
  {
    if m > 0 {
      CopiesOfStream(c, stream, t, m - 1);
      StoredSnoc(c, stream, m - 1);
      CopiesSnoc(AsStored(c, stream[..m - 1]), Stored(c, stream[m - 1].t, stream[m - 1].line), c, t);
    }
  }

  lemma TwiceIsNotOnce(s: State, c: string, stream: seq<Entry>, j: nat)
    requires Increasing(stream) && j < |stream| && Copies(s.log, c, stream[j].t) == 2
    ensures !ExactlyOnce(s, c, stream)
  {
    hide Copies, Of, AsStored;
    forall m: nat | s.pos <= m <= |stream| ensures Of(s.log, c) != AsStored(c, stream[..m]) {
      CopiesOf(s.log, c, stream[j].t);
      CopiesOfStream(c, stream, stream[j].t, m);
    }
  }
}
