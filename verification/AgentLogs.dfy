/**
  Container logs received from Agents (internal/edge/agentlogs.go): a batch whose acknowledgement was lost is sent again,
  and the lines already kept are recognised by their timestamp.

  Instants are integers; 0 is Go's zero `time.Time`.
 */
module AgentLogs {

  datatype Entry = Entry(t: int, line: string)

  /** A line in the log store, with the container it came from. */
  datatype Stored = Stored(container: string, ts: int, line: string)

  // ----- one batch, on values

  function Since(last: map<string, int>, container: string): int {
    if container in last then last[container] else 0
  }

  function Advance(last: map<string, int>, container: string, t: int): map<string, int> {
    if t > Since(last, container) then last[container := t] else last
  }

  /** The timestamp an entry is stored with: its own, or the gateway's clock when it has none. */
  function Stamp(e: Entry, now: int): int {
    if e.t == 0 then now else e.t
  }

  /** The lines of a batch that are new with respect to `seen`, ready to store. */
  function Fresh(container: string, entries: seq<Entry>, seen: int, now: int): seq<Stored> {
    if entries == [] then []
    else
      var e := entries[|entries| - 1];
      var before := Fresh(container, entries[..|entries| - 1], seen, now);
      if seen != 0 && Stamp(e, now) <= seen then before else before + [Stored(container, Stamp(e, now), e.line)]
  }

  lemma FreshSnoc(container: string, entries: seq<Entry>, i: nat, seen: int, now: int)
    requires i < |entries|
    ensures var before, ts := Fresh(container, entries[..i], seen, now), Stamp(entries[i], now);
            Fresh(container, entries[..i + 1], seen, now) ==
            if seen != 0 && ts <= seen then before else before + [Stored(container, ts, entries[i].line)]
  {
    assert entries[..i + 1][..i] == entries[..i];
  }

  lemma {:induction false} FreshPrefix(container: string, entries: seq<Entry>, i: nat, seen: int, now: int)
    requires i <= |entries|
    ensures Fresh(container, entries[..i], seen, now) <= Fresh(container, entries, seen, now)
    decreases |entries| - i
  {
    if i == |entries| {
      assert entries[..i] == entries;
    } else {
      FreshSnoc(container, entries, i, seen, now);
      FreshPrefix(container, entries, i + 1, seen, now);
    }
  }

  /** What is new: the lines later than what was seen, all of them if nothing was, undated ones taken at the gateway's clock. */
  lemma {:induction false} FreshMeans(container: string, entries: seq<Entry>, seen: int, now: int, x: Stored)
    ensures x in Fresh(container, entries, seen, now) <==>
            exists i :: && 0 <= i < |entries| && IsStoredForm(x, container, entries[i], now)
                        && (seen == 0 || x.ts > seen)
  {
    if entries != [] {
      var k := |entries| - 1;
      FreshMeans(container, entries[..k], seen, now, x);
      if exists i :: 0 <= i < k && IsStoredForm(x, container, entries[..k][i], now) && (seen == 0 || x.ts > seen) {
        var i :| 0 <= i < k && IsStoredForm(x, container, entries[..k][i], now) && (seen == 0 || x.ts > seen);
        assert IsStoredForm(x, container, entries[i], now);
      }
      if exists i :: 0 <= i < |entries| && IsStoredForm(x, container, entries[i], now) && (seen == 0 || x.ts > seen) {
        var i :| 0 <= i < |entries| && IsStoredForm(x, container, entries[i], now) && (seen == 0 || x.ts > seen);
        assert i < k ==> IsStoredForm(x, container, entries[..k][i], now);
      }
    }
  }

  predicate IsStoredForm(x: Stored, container: string, e: Entry, now: int) {
    x.container == container && x.line == e.line && x.ts == if e.t != 0 then e.t else now
  }

  /** The latest timestamp of some stored lines, 0 for none (all instants being positive). */
  function Newest(lines: seq<Stored>): int {
    if lines == [] then 0
    else
      var n := Newest(lines[..|lines| - 1]);
      if lines[|lines| - 1].ts > n then lines[|lines| - 1].ts else n
  }

  /** The lines kept of a batch when the store's queue takes `room` more lines. */
  function Taken(news: seq<Stored>, room: nat): seq<Stored> {
    if |news| <= room then news else news[..room]
  }

  /** The instants the gateway has kept are positive, so that advancing to 0 changes nothing. */
  ghost predicate Dated(last: map<string, int>) {
    forall c :: c in last ==> last[c] > 0
  }

  class Gateway {
    var last: map<string, int>
    var log: seq<Stored>

    constructor ()
      ensures last == map[] && log == []
    {
      last, log := map[], [];
    }

    /** `since`, under its lock. */
    method SinceLocked(container: string) returns (t: int)
      ensures t == Since(last, container)
    {
      t := if container in last then last[container] else 0;
    }

    /** `advance`, under its lock. */
    method AdvanceLocked(container: string, t: int)
      modifies this`last
      ensures last == Advance(old(last), container, t)
    {
      var kept := SinceLocked(container);
      if t > kept {
        last := last[container := t];
      }
    }

    /**
      `storeAgentLogs`, with no other call for the container between its `since` and its `advance`; the queue refuses the
      line after the first `room` of this call. `LogRetries` lets calls interleave.
     */
    method StoreAgentLogs(container: string, entries: seq<Entry>, now: int, room: nat) returns (ok: bool)
      requires Dated(last)
      modifies this
      ensures Dated(last)
      ensures var news := Fresh(container, entries, Since(old(last), container), now);
              && ok == (|news| <= room)
              && log == old(log) + Taken(news, room)
              && last == Advance(old(last), container, Newest(Taken(news, room)))
    {
      hide Fresh, Newest;
      var seen := SinceLocked(container);
      ghost var log0, last0 := log, last;
      ghost var done: seq<Stored> := Nothing(container, entries, seen, now);
      var newest, added := 0, 0;
      for i := 0 to |entries|
        invariant added == |done| <= room
        invariant done == Fresh(container, entries[..i], seen, now)
        invariant log == log0 + done && last == last0
        invariant newest == Newest(done)
      {
        var e := entries[i];
        var ts := if e.t == 0 then now else e.t;
        FreshSnoc(container, entries, i, seen, now);
        if !(seen != 0 && !(ts > seen)) {
          if added == room {
            FreshPrefix(container, entries, i + 1, seen, now);
            assert Taken(Fresh(container, entries, seen, now), room) == done;
            AdvanceLocked(container, newest);
            return false;
          }
          var line := Stored(container, ts, e.line);
          log := log + [line];
          added := added + 1;
          NewestSnoc(done, line);
          if ts > newest {
            newest := ts;
          }
          done := done + [line];
        }
      }
      assert entries[..|entries|] == entries;
      if newest != 0 {
        AdvanceLocked(container, newest);
      }
      return true;
    }
  }

  /** Before the first line nothing is new. */
  ghost function Nothing(container: string, entries: seq<Entry>, seen: int, now: int): (r: seq<Stored>)
    ensures r == [] && r == Fresh(container, entries[..0], seen, now) && Newest(r) == 0
  {
    []
  }

  lemma NewestSnoc(lines: seq<Stored>, line: Stored)
    ensures Newest(lines + [line]) == if line.ts > Newest(lines) then line.ts else Newest(lines)
  {
    assert (lines + [line])[..|lines|] == lines;
  }
}
