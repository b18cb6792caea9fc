/**
 Following a log stream across dropped connections (reconnectingStream in internal/logfollow/follow.go). The
 network decides which reads drop; a stream opened at an id resumes after the first event that has it.
 */
module Reconnect {
  import opened Wrappers

  datatype Event = Event(id: string, text: string)

  /** What becomes of a read: the next event, if the log has one, or the end of the connection. */
  datatype Outcome = Delivers | Drops

  /** Where a stream opened at an id starts: after its first event, at the start for no id or one not found. */
  function Resume(log: seq<Event>, id: string): (at: nat)
    ensures at <= |log|
  {
    if id == "" then 0 else FirstWith(log, id)
  }

  function FirstWith(log: seq<Event>, id: string): (at: nat)
    ensures at <= |log|
    ensures at > 0 ==> log[at - 1].id == id && forall i | 0 <= i < at - 1 :: log[i].id != id
    ensures at == 0 ==> forall e <- log :: e.id != id
  {
    if log == [] then 0
    else if log[0].id == id then 1
    else
      var rest := FirstWith(log[1..], id);
      if rest == 0 then 0 else rest + 1
  }

  /** The position of the open stream, if one is, and the last id delivered. */
  datatype Cursor = Cursor(stream: Option<nat>, lastID: string)

  const START := Cursor(None, "")

  function Position(log: seq<Event>, c: Cursor): nat {
    if c.stream.Some? then c.stream.value else Resume(log, c.lastID)
  }

  function Reads(log: seq<Event>, c: Cursor, o: Outcome): Option<Event> {
    if o == Delivers && Position(log, c) < |log| then Some(log[Position(log, c)]) else None
  }

  function After(log: seq<Event>, c: Cursor, o: Outcome): Cursor {
    match Reads(log, c, o)
    case None => Cursor(None, c.lastID)
    case Some(e) => Cursor(Some(Position(log, c) + 1), if e.id != "" then e.id else c.lastID)
  }

  /** The events delivered over a run of reads. */
  function Delivered(log: seq<Event>, c: Cursor, net: seq<Outcome>): seq<Event>
    decreases |net|
  {
    if net == [] then []
    else
      (match Reads(log, c, net[0])
       case None => []
       case Some(e) => [e]) + Delivered(log, After(log, c, net[0]), net[1..])
  }

  class ReconnectingStream {
    const log: seq<Event>
    var net: seq<Outcome>
    var stream: Option<nat>
    var lastID: string

    constructor (log: seq<Event>, net: seq<Outcome>)
      ensures this.log == log && this.net == net && Cursor(stream, lastID) == START
    {
      this.log, this.net, stream, lastID := log, net, None, "";
    }

    /** What is still to be delivered. */
    function Left(): seq<Event>
      reads this
    {
      Delivered(log, Cursor(stream, lastID), net)
    }

    /** Next: reconnects from the last id until an event arrives; None once the context is canceled. */
    method Next() returns (event: Option<Event>)
      modifies this
      ensures event.Some? ==> |net| < |old(net)| && old(Left()) == [event.value] + Left()
      ensures event.None? ==> net == [] && old(Left()) == []
    {
      while net != []
        invariant |net| <= |old(net)| && Left() == old(Left())
        decreases |net|
      {
        if stream.None? {
          stream := Some(Resume(log, lastID));
        }
        var outcome := net[0];
        net := net[1..];
        if outcome == Drops || stream.value >= |log| {
          stream := None;
          continue;
        }
        var e := log[stream.value];
        stream := Some(stream.value + 1);
        if e.id != "" {
          lastID := e.id;
        }
        return Some(e);
      }
      event := None;
    }
  }

  /** The loop around Next: every event it returns, in order. */
  method Follow(log: seq<Event>, net: seq<Outcome>) returns (events: seq<Event>)
    ensures events == Delivered(log, START, net)
  {
    hide Delivered;
    var s := new ReconnectingStream(log, net);
    events := [];
    while true
      invariant fresh(s) && s.log == log && events + s.Left() == Delivered(log, START, net)
      decreases |s.net|
    {
      var event := s.Next();
      if event.None? {
        return;
      }
      events := events + [event.value];
    }
  }

  // ---------- No event lost, none repeated ----------

  /** Event i has an id, and one that no event before it has. */
  ghost predicate FreshAt(log: seq<Event>, i: nat)
    requires i < |log|
  {
    log[i].id != "" && forall j | 0 <= j < i :: log[j].id != log[i].id
  }

  ghost predicate Fresh(log: seq<Event>) {
    forall i | 0 <= i < |log| :: FreshAt(log, i)
  }

  /** The last id delivered is that of the n-th event, and the stream, if open, is after it. */
  ghost predicate At(log: seq<Event>, c: Cursor, n: nat)
    requires n <= |log|
  {
    c.lastID == (if n == 0 then "" else log[n - 1].id) && (c.stream.Some? ==> c.stream.value == n)
  }

  lemma ResumesThere(log: seq<Event>, c: Cursor, n: nat)
    requires n <= |log| && At(log, c, n) && (n > 0 ==> FreshAt(log, n - 1))
    ensures Position(log, c) == n
  {
  }

  /** A read, and then the rest. */
  lemma Unroll(log: seq<Event>, c: Cursor, o: Outcome, net: seq<Outcome>)
    ensures Reads(log, c, o).None? ==> Delivered(log, c, [o] + net) == Delivered(log, After(log, c, o), net)
    ensures Reads(log, c, o).Some? ==>
              Delivered(log, c, [o] + net) == [Reads(log, c, o).value] + Delivered(log, After(log, c, o), net)
  {
    assert ([o] + net)[1..] == net;
    assert [] + Delivered(log, After(log, c, o), net) == Delivered(log, After(log, c, o), net);
  }

  lemma OneMore(log: seq<Event>, n: nat, rest: seq<Event>)
    requires n < |log| && log[..n + 1] + rest <= log
    ensures log[..n] + ([log[n]] + rest) <= log
  {
    assert log[..n] + ([log[n]] + rest) == log[..n + 1] + rest;
  }

  lemma {:induction false} DeliversPrefix(log: seq<Event>, c: Cursor, n: nat, net: seq<Outcome>)
    requires Fresh(log) && n <= |log| && At(log, c, n)
    ensures log[..n] + Delivered(log, c, net) <= log
    decreases |net|
  {
    if net == [] {
      assert log[..n] + [] == log[..n];
    } else {
      hide Fresh, FreshAt, Delivered, FirstWith;
      FreshBefore(log, n);
      ResumesThere(log, c, n);
      Unroll(log, c, net[0], net[1..]);
      assert [net[0]] + net[1..] == net;
      var next := After(log, c, net[0]);
      if Reads(log, c, net[0]).Some? {
        FreshBefore(log, n + 1);
        DeliversPrefix(log, next, n + 1, net[1..]);
        OneMore(log, n, Delivered(log, next, net[1..]));
      } else {
        DeliversPrefix(log, next, n, net[1..]);
      }
    }
  }

  lemma FreshBefore(log: seq<Event>, n: nat)
    requires Fresh(log) && n <= |log|
    ensures n > 0 ==> FreshAt(log, n - 1)
  {
  }

  function Reading(m: nat): seq<Outcome> {
    if m == 0 then [] else [Delivers] + Reading(m - 1)
  }

  /** An undisturbed read delivers the event at the cursor's position. */
  lemma ReadsOne(log: seq<Event>, c: Cursor, net: seq<Outcome>) returns (c': Cursor)
    requires Position(log, c) < |log|
    ensures var e := log[Position(log, c)];
            && Delivered(log, c, [Delivers] + net) == [e] + Delivered(log, c', net)
            && c' == Cursor(Some(Position(log, c) + 1), if e.id != "" then e.id else c.lastID)
  {
    Unroll(log, c, Delivers, net);
    c' := After(log, c, Delivers);
  }

  /** Undisturbed reads deliver the events from the cursor's position on. */
  lemma {:induction false} ReadsOn(log: seq<Event>, c: Cursor, m: nat, net: seq<Outcome>) returns (c': Cursor)
    requires Position(log, c) + m <= |log|
    ensures var p := Position(log, c);
            && Delivered(log, c, Reading(m) + net) == log[p..p + m] + Delivered(log, c', net)
            && (m == 0 ==> c' == c)
            && (m > 0 ==> c'.stream == Some(p + m) && (log[p + m - 1].id != "" ==> c'.lastID == log[p + m - 1].id))
    decreases m
  {
    hide Delivered, FirstWith;
    var p := Position(log, c);
    if m == 0 {
      c' := c;
      assert Reading(0) + net == net && log[p..p] + Delivered(log, c, net) == Delivered(log, c, net);
    } else {
      assert Reading(m) + net == [Delivers] + (Reading(m - 1) + net);
      var next := ReadsOne(log, c, Reading(m - 1) + net);
      c' := ReadsOn(log, next, m - 1, net);
      assert log[p..p + m] == [log[p]] + log[p + 1..p + m];
      assert [log[p]] + (log[p + 1..p + m] + Delivered(log, c', net)) == log[p..p + m] + Delivered(log, c', net);
    }
  }

  /** The last id delivered once event i is, when the events before it are fresh. */
  function LastID(log: seq<Event>, i: nat): string
    requires i < |log|
  {
    if log[i].id != "" then log[i].id else if i == 0 then "" else log[i - 1].id
  }

  /** Without an id, or with one an earlier event has, an event does not move the place to resume past itself. */
  lemma ResumesEarly(log: seq<Event>, i: nat)
    requires i < |log| && !FreshAt(log, i)
    ensures Resume(log, LastID(log, i)) <= i
  {
  }

  /** So after a drop there events are delivered that were before. */
  lemma RepeatsAfterDrop(log: seq<Event>, i: nat) returns (net: seq<Outcome>)
    requires i < |log| && !FreshAt(log, i) && forall j | 0 <= j < i :: FreshAt(log, j)
    ensures |Delivered(log, START, net)| > |log|
  {
    hide Delivered, FirstWith;
    var r := Resume(log, LastID(log, i));
    ResumesEarly(log, i);
    var rest := [Drops] + (Reading(|log| - r) + []);
    net := Reading(i) + ([Delivers] + rest);
    var c0 := ReadsOn(log, START, i, [Delivers] + rest);
    assert i > 0 ==> FreshAt(log, i - 1);
    var c1 := ReadsOne(log, c0, rest);
    Unroll(log, c1, Drops, Reading(|log| - r) + []);
    var c2 := ReadsOn(log, Cursor(None, LastID(log, i)), |log| - r, []);
  }

  /** Whatever drops, the events delivered are a prefix of the log, exactly when every event has an id of its own. */
  lemma PrefixWhenFresh(log: seq<Event>)
    ensures Fresh(log) <==> forall net :: Delivered(log, START, net) <= log
  {
    if Fresh(log) {
      forall net
        ensures Delivered(log, START, net) <= log
      {
        DeliversPrefix(log, START, 0, net);
        assert log[..0] + Delivered(log, START, net) == Delivered(log, START, net);
      }
    } else {
      var i := FirstStale(log, 0);
      var net := RepeatsAfterDrop(log, i);
      assert !(Delivered(log, START, net) <= log);
    }
  }

  lemma {:induction false} FirstStale(log: seq<Event>, from: nat) returns (i: nat)
    requires !Fresh(log) && from <= |log| && forall j | 0 <= j < from :: FreshAt(log, j)
    ensures i < |log| && !FreshAt(log, i) && forall j | 0 <= j < i :: FreshAt(log, j)
    decreases |log| - from
  {
    if FreshAt(log, from) {
      i := FirstStale(log, from + 1);
    } else {
      i := from;
    }
  }

  // ---------- Where a dropped stream resumes ----------

  /** The last id of these events, "" when none has one. */
  function LastOf(events: seq<Event>): string {
    if events == [] then ""
    else if events[|events| - 1].id != "" then events[|events| - 1].id
    else LastOf(events[..|events| - 1])
  }

  lemma {:induction false} LastOfMeans(events: seq<Event>)
    ensures LastOf(events) == "" <==> forall e <- events :: e.id == ""
    ensures LastOf(events) != "" ==>
              exists j | 0 <= j < |events| ::
                events[j].id == LastOf(events) && forall i | j < i < |events| :: events[i].id == ""
  {
    if events != [] {
      var n := |events| - 1;
      LastOfMeans(events[..n]);
      assert events == events[..n] + [events[n]];
      if events[n].id == "" && LastOf(events) != "" {
        var j :| 0 <= j < n && events[..n][j].id == LastOf(events) && forall i | j < i < n :: events[..n][i].id == "";
        assert events[j] == events[..n][j] && forall i | j < i < n :: events[i] == events[..n][i];
      }
    }
  }

  /** Undisturbed from the start, reads leave the cursor behind the last id. */
  lemma {:induction false} ReadsFromStart(log: seq<Event>, n: nat, net: seq<Outcome>) returns (c: Cursor)
    requires n <= |log|
    ensures Delivered(log, START, Reading(n) + net) == log[..n] + Delivered(log, c, net)
    ensures c.lastID == LastOf(log[..n]) && (if n == 0 then c == START else c.stream == Some(n))
  {
    hide Delivered, FirstWith;
    if n == 0 {
      c := START;
      assert Reading(0) + net == net && log[..0] + Delivered(log, START, net) == Delivered(log, START, net);
    } else {
      ReadingLast(n);
      assert Reading(n) + net == Reading(n - 1) + ([Delivers] + net);
      var before := ReadsFromStart(log, n - 1, [Delivers] + net);
      c := ReadsOne(log, before, net);
      assert log[..n][..n - 1] == log[..n - 1] && log[..n] == log[..n - 1] + [log[n - 1]];
      assert log[..n - 1] + ([log[n - 1]] + Delivered(log, c, net)) == log[..n] + Delivered(log, c, net);
    }
  }

  lemma {:induction false} ReadingLast(n: nat)
    requires n > 0
    ensures Reading(n) == Reading(n - 1) + [Delivers]
  {
    if n > 1 {
      ReadingLast(n - 1);
    }
  }

  lemma ReadsAgain(log: seq<Event>, c: Cursor, m: nat)
    requires Position(log, c) + m <= |log|
    ensures Delivered(log, c, Reading(m)) == log[Position(log, c)..Position(log, c) + m]
  {
    hide Delivered, Position;
    var at := Position(log, c);
    var end := ReadsOn(log, c, m, []);
    NothingDelivered(log, end);
    assert Reading(m) + [] == Reading(m) && log[at..at + m] + [] == log[at..at + m];
  }

  lemma ResumesAt(log: seq<Event>, n: nat, m: nat, at: nat)
    requires n <= |log| && at == Resume(log, LastOf(log[..n])) && at + m <= |log|
    ensures Delivered(log, START, Reading(n) + ([Drops] + Reading(m))) == log[..n] + log[at..at + m]
  {
    hide Delivered, Resume, LastOf, Reading;
    var c := ReadsFromStart(log, n, [Drops] + Reading(m));
    Unroll(log, c, Drops, Reading(m));
    ReadsAgain(log, Cursor(None, c.lastID), m);
  }

  lemma NothingDelivered(log: seq<Event>, c: Cursor)
    ensures Delivered(log, c, []) == []
  {
  }

  /**
   A stream that drops after n events, the last of which with an id is event j, goes on after the first event f that has
   the same id, wherever that is; and at the start of the log when none of the n has an id.
   */
  lemma ResumesAfterID(log: seq<Event>, n: nat, m: nat, j: nat, f: nat)
    requires f <= j < n <= |log| && log[f].id == log[j].id != "" && forall i | j < i < n :: log[i].id == ""
    requires (forall i | 0 <= i < f :: log[i].id != log[j].id) && f + 1 + m <= |log|
    ensures Delivered(log, START, Reading(n) + ([Drops] + Reading(m))) == log[..n] + log[f + 1..f + 1 + m]
  {
    hide Delivered, LastOf;
    var events := log[..n];
    LastOfMeans(events);
    assert events[j] == log[j] && forall i | 0 <= i < n :: events[i] == log[i];
    assert LastOf(events) == log[j].id;
    ResumesAt(log, n, m, f + 1);
  }

  lemma ResumesAtStart(log: seq<Event>, n: nat, m: nat)
    requires n <= |log| && m <= |log| && forall i | 0 <= i < n :: log[i].id == ""
    ensures Delivered(log, START, Reading(n) + ([Drops] + Reading(m))) == log[..n] + log[..m]
  {
    hide Delivered, LastOf;
    LastOfMeans(log[..n]);
    ResumesAt(log, n, m, 0);
  }
}
