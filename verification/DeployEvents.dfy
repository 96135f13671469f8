/** The deploy event ring and its resumable stream. */
module DeployEvents {
  import opened Prelude

  const CAPACITY: nat := 2000

  type Event = string

  /** `op.events` with `_total_appended`: a bounded deque and a count. */
  class DeployOperation {
    var events: seq<Event>
    var totalAppended: nat
    ghost var history: seq<Event>

    /** The ring holds the most recent events of the whole history. */
    ghost predicate Valid()
      reads this
    {
      totalAppended == |history| && events == Recent(history)
    }

    constructor ()
      ensures Valid() && history == []
    {
      events, totalAppended, history := [], 0, [];
    }

    method Append(e: Event)
      requires Valid()
      modifies this
      ensures Valid() && history == old(history) + [e]
      ensures |events| == (if |history| < 2000 then |history| else 2000) && events == history[|history| - |events|..]
    {
      RecentAppend(history, e);
      events := events + [e];
      if |events| > CAPACITY { events := events[1..]; }
      totalAppended := totalAppended + 1;
      history := history + [e];
    }

    /** One poll of the stream generator: what it yields, and its new cursor. */
    method Poll(cursor: nat) returns (yielded: seq<Sent>, next: nat)
      requires Valid()
      ensures yielded == Polled(history, cursor) && next == |history|
    {
      var snapshot := events;
      var total := totalAppended;
      var start := total - |snapshot|;
      var skip := Max(0, cursor - start);
      yielded := [];
      if skip < |snapshot| {
        for offset := 0 to |snapshot| - skip
          invariant yielded == seq(offset, i requires 0 <= i < offset => Sent(start + skip + i + 1, snapshot[skip + i]))
        {
          yielded := yielded + [Sent(start + skip + offset + 1, snapshot[skip + offset])];
        }
      }
      next := total;
    }
  }

  /** An event as sent to the client: its id and payload. */
  datatype Sent = Sent(id: int, event: Event)

  function Recent(history: seq<Event>): seq<Event> {
    if |history| <= CAPACITY then history else history[|history| - CAPACITY..]
  }

  lemma RecentAppend(history: seq<Event>, e: Event)
    ensures var r := Recent(history) + [e];
            Recent(history + [e]) == if |r| > CAPACITY then r[1..] else r
  {
  }

  /** The first history position a poll with this cursor can still deliver. */
  function First(history: seq<Event>, cursor: nat): nat {
    Max(cursor, |history| - CAPACITY)
  }

  /** What a poll yields: the events behind the cursor that are still in the ring,
      each under its absolute position, counted from one. */
  function Polled(history: seq<Event>, cursor: nat): seq<Sent> {
    var first := First(history, cursor);
    if first >= |history| then []
    else seq(|history| - first, i requires 0 <= i < |history| - first => Sent(first + i + 1, history[first + i]))
  }

  // ----------------------------------------------------- streams over time

  datatype Step = Append(event: Event) | Poll

  /** A client's stream: the events so far, its cursor and everything sent to it. */
  datatype Stream = Stream(history: seq<Event>, cursor: nat, sent: seq<Sent>)

  function Next(s: Stream, step: Step): Stream {
    match step
    case Append(e) => s.(history := s.history + [e])
    case Poll => s.(cursor := |s.history|, sent := s.sent + Polled(s.history, s.cursor))
  }

  function After(s: Stream, steps: seq<Step>): Stream
    decreases steps
  {
    if steps == [] then s else After(Next(s, steps[0]), steps[1..])
  }

  /** Ids are true positions after `start`, increasing, never repeated, and none is
      beyond the cursor. */
  ghost predicate Faithful(s: Stream, start: nat) {
    && start <= s.cursor <= |s.history|
    && (forall i :: 0 <= i < |s.sent| ==>
          start < s.sent[i].id <= s.cursor && s.sent[i].event == s.history[s.sent[i].id - 1])
    && (forall i, j :: 0 <= i < j < |s.sent| ==> s.sent[i].id < s.sent[j].id)
  }

  lemma FaithfulStep(s: Stream, start: nat, step: Step)
    requires Faithful(s, start)
    ensures Faithful(Next(s, step), start)
  {
    if step.Poll? {
      var more := Polled(s.history, s.cursor);
      assert forall i :: 0 <= i < |more| ==> more[i].id == First(s.history, s.cursor) + i + 1;
    }
  }

  /** Main result: from any start cursor not beyond the events so far, in every
      interleaving of appends and polls, each id sent is the event's position, ids
      strictly increase and nothing is sent twice. */
  lemma {:induction false} StreamIsFaithful(s: Stream, start: nat, steps: seq<Step>)
    requires Faithful(s, start)
    ensures Faithful(After(s, steps), start)
    decreases steps
  {
    if steps != [] {
      FaithfulStep(s, start, steps[0]);
      StreamIsFaithful(Next(s, steps[0]), start, steps[1..]);
    }
  }

  ghost predicate WasSent(s: Stream, id: int) {
    exists i :: 0 <= i < |s.sent| && s.sent[i].id == id
  }

  /** A poll sends an event behind the cursor exactly when the ring still holds it:
      an event is missed only if it rotated out before the poll. */
  lemma MissedOnlyIfRotated(s: Stream, start: nat, id: nat)
    requires Faithful(s, start) && s.cursor < id <= |s.history|
    ensures WasSent(Next(s, Poll), id) <==> id > |s.history| - CAPACITY
  {
    var s' := Next(s, Poll);
    var first := First(s.history, s.cursor);
    var more := Polled(s.history, s.cursor);
    assert forall i :: 0 <= i < |more| ==> more[i].id == first + i + 1 && s'.sent[|s.sent| + i] == more[i];
    if id > |s.history| - CAPACITY {
      assert more[id - first - 1].id == id;
      assert s'.sent[|s.sent| + (id - first - 1)].id == id;
    }
  }

  /** What was sent stays sent. */
  lemma {:induction false} SentStays(s: Stream, steps: seq<Step>)
    ensures s.sent <= After(s, steps).sent && s.history <= After(s, steps).history
    decreases steps
  {
    if steps != [] { SentStays(Next(s, steps[0]), steps[1..]); }
  }

  lemma {:induction false} LaterIdsBehind(s: Stream, start: nat, steps: seq<Step>)
    requires Faithful(s, start)
    ensures s.cursor <= After(s, steps).cursor
    ensures forall i :: |s.sent| <= i < |After(s, steps).sent| ==> After(s, steps).sent[i].id > s.cursor
    decreases steps
  {
    if steps != [] {
      var s' := Next(s, steps[0]);
      FaithfulStep(s, start, steps[0]);
      LaterIdsBehind(s', start, steps[1..]);
      SentStays(s', steps[1..]);
      assert forall i :: |s.sent| <= i < |s'.sent| ==> s'.sent[i].id > s.cursor;
    }
  }

  /** Some poll of the run came when event `id`, not yet behind the cursor, had
      rotated out of the ring. */
  ghost predicate RotatedAtPoll(s: Stream, steps: seq<Step>, id: int)
    decreases steps
  {
    steps != [] &&
    ((steps[0].Poll? && s.cursor < id <= |s.history| - CAPACITY) || RotatedAtPoll(Next(s, steps[0]), steps[1..], id))
  }

  lemma {:induction false} NotRotatedBehind(s: Stream, start: nat, steps: seq<Step>, id: int)
    requires Faithful(s, start) && id <= s.cursor
    ensures !RotatedAtPoll(s, steps, id)
    decreases steps
  {
    if steps != [] {
      FaithfulStep(s, start, steps[0]);
      NotRotatedBehind(Next(s, steps[0]), start, steps[1..], id);
    }
  }

  /** Over every run: an event the cursor has passed was sent exactly unless it had
      rotated out by the first poll after it. */
  lemma {:induction false} DeliveredUnlessRotated(s: Stream, start: nat, steps: seq<Step>, id: int)
    requires Faithful(s, start) && s.cursor < id <= After(s, steps).cursor
    ensures WasSent(After(s, steps), id) <==> !RotatedAtPoll(s, steps, id)
    decreases steps
  {
    if steps != [] {
      var s', end := Next(s, steps[0]), After(s, steps);
      FaithfulStep(s, start, steps[0]);
      if s'.cursor < id {
        DeliveredUnlessRotated(s', start, steps[1..], id);
      } else {
        MissedOnlyIfRotated(s, start, id);
        NotRotatedBehind(s', start, steps[1..], id);
        SentStays(s', steps[1..]);
        LaterIdsBehind(s', start, steps[1..]);
        if WasSent(s', id) {
          var i :| 0 <= i < |s'.sent| && s'.sent[i].id == id;
          assert end.sent[i].id == id;
        }
      }
    }
  }

  /** Every id sent during the steps is behind the cursor. */
  ghost predicate SendsBehind(s: Stream, cursor: nat, steps: seq<Step>) {
    forall i :: 0 <= i < |After(s, steps).sent| ==> After(s, steps).sent[i].id > cursor
  }

  /** A stream that starts at `cursor` sends only ids behind it, in every run,
      exactly when the cursor is not beyond the events so far. */
  lemma CursorMustBeKnown(history: seq<Event>, cursor: nat)
    ensures (forall steps :: SendsBehind(Stream(history, cursor, []), cursor, steps)) <==> cursor <= |history|
  {
    var s := Stream(history, cursor, []);
    if cursor <= |history| {
      forall steps ensures SendsBehind(s, cursor, steps) {
        StreamIsFaithful(s, cursor, steps);
      }
    } else {
      var steps := [Poll, Append("x"), Poll];
      var s1 := Next(s, Poll);
      var s2 := Next(s1, Append("x"));
      var s3 := Next(s2, Poll);
      assert Polled(history, cursor) == [];
      assert s1 == Stream(history, |history|, []);
      assert steps[1..] == [Append("x"), Poll] && steps[1..][1..] == [Poll] && steps[1..][1..][1..] == [];
      assert After(s2, [Poll]) == s3;
      assert After(s1, [Append("x"), Poll]) == s3;
      assert After(s, steps) == s3;
      assert First(s2.history, s2.cursor) == |history|;
      assert Polled(s2.history, s2.cursor)[0].id == |history| + 1;
      assert s3.sent[0].id == |history| + 1;
      assert !SendsBehind(s, cursor, steps);
    }
  }

  /** The end of the stream once the deploy is over: what is left in the ring, then
      the terminal event. */
  function Finish(s: Stream, terminal: Event): seq<Sent> {
    Next(s, Poll).sent + [Sent(|s.history| + 1, terminal)]
  }

  /** The terminal event's id is greater than every id sent before it. */
  lemma TerminalComesLast(s: Stream, start: nat, terminal: Event, i: nat)
    requires Faithful(s, start) && i < |Finish(s, terminal)| - 1
    ensures Finish(s, terminal)[i].id < Finish(s, terminal)[|Finish(s, terminal)| - 1].id
  {
    FaithfulStep(s, start, Poll);
  }
}
