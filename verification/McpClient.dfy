/** sweep_dx7_patches.McpClient as an object: each method makes one step of the
    protocol's state machine, and the reader makes one step per line. */
module McpClient {
  import opened Bytes
  import P = McpProtocol

  /** asyncio's future of one call. */
  class Future {
    const id: nat
    var outcome: P.Outcome

    constructor (id: nat)
      ensures this.id == id && outcome == P.Waiting
    {
      this.id := id;
      outcome := P.Waiting;
    }
  }

  class Client {
    var n: nat
    var pending: map<nat, Future>
    var notifications: seq<P.Note>
    var reading: bool
    var waiting: Option<string>
    /** Every future ever made, in order of ids, and the history of the queue and the waits. */
    ghost var futures: seq<Future>
    ghost var taken: seq<P.Note>
    ghost var results: seq<P.Got>

    ghost predicate Valid()
      reads this, futures
    {
      && |futures| == n
      && (forall i :: 0 <= i < n ==> futures[i].id == i + 1)
      && (forall id :: id in pending ==> 1 <= id <= n && pending[id] == futures[id - 1])
    }

    /** The client as a state of the protocol. */
    ghost function View(): P.State
      reads this, futures
    {
      P.State(n, pending.Keys, seq(|futures|, i requires 0 <= i < |futures| reads this, futures => futures[i].outcome),
              notifications, taken, reading, waiting, results)
    }

    constructor ()
      ensures Valid() && View() == P.INITIAL
    {
      n, pending, notifications, reading, waiting := 0, map[], [], true, None;
      futures, taken, results := [], [], [];
    }

    /** call, up to the wait for its reply: a fresh id and a fresh pending future. */
    method Call() returns (id: nat, fut: Future)
      requires Valid()
      modifies this
      ensures Valid() && fresh(fut) && futures == old(futures) + [fut]
      ensures id == old(n) + 1 && View() == P.Step(old(View()), P.Call)
    {
      n := n + 1;
      id := n;
      fut := new Future(id);
      pending := pending[id := fut];
      futures := futures + [fut];
    }

    /** A future that is not done gets its outcome; no other future changes. */
    method Settle(fut: Future, to: P.Outcome)
      requires Valid() && fut in futures
      modifies fut
      ensures Valid() && View() == old(View()).(outcomes := P.Settle(old(View()).outcomes, fut.id, to))
    {
      if fut.outcome.Waiting? {
        fut.outcome := to;
      }
    }

    /** One line of the reader; false if handling it raised. */
    method OnLine(line: P.Line) returns (goesOn: bool)
      requires Valid() && reading
      modifies this, futures
      ensures Valid() && futures == old(futures) && goesOn == !line.Fatal?
      ensures goesOn ==> View() == P.Step(old(View()), P.Receive(line))
      ensures !goesOn ==> View() == old(View())
    {
      match line
      case Skipped =>
        return true;
      case Fatal =>
        return false;
      case Heard(note) =>
        notifications := notifications + [note];
        return true;
      case Reply(Other, _) =>
        return true;
      case Reply(Number(id), body) =>
        if id >= 0 && id in pending {
          var fut := pending[id];
          pending := pending - {id};
          Settle(fut, P.Answered(body));
        }
        return true;
    }

    /** The reader's finally, over the pending futures in any order. */
    method FailPending()
      requires Valid() && reading
      modifies this, futures
      ensures Valid() && futures == old(futures) && View() == P.Ended(old(View()))
    {
      hide PartlyEnded, P.Settle, P.Ended;
      ghost var start := View();
      reading := false;
      var todo := pending.Keys;
      NoneEnded(start);
      while todo != {}
        invariant todo <= pending.Keys == start.pending && Valid() && futures == old(futures)
        invariant View() == PartlyEnded(start, todo)
        decreases |todo|
      {
        var id :| id in todo;
        EndedTurn(start, todo, id);
        Settle(pending[id], P.EngineClosed);
        todo := todo - {id};
      }
      AllEnded(start);
    }

    /** The reader task over the lines of the engine's output, up to its end. */
    method Reader(lines: seq<P.Line>)
      requires Valid() && reading
      modifies this, futures
      ensures Valid() && futures == old(futures)
      ensures View() == ReadAll(old(View()), lines)
    {
      ghost var start := View();
      var i := 0;
      var goesOn := true;
      while goesOn && i < |lines|
        invariant 0 <= i <= |lines| && Valid() && reading && futures == old(futures)
        invariant ReadAll(start, lines) == if goesOn then ReadAll(View(), lines[i..]) else P.Ended(View())
        decreases goesOn, |lines| - i
      {
        assert lines[i..][1..] == lines[i + 1..];
        goesOn := OnLine(lines[i]);
        i := i + 1;
      }
      FailPending();
    }

    /** asyncio.wait_for on a future: the timeout cancels it if it is not done. */
    method Expire(fut: Future)
      requires Valid() && fut in futures
      modifies fut
      ensures Valid() && View() == P.Step(old(View()), P.Expire(fut.id))
    {
      Settle(fut, P.TimedOut);
    }

    /** close: cancelling the reader runs its finally. */
    method Close()
      requires Valid()
      modifies this, futures
      ensures Valid() && futures == old(futures) && View() == P.Step(old(View()), P.End)
    {
      if reading {
        FailPending();
      }
    }

    /** wait_notification: turns of its loop and lines of the engine in any interleaving,
        up to the deadline, which falls where the schedule ends. A turn on an empty queue
        goes on waiting. */
    method WaitNotification(topic: string, schedule: seq<Tick>) returns (got: P.Got)
      requires Valid() && waiting.None?
      modifies this, futures
      ensures Valid() && futures == old(futures)
      ensures View() == Waited(P.Step(old(View()), P.Wait(topic)), schedule)
      ensures waiting.None? && |results| > 0 && got == results[|results| - 1]
    {
      hide P.Taken, P.Received, P.Ended;
      waiting := Some(topic);
      ghost var start := View();
      assert start == P.Step(old(View()), P.Wait(topic));
      var i := 0;
      while i < |schedule|
        invariant 0 <= i <= |schedule| && Valid() && futures == old(futures) && waiting == Some(topic)
        invariant Waited(start, schedule) == Waited(View(), schedule[i..])
      {
        assert schedule[i..][1..] == schedule[i + 1..];
        match schedule[i] {
          case Arrives(line) =>
            Arrive(line);
          case Turn =>
            if notifications != [] {
              var one := TakeOne(topic);
              if one.Some? {
                assert Waited(start, schedule) == View();
                return one.value;
              }
            } else {
              TakenNothing(View());
            }
        }
        i := i + 1;
      }
      waiting := None;
      got := P.Expired;
      results := results + [got];
    }

    /** One line while something else waits: the reader handles it, or ends on it. */
    method Arrive(line: P.Line)
      requires Valid()
      modifies this, futures
      ensures Valid() && futures == old(futures) && waiting == old(waiting)
      ensures View() == P.Step(old(View()), P.Receive(line))
    {
      if reading {
        var goesOn := OnLine(line);
        if !goesOn {
          FailPending();
        }
      }
    }

    /** One turn of the wait on a queue that is not empty. */
    method TakeOne(topic: string) returns (got: Option<P.Got>)
      requires Valid() && waiting == Some(topic) && notifications != []
      modifies `notifications, `taken, `waiting, `results
      ensures Valid() && futures == old(futures) && |notifications| == |old(notifications)| - 1
      ensures View() == P.Taken(old(View()))
      ensures if got.None? then waiting == Some(topic)
              else waiting.None? && |results| > 0 && got.value == results[|results| - 1]
    {
      var msg := notifications[0];
      notifications := notifications[1..];
      taken := taken + [msg];
      got := if msg.Odd? then Some(P.Crash) else if msg.topic == topic then Some(P.Message(msg)) else None;
      if got.Some? {
        waiting := None;
        results := results + [got.value];
      }
    }
  }

  // ----- The reader's finally, one future at a time -----

  /** The end of the reader with some pending futures still to fail. */
  ghost function PartlyEnded(s: P.State, todo: set<nat>): P.State {
    s.(reading := false,
       outcomes := seq(|s.outcomes|, i requires 0 <= i < |s.outcomes| =>
         if i + 1 in s.pending && i + 1 !in todo && s.outcomes[i].Waiting? then P.EngineClosed else s.outcomes[i]))
  }

  lemma {:induction false} NoneEnded(s: P.State)
    ensures PartlyEnded(s, s.pending) == s.(reading := false)
  {
    assert PartlyEnded(s, s.pending).outcomes == s.outcomes;
  }

  lemma {:induction false} AllEnded(s: P.State)
    ensures PartlyEnded(s, {}) == P.Ended(s)
  {
    assert PartlyEnded(s, {}).outcomes == P.Ended(s).outcomes;
  }

  lemma {:induction false} EndedTurn(s: P.State, todo: set<nat>, id: nat)
    requires id in todo && todo <= s.pending && 1 <= id <= |s.outcomes|
    ensures PartlyEnded(s, todo - {id})
         == PartlyEnded(s, todo).(outcomes := P.Settle(PartlyEnded(s, todo).outcomes, id, P.EngineClosed))
  {
    assert PartlyEnded(s, todo - {id}).outcomes == P.Settle(PartlyEnded(s, todo).outcomes, id, P.EngineClosed);
  }

  // ----- Reading and taking -----

  /** The reader over a list of lines, with its finally at the end or at a fatal line. */
  ghost function ReadAll(s: P.State, lines: seq<P.Line>): P.State
    decreases |lines|
  {
    if lines == [] || lines[0].Fatal? then P.Ended(s) else ReadAll(P.Received(s, lines[0]), lines[1..])
  }

  // ----- Waiting -----

  /** What can happen while a wait is open. */
  datatype Tick = Arrives(line: P.Line) | Turn

  function EventOf(t: Tick): P.Event {
    match t
    case Arrives(line) => P.Receive(line)
    case Turn => P.Take
  }

  /** An open wait under a schedule, given up at its end. */
  ghost function Waited(s: P.State, schedule: seq<Tick>): P.State
    decreases |schedule|
  {
    if s.waiting.None? then s
    else if schedule == [] then P.Step(s, P.GiveUp)
    else Waited(P.Step(s, EventOf(schedule[0])), schedule[1..])
  }

  lemma {:induction false} TakenNothing(s: P.State)
    requires s.queue == []
    ensures P.Taken(s) == s
  {
  }

  /** Neither malformed nor of the topic: a wait throws it away. */
  predicate Passed(note: P.Note, topic: string) {
    note.Notice? && note.topic != topic
  }

  /** The result of a wait that takes these notes, the last of which may end it. */
  predicate Ends(taken: seq<P.Note>, topic: string, got: P.Got) {
    match got
    case Expired => forall n :: n in taken ==> Passed(n, topic)
    case Message(note) =>
      taken != [] && taken[|taken| - 1] == note && note.Notice? && note.topic == topic
      && forall n :: n in taken[..|taken| - 1] ==> Passed(n, topic)
    case Crash =>
      taken != [] && taken[|taken| - 1].Odd? && forall n :: n in taken[..|taken| - 1] ==> Passed(n, topic)
  }

  /** A wait ends once, whatever arrives meanwhile: with the first notification of its
      topic, having thrown away those before it; with a crash on a malformed one; or with
      a timeout, having thrown away all it took. */
  lemma {:induction false} WaitTakesFirst(s: P.State, schedule: seq<Tick>)
    requires s.waiting.Some?
    ensures var t, n := Waited(s, schedule), |s.taken|;
            && t.waiting.None? && |t.results| == |s.results| + 1 && t.results[..|s.results|] == s.results
            && n <= |t.taken| && t.taken[..n] == s.taken
            && Ends(t.taken[n..], s.waiting.value, t.results[|s.results|])
    decreases |schedule|
  {
    if schedule == [] {
      EndsNow(s, P.GiveUp);
    } else {
      var e := EventOf(schedule[0]);
      hide P.Step, Ends, Passed;
      var r := P.Step(s, e);
      if r.waiting.Some? {
        WaitTakesFirst(r, schedule[1..]);
        WaitGoesOn(s, e);
        TookBefore(s.taken, r.taken, Waited(s, schedule).taken, s.waiting.value,
                   Waited(s, schedule).results[|s.results|]);
      } else {
        EndsNow(s, e);
      }
    }
  }

  lemma {:induction false} EndsNow(s: P.State, e: P.Event)
    requires s.waiting.Some? && (e.GiveUp? || e.Take? || e.Receive?) && P.Step(s, e).waiting.None?
    ensures var t, n := P.Step(s, e), |s.taken|;
            && |t.results| == |s.results| + 1 && t.results[..|s.results|] == s.results
            && n <= |t.taken| && t.taken[..n] == s.taken
            && Ends(t.taken[n..], s.waiting.value, t.results[|s.results|])
  {
    hide P.Ended;
    if e.Receive? {
      ReceivedKeepsWait(s, e.line);
    } else if e.Take? {
      assert P.Step(s, e).taken[|s.taken|..] == [s.queue[0]];
    }
  }

  lemma {:induction false} TookBefore(s: seq<P.Note>, r: seq<P.Note>, t: seq<P.Note>, topic: string, got: P.Got)
    requires |r| <= |t| && t[..|r|] == r && Ends(t[|r|..], topic, got)
    requires r == s || (|r| == |s| + 1 && r[..|s|] == s && Passed(r[|s|], topic))
    ensures |s| <= |t| && t[..|s|] == s && Ends(t[|s|..], topic, got)
  {
    hide Passed;
    if r != s {
      assert t[..|s|] == r[..|s|] && t[|s|] == r[|s|];
      assert t[|s|..] == [r[|s|]] + t[|r|..];
      PassedFirst(r[|s|], t[|r|..], topic, got);
    }
  }

  lemma {:induction false} PassedFirst(note: P.Note, rest: seq<P.Note>, topic: string, got: P.Got)
    requires Ends(rest, topic, got) && Passed(note, topic)
    ensures Ends([note] + rest, topic, got)
  {
    var all := [note] + rest;
    if rest != [] {
      assert all[..|all| - 1] == [note] + rest[..|rest| - 1];
    }
  }

  lemma {:induction false} WaitGoesOn(s: P.State, e: P.Event)
    requires s.waiting.Some? && (e.Take? || e.Receive?) && P.Step(s, e).waiting.Some?
    ensures var r := P.Step(s, e);
            && r.waiting == s.waiting && r.results == s.results
            && (r.taken == s.taken || (|r.taken| == |s.taken| + 1 && r.taken[..|s.taken|] == s.taken
                                       && Passed(r.taken[|s.taken|], s.waiting.value)))
  {
    hide P.Ended;
    if e.Receive? {
      ReceivedKeepsWait(s, e.line);
    }
  }

  lemma {:induction false} ReceivedKeepsWait(s: P.State, line: P.Line)
    ensures var t := P.Received(s, line); t.waiting == s.waiting && t.results == s.results && t.taken == s.taken
  {
  }

  /** The reader's steps are steps of the protocol. */
  function LineEvents(lines: seq<P.Line>): seq<P.Event> {
    if lines == [] then [P.End] else [P.Receive(lines[0])] + LineEvents(lines[1..])
  }

  ghost function StepAll(s: P.State, es: seq<P.Event>): P.State
    decreases |es|
  {
    if es == [] then s else StepAll(P.Step(s, es[0]), es[1..])
  }

  lemma {:induction false} ReaderIsARun(s: P.State, lines: seq<P.Line>)
    requires s.reading
    ensures StepAll(s, LineEvents(lines)) == ReadAll(s, lines)
    decreases |lines|
  {
    var es := LineEvents(lines);
    if lines == [] {
      assert es[1..] == [];
    } else {
      assert es[1..] == LineEvents(lines[1..]);
      if lines[0].Fatal? {
        OnlyLines(lines[1..]);
        StoppedStays(P.Ended(s), LineEvents(lines[1..]));
      } else {
        ReadingGoesOn(s, lines[0]);
        ReaderIsARun(P.Received(s, lines[0]), lines[1..]);
      }
    }
  }

  lemma {:induction false} OnlyLines(lines: seq<P.Line>)
    ensures forall e :: e in LineEvents(lines) ==> e.Receive? || e.End?
    decreases |lines|
  {
    if lines != [] {
      OnlyLines(lines[1..]);
    }
  }

  lemma {:induction false} ReadingGoesOn(s: P.State, line: P.Line)
    requires s.reading && !line.Fatal?
    ensures P.Received(s, line).reading && P.Step(s, P.Receive(line)) == P.Received(s, line)
  {
  }

  lemma {:induction false} StoppedStays(s: P.State, es: seq<P.Event>)
    requires !s.reading && forall e :: e in es ==> e.Receive? || e.End?
    ensures StepAll(s, es) == s
    decreases |es|
  {
    if es != [] {
      assert es[0] in es;
      StoppedStays(s, es[1..]);
    }
  }

  ghost function WaitEvents(s: P.State, schedule: seq<Tick>): seq<P.Event>
    decreases |schedule|
  {
    if s.waiting.None? then []
    else if schedule == [] then [P.GiveUp]
    else [EventOf(schedule[0])] + WaitEvents(P.Step(s, EventOf(schedule[0])), schedule[1..])
  }

  /** A wait's steps are steps of the protocol too. */
  lemma {:induction false} WaitIsARun(s: P.State, schedule: seq<Tick>)
    ensures StepAll(s, WaitEvents(s, schedule)) == Waited(s, schedule)
    decreases |schedule|
  {
    hide P.Step;
    var es := WaitEvents(s, schedule);
    if s.waiting.Some? {
      if schedule != [] {
        WaitIsARun(P.Step(s, EventOf(schedule[0])), schedule[1..]);
        assert es[1..] == WaitEvents(P.Step(s, EventOf(schedule[0])), schedule[1..]);
      } else {
        assert es[1..] == [];
      }
    }
  }
}
