/** sweep_dx7_patches.McpClient as a state machine: calls, replies, notifications,
    timeouts and the end of the reader, in every interleaving. */
module McpProtocol {
  import opened Bytes

  // ----- What comes over the wire -----

  /** The "id" of a reply: a number, or any other value a dictionary can look up. */
  datatype Id = Number(n: int) | Other

  /** A message without an id; Odd is a list or string that landed in the queue. */
  datatype Note = Notice(topic: string, body: int) | Odd(body: int)

  /** One line: blank or not JSON; an object with an id; anything else that can be
      searched for one; or a value whose handling raises and ends the reader. */
  datatype Line = Skipped | Reply(id: Id, body: int) | Heard(note: Note) | Fatal

  // ----- State and steps -----

  datatype Outcome = Waiting | Answered(body: int) | EngineClosed | TimedOut

  datatype Got = Message(note: Note) | Crash | Expired

  /** outcomes[i] is the future of the call with id i + 1; taken is the history of the queue. */
  datatype State = State(
    n: nat,
    pending: set<nat>,
    outcomes: seq<Outcome>,
    queue: seq<Note>,
    taken: seq<Note>,
    reading: bool,
    waiting: Option<string>,
    results: seq<Got>)

  const INITIAL := State(0, {}, [], [], [], true, None, [])

  datatype Event =
    | Call
    | Receive(line: Line)
    | End
    | Expire(id: nat)
    | Wait(topic: string)
    | Take
    | GiveUp

  /** The reader's finally: every pending future that is not done fails. */
  function Ended(s: State): State {
    s.(reading := false,
       outcomes := seq(|s.outcomes|, i requires 0 <= i < |s.outcomes| =>
         if i + 1 in s.pending && s.outcomes[i].Waiting? then EngineClosed else s.outcomes[i]))
  }

  /** Only a future that is not done changes. */
  function Settle(outcomes: seq<Outcome>, id: int, to: Outcome): seq<Outcome> {
    if 1 <= id <= |outcomes| && outcomes[id - 1].Waiting? then outcomes[id - 1 := to] else outcomes
  }

  function Received(s: State, line: Line): State {
    match line
    case Skipped => s
    case Heard(note) => s.(queue := s.queue + [note])
    case Fatal => Ended(s)
    case Reply(Other, _) => s
    case Reply(Number(id), body) =>
      if id < 0 || id !in s.pending then s
      else s.(pending := s.pending - {id}, outcomes := Settle(s.outcomes, id, Answered(body)))
  }

  /** One turn of wait_notification: other notifications are thrown away. */
  function Taken(s: State): State {
    if s.waiting.None? || s.queue == [] then s
    else
      var t := s.(taken := s.taken + [s.queue[0]], queue := s.queue[1..]);
      if s.queue[0].Odd? then t.(waiting := None, results := s.results + [Crash])
      else if s.queue[0].topic == s.waiting.value then t.(waiting := None, results := s.results + [Message(s.queue[0])])
      else t
  }

  function Step(s: State, e: Event): State {
    match e
    case Call => s.(n := s.n + 1, pending := s.pending + {s.n + 1}, outcomes := s.outcomes + [Waiting])
    case Receive(line) => if s.reading then Received(s, line) else s
    case End => if s.reading then Ended(s) else s
    case Expire(id) => s.(outcomes := Settle(s.outcomes, id, TimedOut))
    case Wait(m) => if s.waiting.None? then s.(waiting := Some(m)) else s
    case Take => Taken(s)
    case GiveUp => if s.waiting.Some? then s.(waiting := None, results := s.results + [Expired]) else s
  }

  function Run(es: seq<Event>): State {
    if es == [] then INITIAL else Step(Run(es[..|es| - 1]), es[|es| - 1])
  }

  // ----- The invariant of every run -----

  predicate Consistent(s: State) {
    && |s.outcomes| == s.n
    && (forall id :: id in s.pending ==> 1 <= id <= s.n)
    && (forall i :: 0 <= i < s.n && s.outcomes[i].Waiting? ==> i + 1 in s.pending)
  }

  lemma {:induction false} StepKeepsConsistent(s: State, e: Event)
    requires Consistent(s)
    ensures Consistent(Step(s, e))
  {
    hide Taken;
    if e.Take? {
      TakenKeeps(s);
    }
  }

  lemma {:induction false} TakenKeeps(s: State)
    ensures var t := Taken(s);
            t.n == s.n && t.pending == s.pending && t.outcomes == s.outcomes && t.reading == s.reading
  {
  }

  lemma {:induction false} RunIsConsistent(es: seq<Event>)
    ensures Consistent(Run(es))
    decreases |es|
  {
    hide Step;
    if es != [] {
      RunIsConsistent(es[..|es| - 1]);
      StepKeepsConsistent(Run(es[..|es| - 1]), es[|es| - 1]);
    }
  }

  // ----- Ids -----

  function Calls(es: seq<Event>): nat {
    if es == [] then 0 else Calls(es[..|es| - 1]) + if es[|es| - 1].Call? then 1 else 0
  }

  /** The id the call at position k sends. */
  function IdAt(es: seq<Event>, k: nat): nat
    requires k < |es|
  {
    Run(es[..k]).n + 1
  }

  lemma {:induction false} CountIsCalls(es: seq<Event>)
    ensures Run(es).n == Calls(es)
    decreases |es|
  {
    hide Taken, Received;
    if es != [] {
      var s, e := Run(es[..|es| - 1]), es[|es| - 1];
      CountIsCalls(es[..|es| - 1]);
      if e.Take? {
        TakenKeeps(s);
      } else if e.Receive? {
        ReceivedKeepsCount(s, e.line);
      }
    }
  }

  lemma {:induction false} ReceivedKeepsCount(s: State, line: Line)
    ensures Received(s, line).n == s.n
  {
  }

  lemma {:induction false} CallsGrow(es: seq<Event>, k: nat)
    requires k <= |es|
    ensures Calls(es[..k]) <= Calls(es)
    decreases |es|
  {
    if k < |es| {
      CallsGrow(es[..|es| - 1], k);
      assert es[..|es| - 1][..k] == es[..k];
    } else {
      assert es[..k] == es;
    }
  }

  /** No id is used twice: later calls send larger ids. */
  lemma {:induction false} IdsAreNeverReused(es: seq<Event>, j: nat, k: nat)
    requires j < k < |es| && es[j].Call? && es[k].Call?
    ensures IdAt(es, j) < IdAt(es, k)
  {
    CountIsCalls(es[..j]);
    CountIsCalls(es[..k]);
    CallsGrow(es[..k], j + 1);
    assert es[..k][..j + 1] == es[..j + 1] && es[..j + 1][..j] == es[..j];
  }

  // ----- Futures settle once, by their own id -----

  lemma {:induction false} StepKeepsSettled(s: State, e: Event, i: nat)
    requires Consistent(s) && i < s.n && !s.outcomes[i].Waiting?
    ensures i < |Step(s, e).outcomes| && Step(s, e).outcomes[i] == s.outcomes[i]
  {
    hide Taken;
    if e.Take? {
      TakenKeeps(s);
    }
  }

  /** A future that is done stays as it is, whatever comes later. */
  lemma {:induction false} SettledOnce(es: seq<Event>, k: nat, i: nat)
    requires k <= |es| && i < |Run(es[..k]).outcomes| && !Run(es[..k]).outcomes[i].Waiting?
    ensures i < |Run(es).outcomes| && Run(es).outcomes[i] == Run(es[..k]).outcomes[i]
    decreases |es|
  {
    hide Step;
    if k < |es| {
      var n := |es| - 1;
      assert es[..n][..k] == es[..k];
      SettledOnce(es[..n], k, i);
      RunIsConsistent(es[..n]);
      StepKeepsSettled(Run(es[..n]), es[n], i);
    } else {
      assert es[..k] == es;
    }
  }

  lemma {:induction false} StepAnswers(s: State, e: Event, i: nat)
    requires Consistent(s) && i < |Step(s, e).outcomes| && Step(s, e).outcomes[i].Answered?
    ensures i < s.n
    ensures s.outcomes[i] == Step(s, e).outcomes[i]
            || (s.outcomes[i].Waiting? && s.reading && e == Receive(Reply(Number(i + 1), Step(s, e).outcomes[i].body)))
  {
    hide Taken;
    if e.Take? {
      TakenKeeps(s);
    }
  }

  /** An answer is the body of a reply that carries the call's own id, received after
      the call, while it was still waiting. */
  lemma {:induction false} AnsweredByOwnId(es: seq<Event>, i: nat)
    requires i < |Run(es).outcomes| && Run(es).outcomes[i].Answered?
    ensures exists k :: 0 <= k < |es| && es[k] == Receive(Reply(Number(i + 1), Run(es).outcomes[i].body))
                        && i < |Run(es[..k]).outcomes| && Run(es[..k]).outcomes[i].Waiting?
    decreases |es|
  {
    hide Step;
    var n := |es| - 1;
    assert |es| > 0 by {
      assert |INITIAL.outcomes| == 0;
    }
    var s := Run(es[..n]);
    RunIsConsistent(es[..n]);
    StepAnswers(s, es[n], i);
    if s.outcomes[i] == Run(es).outcomes[i] {
      AnsweredByOwnId(es[..n], i);
      var k :| 0 <= k < n && es[..n][k] == Receive(Reply(Number(i + 1), Run(es).outcomes[i].body))
               && i < |Run(es[..n][..k]).outcomes| && Run(es[..n][..k]).outcomes[i].Waiting?;
      assert es[..n][..k] == es[..k] && es[k] == es[..n][k];
    }
  }

  // ----- The end of the reader -----

  predicate Stops(e: Event) {
    e.End? || e == Receive(Fatal)
  }

  /** Whether the engine closes its output, a line breaks the reader or close() cancels
      it: no future that was made before stays open. */
  lemma {:induction false} NothingStaysOpen(es: seq<Event>, k: nat, i: nat)
    requires k < |es| && Run(es[..k]).reading && Stops(es[k]) && i < |Run(es[..k]).outcomes|
    ensures i < |Run(es).outcomes| && !Run(es).outcomes[i].Waiting?
  {
    var s := Run(es[..k]);
    RunIsConsistent(es[..k]);
    assert es[..k + 1][..k] == es[..k];
    assert !Step(s, es[k]).outcomes[i].Waiting?;
    SettledOnce(es, k + 1, i);
  }

  /** The reader reads until something stops it. */
  lemma {:induction false} ReadingUntil(es: seq<Event>)
    ensures Run(es).reading <==> forall e :: e in es ==> !Stops(e)
    decreases |es|
  {
    hide Taken;
    if es != [] {
      var n := |es| - 1;
      assert es == es[..n] + [es[n]];
      assert es[n] in es;
      ReadingUntil(es[..n]);
      TakenKeeps(Run(es[..n]));
    }
  }

  /** What one event does to the open future of the call with id i + 1. */
  function Verdict(e: Event, i: nat, reading: bool): Outcome {
    if e == Expire(i + 1) then TimedOut
    else if reading && e.Receive? && e.line.Reply? && e.line.id == Number(i + 1) then Answered(e.line.body)
    else if reading && Stops(e) then EngineClosed
    else Waiting
  }

  lemma {:induction false} StepDecides(s: State, e: Event, i: nat)
    requires Consistent(s) && i < s.n && s.outcomes[i].Waiting?
    ensures i < |Step(s, e).outcomes| && Step(s, e).outcomes[i] == Verdict(e, i, s.reading)
  {
    hide Taken;
    TakenKeeps(s);
  }

  /** A reply answers its call: received while the reader reads and the call is open, its
      body is the call's outcome for good. */
  lemma {:induction false} ReplyAnswers(es: seq<Event>, k: nat, i: nat, body: int)
    requires k < |es| && es[k] == Receive(Reply(Number(i + 1), body))
    requires Run(es[..k]).reading && i < |Run(es[..k]).outcomes| && Run(es[..k]).outcomes[i].Waiting?
    ensures i < |Run(es).outcomes| && Run(es).outcomes[i] == Answered(body)
  {
    EventDecides(es, k, i);
  }

  /** A timeout of an open call is its outcome for good. */
  lemma {:induction false} TimeoutEnds(es: seq<Event>, k: nat, i: nat)
    requires k < |es| && es[k] == Expire(i + 1)
    requires i < |Run(es[..k]).outcomes| && Run(es[..k]).outcomes[i].Waiting?
    ensures i < |Run(es).outcomes| && Run(es).outcomes[i] == TimedOut
  {
    EventDecides(es, k, i);
  }

  lemma {:induction false} EventDecides(es: seq<Event>, k: nat, i: nat)
    requires k < |es| && i < |Run(es[..k]).outcomes| && Run(es[..k]).outcomes[i].Waiting?
    requires !Verdict(es[k], i, Run(es[..k]).reading).Waiting?
    ensures i < |Run(es).outcomes| && Run(es).outcomes[i] == Verdict(es[k], i, Run(es[..k]).reading)
  {
    hide Step, Verdict;
    RunIsConsistent(es[..k]);
    StepDecides(Run(es[..k]), es[k], i);
    assert es[..k + 1][..k] == es[..k];
    SettledOnce(es, k + 1, i);
  }

  lemma {:induction false} CallOpens(es: seq<Event>, j: nat)
    requires j < |es| && es[j].Call?
    ensures var i := Calls(es[..j]); i < |Run(es[..j + 1]).outcomes| && Run(es[..j + 1]).outcomes[i] == Waiting
  {
    CountIsCalls(es[..j]);
    RunIsConsistent(es[..j]);
    assert es[..j + 1][..j] == es[..j];
    CallWaits(Run(es[..j]));
  }

  /** Until one of the three comes, a call stays open. */
  lemma {:induction false} StaysOpen(es: seq<Event>, j: nat, k: nat)
    requires j < k <= |es| && es[j].Call?
    requires forall m :: j < m < k ==> Verdict(es[m], Calls(es[..j]), Run(es[..m]).reading).Waiting?
    ensures var i := Calls(es[..j]); i < |Run(es[..k]).outcomes| && Run(es[..k]).outcomes[i] == Waiting
  {
    hide Step, Verdict, Calls;
    if k == j + 1 {
      CallOpens(es, j);
    } else {
      StaysOpen(es, j, k - 1);
      RunIsConsistent(es[..k - 1]);
      StepDecides(Run(es[..k - 1]), es[k - 1], Calls(es[..j]));
      assert es[..k][..k - 1] == es[..k - 1];
    }
  }

  /** The outcome of a call: that of the first of its timeout, its own reply and the end of
      the reader to come after it, and Waiting while none has come. */
  lemma {:induction false} FirstDecides(es: seq<Event>, j: nat, k: nat)
    requires j < k <= |es| && es[j].Call?
    requires forall m :: j < m < k ==> Verdict(es[m], Calls(es[..j]), Run(es[..m]).reading).Waiting?
    requires k < |es| ==> !Verdict(es[k], Calls(es[..j]), Run(es[..k]).reading).Waiting?
    ensures var i := Calls(es[..j]);
            && i < |Run(es).outcomes|
            && Run(es).outcomes[i] == if k < |es| then Verdict(es[k], i, Run(es[..k]).reading) else Waiting
  {
    hide Step, Verdict, Calls;
    StaysOpen(es, j, k);
    if k < |es| {
      EventDecides(es, k, Calls(es[..j]));
    } else {
      assert es[..k] == es;
    }
  }

  /** A call made after the reader has stopped is never answered: it ends by its own
      timeout, or not at all. */
  lemma {:induction false} LateCallsHang(es: seq<Event>, k: nat)
    requires k < |es| && !Run(es[..k]).reading && es[k].Call?
    ensures var i := Run(es[..k]).n;
            && i < |Run(es).outcomes| && !Run(es).reading
            && (Run(es).outcomes[i] == Waiting || Run(es).outcomes[i] == TimedOut)
            && (Run(es).outcomes[i] == TimedOut ==> exists j :: k < j < |es| && es[j] == Expire(i + 1))
    decreases |es|
  {
    hide Step;
    var n, i := |es| - 1, Run(es[..k]).n;
    if k == n {
      RunIsConsistent(es[..k]);
      CallWaits(Run(es[..k]));
    } else {
      assert es[..n][..k] == es[..k] && es[..n][k] == es[k];
      RunIsConsistent(es[..n]);
      LateCallsHang(es[..n], k);
      LateStep(Run(es[..n]), es[n], i);
      if Run(es[..n]).outcomes[i] == TimedOut {
        var j :| k < j < n && es[..n][j] == Expire(i + 1);
        assert es[j] == Expire(i + 1);
      }
    }
  }

  lemma {:induction false} CallWaits(s: State)
    requires Consistent(s)
    ensures var t := Step(s, Call); s.n < |t.outcomes| && t.outcomes[s.n] == Waiting && t.reading == s.reading
  {
  }

  lemma {:induction false} LateStep(s: State, e: Event, i: nat)
    requires Consistent(s) && !s.reading && i < s.n && (s.outcomes[i] == Waiting || s.outcomes[i] == TimedOut)
    ensures i < |Step(s, e).outcomes| && !Step(s, e).reading
    ensures Step(s, e).outcomes[i] == s.outcomes[i] || (e == Expire(i + 1) && Step(s, e).outcomes[i] == TimedOut)
  {
    hide Taken;
    TakenKeeps(s);
  }

  // ----- Notifications -----

  /** What the reader heard, in order of arrival. */
  function Arrived(es: seq<Event>): seq<Note> {
    if es == [] then []
    else
      var n := |es| - 1;
      Arrived(es[..n]) + if Run(es[..n]).reading && es[n].Receive? && es[n].line.Heard? then [es[n].line.note] else []
  }

  lemma {:induction false} StepKeepsNotes(s: State, e: Event)
    ensures Step(s, e).taken + Step(s, e).queue ==
            s.taken + s.queue + if s.reading && e.Receive? && e.line.Heard? then [e.line.note] else []
  {
    if e.Take? {
      TakenMoves(s);
    }
    hide Taken;
    AppendNone(s.taken + s.queue);
    if s.reading && e.Receive? && e.line.Heard? {
      AppendAssoc(s.taken, s.queue, [e.line.note]);
    }
  }

  lemma {:induction false} TakenMoves(s: State)
    ensures Taken(s).taken + Taken(s).queue == s.taken + s.queue
  {
    if s.queue != [] {
      assert s.queue == [s.queue[0]] + s.queue[1..];
      AppendAssoc(s.taken, [s.queue[0]], s.queue[1..]);
    }
  }

  /** The queue is first in, first out, and loses nothing: what was taken, then what is
      still queued, is exactly what arrived. */
  lemma {:induction false} QueueIsFifo(es: seq<Event>)
    ensures Run(es).taken + Run(es).queue == Arrived(es)
    decreases |es|
  {
    hide Step;
    if es != [] {
      QueueIsFifo(es[..|es| - 1]);
      StepKeepsNotes(Run(es[..|es| - 1]), es[|es| - 1]);
    }
  }

  // ----- Waits -----

  function OfTopic(notes: seq<Note>, topic: string): seq<Note> {
    if notes == [] then []
    else
      var last := notes[|notes| - 1];
      OfTopic(notes[..|notes| - 1], topic) + if last.Notice? && last.topic == topic then [last] else []
  }

  function Messages(results: seq<Got>): seq<Note> {
    if results == [] then []
    else
      var last := results[|results| - 1];
      Messages(results[..|results| - 1]) + if last.Message? then [last.note] else []
  }

  lemma {:induction false} OneMoreNote(notes: seq<Note>, note: Note, topic: string)
    ensures OfTopic(notes + [note], topic) ==
            OfTopic(notes, topic) + if note.Notice? && note.topic == topic then [note] else []
  {
    assert (notes + [note])[..|notes|] == notes;
  }

  lemma {:induction false} OneMoreResult(results: seq<Got>, g: Got)
    ensures Messages(results + [g]) == Messages(results) + if g.Message? then [g.note] else []
  {
    assert (results + [g])[..|results|] == results;
  }

  /** Every wait is for one topic, as the sweep's are. */
  predicate OnlyWaitsFor(es: seq<Event>, topic: string) {
    forall e :: e in es && e.Wait? ==> e.topic == topic
  }

  /** The waits that succeed hand out the notifications of their topic one by one, in
      order of arrival, over every interleaving of calls, timeouts and other lines. */
  lemma {:induction false} WaitsFollowArrivals(es: seq<Event>, topic: string)
    requires OnlyWaitsFor(es, topic)
    ensures Messages(Run(es).results) == OfTopic(Run(es).taken, topic)
    ensures Run(es).waiting.Some? ==> Run(es).waiting.value == topic
    decreases |es|
  {
    hide Step;
    if es != [] {
      var n := |es| - 1;
      assert es == es[..n] + [es[n]];
      assert es[n] in es;
      WaitsFollowArrivals(es[..n], topic);
      WaitStep(Run(es[..n]), es[n], topic);
    }
  }

  lemma {:induction false} WaitStep(s: State, e: Event, topic: string)
    requires Messages(s.results) == OfTopic(s.taken, topic)
    requires s.waiting.Some? ==> s.waiting.value == topic
    requires e.Wait? ==> e.topic == topic
    ensures var t := Step(s, e);
            Messages(t.results) == OfTopic(t.taken, topic) && (t.waiting.Some? ==> t.waiting.value == topic)
  {
    hide Messages, OfTopic;
    AppendNone(Messages(s.results));
    OneMoreResult(s.results, Expired);
    if s.queue != [] {
      OneMoreNote(s.taken, s.queue[0], topic);
      OneMoreResult(s.results, Message(s.queue[0]));
      OneMoreResult(s.results, Crash);
    }
  }

  predicate AllMessages(results: seq<Got>) {
    forall g :: g in results ==> g.Message?
  }

  lemma {:induction false} MessagesOfAll(results: seq<Got>)
    requires AllMessages(results)
    ensures |Messages(results)| == |results|
    ensures forall k :: 0 <= k < |results| ==> results[k] == Message(Messages(results)[k])
    decreases |results|
  {
    if results != [] {
      var n := |results| - 1;
      assert results == results[..n] + [results[n]];
      assert results[n] in results;
      MessagesOfAll(results[..n]);
    }
  }

  lemma {:induction false} TopicOfPrefix(a: seq<Note>, b: seq<Note>, topic: string)
    ensures OfTopic(a, topic) <= OfTopic(a + b, topic)
    decreases |b|
  {
    if b == [] {
      AppendNone(a);
    } else {
      var n := |b| - 1;
      assert b == b[..n] + [b[n]];
      AppendAssoc(a, b[..n], [b[n]]);
      TopicOfPrefix(a, b[..n], topic);
      OneMoreNote(a + b[..n], b[n], topic);
    }
  }

  /** An open wait that times out, or that takes a notification it cannot search. */
  predicate Disturbs(s: State, e: Event) {
    s.waiting.Some? && (e.GiveUp? || (e.Take? && s.queue != [] && s.queue[0].Odd?))
  }

  predicate Undisturbed(es: seq<Event>) {
    es == [] || (!Disturbs(Run(es[..|es| - 1]), es[|es| - 1]) && Undisturbed(es[..|es| - 1]))
  }

  /** All waits of a run that have ended return messages exactly when none of them timed
      out and none took a malformed notification. */
  lemma {:induction false} WaitsSucceedExactly(es: seq<Event>)
    ensures AllMessages(Run(es).results) <==> Undisturbed(es)
    decreases |es|
  {
    hide Step, Disturbs, AllMessages;
    if es == [] {
      NoResults();
    } else {
      var n := |es| - 1;
      WaitsSucceedExactly(es[..n]);
      ResultStep(Run(es[..n]), es[n]);
    }
  }

  lemma {:induction false} NoResults()
    ensures AllMessages(INITIAL.results)
  {
  }

  lemma {:induction false} ResultStep(s: State, e: Event)
    ensures AllMessages(Step(s, e).results) <==> AllMessages(s.results) && !Disturbs(s, e)
  {
    hide AllMessages;
    AllAndOne(s.results, Expired);
    AllAndOne(s.results, Crash);
    if s.queue != [] {
      AllAndOne(s.results, Message(s.queue[0]));
    }
  }

  lemma {:induction false} AllAndOne(results: seq<Got>, g: Got)
    ensures AllMessages(results + [g]) <==> AllMessages(results) && g.Message?
  {
    if AllMessages(results + [g]) {
      assert g in results + [g];
      assert forall h :: h in results ==> h in results + [g];
    }
  }

  /** With no timeouts and no malformed notifications, the k-th wait returns the k-th
      notification of its topic. */
  lemma {:induction false} KthWaitGetsKthNotice(es: seq<Event>, topic: string, k: nat)
    requires OnlyWaitsFor(es, topic) && Undisturbed(es) && k < |Run(es).results|
    ensures k < |OfTopic(Arrived(es), topic)| && Run(es).results[k] == Message(OfTopic(Arrived(es), topic)[k])
  {
    hide Run, Arrived, OfTopic, Messages, Undisturbed;
    WaitsSucceedExactly(es);
    WaitsFollowArrivals(es, topic);
    MessagesOfAll(Run(es).results);
    QueueIsFifo(es);
    TopicOfPrefix(Run(es).taken, Run(es).queue, topic);
  }

  /** A wait that times out leaves its notification for the next one. */
  lemma {:induction false} TimeoutShiftsWaits(topic: string, first: int)
    ensures var es := [Wait(topic), GiveUp] + [Receive(Heard(Notice(topic, first))), Wait(topic)] + [Take];
            Run(es).results == [Expired, Message(Notice(topic, first))]
  {
    var one := [Wait(topic), GiveUp];
    var two := one + [Receive(Heard(Notice(topic, first))), Wait(topic)];
    TwoMoreEvents([], Wait(topic), GiveUp);
    AppendNone(one);
    TwoMoreEvents(one, Receive(Heard(Notice(topic, first))), Wait(topic));
    OneMoreEvent(two, Take);
    assert Run([]) == INITIAL;
    hide Run;
    assert Run(one) == INITIAL.(results := [Expired]);
    assert Run(two) == INITIAL.(results := [Expired], queue := [Notice(topic, first)], waiting := Some(topic));
  }

  lemma {:induction false} TwoMoreEvents(es: seq<Event>, a: Event, b: Event)
    ensures Run(es + [a, b]) == Step(Step(Run(es), a), b)
  {
    hide Step;
    assert es + [a, b] == es + [a] + [b];
    OneMoreEvent(es, a);
    OneMoreEvent(es + [a], b);
  }

  lemma {:induction false} OneMoreEvent(es: seq<Event>, e: Event)
    ensures Run(es + [e]) == Step(Run(es), e)
  {
    hide Step;
    assert (es + [e])[..|es|] == es;
  }
}
