/** sweep_dx7_patches.process_patch over the protocol: exports as calls, acceptances and
    waits, and the notifications the engine sends as it finishes them. */
module McpExports {
  import opened Bytes
  import opened McpProtocol

  const TOPIC := "notifications/exportComplete"

  /** An export: its call is out, its wait is open, either of them was given up, or the
      wait returned the notification of export number body. */
  datatype Fate = Calling(id: nat) | InWait | Abandoned | Credited(body: int)

  /** fates[k] is export k; the engine is at export next. */
  datatype Session = Session(p: State, fates: seq<Fate>, next: nat)

  const OPENED := Session(INITIAL, [], 0)

  /** Start, Accept and Fail are process_patch; Finish is the engine completing one more
      export; Besides is any other event of the protocol. */
  datatype Move = Start | Accept | Fail | Finish | Besides(e: Event)

  /** The exports the engine completes: not those it refuses, though it may complete one
      whose call timed out. */
  type Completes = nat -> bool

  // ----- Moves -----

  predicate Settled(fates: seq<Fate>) {
    fates == [] || fates[|fates| - 1].Abandoned? || fates[|fates| - 1].Credited?
  }

  /** The open call's outcome, if an export's call is out. */
  function OpenCall(s: Session): Option<Outcome> {
    if s.fates != [] && s.fates[|s.fates| - 1].Calling? && 1 <= s.fates[|s.fates| - 1].id <= |s.p.outcomes|
    then Some(s.p.outcomes[s.fates[|s.fates| - 1].id - 1]) else None
  }

  /** How the open wait ended. */
  function Closed(got: Got): Fate {
    if got.Message? && got.note.Notice? then Credited(got.note.body) else Abandoned
  }

  /** Only process_patch waits, and only the engine sends the topic's notifications. */
  predicate Foreign(e: Event) {
    !e.Wait? && !(e.Receive? && e.line.Heard? && IsTopic(e.line.note))
  }

  predicate IsTopic(note: Note) {
    IsOf(note, TOPIC)
  }

  predicate IsOf(note: Note, topic: string) {
    note.Notice? && note.topic == topic
  }

  function Heed(s: Session, e: Event): Session {
    var t := Step(s.p, e);
    var last := |s.fates| - 1;
    if s.p.waiting.Some? && t.waiting.None? && last >= 0 && t.results != [] then
      Session(t, s.fates[last := Closed(t.results[|t.results| - 1])], s.next)
    else Session(t, s.fates, s.next)
  }

  function Moved(s: Session, m: Move, completes: Completes): Session {
    var last := |s.fates| - 1;
    match m
    case Start =>
      if Settled(s.fates) then Session(Step(s.p, Call), s.fates + [Calling(s.p.n + 1)], s.next) else s
    case Accept =>
      if OpenCall(s).Some? && OpenCall(s).value.Answered? then
        Session(Step(s.p, Wait(TOPIC)), s.fates[last := InWait], s.next)
      else s
    case Fail =>
      if OpenCall(s).Some? && !OpenCall(s).value.Waiting? then s.(fates := s.fates[last := Abandoned]) else s
    case Finish =>
      if s.next < |s.fates| && s.p.reading then
        var note := Receive(Heard(Notice(TOPIC, s.next)));
        Session(if completes(s.next) then Step(s.p, note) else s.p, s.fates, s.next + 1)
      else s
    case Besides(e) => if Foreign(e) then Heed(s, e) else s
  }

  function Played(ms: seq<Move>, completes: Completes): Session {
    if ms == [] then OPENED else Moved(Played(ms[..|ms| - 1], completes), ms[|ms| - 1], completes)
  }

  // ----- What the exports are credited with -----

  /** The notifications of the first exports. */
  function Completed(n: nat, completes: Completes): seq<Note> {
    if n == 0 then []
    else Completed(n - 1, completes) + if completes(n - 1) then [Notice(TOPIC, n - 1)] else []
  }

  /** The notifications the waits returned. */
  function Credits(fates: seq<Fate>): seq<Note> {
    if fates == [] then []
    else
      var last := fates[|fates| - 1];
      Credits(fates[..|fates| - 1]) + if last.Credited? then [Notice(TOPIC, last.body)] else []
  }

  /** The wait is the last export's; what it returned is what was taken; the engine's
      notifications are taken or queued, in order, and none of an export not yet begun. */
  ghost predicate Sound(s: Session, completes: Completes) {
    && (s.p.waiting.Some? <==> s.fates != [] && s.fates[|s.fates| - 1].InWait?)
    && (s.p.waiting.Some? ==> s.p.waiting.value == TOPIC)
    && Messages(s.p.results) == OfTopic(s.p.taken, TOPIC)
    && OfTopic(s.p.taken + s.p.queue, TOPIC) == Completed(s.next, completes)
    && s.next <= |s.fates|
    && Credits(s.fates) == Messages(s.p.results)
    && forall k :: 0 <= k < |s.fates| && s.fates[k].Credited? ==> s.fates[k].body <= k
  }

  lemma {:induction false} OneMoreCredit(fates: seq<Fate>, f: Fate)
    ensures Credits(fates + [f]) == Credits(fates) + if f.Credited? then [Notice(TOPIC, f.body)] else []
  {
    assert (fates + [f])[..|fates|] == fates;
  }

  lemma {:induction false} LastCredit(fates: seq<Fate>, f: Fate)
    requires fates != [] && !fates[|fates| - 1].Credited?
    ensures Credits(fates[|fates| - 1 := f]) == Credits(fates) + if f.Credited? then [Notice(TOPIC, f.body)] else []
  {
    var n := |fates| - 1;
    assert fates == fates[..n] + [fates[n]] && fates[n := f] == fates[..n] + [f];
    OneMoreCredit(fates[..n], fates[n]);
    OneMoreCredit(fates[..n], f);
    AppendNone(Credits(fates[..n]));
  }

  /** A step that takes nothing and hears nothing of the topic. */
  lemma {:induction false} ForeignNotes(s: State, e: Event)
    requires Foreign(e)
    ensures OfTopic(Step(s, e).taken + Step(s, e).queue, TOPIC) == OfTopic(s.taken + s.queue, TOPIC)
  {
    StepKeepsNotes(s, e);
    hide Step, OfTopic;
    AppendNone(s.taken + s.queue);
    if e.Receive? && e.line.Heard? {
      OneMoreNote(s.taken + s.queue, e.line.note, TOPIC);
      AppendNone(OfTopic(s.taken + s.queue, TOPIC));
    }
  }

  /** What a foreign step does to the wait: nothing, or it ends it with one result. */
  lemma {:induction false} ForeignWait(s: State, e: Event)
    requires Foreign(e)
    ensures var t := Step(s, e);
            if s.waiting.Some? && t.waiting.None? then
              |t.results| == |s.results| + 1 && t.results[..|s.results|] == s.results
              && (t.results[|s.results|].Message? ==> IsOf(t.results[|s.results|].note, s.waiting.value))
            else t.waiting == s.waiting && t.results == s.results
  {
  }

  lemma {:induction false} BesidesIsSound(s: Session, e: Event, completes: Completes)
    requires Sound(s, completes) && Foreign(e)
    ensures Sound(Heed(s, e), completes)
  {
    hide Step, Messages, OfTopic, Completed, Credits;
    var t := Step(s.p, e);
    ForeignNotes(s.p, e);
    ForeignWait(s.p, e);
    WaitStep(s.p, e, TOPIC);
    if s.p.waiting.Some? && t.waiting.None? {
      var n, g := |s.p.results|, t.results[|s.p.results|];
      assert t.results == s.p.results + [g];
      OneMoreResult(s.p.results, g);
      LastCredit(s.fates, Closed(g));
      if g.Message? {
        CreditedBelow(t, g.note, s.next, completes);
      }
    }
  }

  /** A notification that was taken is of an export already begun. */
  lemma {:induction false} CreditedBelow(t: State, note: Note, next: nat, completes: Completes)
    requires Messages(t.results) == OfTopic(t.taken, TOPIC) && t.results != []
    requires t.results[|t.results| - 1] == Message(note)
    requires OfTopic(t.taken + t.queue, TOPIC) == Completed(next, completes)
    ensures note.Notice? && 0 <= note.body < next
  {
    hide OfTopic, Completed;
    TopicOfPrefix(t.taken, t.queue, TOPIC);
    var ms := Messages(t.results);
    assert ms[|ms| - 1] == note;
    assert Completed(next, completes)[|ms| - 1] == note;
    CompletedAt(next, completes, |ms| - 1);
  }

  lemma {:induction false} StartIsSound(s: Session, completes: Completes)
    requires Sound(s, completes) && Settled(s.fates)
    ensures Sound(Moved(s, Start, completes), completes)
  {
    hide Messages, OfTopic, Completed, Credits;
    OneMoreCredit(s.fates, Calling(s.p.n + 1));
    AppendNone(Credits(s.fates));
  }

  lemma {:induction false} LastIsSound(s: Session, m: Move, completes: Completes)
    requires Sound(s, completes) && (m.Accept? || m.Fail?)
    ensures Sound(Moved(s, m, completes), completes)
  {
    hide Messages, OfTopic, Completed, Credits;
    if OpenCall(s).Some? {
      LastCredit(s.fates, InWait);
      LastCredit(s.fates, Abandoned);
      AppendNone(Credits(s.fates));
    }
  }

  lemma {:induction false} FinishIsSound(s: Session, completes: Completes)
    requires Sound(s, completes)
    ensures Sound(Moved(s, Finish, completes), completes)
  {
    hide Messages, OfTopic, Credits;
    var note := Notice(TOPIC, s.next);
    AppendAssoc(s.p.taken, s.p.queue, [note]);
    OneMoreNote(s.p.taken + s.p.queue, note, TOPIC);
    AppendNone(OfTopic(s.p.taken + s.p.queue, TOPIC));
  }

  lemma {:induction false} PlayedIsSound(ms: seq<Move>, completes: Completes)
    ensures Sound(Played(ms, completes), completes)
    decreases |ms|
  {
    hide Sound, Heed;
    if ms == [] {
      OpenedIsSound(completes);
    } else {
      var s, m := Played(ms[..|ms| - 1], completes), ms[|ms| - 1];
      PlayedIsSound(ms[..|ms| - 1], completes);
      FinishIsSound(s, completes);
      if m.Start? && Settled(s.fates) {
        StartIsSound(s, completes);
      } else if m.Accept? || m.Fail? {
        LastIsSound(s, m, completes);
      } else if m.Besides? && Foreign(m.e) {
        BesidesIsSound(s, m.e, completes);
      }
    }
  }

  lemma {:induction false} OpenedIsSound(completes: Completes)
    ensures Sound(OPENED, completes)
  {
    assert INITIAL.taken + INITIAL.queue == [];
  }

  // ----- Counting -----

  function Count(n: nat, completes: Completes): nat {
    if n == 0 then 0 else Count(n - 1, completes) + if completes(n - 1) then 1 else 0
  }

  function CreditedBefore(fates: seq<Fate>, k: nat): nat
    requires k <= |fates|
  {
    if k == 0 then 0 else CreditedBefore(fates, k - 1) + if fates[k - 1].Credited? then 1 else 0
  }

  /** The j-th notification is of a completing export with j completing ones before it. */
  lemma {:induction false} CompletedAt(n: nat, completes: Completes, j: nat)
    requires j < |Completed(n, completes)|
    ensures var note := Completed(n, completes)[j];
            note.Notice? && 0 <= note.body < n && completes(note.body) && Count(note.body, completes) == j
    decreases n
  {
    CompletedCount(n - 1, completes);
    if j < |Completed(n - 1, completes)| {
      CompletedAt(n - 1, completes, j);
    }
  }

  lemma {:induction false} CompletedCount(n: nat, completes: Completes)
    ensures |Completed(n, completes)| == Count(n, completes)
    decreases n
  {
    if n > 0 {
      CompletedCount(n - 1, completes);
    }
  }

  lemma {:induction false} CountGrows(i: nat, k: nat, completes: Completes)
    requires i < k && completes(i)
    ensures Count(i, completes) < Count(k, completes)
    decreases k
  {
    if i < k - 1 {
      CountGrows(i, k - 1, completes);
    }
  }

  lemma {:induction false} CreditAt(fates: seq<Fate>, k: nat)
    requires k < |fates| && fates[k].Credited?
    ensures CreditedBefore(fates, k) < |Credits(fates)|
    ensures Credits(fates)[CreditedBefore(fates, k)] == Notice(TOPIC, fates[k].body)
    decreases |fates|
  {
    var n := |fates| - 1;
    if k < n {
      CreditAt(fates[..n], k);
      SameBefore(fates, n, k);
    } else {
      CreditCount(fates[..n]);
      SameBefore(fates, n, n);
    }
  }

  lemma {:induction false} SameBefore(fates: seq<Fate>, n: nat, k: nat)
    requires k <= n <= |fates|
    ensures CreditedBefore(fates[..n], k) == CreditedBefore(fates, k)
    decreases k
  {
    if k > 0 {
      SameBefore(fates, n, k - 1);
    }
  }

  lemma {:induction false} CreditCount(fates: seq<Fate>)
    ensures |Credits(fates)| == CreditedBefore(fates, |fates|)
    decreases |fates|
  {
    if fates != [] {
      var n := |fates| - 1;
      CreditCount(fates[..n]);
      SameBefore(fates, n, n);
    }
  }

  // ----- Which export a wait is credited with -----

  /** In every run a credited export is credited with a completed export not after it:
      the one that has as many completing exports before it as it has credited ones. */
  lemma {:induction false} CreditIsCounted(ms: seq<Move>, completes: Completes, k: nat)
    requires k < |Played(ms, completes).fates| && Played(ms, completes).fates[k].Credited?
    ensures var fates := Played(ms, completes).fates;
            var b := fates[k].body;
            && 0 <= b <= k && completes(b) && Count(b, completes) == CreditedBefore(fates, k)
            && (b == k <==> completes(k) && CreditedBefore(fates, k) == Count(k, completes))
  {
    hide Played, Credits, OfTopic, Messages, Completed, CreditedBefore, Count;
    var s := Played(ms, completes);
    PlayedIsSound(ms, completes);
    CreditAt(s.fates, k);
    TopicOfPrefix(s.p.taken, s.p.queue, TOPIC);
    var j, b := CreditedBefore(s.fates, k), s.fates[k].body;
    assert Completed(s.next, completes)[j] == Notice(TOPIC, b);
    CompletedAt(s.next, completes, j);
    if b < k {
      CountGrows(b, k, completes);
    }
  }

  /** The engine completes every export whose call it accepts. */
  ghost predicate KeepsItsWord(ms: seq<Move>, completes: Completes) {
    forall i :: 0 <= i < |ms| && ms[i].Accept? && |Played(ms[..i], completes).fates| > 0 ==>
                  completes(|Played(ms[..i], completes).fates| - 1)
  }

  lemma {:induction false} WordKept(ms: seq<Move>, completes: Completes)
    requires ms != [] && KeepsItsWord(ms, completes)
    ensures KeepsItsWord(ms[..|ms| - 1], completes)
  {
    var before := ms[..|ms| - 1];
    forall i | 0 <= i < |before| && before[i].Accept? && |Played(before[..i], completes).fates| > 0
      ensures completes(|Played(before[..i], completes).fates| - 1)
    {
      assert before[..i] == ms[..i] && before[i] == ms[i];
    }
  }

  ghost predicate OnlyCompleting(fates: seq<Fate>, completes: Completes) {
    forall k :: 0 <= k < |fates| && (fates[k].InWait? || fates[k].Credited?) ==> completes(k)
  }

  lemma {:induction false} StaysCompleting(s: Session, m: Move, completes: Completes)
    requires Sound(s, completes) && OnlyCompleting(s.fates, completes)
    requires m.Accept? && s.fates != [] ==> completes(|s.fates| - 1)
    ensures OnlyCompleting(Moved(s, m, completes).fates, completes)
  {
    hide Step, Sound;
    if m.Besides? && Foreign(m.e) {
      OpenWait(s, completes);
    }
  }

  lemma {:induction false} OpenWait(s: Session, completes: Completes)
    requires Sound(s, completes)
    ensures s.p.waiting.Some? ==> s.fates != [] && s.fates[|s.fates| - 1].InWait?
  {
  }

  lemma {:induction false} CreditedComplete(ms: seq<Move>, completes: Completes)
    requires KeepsItsWord(ms, completes)
    ensures OnlyCompleting(Played(ms, completes).fates, completes)
    decreases |ms|
  {
    hide Moved, OnlyCompleting, Sound;
    if ms == [] {
      NoneCompleting(completes);
    } else {
      var n := |ms| - 1;
      WordKept(ms, completes);
      CreditedComplete(ms[..n], completes);
      PlayedIsSound(ms[..n], completes);
      StaysCompleting(Played(ms[..n], completes), ms[n], completes);
    }
  }

  lemma {:induction false} NoneCompleting(completes: Completes)
    ensures OnlyCompleting(OPENED.fates, completes)
  {
  }

  lemma {:induction false} AllCredited(fates: seq<Fate>, completes: Completes, k: nat)
    requires k <= |fates| && OnlyCompleting(fates, completes)
    ensures CreditedBefore(fates, k) <= Count(k, completes)
    ensures CreditedBefore(fates, k) == Count(k, completes) <==>
            forall i :: 0 <= i < k && completes(i) ==> fates[i].Credited?
    decreases k
  {
    if k > 0 {
      AllCredited(fates, completes, k - 1);
    }
  }

  /** When the engine completes whatever it accepts, an export is credited with its own
      notification exactly when every earlier export that the engine completed was credited
      too: one call that timed out though the engine went on, or one wait given up, and
      from there on every export gets an earlier one's notification. */
  lemma {:induction false} OwnNoticeExactly(ms: seq<Move>, completes: Completes, k: nat)
    requires KeepsItsWord(ms, completes)
    requires k < |Played(ms, completes).fates| && Played(ms, completes).fates[k].Credited?
    ensures var fates := Played(ms, completes).fates;
            fates[k].body == k <==> forall i :: 0 <= i < k && completes(i) ==> fates[i].Credited?
  {
    hide Played, KeepsItsWord, CreditedBefore, Count;
    CreditIsCounted(ms, completes, k);
    CreditedComplete(ms, completes);
    AllCredited(Played(ms, completes).fates, completes, k);
  }

  // ----- A call that times out -----

  /** The first export's call times out, but its export goes on; the second is accepted. */
  const LOST: seq<Move> := [] + [Start, Besides(Expire(1))] + [Fail, Finish]
  const AFTER_LOST: seq<Move> := LOST + [Start, Besides(Receive(Reply(Number(2), 0)))] + [Accept, Besides(Take)]

  /** No wait ever times out, and the second export is credited with the first one's
      notification. */
  lemma {:induction false} LostCallShiftsWaits(completes: Completes)
    requires completes(0)
    ensures Played(AFTER_LOST, completes).fates == [Abandoned, Credited(0)]
  {
    hide Moved;
    LostCall(completes);
    TwoMoves(LOST, Start, Besides(Receive(Reply(Number(2), 0))), completes);
    SecondStarts(completes);
    TwoMoves(LOST + [Start, Besides(Receive(Reply(Number(2), 0)))], Accept, Besides(Take), completes);
    SecondTakes(completes);
  }

  const LEFT: Session := Session(State(1, {1}, [TimedOut], [Notice(TOPIC, 0)], [], true, None, []), [Abandoned], 1)
  const ANSWERED: Session :=
    Session(State(2, {1}, [TimedOut, Answered(0)], [Notice(TOPIC, 0)], [], true, None, []), [Abandoned, Calling(2)], 1)

  lemma {:induction false} SecondStarts(completes: Completes)
    ensures Moved(Moved(LEFT, Start, completes), Besides(Receive(Reply(Number(2), 0))), completes) == ANSWERED
  {
  }

  lemma {:induction false} SecondTakes(completes: Completes)
    ensures Moved(Moved(ANSWERED, Accept, completes), Besides(Take), completes).fates == [Abandoned, Credited(0)]
  {
  }

  lemma {:induction false} LostCall(completes: Completes)
    requires completes(0)
    ensures Played(LOST, completes) == LEFT
  {
    var first := [] + [Start, Besides(Expire(1))];
    TwoMoves([], Start, Besides(Expire(1)), completes);
    assert Played(first, completes) == Session(State(1, {1}, [TimedOut], [], [], true, None, []), [Calling(1)], 0);
    TwoMoves(first, Fail, Finish, completes);
  }

  lemma {:induction false} TwoMoves(ms: seq<Move>, a: Move, b: Move, completes: Completes)
    ensures Played(ms + [a, b], completes) == Moved(Moved(Played(ms, completes), a, completes), b, completes)
  {
    hide Moved;
    var two := ms + [a, b];
    assert two[..|two| - 1] == ms + [a] && (ms + [a])[..|ms|] == ms;
  }

  // ----- An export that goes well -----

  /** Nothing is out, queued or awaited, and the engine has finished every export. */
  predicate Ready(s: Session) {
    && Consistent(s.p) && s.p.reading && s.p.waiting.None? && s.p.queue == []
    && Settled(s.fates) && s.next == |s.fates|
  }

  /** Call, reply to its id, completion, wait: the export is credited with its own
      notification, and the session is ready for the next. */
  lemma {:induction false} OneExport(s: Session, body: int, completes: Completes)
    requires Ready(s) && completes(s.next)
    ensures var called := Moved(s, Start, completes);
            var replied := Moved(called, Besides(Receive(Reply(Number(s.p.n + 1), body))), completes);
            var done := Moved(replied, Finish, completes);
            var waits := Moved(done, Accept, completes);
            var r := Moved(waits, Besides(Take), completes);
            && Ready(r) && r.fates == s.fates + [Credited(|s.fates|)] && r.p.n == s.p.n + 1
            && r.p.outcomes == s.p.outcomes + [Answered(body)]
            && r.p.results == s.p.results + [Message(Notice(TOPIC, |s.fates|))]
  {
    var called := Moved(s, Start, completes);
    var replied := Moved(called, Besides(Receive(Reply(Number(s.p.n + 1), body))), completes);
    assert called.p.outcomes[s.p.n] == Waiting && s.p.n + 1 in called.p.pending;
    assert replied.p.outcomes == s.p.outcomes + [Answered(body)];
    assert replied.fates == s.fates + [Calling(s.p.n + 1)];
    var done := Moved(replied, Finish, completes);
    assert done.p.queue == [Notice(TOPIC, |s.fates|)];
    var waits := Moved(done, Accept, completes);
    assert waits.fates == s.fates + [InWait] && waits.p.waiting == Some(TOPIC);
    var r := Moved(waits, Besides(Take), completes);
    assert r.p.queue == [];
  }
}
