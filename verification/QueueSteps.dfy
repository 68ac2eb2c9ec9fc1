/** The message queue split at its storage calls: `poll`, `renewLease` and `requeueTimeouts` in
    `client/data/mq.datastore.ts` are several calls each, run by overlapping workers that may
    stop between any two of them. */
module QueueSteps {
  import MessageQueue
  import opened Options

  type QKey = MessageQueue.QKey

  /** What a call in progress holds in its hands. */
  datatype Task<+B> =
    | PollRead(ms: map<QKey, B>)       // queued rows read, nothing written yet
    | PollWritten(ms: map<QKey, B>)    // written to processing, not yet deleted from the queue
    | RenewRead(ms: map<QKey, B>)      // processing rows read, to be written back
    | RequeueHeld(ms: map<QKey, B>)    // timed-out rows deleted, to be inserted again

  /** `done` are the messages acknowledged, or dropped after too many tries. */
  datatype State<+B> = State(queued: map<QKey, B>, processing: map<QKey, B>, dlq: map<QKey, B>,
                             sent: map<QKey, B>, done: set<QKey>, tasks: map<nat, Task<B>>)

  datatype Step<+B> =
    | Send(k: QKey, body: B)
    | Ack(ks: set<QKey>)
    | StartPoll(t: nat, ks: set<QKey>)
    | WritePoll(t: nat)
    | DeletePoll(t: nat)
    | StartRenew(t: nat, ks: set<QKey>)
    | WriteRenew(t: nat)
    | StartRequeue(t: nat, ks: set<QKey>)              // the read and the delete
    | InsertRequeue(t: nat, dead: set<QKey>, drop: bool)
    | Stop(t: nat)

  function Pick<B>(rows: map<QKey, B>, ks: set<QKey>): map<QKey, B> {
    map k | k in ks && k in rows :: rows[k]
  }

  predicate Enabled<B>(s: State<B>, step: Step<B>) {
    match step
    case Send(k, _) => k !in s.sent
    case Ack(_) => true
    case StartPoll(t, _) => t !in s.tasks
    case WritePoll(t) => t in s.tasks && s.tasks[t].PollRead?
    case DeletePoll(t) => t in s.tasks && s.tasks[t].PollWritten?
    case StartRenew(t, _) => t !in s.tasks
    case WriteRenew(t) => t in s.tasks && s.tasks[t].RenewRead?
    case StartRequeue(t, _) => t !in s.tasks
    case InsertRequeue(t, _, _) => t in s.tasks && s.tasks[t].RequeueHeld?
    case Stop(t) => t in s.tasks
  }

  function Next<B>(s: State<B>, step: Step<B>): State<B>
    requires Enabled(s, step)
  {
    match step
    case Send(k, body) => s.(queued := s.queued[k := body], sent := s.sent[k := body])
    case Ack(ks) => s.(processing := s.processing - ks, done := s.done + ks)
    case StartPoll(t, ks) => s.(tasks := s.tasks[t := PollRead(Pick(s.queued, ks))])
    case WritePoll(t) =>
      var ms := s.tasks[t].ms;
      s.(processing := s.processing + ms, tasks := s.tasks[t := PollWritten(ms)])
    case DeletePoll(t) => s.(queued := s.queued - s.tasks[t].ms.Keys, tasks := s.tasks - {t})
    case StartRenew(t, ks) => s.(tasks := s.tasks[t := RenewRead(Pick(s.processing, ks))])
    case WriteRenew(t) => s.(processing := s.processing + s.tasks[t].ms, tasks := s.tasks - {t})
    case StartRequeue(t, ks) =>
      var ms := Pick(s.processing, ks);
      s.(processing := s.processing - ms.Keys, tasks := s.tasks[t := RequeueHeld(ms)])
    case InsertRequeue(t, dead, drop) =>
      var ms := s.tasks[t].ms;
      s.(queued := s.queued + (ms - dead), dlq := s.dlq + (if drop then map[] else Pick(ms, dead)),
         done := s.done + (if drop then ms.Keys * dead else {}), tasks := s.tasks - {t})
    case Stop(t) => s.(tasks := s.tasks - {t})
  }

  function Run<B>(s: State<B>, steps: seq<Step<B>>): Option<State<B>>
    decreases |steps|
  {
    if steps == [] then Some(s)
    else if !Enabled(s, steps[0]) then None
    else Run(Next(s, steps[0]), steps[1..])
  }

  // ----- Rows keep their bodies -----

  ghost predicate Holds<B>(rows: map<QKey, B>, sent: map<QKey, B>) {
    forall k :: k in rows ==> k in sent && rows[k] == sent[k]
  }

  ghost predicate AsSent<B>(s: State<B>) {
    && Holds(s.queued, s.sent) && Holds(s.processing, s.sent) && Holds(s.dlq, s.sent)
    && forall t :: t in s.tasks ==> Holds(s.tasks[t].ms, s.sent)
  }

  ghost predicate Fresh<B>(s: State<B>) {
    s == State(map[], map[], map[], map[], {}, map[])
  }

  lemma StepKeepsBodies<B>(s: State<B>, step: Step<B>)
    requires AsSent(s) && Enabled(s, step)
    ensures AsSent(Next(s, step))
  {
    var s' := Next(s, step);
    forall t | t in s'.tasks
      ensures Holds(s'.tasks[t].ms, s'.sent)
    {
      assert t in s.tasks ==> Holds(s.tasks[t].ms, s.sent);
    }
    if step.DeletePoll? || step.WritePoll? || step.WriteRenew? || step.InsertRequeue? {
      assert Holds(s.tasks[step.t].ms, s.sent);
    }
  }

  /** In every run, requeues and stops included, no row is ever anything but what was sent. */
  lemma {:induction false} RunKeepsBodies<B>(s: State<B>, steps: seq<Step<B>>)
    requires AsSent(s) && Run(s, steps).Some?
    ensures AsSent(Run(s, steps).value)
    decreases |steps|
  {
    hide AsSent, Next, Enabled;
    if steps != [] {
      StepKeepsBodies(s, steps[0]);
      RunKeepsBodies(Next(s, steps[0]), steps[1..]);
    }
  }

  // ----- What keeps a message -----

  /** Somewhere in the store, in a requeue's hands, or done with. */
  ghost predicate Kept<B>(s: State<B>, k: QKey) {
    k in s.queued || k in s.processing || k in s.dlq || k in s.done || InHand(s, k)
  }

  ghost predicate InHand<B>(s: State<B>, k: QKey) {
    exists t :: t in s.tasks && s.tasks[t].RequeueHeld? && k in s.tasks[t].ms
  }

  /** Where no later step takes it away. */
  predicate Settled<B>(s: State<B>, k: QKey) {
    k in s.dlq || k in s.done
  }

  /** Some poll has written the row to processing and is about to delete it from the queue. */
  ghost predicate Polled<B>(s: State<B>, k: QKey) {
    exists t :: t in s.tasks && s.tasks[t].PollWritten? && k in s.tasks[t].ms
  }

  /** A poll may delete the row from the queue only because it is in processing. */
  ghost predicate Inv<B>(s: State<B>, k: QKey) {
    && (k in s.sent ==> Kept(s, k))
    && (Polled(s, k) ==> k in s.processing || Settled(s, k))
  }

  /** The step requeues the row under the hands of a poll, or stops a requeue that holds it. */
  ghost predicate Careless<B>(s: State<B>, step: Step<B>, k: QKey)
    requires Enabled(s, step)
  {
    || (step.StartRequeue? && k in step.ks && k in s.processing && Polled(s, k))
    || (step.Stop? && s.tasks[step.t].RequeueHeld? && k in s.tasks[step.t].ms)
  }

  ghost predicate Careful<B>(s: State<B>, steps: seq<Step<B>>, k: QKey)
    decreases |steps|
  {
    steps == [] ||
    (Enabled(s, steps[0]) && !Careless(s, steps[0], k) && Careful(Next(s, steps[0]), steps[1..], k))
  }

  lemma PolledBefore<B>(s: State<B>, step: Step<B>, k: QKey)
    requires Enabled(s, step) && Polled(Next(s, step), k)
    ensures Polled(s, k) || (step.WritePoll? && k in Next(s, step).processing)
  {
    var s' := Next(s, step);
    var t :| t in s'.tasks && s'.tasks[t].PollWritten? && k in s'.tasks[t].ms;
    assert t in s.tasks;
  }

  lemma HandStays<B>(s: State<B>, step: Step<B>, k: QKey)
    requires Enabled(s, step) && InHand(s, k) && !Careless(s, step, k)
    ensures Kept(Next(s, step), k)
  {
    var s' := Next(s, step);
    var t :| t in s.tasks && s.tasks[t].RequeueHeld? && k in s.tasks[t].ms;
    if step.InsertRequeue? && step.t == t {
      assert k in s'.queued || k in s'.dlq || k in s'.done;
    } else {
      assert t in s'.tasks && s'.tasks[t] == s.tasks[t];
    }
  }

  lemma StepKeepsMessage<B>(s: State<B>, step: Step<B>, k: QKey)
    requires Inv(s, k) && Enabled(s, step) && k in s.sent && !Careless(s, step, k)
    ensures Kept(Next(s, step), k)
  {
    var s' := Next(s, step);
    if InHand(s, k) {
      HandStays(s, step, k);
    } else if step.StartRequeue? && k in s.processing && k in step.ks {
      assert s'.tasks[step.t].RequeueHeld? && k in s'.tasks[step.t].ms;
    } else if step.DeletePoll? && k in s.tasks[step.t].ms {
      assert Polled(s, k);
    }
  }

  lemma StepKeepsInv<B>(s: State<B>, step: Step<B>, k: QKey)
    requires Inv(s, k) && Enabled(s, step) && !Careless(s, step, k)
    ensures Inv(Next(s, step), k)
  {
    if k in s.sent {
      StepKeepsMessage(s, step, k);
    }
    if Polled(Next(s, step), k) {
      PolledBefore(s, step, k);
    }
  }

  lemma {:induction false} RunKeepsInv<B>(s: State<B>, steps: seq<Step<B>>, k: QKey)
    requires Inv(s, k) && Run(s, steps).Some? && Careful(s, steps, k)
    ensures Inv(Run(s, steps).value, k)
    decreases |steps|
  {
    hide Inv, Next, Enabled, Careless;
    if steps != [] {
      StepKeepsInv(s, steps[0], k);
      RunKeepsInv(Next(s, steps[0]), steps[1..], k);
    }
  }

  /** The main result: however sends, acknowledgements, renewals, polls and requeues overlap and
      stop, a message stays unless a requeue takes it that a poll is still about to delete, or a
      requeue that holds it is stopped; and it stays with its body. */
  lemma CarefulRunKeeps<B>(s: State<B>, steps: seq<Step<B>>, k: QKey)
    requires Fresh(s) && Run(s, steps).Some? && Careful(s, steps, k) && k in Run(s, steps).value.sent
    ensures Kept(Run(s, steps).value, k) && AsSent(Run(s, steps).value)
  {
    hide Run, Careful;
    RunKeepsBodies(s, steps);
    RunKeepsInv(s, steps, k);
  }

  // ----- What an acknowledgement is worth -----

  /** Some run puts the message into processing again. */
  ghost predicate CanReturn<B(!new)>(s: State<B>, k: QKey) {
    exists steps :: Run(s, steps).Some? && k in Run(s, steps).value.processing
  }

  /** A call in progress will write the row, or has it in its hands to write. */
  ghost predicate ToBeWritten<B>(s: State<B>, k: QKey) {
    exists t :: t in s.tasks && !s.tasks[t].PollWritten? && k in s.tasks[t].ms
  }

  ghost predicate Around<B>(s: State<B>, k: QKey) {
    k in s.queued || k in s.processing || ToBeWritten(s, k)
  }

  lemma StaysAway<B>(s: State<B>, step: Step<B>, k: QKey)
    requires k in s.sent && !Around(s, k) && Enabled(s, step)
    ensures !Around(Next(s, step), k) && k in Next(s, step).sent
  {
  }

  lemma {:induction false} AwayForGood<B>(s: State<B>, steps: seq<Step<B>>, k: QKey)
    requires k in s.sent && !Around(s, k) && Run(s, steps).Some?
    ensures k !in Run(s, steps).value.processing
    decreases |steps|
  {
    if steps == [] {
    } else {
      StaysAway(s, steps[0], k);
      AwayForGood(Next(s, steps[0]), steps[1..], k);
    }
  }

  lemma ReturnsLater<B(!new)>(s: State<B>, step: Step<B>, k: QKey)
    requires Enabled(s, step) && CanReturn(Next(s, step), k)
    ensures CanReturn(s, k)
  {
    hide Enabled, Next;
    var more :| Run(Next(s, step), more).Some? && k in Run(Next(s, step), more).value.processing;
    var steps := [step] + more;
    assert steps[0] == step && steps[1..] == more;
    assert Run(s, steps) == Run(Next(s, step), more);
  }

  lemma ReturnsNow<B(!new)>(s: State<B>, k: QKey)
    requires k in s.processing
    ensures CanReturn(s, k)
  {
    assert Run(s, []) == Some(s);
  }

  lemma QueuedReturns<B(!new)>(s: State<B>, k: QKey, v: nat)
    requires k in s.queued && v !in s.tasks
    ensures CanReturn(s, k)
  {
    hide CanReturn;
    var read := Next(s, StartPoll(v, {k}));
    ReturnsNow(Next(read, WritePoll(v)), k);
    ReturnsLater(read, WritePoll(v), k);
    ReturnsLater(s, StartPoll(v, {k}), k);
  }

  lemma HeldReturns<B(!new)>(s: State<B>, t: nat, k: QKey)
    requires t in s.tasks && !s.tasks[t].PollWritten? && k in s.tasks[t].ms
    ensures CanReturn(s, k)
  {
    hide CanReturn;
    match s.tasks[t]
    case PollRead(_) =>
      ReturnsNow(Next(s, WritePoll(t)), k);
      ReturnsLater(s, WritePoll(t), k);
    case RenewRead(_) =>
      ReturnsNow(Next(s, WriteRenew(t)), k);
      ReturnsLater(s, WriteRenew(t), k);
    case RequeueHeld(_) =>
      var step := InsertRequeue(t, {}, false);
      QueuedReturns(Next(s, step), k, t);
      ReturnsLater(s, step, k);
  }

  lemma ReturnsIff<B(!new)>(s: State<B>, k: QKey, v: nat)
    requires k in s.sent && v !in s.tasks
    ensures CanReturn(s, k) <==> Around(s, k)
  {
    if !Around(s, k) {
      forall steps: seq<Step<B>> | Run(s, steps).Some?
        ensures k !in Run(s, steps).value.processing
      {
        AwayForGood(s, steps, k);
      }
    } else if k in s.processing {
      ReturnsNow(s, k);
    } else if k in s.queued {
      QueuedReturns(s, k, v);
    } else {
      var t :| t in s.tasks && !s.tasks[t].PollWritten? && k in s.tasks[t].ms;
      HeldReturns(s, t, k);
    }
  }

  /** Exactly when an acknowledged message can be worked on once more: it is still queued, or a
      poll, renewal or requeue has read it and will write it. (`v` is some task not begun.) */
  lemma AckIsFinalIff<B(!new)>(s: State<B>, ks: set<QKey>, k: QKey, v: nat)
    requires k in ks && k in s.sent && v !in s.tasks
    ensures !CanReturn(Next(s, Ack(ks)), k) <==> k !in s.queued && !ToBeWritten(s, k)
  {
    hide CanReturn;
    var s' := Next(s, Ack(ks));
    assert s'.tasks == s.tasks && s'.queued == s.queued && k !in s'.processing;
    ReturnsIff(s', k, v);
  }

  /** A message is done with only by its acknowledgement, or as dropped. */
  predicate DoesAwayWith<B>(step: Step<B>, k: QKey) {
    (step.Ack? && k in step.ks) || (step.InsertRequeue? && step.drop && k in step.dead)
  }

  lemma {:induction false} DoneMeansAckedOrDropped<B>(s: State<B>, steps: seq<Step<B>>, k: QKey)
    requires Run(s, steps).Some? && k !in s.done && k in Run(s, steps).value.done
    ensures exists step :: step in steps && DoesAwayWith(step, k)
    decreases |steps|
  {
    if steps == [] {
      assert false;
    } else if k in Next(s, steps[0]).done {
      assert steps[0] in steps && DoesAwayWith(steps[0], k);
    } else {
      DoneMeansAckedOrDropped(Next(s, steps[0]), steps[1..], k);
      var step :| step in steps[1..] && DoesAwayWith(step, k);
      assert step in steps;
    }
  }

  // ----- Taking a row from under a poll is fatal -----

  /** Nothing careless need happen any more for the message to get lost. */
  ghost predicate CanGetLost<B(!new)>(s: State<B>, k: QKey) {
    exists steps :: Careful(s, steps, k) && Run(s, steps).Some? && !Kept(Run(s, steps).value, k)
  }

  lemma InvIsSafe<B(!new)>(s: State<B>, k: QKey)
    requires Inv(s, k) && k in s.sent
    ensures !CanGetLost(s, k)
  {
    forall steps: seq<Step<B>> | Careful(s, steps, k) && Run(s, steps).Some?
      ensures Kept(Run(s, steps).value, k)
    {
      RunKeepsInv(s, steps, k);
      SentStays(s, steps, k);
    }
  }

  lemma {:induction false} SentStays<B>(s: State<B>, steps: seq<Step<B>>, k: QKey)
    requires k in s.sent && Run(s, steps).Some?
    ensures k in Run(s, steps).value.sent
    decreases |steps|
  {
    if steps != [] {
      SentStays(Next(s, steps[0]), steps[1..], k);
    }
  }

  lemma LostLater<B(!new)>(s: State<B>, step: Step<B>, k: QKey)
    requires Enabled(s, step) && !Careless(s, step, k) && CanGetLost(Next(s, step), k)
    ensures CanGetLost(s, k)
  {
    hide Enabled, Next, Careless, Kept;
    var more :| Careful(Next(s, step), more, k) && Run(Next(s, step), more).Some?
                && !Kept(Run(Next(s, step), more).value, k);
    var steps := [step] + more;
    assert steps[0] == step && steps[1..] == more;
    assert Careful(s, steps, k) && Run(s, steps) == Run(Next(s, step), more);
  }

  /** The requeues that hold the message put it back, and then the poll deletes it. */
  lemma {:induction false} PolledGetsLost<B(!new)>(s: State<B>, t: nat, k: QKey)
    requires t in s.tasks && s.tasks[t].PollWritten? && k in s.tasks[t].ms
    requires k !in s.processing && !Settled(s, k)
    ensures CanGetLost(s, k)
    decreases |s.tasks|
  {
    hide CanGetLost;
    if InHand(s, k) {
      var u :| u in s.tasks && s.tasks[u].RequeueHeld? && k in s.tasks[u].ms;
      var step := InsertRequeue(u, {}, false);
      var s' := Next(s, step);
      assert s'.tasks[t] == s.tasks[t] && |s'.tasks| < |s.tasks| by {
        assert s'.tasks.Keys == s.tasks.Keys - {u};
      }
      PolledGetsLost(s', t, k);
      LostLater(s, step, k);
    } else {
      var s' := Next(s, DeletePoll(t));
      assert !InHand(s', k) by {
        assert forall u :: u in s'.tasks ==> u in s.tasks && s'.tasks[u] == s.tasks[u];
      }
      LostNow(s', k);
      LostLater(s, DeletePoll(t), k);
    }
  }

  lemma LostNow<B(!new)>(s: State<B>, k: QKey)
    requires !Kept(s, k)
    ensures CanGetLost(s, k)
  {
    assert Careful(s, [], k) && Run(s, []) == Some(s);
  }

  /** Exactly when a requeue makes it possible that steps which are not careless lose a message:
      it takes the message while a poll is still about to delete it from the queue. */
  lemma RequeueIsFatalIff<B(!new)>(s: State<B>, u: nat, ks: set<QKey>, k: QKey)
    requires Inv(s, k) && k in s.sent && Enabled(s, StartRequeue(u, ks))
    ensures CanGetLost(Next(s, StartRequeue(u, ks)), k)
       <==> k in ks && k in s.processing && Polled(s, k) && !Settled(s, k)
  {
    hide CanGetLost;
    var step := StartRequeue(u, ks);
    var s' := Next(s, step);
    if k in ks && k in s.processing && Polled(s, k) && !Settled(s, k) {
      var t :| t in s.tasks && s.tasks[t].PollWritten? && k in s.tasks[t].ms;
      assert s'.tasks[t] == s.tasks[t];
      PolledGetsLost(s', t, k);
    } else {
      if !Careless(s, step, k) {
        StepKeepsInv(s, step, k);
      }
      InvIsSafe(s', k);
    }
  }

  // ----- Without requeueing nothing is lost -----

  predicate NoRequeue<B>(steps: seq<Step<B>>) {
    forall i :: 0 <= i < |steps| ==> !steps[i].StartRequeue?
  }

  ghost predicate NoneHeld<B>(s: State<B>) {
    s.dlq == map[] && forall t :: t in s.tasks ==> !s.tasks[t].RequeueHeld?
  }

  lemma StepHoldsNone<B>(s: State<B>, step: Step<B>, k: QKey)
    requires NoneHeld(s) && Enabled(s, step) && !step.StartRequeue?
    ensures NoneHeld(Next(s, step)) && !Careless(s, step, k)
  {
  }

  lemma {:induction false} NoRequeueIsCareful<B>(s: State<B>, steps: seq<Step<B>>, k: QKey)
    requires NoneHeld(s) && NoRequeue(steps) && Run(s, steps).Some?
    ensures Careful(s, steps, k) && NoneHeld(Run(s, steps).value)
    decreases |steps|
  {
    hide NoneHeld, Next, Enabled, Careless;
    if steps != [] {
      StepHoldsNone(s, steps[0], k);
      NoRequeueIsCareful(Next(s, steps[0]), steps[1..], k);
    }
  }

  /** Then every message sent and not yet acknowledged is still queued or in processing, with the
      body it was sent with. */
  lemma NothingIsLost<B>(s: State<B>, steps: seq<Step<B>>, k: QKey)
    requires Fresh(s) && NoRequeue(steps) && Run(s, steps).Some?
    requires var end := Run(s, steps).value; k in end.sent && k !in end.done
    ensures var end := Run(s, steps).value;
      && (k in end.queued || k in end.processing)
      && (k in end.queued ==> end.queued[k] == end.sent[k])
      && (k in end.processing ==> end.processing[k] == end.sent[k])
  {
    hide Run, Enabled, Next, Careful;
    NoRequeueIsCareful(s, steps, k);
    CarefulRunKeeps(s, steps, k);
  }

  // ----- The steps by which a message is gone -----

  /** The message has been put back into the queue behind the poll's back. */
  ghost predicate DeletesRequeued<B>(s: State<B>, step: Step<B>, k: QKey)
    requires Enabled(s, step)
  {
    step.DeletePoll? && k in s.tasks[step.t].ms &&
    k !in s.processing && k !in s.dlq && k !in s.done && !InHand(s, k)
  }

  /** A requeue stops between its delete and its insert. */
  ghost predicate StopsWithIt<B>(s: State<B>, step: Step<B>, k: QKey)
    requires Enabled(s, step)
  {
    step.Stop? && s.tasks[step.t].RequeueHeld? && k in s.tasks[step.t].ms &&
    k !in s.queued && k !in s.processing && k !in s.dlq && k !in s.done &&
    forall t :: t in s.tasks && t != step.t && s.tasks[t].RequeueHeld? ==> k !in s.tasks[t].ms
  }

  /** In whatever state, a step loses a message exactly if it is one of the two. */
  lemma StepLosesIff<B>(s: State<B>, step: Step<B>, k: QKey)
    requires Enabled(s, step) && Kept(s, k)
    ensures !Kept(Next(s, step), k) <==> DeletesRequeued(s, step, k) || StopsWithIt(s, step, k)
  {
    var s' := Next(s, step);
    match step {
      case Stop(t) => StopLosesIff(s, t, k);
      case DeletePoll(t) => DeleteLosesIff(s, t, k);
      case StartRequeue(t, ks) =>
        if k in s.processing && k in ks {
          assert s'.tasks[t].RequeueHeld? && k in s'.tasks[t].ms;
        }
        StillInHand(s, s', k, t);
      case InsertRequeue(t, dead, drop) =>
        if InHand(s, k) {
          var u :| u in s.tasks && s.tasks[u].RequeueHeld? && k in s.tasks[u].ms;
          assert u != t ==> u in s'.tasks && s'.tasks[u] == s.tasks[u];
        }
      case Send(_, _) => assert s'.tasks == s.tasks;
      case Ack(_) => assert s'.tasks == s.tasks;
      case StartPoll(t, _) => StillInHand(s, s', k, t);
      case WritePoll(t) => StillInHand(s, s', k, t);
      case StartRenew(t, _) => StillInHand(s, s', k, t);
      case WriteRenew(t) => StillInHand(s, s', k, t);
    }
  }

  /** Steps of another task leave a requeue's hands alone. */
  lemma StillInHand<B>(s: State<B>, s': State<B>, k: QKey, t: nat)
    requires forall u :: u in s.tasks && u != t ==> u in s'.tasks && s'.tasks[u] == s.tasks[u]
    requires t in s.tasks ==> !s.tasks[t].RequeueHeld?
    ensures InHand(s, k) ==> InHand(s', k)
  {
  }

  lemma DeleteLosesIff<B>(s: State<B>, t: nat, k: QKey)
    requires Enabled(s, DeletePoll(t)) && Kept(s, k)
    ensures !Kept(Next(s, DeletePoll(t)), k) <==> DeletesRequeued(s, DeletePoll(t), k)
  {
    var s' := Next(s, DeletePoll(t));
    StillInHand(s, s', k, t);
    if InHand(s', k) {
      var u :| u in s'.tasks && s'.tasks[u].RequeueHeld? && k in s'.tasks[u].ms;
      assert u in s.tasks;
    }
  }

  lemma StopLosesIff<B>(s: State<B>, t: nat, k: QKey)
    requires Enabled(s, Stop(t)) && Kept(s, k)
    ensures !Kept(Next(s, Stop(t)), k) <==> StopsWithIt(s, Stop(t), k)
  {
    var s' := Next(s, Stop(t));
    if u :| u in s.tasks && u != t && s.tasks[u].RequeueHeld? && k in s.tasks[u].ms {
      assert s'.tasks[u] == s.tasks[u];
    } else {
      assert !InHand(s', k) by {
        assert forall u :: u in s'.tasks ==> u in s.tasks && u != t && s'.tasks[u] == s.tasks[u];
      }
    }
  }

  /** A stop that leaves the message somewhere is harmless ever after. */
  lemma StopIsFatalIff<B(!new)>(s: State<B>, t: nat, k: QKey)
    requires Inv(s, k) && k in s.sent && Enabled(s, Stop(t))
    ensures CanGetLost(Next(s, Stop(t)), k) <==> StopsWithIt(s, Stop(t), k)
  {
    hide CanGetLost;
    StopLosesIff(s, t, k);
    var s' := Next(s, Stop(t));
    if Kept(s', k) {
      assert Polled(s', k) ==> Polled(s, k) by {
        if Polled(s', k) {
          PolledBefore(s, Stop(t), k);
        }
      }
      InvIsSafe(s', k);
    } else {
      LostNow(s', k);
    }
  }

  function SlowPoll<B>(k: QKey, body: B): seq<Step<B>> {
    [Send(k, body), StartPoll(0, {k}), WritePoll(0), StartRequeue(1, {k}), InsertRequeue(1, {}, false), DeletePoll(0)]
  }

  function StoppedRequeue<B>(k: QKey, body: B): seq<Step<B>> {
    [Send(k, body), StartPoll(0, {k}), WritePoll(0), DeletePoll(0), StartRequeue(1, {k}), Stop(1)]
  }

  /** One message, sent and polled, with its row not yet deleted from the queue. */
  function PolledOnce<B>(k: QKey, body: B): State<B> {
    State(map[k := body], map[k := body], map[], map[k := body], {}, map[0 := PollWritten(map[k := body])])
  }

  /** Both happen: a slow poll deletes what was requeued meanwhile, and an interrupted requeue
      takes its messages with it. */
  lemma RequeueCanLose<B>(start: State<B>, k: QKey, body: B)
    requires Fresh(start)
    ensures var end := Run(start, SlowPoll(k, body)); end.Some? && k in end.value.sent && !Kept(end.value, k)
    ensures var end := Run(start, StoppedRequeue(k, body)); end.Some? && k in end.value.sent && !Kept(end.value, k)
  {
    var steps := SlowPoll(k, body);
    var s1 := Next(start, steps[0]);
    var s2 := Next(s1, steps[1]);
    var s3 := Next(s2, steps[2]);
    var polled := PolledOnce(k, body);
    assert Pick(s1.queued, {k}) == map[k := body];
    assert s2.tasks[0] == PollRead(map[k := body]);
    assert s3.processing == map[k := body] && s3.tasks == map[0 := PollWritten(map[k := body])];
    assert s3 == polled;
    RunThree(start, steps);
    SlowPollLoses(polled, steps[3..], k, body);
    var steps' := StoppedRequeue(k, body);
    assert steps'[0] == steps[0] && steps'[1] == steps[1] && steps'[2] == steps[2];
    RunThree(start, steps');
    StoppedRequeueLoses(polled, steps'[3..], k, body);
  }

  lemma RunThree<B>(s: State<B>, steps: seq<Step<B>>)
    requires |steps| >= 3 && Enabled(s, steps[0]) && Enabled(Next(s, steps[0]), steps[1])
    requires Enabled(Next(Next(s, steps[0]), steps[1]), steps[2])
    ensures Run(s, steps) == Run(Next(Next(Next(s, steps[0]), steps[1]), steps[2]), steps[3..])
  {
    hide Enabled, Next;
    var s1 := Next(s, steps[0]);
    var s2 := Next(s1, steps[1]);
    assert Run(s, steps) == Run(s1, steps[1..]);
    assert steps[1..][0] == steps[1] && steps[1..][1..] == steps[2..];
    assert Run(s1, steps[1..]) == Run(s2, steps[2..]);
    assert steps[2..][0] == steps[2] && steps[2..][1..] == steps[3..];
  }

  lemma SlowPollLoses<B>(s: State<B>, steps: seq<Step<B>>, k: QKey, body: B)
    requires s == PolledOnce(k, body)
    requires steps == [StartRequeue(1, {k}), InsertRequeue(1, {}, false), DeletePoll(0)]
    ensures Run(s, steps).Some? && k in Run(s, steps).value.sent && !Kept(Run(s, steps).value, k)
  {
    var s1 := Next(s, steps[0]);
    var s2 := Next(s1, steps[1]);
    var s3 := Next(s2, steps[2]);
    RunThree(s, steps);
    assert steps[3..] == [] && s3.tasks == map[];
  }

  lemma StoppedRequeueLoses<B>(s: State<B>, steps: seq<Step<B>>, k: QKey, body: B)
    requires s == PolledOnce(k, body)
    requires steps == [DeletePoll(0), StartRequeue(1, {k}), Stop(1)]
    ensures Run(s, steps).Some? && k in Run(s, steps).value.sent && !Kept(Run(s, steps).value, k)
  {
    var s1 := Next(s, steps[0]);
    var s2 := Next(s1, steps[1]);
    var s3 := Next(s2, steps[2]);
    RunThree(s, steps);
    assert steps[3..] == [] && s3.tasks == map[];
  }
}
