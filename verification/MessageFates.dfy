/** What becomes of a single message, told without any rows: the life of a message under the
    operations of `client/data/mq.datastore.ts`, and the proof that the store follows it. */
module MessageFates {
  import opened KeyCodec
  import opened KvStores
  import opened MessageIds
  import opened MessageQueue
  import opened Options

  /** A message waits in its queue after so many time-outs, is leased since a point in time, or has
      been given up, acknowledged or dropped. */
  datatype Fate = Unsent | Queued(timeouts: nat) | Leased(since: int, timeouts: nat)
                | DeadLettered(at: int) | Acknowledged | Dropped

  predicate Named(k: QKey, queue: Str, ids: seq<Str>) {
    k.queue == queue && k.id in ids
  }

  /** A send numbers its messages on from `seq_`. */
  ghost predicate SentAs<B>(k: QKey, op: Op<B>, seq_: nat)
    requires op.Send? && |op.clocks| == |op.bodies|
  {
    k.queue == op.queue && exists i :: 0 <= i < |op.bodies| && k.id == MessageId(op.clocks[i], seq_ + 1 + i)
  }

  /** One operation in the life of the message `k`. A lease runs out when it began before the
      deadline; the time-out that is one too many ends the message. */
  ghost function After<B>(fate: Fate, op: Op<B>, seq_: nat, k: QKey, maxRetries: nat): Fate
    requires op.Send? ==> |op.clocks| == |op.bodies|
  {
    match op
    case Send(_, _, _) => if SentAs(k, op, seq_) then Queued(0) else fate
    case Poll(queue, ids, now) =>
      if fate.Queued? && Named(k, queue, ids) then Leased(now, fate.timeouts) else fate
    case Ack(queue, ids) =>
      if fate.Leased? && Named(k, queue, ids) then Acknowledged else fate
    case Renew(queue, ids, now) =>
      if fate.Leased? && Named(k, queue, ids) then Leased(now, fate.timeouts) else fate
    case RequeueTimeouts(deadline, disableDLQ, now) =>
      if !fate.Leased? || deadline <= fate.since then fate
      else if maxRetries == 0 || fate.timeouts < maxRetries then Queued(fate.timeouts + 1)
      else if disableDLQ then Dropped
      else DeadLettered(now)
  }

  function Sends<B>(ops: seq<Op<B>>): nat {
    if ops == [] then 0
    else Sends(ops[..|ops| - 1]) + if ops[|ops| - 1].Send? then |ops[|ops| - 1].bodies| else 0
  }

  ghost function FateOf<B>(ops: seq<Op<B>>, k: QKey, maxRetries: nat): Fate
    requires forall i :: 0 <= i < |ops| && ops[i].Send? ==> |ops[i].clocks| == |ops[i].bodies|
  {
    if ops == [] then Unsent
    else
      var before := ops[..|ops| - 1];
      After(FateOf(before, k, maxRetries), ops[|ops| - 1], Sends(before), k, maxRetries)
  }

  /** What the rows say of a message. */
  ghost predicate RowsSay<B>(l: Log<B>, k: QKey, fate: Fate) {
    match fate
    case Unsent => Places(l, k) == 0
    case Queued(n) => k in l.s.queued && l.s.queued[k].retries == n
    case Leased(since, n) =>
      k in l.s.processing && l.s.processing[k].ts == Some(since) && l.s.processing[k].retries == n
    case DeadLettered(at) => k in l.s.dlq && l.s.dlq[k].ts == Some(at)
    case Acknowledged => k in l.acked
    case Dropped => k in l.dropped
  }

  lemma PollFollows<B>(l: Log<B>, queue: Str, ids: seq<Str>, now: int, k: QKey, maxRetries: nat, fate: Fate)
    requires KeyOk(l, k, maxRetries) && RowsSay(l, k, fate)
    ensures var op := Poll(queue, ids, now);
      RowsSay(Next(l, op, maxRetries), k, After(fate, op, l.seq_, k, maxRetries))
  {
    KeyNamed(k, queue, ids);
  }

  lemma KeyNamed(k: QKey, queue: Str, ids: seq<Str>)
    ensures k in Keys(queue, ids) <==> Named(k, queue, ids)
  {
    if Named(k, queue, ids) {
      assert k == QKey(queue, k.id);
    }
  }

  lemma AckFollows<B>(l: Log<B>, queue: Str, ids: seq<Str>, k: QKey, maxRetries: nat, fate: Fate)
    requires KeyOk(l, k, maxRetries) && RowsSay(l, k, fate)
    ensures var op := Op.Ack(queue, ids);
      RowsSay(Next(l, op, maxRetries), k, After(fate, op, l.seq_, k, maxRetries))
  {
    KeyNamed(k, queue, ids);
  }

  lemma RenewFollows<B>(l: Log<B>, queue: Str, ids: seq<Str>, now: int, k: QKey, maxRetries: nat, fate: Fate)
    requires KeyOk(l, k, maxRetries) && RowsSay(l, k, fate)
    ensures var op := Renew(queue, ids, now);
      RowsSay(Next(l, op, maxRetries), k, After(fate, op, l.seq_, k, maxRetries))
  {
    KeyNamed(k, queue, ids);
  }

  lemma RequeueFollows<B>(l: Log<B>, deadline: int, off: bool, now: int, k: QKey, maxRetries: nat, fate: Fate)
    requires KeyOk(l, k, maxRetries) && RowsSay(l, k, fate)
    ensures var op := RequeueTimeouts(deadline, off, now);
      RowsSay(Next(l, op, maxRetries), k, After(fate, op, l.seq_, k, maxRetries))
  {
  }

  lemma SendFollows<B>(l: Log<B>, queue: Str, bodies: seq<B>, clocks: seq<nat>, k: QKey, maxRetries: nat, fate: Fate)
    requires Inv(l, maxRetries) && RowsSay(l, k, fate) && |clocks| == |bodies|
    ensures var op := Send(queue, bodies, clocks);
      RowsSay(Next(l, op, maxRetries), k, After(fate, op, l.seq_, k, maxRetries))
  {
    hide PutMessages, SentBodies, GivenOut, Distinct, MessageId, KeyOk;
    var ms := NewMessages(queue, bodies, clocks, l.seq_);
    SentGivenOut(l, maxRetries);
    NewKeys(l, queue, bodies, clocks);
    PutMessagesKeys(l.s.queued, ms);
    var op := Send(queue, bodies, clocks);
    assert SentAs(k, op, l.seq_) <==> k in SentBodies(ms) by {
      SentAsIff(l.seq_, queue, bodies, clocks, k);
    }
    if k in SentBodies(ms) {
      var i :| 0 <= i < |ms| && KeyOf(ms[i]) == k;
      PutMessagesRow(l.s.queued, ms, i);
    }
  }

  lemma SentAsIff<B>(seq_: nat, queue: Str, bodies: seq<B>, clocks: seq<nat>, k: QKey)
    requires |clocks| == |bodies|
    ensures SentAs(k, Send(queue, bodies, clocks), seq_) <==> k in SentBodies(NewMessages(queue, bodies, clocks, seq_))
  {
    hide SentBodies, MessageId;
    var ms := NewMessages(queue, bodies, clocks, seq_);
    if i :| 0 <= i < |ms| && KeyOf(ms[i]) == k {
      assert k.id == MessageId(clocks[i], seq_ + 1 + i);
    }
    if SentAs(k, Send(queue, bodies, clocks), seq_) {
      var i :| 0 <= i < |bodies| && k.id == MessageId(clocks[i], seq_ + 1 + i);
      assert KeyOf(ms[i]) == k;
    }
  }

  lemma StepFollows<B>(l: Log<B>, op: Op<B>, k: QKey, maxRetries: nat, fate: Fate)
    requires Inv(l, maxRetries) && RowsSay(l, k, fate) && (op.Send? ==> |op.clocks| == |op.bodies|)
    ensures RowsSay(Next(l, op, maxRetries), k, After(fate, op, l.seq_, k, maxRetries))
  {
    hide Next, KeyOk, RowsSay, After;
    assert KeyOk(l, k, maxRetries);
    match op
    case Send(queue, bodies, clocks) => SendFollows(l, queue, bodies, clocks, k, maxRetries, fate);
    case Poll(queue, ids, now) => PollFollows(l, queue, ids, now, k, maxRetries, fate);
    case Ack(queue, ids) => AckFollows(l, queue, ids, k, maxRetries, fate);
    case Renew(queue, ids, now) => RenewFollows(l, queue, ids, now, k, maxRetries, fate);
    case RequeueTimeouts(deadline, off, now) => RequeueFollows(l, deadline, off, now, k, maxRetries, fate);
  }

  ghost function Nothing<B>(): Log<B> {
    Log(Store(map[], map[], map[]), 0, map[], {}, {}, map[])
  }

  lemma {:induction false} SeqIsSends<B>(ops: seq<Op<B>>, maxRetries: nat)
    requires forall i :: 0 <= i < |ops| && ops[i].Send? ==> |ops[i].clocks| == |ops[i].bodies|
    ensures Run(Nothing(), ops, maxRetries).seq_ == Sends(ops)
    decreases |ops|
  {
    if ops != [] {
      SeqIsSends(ops[..|ops| - 1], maxRetries);
    }
  }

  /** The main result: over every run from nothing, every message is where its own life puts it, with
      the time of its lease and the number of its time-outs. */
  lemma {:induction false} RunFollowsFates<B>(ops: seq<Op<B>>, k: QKey, maxRetries: nat)
    requires forall i :: 0 <= i < |ops| && ops[i].Send? ==> |ops[i].clocks| == |ops[i].bodies|
    ensures RowsSay(Run(Nothing(), ops, maxRetries), k, FateOf(ops, k, maxRetries))
    decreases |ops|
  {
    hide Inv, Next, After, RowsSay;
    NothingSentIsFine<B>(maxRetries);
    if ops == [] {
      NothingSaid<B>(k);
    } else {
      var before := ops[..|ops| - 1];
      RunFollowsFates(before, k, maxRetries);
      RunKeepsInv(Nothing(), before, maxRetries);
      SeqIsSends(before, maxRetries);
      StepFollows(Run(Nothing(), before, maxRetries), ops[|ops| - 1], k, maxRetries, FateOf(before, k, maxRetries));
    }
  }

  lemma NothingSaid<B>(k: QKey)
    ensures RowsSay(Nothing<B>(), k, Unsent)
  {
  }

  /** In one call: a polled message is still in processing after the time-outs have been requeued,
      exactly if its lease began, or was last renewed, no longer ago than the timeout. */
  lemma StaysLeasedIff<B>(s: Store<B>, queue: Str, ids: seq<Str>, t: int, renewed: seq<Str>, r: int, id: Str,
                          now: int, timeout: int, maxRetries: nat, disableDLQ: bool)
    requires QKey(queue, id) in s.queued && id in ids
    ensures var k, leased := QKey(queue, id), AfterRenew(AfterPoll(s, queue, ids, t), queue, renewed, r);
      k in AfterRequeue(leased, now - timeout, maxRetries, disableDLQ, now).processing <==>
        now - timeout <= if id in renewed then r else t
  {
    var k := QKey(queue, id);
    KeyNamed(k, queue, ids);
    KeyNamed(k, queue, renewed);
  }
}
