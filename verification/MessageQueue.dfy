/** The message queue, whole operations as steps: `client/data/mq.datastore.ts`. */
module MessageQueue {
  import opened KeyCodec
  import opened KvStores
  import opened MessageIds
  import opened Options

  /** A row key below `["mq", "queued"]`, `["mq", "processing"]` or `["mq", "dlq"]`. */
  datatype QKey = QKey(queue: Str, id: Str)

  /** `retries` is 0 where the source has none yet. */
  datatype Message<+B> = Message(queue: Str, id: Str, body: B, retries: nat, ts: Option<int>)

  datatype Store<+B> = Store(queued: map<QKey, Message<B>>,
                             processing: map<QKey, Message<B>>,
                             dlq: map<QKey, Message<B>>)

  function KeyOf<B>(m: Message<B>): QKey { QKey(m.queue, m.id) }

  // ----- What each operation does to the rows -----

  /** The messages of a batch; `seq_` numbers have been given out before. */
  function NewMessages<B>(queue: Str, bodies: seq<B>, clocks: seq<nat>, seq_: nat): (ms: seq<Message<B>>)
    requires |clocks| == |bodies|
    ensures |ms| == |bodies|
    ensures forall i :: 0 <= i < |ms| ==>
      ms[i] == Message(queue, MessageId(clocks[i], seq_ + i + 1), bodies[i], 0, None)
  {
    seq(|bodies|, i requires 0 <= i < |bodies| =>
      Message(queue, MessageId(clocks[i], seq_ + i + 1), bodies[i], 0, None))
  }

  function PutMessages<B>(rows: map<QKey, Message<B>>, ms: seq<Message<B>>): map<QKey, Message<B>> {
    if ms == [] then rows
    else PutMessages(rows, ms[..|ms| - 1])[KeyOf(ms[|ms| - 1]) := ms[|ms| - 1]]
  }

  ghost function Keys(queue: Str, ids: seq<Str>): set<QKey> {
    set id | id in ids :: QKey(queue, id)
  }

  /** Polled messages move to processing, with the time they were taken. */
  ghost function AfterPoll<B>(s: Store<B>, queue: Str, ids: seq<Str>, now: int): Store<B> {
    var taken := Keys(queue, ids) * s.queued.Keys;
    s.(queued := s.queued - taken,
       processing := s.processing + map k | k in taken :: s.queued[k].(ts := Some(now)))
  }

  ghost function AfterAck<B>(s: Store<B>, queue: Str, ids: seq<Str>): Store<B> {
    s.(processing := s.processing - Keys(queue, ids))
  }

  ghost function AfterRenew<B>(s: Store<B>, queue: Str, ids: seq<Str>, now: int): Store<B> {
    s.(processing := s.processing +
         map k | k in Keys(queue, ids) * s.processing.Keys :: s.processing[k].(ts := Some(now)))
  }

  predicate Expired<B>(m: Message<B>, deadline: int) {
    m.ts.Some? && m.ts.value < deadline
  }

  /** `maxRetries` 0 stands for none given. */
  predicate Exceeds<B>(m: Message<B>, maxRetries: nat) {
    maxRetries > 0 && m.retries + 1 > maxRetries
  }

  ghost function ExpiredKeys<B>(s: Store<B>, deadline: int): set<QKey> {
    set k | k in s.processing && Expired(s.processing[k], deadline)
  }

  ghost function AfterRequeue<B>(s: Store<B>, deadline: int, maxRetries: nat, disableDLQ: bool, now: int): Store<B> {
    var expired := ExpiredKeys(s, deadline);
    Store(s.queued + Requeued(s.processing, expired, maxRetries),
          s.processing - expired,
          s.dlq + if disableDLQ then map[] else Dead(s.processing, expired, maxRetries, now))
  }

  ghost function Requeued<B>(rows: map<QKey, Message<B>>, ks: set<QKey>, maxRetries: nat): map<QKey, Message<B>>
    requires ks <= rows.Keys
  {
    map k | k in ks && !Exceeds(rows[k], maxRetries) :: rows[k].(retries := rows[k].retries + 1)
  }

  ghost function Dead<B>(rows: map<QKey, Message<B>>, ks: set<QKey>, maxRetries: nat, now: int): map<QKey, Message<B>>
    requires ks <= rows.Keys
  {
    map k | k in ks && Exceeds(rows[k], maxRetries) :: rows[k].(retries := rows[k].retries + 1, ts := Some(now))
  }

  /** One more message looked at. */
  lemma RequeuedStep<B>(rows: map<QKey, Message<B>>, ks: set<QKey>, k: QKey, maxRetries: nat, now: int)
    requires ks <= rows.Keys && k in rows
    ensures var m := rows[k];
      && Requeued(rows, ks + {k}, maxRetries) ==
         (if Exceeds(m, maxRetries) then Requeued(rows, ks, maxRetries)
          else Requeued(rows, ks, maxRetries)[k := m.(retries := m.retries + 1)])
      && Dead(rows, ks + {k}, maxRetries, now) ==
         (if Exceeds(m, maxRetries)
          then Dead(rows, ks, maxRetries, now)[k := m.(retries := m.retries + 1, ts := Some(now))]
          else Dead(rows, ks, maxRetries, now))
  {
  }

  // ----- What a poll takes: the oldest messages of its queue -----

  ghost predicate IsBatch<B>(ids: seq<Str>, queued: map<QKey, Message<B>>, queue: Str, maxItems: int) {
    var most := if maxItems < 1 then 1 else maxItems;
    && |ids| <= most
    && (forall i :: 0 <= i < |ids| ==> QKey(queue, ids[i]) in queued)
    && (forall i, j :: 0 <= i < j < |ids| ==> LexLt(ids[i], ids[j]))
    && (forall id :: QKey(queue, id) in queued && id !in ids ==>
          |ids| == most && forall i :: 0 <= i < |ids| ==> LexLt(ids[i], id))
  }

  /** In id order, which is send order (see `MessageIds.LaterIdUpToMillion`): a polled message
      never leaves an older one of its queue behind. */
  lemma PollTakesOldestFirst<B>(ids: seq<Str>, queued: map<QKey, Message<B>>, queue: Str, maxItems: int,
                                now: nat, n: nat, now': nat, n': nat)
    requires IsBatch(ids, queued, queue, maxItems)
    requires now <= now' && |Digits(now)| == |Digits(now')| && n < n' <= 999999
    requires QKey(queue, MessageId(now, n)) in queued && MessageId(now', n') in ids
    ensures exists i, j :: 0 <= i < j < |ids| && ids[i] == MessageId(now, n) && ids[j] == MessageId(now', n')
  {
    hide LexLe, MessageId, Digits;
    var a, b := MessageId(now, n), MessageId(now', n');
    LaterIdUpToMillion(now, n, now', n');
    LexOrder(a, b, a);
    var j :| 0 <= j < |ids| && ids[j] == b;
    assert a in ids;
    var i :| 0 <= i < |ids| && ids[i] == a;
  }

  /** The queued messages of a queue. */
  ghost function QueuedIds<B>(queued: map<QKey, Message<B>>, queue: Str): set<Str> {
    set k | k in queued && k.queue == queue :: k.id
  }

  lemma {:induction false} AsManyAsIds(ids: seq<Str>)
    requires forall i, j :: 0 <= i < j < |ids| ==> ids[i] != ids[j]
    ensures |set id | id in ids| == |ids|
    decreases |ids|
  {
    if ids != [] {
      var front, last := ids[..|ids| - 1], ids[|ids| - 1];
      AsManyAsIds(front);
      assert (set id | id in ids) == (set id | id in front) + {last};
    }
  }

  /** A poll takes as many messages as it may, and one at least, if there are so many. */
  lemma PollTakesAsManyAsItMay<B>(ids: seq<Str>, queued: map<QKey, Message<B>>, queue: Str, maxItems: int)
    requires IsBatch(ids, queued, queue, maxItems)
    ensures var there := |QueuedIds(queued, queue)|;
      |ids| == if there <= maxItems then there else if maxItems >= 1 then maxItems else if there == 0 then 0 else 1
  {
    hide LexLe;
    AsManyAsIds(ids);
    var taken := set id | id in ids;
    var there := QueuedIds(queued, queue);
    forall id | id in taken
      ensures id in there
    {
      assert QKey(queue, id) in queued;
    }
    Subset(taken, there);
    if id :| id in there && id !in taken {
      assert QKey(queue, id) in queued;
    } else {
      assert taken == there;
    }
  }

  lemma Subset(a: set<Str>, b: set<Str>)
    requires a <= b
    ensures |a| <= |b| && (a != b ==> |a| < |b|)
  {
    assert b == a + (b - a);
  }

  // ----- Where every message is -----

  /** The rows and what has become of all messages ever sent. `requeues` counts how often a
      message went back to its queue. */
  datatype Log<+B> = Log(s: Store<B>, seq_: nat, sent: map<QKey, B>, acked: set<QKey>, dropped: set<QKey>,
                         requeues: map<QKey, nat>)

  datatype Op<+B> = Send(queue: Str, bodies: seq<B>, clocks: seq<nat>)
                  | Poll(queue: Str, ids: seq<Str>, now: int)
                  | Ack(queue: Str, ids: seq<Str>)
                  | Renew(queue: Str, ids: seq<Str>, now: int)
                  | RequeueTimeouts(deadline: int, disableDLQ: bool, now: int)

  function SentBodies<B>(ms: seq<Message<B>>): (sent: map<QKey, B>)
    ensures forall k :: k in sent <==> exists i :: 0 <= i < |ms| && KeyOf(ms[i]) == k
  {
    if ms == [] then map[] else SentBodies(ms[..|ms| - 1])[KeyOf(ms[|ms| - 1]) := ms[|ms| - 1].body]
  }

  ghost function Next<B>(l: Log<B>, op: Op<B>, maxRetries: nat): Log<B>
    requires op.Send? ==> |op.clocks| == |op.bodies|
  {
    match op
    case Send(queue, bodies, clocks) =>
      var ms := NewMessages(queue, bodies, clocks, l.seq_);
      l.(s := l.s.(queued := PutMessages(l.s.queued, ms)), seq_ := l.seq_ + |bodies|,
         sent := l.sent + SentBodies(ms), requeues := l.requeues + map k | k in SentBodies(ms) :: 0)
    case Poll(queue, ids, now) => l.(s := AfterPoll(l.s, queue, ids, now))
    case Ack(queue, ids) =>
      l.(s := AfterAck(l.s, queue, ids), acked := l.acked + Keys(queue, ids) * l.s.processing.Keys)
    case Renew(queue, ids, now) => l.(s := AfterRenew(l.s, queue, ids, now))
    case RequeueTimeouts(deadline, disableDLQ, now) =>
      var expired := ExpiredKeys(l.s, deadline);
      var over := set k | k in expired && Exceeds(l.s.processing[k], maxRetries);
      l.(s := AfterRequeue(l.s, deadline, maxRetries, disableDLQ, now),
         dropped := l.dropped + if disableDLQ then over else {},
         requeues := l.requeues + map k | k in (expired - over) * l.requeues.Keys :: l.requeues[k] + 1)
  }

  ghost predicate GivenOut(id: Str, seq_: nat) {
    exists now: nat, n: nat :: n <= seq_ && id == MessageId(now, n)
  }

  function One(b: bool): nat { if b then 1 else 0 }

  /** In how many places a message is. */
  function Places<B>(l: Log<B>, k: QKey): nat {
    One(k in l.s.queued) + One(k in l.s.processing) + One(k in l.s.dlq) + One(k in l.acked) + One(k in l.dropped)
  }

  /** A row holds its message unchanged, and its retries count its requeues. */
  ghost predicate RowOk<B>(l: Log<B>, k: QKey, m: Message<B>) {
    KeyOf(m) == k && k in l.sent && m.body == l.sent[k] && k in l.requeues && m.retries == l.requeues[k]
  }

  ghost predicate DeadOk<B>(l: Log<B>, k: QKey, m: Message<B>, maxRetries: nat) {
    KeyOf(m) == k && k in l.sent && m.body == l.sent[k] && m.retries == maxRetries + 1
  }

  /** A message that was sent is in exactly one place, any other in none. */
  ghost predicate KeyOk<B>(l: Log<B>, k: QKey, maxRetries: nat) {
    && Places(l, k) == One(k in l.sent)
    && (k in l.requeues <==> k in l.sent)
    && (k in l.s.queued ==> RowOk(l, k, l.s.queued[k]))
    && (k in l.s.processing ==> RowOk(l, k, l.s.processing[k]) && l.s.processing[k].ts.Some?)
    && (k in l.s.dlq ==> DeadOk(l, k, l.s.dlq[k], maxRetries))
    && (k in l.requeues && maxRetries > 0 ==> l.requeues[k] <= maxRetries)
    && (k in l.sent ==> GivenOut(k.id, l.seq_))
  }

  ghost predicate Inv<B>(l: Log<B>, maxRetries: nat) {
    forall k: QKey :: KeyOk(l, k, maxRetries)
  }

  ghost predicate Distinct<B>(ms: seq<Message<B>>) {
    forall i, j :: 0 <= i < j < |ms| ==> KeyOf(ms[i]) != KeyOf(ms[j])
  }

  lemma {:induction false} PutMessagesKeys<B>(rows: map<QKey, Message<B>>, ms: seq<Message<B>>)
    ensures PutMessages(rows, ms).Keys == rows.Keys + SentBodies(ms).Keys
    ensures forall k :: k in rows && k !in SentBodies(ms) ==> PutMessages(rows, ms)[k] == rows[k]
    decreases |ms|
  {
    hide KeyOf;
    if ms != [] {
      PutMessagesKeys(rows, ms[..|ms| - 1]);
    }
  }

  lemma {:induction false} PutMessagesRow<B>(rows: map<QKey, Message<B>>, ms: seq<Message<B>>, i: nat)
    requires Distinct(ms) && i < |ms|
    ensures Lookup(PutMessages(rows, ms), KeyOf(ms[i])) == Some(ms[i])
    ensures Lookup(SentBodies(ms), KeyOf(ms[i])) == Some(ms[i].body)
    decreases |ms|
  {
    hide KeyOf;
    if i < |ms| - 1 {
      PutMessagesRow(rows, ms[..|ms| - 1], i);
    }
  }

  /** New ids are new. */
  lemma NewKeys<B>(l: Log<B>, queue: Str, bodies: seq<B>, clocks: seq<nat>)
    requires |clocks| == |bodies| && forall k :: k in l.sent ==> GivenOut(k.id, l.seq_)
    ensures var ms := NewMessages(queue, bodies, clocks, l.seq_);
      && Distinct(ms)
      && (forall i :: 0 <= i < |ms| ==> KeyOf(ms[i]) !in l.sent && GivenOut(ms[i].id, l.seq_ + |bodies|))
  {
    hide MessageId;
    var ms := NewMessages(queue, bodies, clocks, l.seq_);
    forall i, j | 0 <= i < j < |ms|
      ensures KeyOf(ms[i]) != KeyOf(ms[j])
    {
      IdsAreUnique(clocks[i], l.seq_ + i + 1, clocks[j], l.seq_ + j + 1);
    }
    forall i | 0 <= i < |ms|
      ensures KeyOf(ms[i]) !in l.sent && GivenOut(ms[i].id, l.seq_ + |bodies|)
    {
      if KeyOf(ms[i]) in l.sent {
        var now: nat, n: nat :| n <= l.seq_ && ms[i].id == MessageId(now, n);
        IdsAreUnique(clocks[i], l.seq_ + i + 1, now, n);
      }
    }
  }

  lemma SentRow<B>(l: Log<B>, l': Log<B>, ms: seq<Message<B>>, k: QKey)
    requires Distinct(ms) && k in SentBodies(ms) && forall i :: 0 <= i < |ms| ==> ms[i].retries == 0
    requires l'.s.queued == PutMessages(l.s.queued, ms) && l'.sent == l.sent + SentBodies(ms)
    requires l'.requeues == l.requeues + map k | k in SentBodies(ms) :: 0
    ensures k in l'.s.queued && RowOk(l', k, l'.s.queued[k])
  {
    hide PutMessages, SentBodies;
    var i :| 0 <= i < |ms| && KeyOf(ms[i]) == k;
    PutMessagesRow(l.s.queued, ms, i);
  }

  lemma GivenOutLater(id: Str, n: nat, m: nat)
    requires GivenOut(id, n) && n <= m
    ensures GivenOut(id, m)
  {
  }

  /** The log after a send, told by its new rows only. */
  ghost predicate Sending<B>(l: Log<B>, l': Log<B>, ms: seq<Message<B>>) {
    && l'.s == l.s.(queued := PutMessages(l.s.queued, ms)) && l'.seq_ >= l.seq_
    && l'.sent == l.sent + SentBodies(ms) && l'.requeues == l.requeues + (map k | k in SentBodies(ms) :: 0)
    && l'.acked == l.acked && l'.dropped == l.dropped
  }

  lemma OldKeySent<B>(l: Log<B>, l': Log<B>, ms: seq<Message<B>>, maxRetries: nat, k: QKey)
    requires Sending(l, l', ms) && KeyOk(l, k, maxRetries) && k !in SentBodies(ms)
    ensures KeyOk(l', k, maxRetries)
  {
    hide PutMessages, SentBodies, GivenOut;
    PutMessagesKeys(l.s.queued, ms);
    if k in l.sent {
      GivenOutLater(k.id, l.seq_, l'.seq_);
    }
  }

  lemma NewKeySent<B>(l: Log<B>, l': Log<B>, ms: seq<Message<B>>, maxRetries: nat, k: QKey)
    requires Sending(l, l', ms) && KeyOk(l, k, maxRetries) && k in SentBodies(ms) && k !in l.sent
    requires Distinct(ms) && (forall i :: 0 <= i < |ms| ==> ms[i].retries == 0) && GivenOut(k.id, l'.seq_)
    ensures KeyOk(l', k, maxRetries)
  {
    hide PutMessages, SentBodies, GivenOut, Distinct, RowOk;
    PutMessagesKeys(l.s.queued, ms);
    SentRow(l, l', ms, k);
  }

  lemma SendIsSending<B>(l: Log<B>, queue: Str, bodies: seq<B>, clocks: seq<nat>, maxRetries: nat)
    requires |clocks| == |bodies|
    ensures var l' := Next(l, Send(queue, bodies, clocks), maxRetries);
      Sending(l, l', NewMessages(queue, bodies, clocks, l.seq_)) && l'.seq_ == l.seq_ + |bodies|
  {
  }

  lemma SendKeepsKey<B>(l: Log<B>, queue: Str, bodies: seq<B>, clocks: seq<nat>, maxRetries: nat, k: QKey)
    requires Inv(l, maxRetries) && |clocks| == |bodies|
    ensures KeyOk(Next(l, Send(queue, bodies, clocks), maxRetries), k, maxRetries)
  {
    hide MessageId, PutMessages, GivenOut, SentBodies, Distinct, KeyOk, Sending, Next, NewMessages;
    var ms := NewMessages(queue, bodies, clocks, l.seq_);
    var l' := Next(l, Send(queue, bodies, clocks), maxRetries);
    assert KeyOk(l, k, maxRetries);
    SentGivenOut(l, maxRetries);
    NewKeys(l, queue, bodies, clocks);
    SendIsSending(l, queue, bodies, clocks, maxRetries);
    if k in SentBodies(ms) {
      var i :| 0 <= i < |ms| && KeyOf(ms[i]) == k;
      NewKeySent(l, l', ms, maxRetries, k);
    } else {
      OldKeySent(l, l', ms, maxRetries, k);
    }
  }

  lemma SentGivenOut<B>(l: Log<B>, maxRetries: nat)
    requires Inv(l, maxRetries)
    ensures forall k :: k in l.sent ==> GivenOut(k.id, l.seq_)
  {
    hide GivenOut;
    forall k | k in l.sent
      ensures GivenOut(k.id, l.seq_)
    {
      assert KeyOk(l, k, maxRetries);
    }
  }

  lemma PollKeepsKey<B>(l: Log<B>, queue: Str, ids: seq<Str>, now: int, maxRetries: nat, k: QKey)
    requires KeyOk(l, k, maxRetries)
    ensures KeyOk(Next(l, Poll(queue, ids, now), maxRetries), k, maxRetries)
  {
  }

  lemma AckKeepsKey<B>(l: Log<B>, queue: Str, ids: seq<Str>, maxRetries: nat, k: QKey)
    requires KeyOk(l, k, maxRetries)
    ensures KeyOk(Next(l, Ack(queue, ids), maxRetries), k, maxRetries)
  {
  }

  lemma RenewKeepsKey<B>(l: Log<B>, queue: Str, ids: seq<Str>, now: int, maxRetries: nat, k: QKey)
    requires KeyOk(l, k, maxRetries)
    ensures KeyOk(Next(l, Renew(queue, ids, now), maxRetries), k, maxRetries)
  {
  }

  lemma RequeueKeepsKey<B>(l: Log<B>, deadline: int, disableDLQ: bool, now: int, maxRetries: nat, k: QKey)
    requires KeyOk(l, k, maxRetries)
    ensures KeyOk(Next(l, RequeueTimeouts(deadline, disableDLQ, now), maxRetries), k, maxRetries)
  {
  }

  lemma StepKeepsInv<B>(l: Log<B>, op: Op<B>, maxRetries: nat)
    requires Inv(l, maxRetries) && (op.Send? ==> |op.clocks| == |op.bodies|)
    ensures Inv(Next(l, op, maxRetries), maxRetries)
  {
    hide Next, KeyOk;
    forall k: QKey
      ensures KeyOk(Next(l, op, maxRetries), k, maxRetries)
    {
      match op
      case Send(queue, bodies, clocks) => SendKeepsKey(l, queue, bodies, clocks, maxRetries, k);
      case Poll(queue, ids, now) => PollKeepsKey(l, queue, ids, now, maxRetries, k);
      case Ack(queue, ids) => AckKeepsKey(l, queue, ids, maxRetries, k);
      case Renew(queue, ids, now) => RenewKeepsKey(l, queue, ids, now, maxRetries, k);
      case RequeueTimeouts(deadline, off, now) => RequeueKeepsKey(l, deadline, off, now, maxRetries, k);
    }
  }

  ghost function Run<B>(l: Log<B>, ops: seq<Op<B>>, maxRetries: nat): Log<B>
    requires forall i :: 0 <= i < |ops| && ops[i].Send? ==> |ops[i].clocks| == |ops[i].bodies|
  {
    if ops == [] then l else Next(Run(l, ops[..|ops| - 1], maxRetries), ops[|ops| - 1], maxRetries)
  }

  lemma NothingSentIsFine<B>(maxRetries: nat)
    ensures Inv<B>(Log(Store(map[], map[], map[]), 0, map[], {}, {}, map[]), maxRetries)
  {
  }

  /** In every run: each message sent is in exactly one of the queue, processing, the dead-letter
      queue, acknowledged or dropped; its body is the one sent; its retries count its requeues
      and stay within the limit, if there is one. */
  lemma {:induction false} RunKeepsInv<B>(l: Log<B>, ops: seq<Op<B>>, maxRetries: nat)
    requires Inv(l, maxRetries)
    requires forall i :: 0 <= i < |ops| && ops[i].Send? ==> |ops[i].clocks| == |ops[i].bodies|
    ensures Inv(Run(l, ops, maxRetries), maxRetries)
    decreases |ops|
  {
    hide Inv, Next;
    if ops != [] {
      RunKeepsInv(l, ops[..|ops| - 1], maxRetries);
      StepKeepsInv(Run(l, ops[..|ops| - 1], maxRetries), ops[|ops| - 1], maxRetries);
    }
  }

  // ----- The class -----

  ghost predicate IsRow<B>(m: Message<B>, queued: map<QKey, Message<B>>, queue: Str) {
    m.queue == queue && KeyOf(m) in queued && m == queued[KeyOf(m)]
  }

  /** The cursor has passed `ids`, in order, and has `todo` before it. */
  ghost predicate Scanned<B>(ids: seq<Str>, queued: map<QKey, Message<B>>, queue: Str, todo: set<Str>) {
    && (forall i :: 0 <= i < |ids| ==> QKey(queue, ids[i]) in queued)
    && (forall i, j :: 0 <= i < j < |ids| ==> LexLt(ids[i], ids[j]))
    && (forall id :: id in todo ==> QKey(queue, id) in queued && forall i :: 0 <= i < |ids| ==> LexLt(ids[i], id))
    && (forall id :: QKey(queue, id) in queued && id !in ids ==> id in todo)
  }

  lemma NothingScanned<B>(queued: map<QKey, Message<B>>, queue: Str, todo: set<Str>)
    requires todo == set k | k in queued && k.queue == queue :: k.id
    ensures Scanned([], queued, queue, todo)
  {
    forall id | QKey(queue, id) in queued
      ensures id in todo
    {
      assert QKey(queue, id).id == id;
    }
  }

  lemma ScannedIsBatch<B>(ids: seq<Str>, queued: map<QKey, Message<B>>, queue: Str, todo: set<Str>, maxItems: int)
    requires Scanned(ids, queued, queue, todo)
    requires |ids| <= if maxItems < 1 then 1 else maxItems
    requires todo != {} ==> |ids| > 0 && |ids| >= maxItems
    ensures IsBatch(ids, queued, queue, maxItems)
  {
    hide LexLt;
  }

  lemma ScanFurther<B>(ids: seq<Str>, queued: map<QKey, Message<B>>, queue: Str, todo: set<Str>, id: Str)
    requires Scanned(ids, queued, queue, todo) && id in todo && forall x :: x in todo ==> LexLe(id, x)
    ensures QKey(queue, id) in queued && Scanned(ids + [id], queued, queue, todo - {id})
  {
    hide LexLe;
  }

  lemma RowAt<B>(queued: map<QKey, Message<B>>, queue: Str, id: Str)
    requires QKey(queue, id) in queued && forall k :: k in queued ==> KeyOf(queued[k]) == k
    ensures IsRow(queued[QKey(queue, id)], queued, queue) && queued[QKey(queue, id)].id == id
  {
  }

  /** No worker list in the waiter map is empty. */
  ghost predicate NoEmptyLists<W>(waiters: map<Str, seq<W>>) {
    forall q :: q in waiters ==> waiters[q] != []
  }

  function Waiting<W>(waiters: map<Str, seq<W>>, queue: Str): seq<W> {
    if queue in waiters then waiters[queue] else []
  }

  /** Nothing but the given queue's list differs. */
  ghost predicate OnlyQueue<W>(before: map<Str, seq<W>>, after: map<Str, seq<W>>, queue: Str) {
    forall q :: q != queue ==> Waiting(after, q) == Waiting(before, q)
  }

  /** The position of a worker in a list, or the list's length. */
  function PositionOf<W(==)>(ws: seq<W>, w: W): (i: nat)
    ensures i <= |ws| && w !in ws[..i] && (i < |ws| ==> ws[i] == w)
  {
    if ws == [] || ws[0] == w then 0
    else
      var i := PositionOf(ws[1..], w);
      assert ws[..i + 1] == [ws[0]] + ws[1..][..i];
      i + 1
  }

  class DataStoreMQ<B, W(==)> {
    var queued: map<QKey, Message<B>>
    var processing: map<QKey, Message<B>>
    var dlq: map<QKey, Message<B>>
    var seq_: nat
    var queueWaiters: map<Str, seq<W>>

    ghost predicate Valid()
      reads this
    {
      && (forall k :: k in queued ==> KeyOf(queued[k]) == k)
      && (forall k :: k in processing ==> KeyOf(processing[k]) == k && processing[k].ts.Some?)
      && NoEmptyLists(queueWaiters)
    }

    ghost function Rows(): Store<B>
      reads this
    {
      Store(queued, processing, dlq)
    }

    constructor ()
      ensures Valid() && Rows() == Store(map[], map[], map[]) && seq_ == 0 && queueWaiters == map[]
    {
      queued, processing, dlq, seq_, queueWaiters := map[], map[], map[], 0, map[];
    }

    method QueueWorker(queue: Str, worker: W)
      requires Valid()
      modifies this`queueWaiters
      ensures Valid() && OnlyQueue(old(queueWaiters), queueWaiters, queue)
      ensures Waiting(queueWaiters, queue) == Waiting(old(queueWaiters), queue) + [worker]
    {
      queueWaiters := queueWaiters[queue := Waiting(queueWaiters, queue) + [worker]];
    }

    /** Wakes the worker that has waited longest, if any. */
    method WakeupWorker(queue: Str) returns (woken: Option<W>)
      requires Valid()
      modifies this`queueWaiters
      ensures Valid() && OnlyQueue(old(queueWaiters), queueWaiters, queue)
      ensures var before := Waiting(old(queueWaiters), queue);
        if before == [] then woken == None && Waiting(queueWaiters, queue) == []
        else woken == Some(before[0]) && Waiting(queueWaiters, queue) == before[1..]
    {
      woken := None;
      if queue in queueWaiters {
        var waiters := queueWaiters[queue];
        woken := Some(waiters[0]);
        queueWaiters := if |waiters| == 1 then queueWaiters - {queue} else queueWaiters[queue := waiters[1..]];
      }
    }

    method RemoveQueuedWorker(queue: Str, worker: W)
      requires Valid()
      modifies this`queueWaiters
      ensures Valid() && OnlyQueue(old(queueWaiters), queueWaiters, queue)
      ensures var before := Waiting(old(queueWaiters), queue); var i := PositionOf(before, worker);
        Waiting(queueWaiters, queue) == if i < |before| then before[..i] + before[i + 1..] else before
    {
      if queue in queueWaiters {
        var waiters := queueWaiters[queue];
        var index := PositionOf(waiters, worker);
        if index < |waiters| {
          waiters := waiters[..index] + waiters[index + 1..];
        }
        queueWaiters := if waiters == [] then queueWaiters - {queue} else queueWaiters[queue := waiters];
      }
    }

    method BatchSend(queue: Str, bodies: seq<B>, clocks: seq<nat>) returns (woken: Option<W>)
      requires Valid() && |clocks| == |bodies|
      modifies this
      ensures Valid() && seq_ == old(seq_) + |bodies|
      ensures Rows() == old(Rows()).(queued := PutMessages(old(queued), NewMessages(queue, bodies, clocks, old(seq_))))
      ensures woken == if bodies == [] || Waiting(old(queueWaiters), queue) == [] then None
                       else Some(Waiting(old(queueWaiters), queue)[0])
    {
      if bodies == [] {
        return None;
      }
      var messages: seq<Message<B>> := [];
      for i := 0 to |bodies|
        invariant seq_ == old(seq_) + i && unchanged(this`queued, this`processing, this`dlq, this`queueWaiters)
        invariant |messages| == i
        invariant forall j :: 0 <= j < i ==>
          messages[j] == Message(queue, MessageId(clocks[j], old(seq_) + j + 1), bodies[j], 0, None)
      {
        seq_ := seq_ + 1;
        messages := messages + [Message(queue, MessageId(clocks[i], seq_), bodies[i], 0, None)];
      }
      assert messages == NewMessages(queue, bodies, clocks, old(seq_));
      PutKeepsKeys(queued, messages);
      queued := PutMessages(queued, messages);
      woken := WakeupWorker(queue);
    }

    method Poll(queue: Str, maxItems: int, now: int) returns (messages: seq<Message<B>>)
      requires Valid()
      modifies this`queued, this`processing
      ensures Valid()
      ensures var ids := IdsOf(messages);
        && IsBatch(ids, old(queued), queue, maxItems)
        && (forall i :: 0 <= i < |ids| ==> messages[i] == old(queued)[QKey(queue, ids[i])])
        && Rows() == AfterPoll(old(Rows()), queue, ids, now)
    {
      messages := ScanQueue(queue, maxItems);
      ghost var ids := IdsOf(messages);
      var ks := set i | 0 <= i < |messages| :: KeyOf(messages[i]);
      KeysOfBatch(messages, queue, ids);
      assert ks == Keys(queue, ids) * queued.Keys;
      processing := processing + map k | k in ks :: queued[k].(ts := Some(now));
      queued := queued - ks;
    }

    /** The cursor walk of `poll`, which stops as soon as it has enough. */
    method ScanQueue(queue: Str, maxItems: int) returns (messages: seq<Message<B>>)
      requires Valid()
      ensures IsBatch(IdsOf(messages), queued, queue, maxItems)
      ensures forall i :: 0 <= i < |messages| ==> IsRow(messages[i], queued, queue)
    {
      hide LexLt, IsRow, Scanned, IsBatch;
      messages := [];
      ghost var ids: seq<Str> := [];
      var todo := set k | k in queued && k.queue == queue :: k.id;
      NothingScanned(queued, queue, todo);
      while todo != {}
        invariant ids == IdsOf(messages) && Scanned(ids, queued, queue, todo)
        invariant forall i :: 0 <= i < |messages| ==> IsRow(messages[i], queued, queue)
        invariant |ids| == 0 || |ids| < maxItems
        decreases todo
      {
        var id := Least(todo);
        ScanFurther(ids, queued, queue, todo, id);
        RowAt(queued, queue, id);
        messages := messages + [queued[QKey(queue, id)]];
        ids := ids + [id];
        todo := todo - {id};
        assert ids == IdsOf(messages);
        if |messages| >= maxItems {
          break;
        }
      }
      ScannedIsBatch(ids, queued, queue, todo, maxItems);
    }

    method BatchAck(queue: Str, ids: seq<Str>)
      requires Valid()
      modifies this`processing
      ensures Valid() && Rows() == AfterAck(old(Rows()), queue, ids)
    {
      if ids == [] {
        assert Keys(queue, ids) == {};
        return;
      }
      processing := processing - set id | id in ids :: QKey(queue, id);
    }

    method RenewLease(queue: Str, ids: seq<Str>, now: int)
      requires Valid()
      modifies this`processing
      ensures Valid() && Rows() == AfterRenew(old(Rows()), queue, ids, now)
    {
      var updates: map<QKey, Message<B>> := map[];
      for i := 0 to |ids|
        invariant updates == map k | k in Keys(queue, ids[..i]) * processing.Keys :: processing[k].(ts := Some(now))
      {
        var k := QKey(queue, ids[i]);
        assert Keys(queue, ids[..i + 1]) == Keys(queue, ids[..i]) + {k} by {
          assert ids[..i + 1] == ids[..i] + [ids[i]];
        }
        if k in processing {
          updates := updates[k := processing[k].(ts := Some(now))];
        }
      }
      assert ids[..|ids|] == ids;
      processing := processing + updates;
    }

    /** Every message whose lease has run out goes back to its queue, or, tried often enough,
        to the dead-letter queue or nowhere. */
    method RequeueTimeouts(now: int, timeout: int, maxRetries: nat, disableDLQ: bool)
      requires Valid()
      modifies this`queued, this`processing, this`dlq
      ensures Valid() && Rows() == AfterRequeue(old(Rows()), now - timeout, maxRetries, disableDLQ, now)
    {
      hide Requeued, Dead, Expired, NoEmptyLists, KeyOf;
      var messages := set k | k in processing && Expired(processing[k], now - timeout);
      assert messages == ExpiredKeys(Rows(), now - timeout);
      if messages == {} {
        NoneExpired(Rows(), now - timeout, maxRetries, disableDLQ, now);
        return;
      }
      var found := processing;
      processing := processing - messages;
      NoneYet(found, maxRetries, now);
      assert messages - messages == {};
      var toQueue, toDlq: map<QKey, Message<B>> := map[], map[];
      var todo := messages;
      while todo != {}
        invariant todo <= messages
        invariant queued == old(queued) && dlq == old(dlq) && processing == found - messages
        invariant toQueue == Requeued(found, messages - todo, maxRetries)
        invariant toDlq == if disableDLQ then map[] else Dead(found, messages - todo, maxRetries, now)
      {
        var k :| k in todo;
        var m := found[k];
        RequeuedStep(found, messages - todo, k, maxRetries, now);
        assert messages - (todo - {k}) == (messages - todo) + {k};
        todo := todo - {k};
        var retries := m.retries + 1;
        if maxRetries > 0 && retries > maxRetries {
          if !disableDLQ {
            toDlq := toDlq[k := m.(retries := retries, ts := Some(now))];
          }
        } else {
          toQueue := toQueue[k := m.(retries := retries)];
        }
      }
      assert messages - todo == messages;
      RequeueKeepsKeys(found, messages, maxRetries);
      assert forall k :: k in toQueue ==> KeyOf(toQueue[k]) == k;
      queued := queued + toQueue;
      dlq := dlq + toDlq;
      assert Valid();
    }
  }

  lemma NoneYet<B>(rows: map<QKey, Message<B>>, maxRetries: nat, now: int)
    ensures Requeued(rows, {}, maxRetries) == map[] && Dead(rows, {}, maxRetries, now) == map[]
  {
  }

  lemma RequeueKeepsKeys<B>(rows: map<QKey, Message<B>>, ks: set<QKey>, maxRetries: nat)
    requires ks <= rows.Keys && forall k :: k in rows ==> KeyOf(rows[k]) == k
    ensures forall k :: k in Requeued(rows, ks, maxRetries) ==> KeyOf(Requeued(rows, ks, maxRetries)[k]) == k
  {
  }

  function IdsOf<B>(ms: seq<Message<B>>): (ids: seq<Str>)
    ensures |ids| == |ms| && forall i :: 0 <= i < |ids| ==> ids[i] == ms[i].id
  {
    seq(|ms|, i requires 0 <= i < |ms| => ms[i].id)
  }

  lemma KeysOfBatch<B>(ms: seq<Message<B>>, queue: Str, ids: seq<Str>)
    requires ids == IdsOf(ms) && forall i :: 0 <= i < |ms| ==> ms[i].queue == queue
    ensures (set i | 0 <= i < |ms| :: KeyOf(ms[i])) == Keys(queue, ids)
  {
  }

  lemma {:induction false} PutKeepsKeys<B>(rows: map<QKey, Message<B>>, ms: seq<Message<B>>)
    requires forall k :: k in rows ==> KeyOf(rows[k]) == k
    ensures forall k :: k in PutMessages(rows, ms) ==> KeyOf(PutMessages(rows, ms)[k]) == k
    decreases |ms|
  {
    if ms != [] {
      PutKeepsKeys(rows, ms[..|ms| - 1]);
    }
  }

  lemma NoneExpired<B>(s: Store<B>, deadline: int, maxRetries: nat, disableDLQ: bool, now: int)
    requires ExpiredKeys(s, deadline) == {}
    ensures AfterRequeue(s, deadline, maxRetries, disableDLQ, now) == s
  {
  }
}
