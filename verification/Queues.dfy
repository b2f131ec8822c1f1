/**
 The SQS queue engine (internal/state/store.go): standard and FIFO queues, deduplication window,
 sequence numbers and dead-letter redrive.  Times are nanoseconds; ids drawn from `newID` and the
 content digest of a body are parameters of the operations that use them.
 */
module Queues {
  import opened Common
  import opened Durable

  /** Five minutes. */
  const WINDOW := 300_000_000_000
  /** `NextSequenceNumber` is a uint64. */
  const WRAP := 0x1_0000_0000_0000_0000

  function Seconds(n: int): int {
    n * 1_000_000_000
  }

  datatype Message = Message(
    id: string, body: string, sentAt: int, visibleAt: int, receipt: string, receiveCount: nat,
    group: string, dedupId: string, seqNo: Option<nat>)

  datatype DedupRecord = DedupRecord(id: string, seqNo: nat, expiresAt: int)

  /** `target` is the queue name that `queueNameFromARN` reads from the target ARN. */
  datatype RedrivePolicy = RedrivePolicy(target: string, maxReceiveCount: int)

  /** `attributes` holds the textual attributes; the two numeric ones are kept as `intValue` reads them. */
  datatype Queue = Queue(
    name: string, attributes: map<string, string>, delaySeconds: int, visibilityTimeout: int,
    redrive: Option<RedrivePolicy>, messages: seq<Message>, dedup: map<string, DedupRecord>, nextSeq: nat)

  type Queues = map<string, Queue>

  datatype Error =
    | QueueNotFound | InvalidQueueAttribute | MissingMessageParameter | InvalidMessageParameter | ReceiptInvalid | SaveFailed

  /* ------------------------------ Attributes ------------------------------ */

  predicate FifoName(name: string) {
    |name| >= 5 && name[|name| - 5..] == ".fifo"
  }

  function Attribute(attributes: map<string, string>, name: string): string {
    if name in attributes then attributes[name] else ""
  }

  predicate IsFifo(q: Queue) {
    Lower(Attribute(q.attributes, "FifoQueue")) == "true" && FifoName(q.name)
  }

  predicate ValidIdentifier(value: string) {
    1 <= |value| <= 128 && forall i :: 0 <= i < |value| ==> '!' <= value[i] <= '~'
  }

  predicate GroupScoped(attributes: map<string, string>) {
    Attribute(attributes, "DeduplicationScope") == "messageGroup"
  }

  function DedupKey(attributes: map<string, string>, group: string, id: string): string {
    if GroupScoped(attributes) then group + "\0" + id else id
  }

  function NextSeq(n: nat): (r: nat)
    ensures n < WRAP ==> (r > n <==> n + 1 < WRAP)
  {
    (n + 1) % WRAP
  }

  /** A request's `RedrivePolicy`: not mentioned, blank, not parseable, or parsed (target "" when the ARN is foreign). */
  datatype RedriveChange = Unmentioned | Blank | Malformed | Policy(policy: RedrivePolicy)

  datatype AttributeChange = AttributeChange(
    text: map<string, string>, delaySeconds: Option<int>, visibilityTimeout: Option<int>, redrive: RedriveChange)

  predicate IsBool(value: string) {
    Lower(value) == "true" || Lower(value) == "false"
  }

  /** `validateFIFOQueueAttributes`; `current` is empty when the queue is being created. */
  predicate ValidFifoAttributes(fifo: bool, text: map<string, string>, current: map<string, string>) {
    var scope := if "DeduplicationScope" in text then text["DeduplicationScope"]
                 else if Attribute(current, "DeduplicationScope") != "" then current["DeduplicationScope"] else "queue";
    var throughput := if "FifoThroughputLimit" in text then text["FifoThroughputLimit"]
                      else if Attribute(current, "FifoThroughputLimit") != "" then current["FifoThroughputLimit"] else "perQueue";
    && ("ContentBasedDeduplication" in text ==> fifo && IsBool(text["ContentBasedDeduplication"]))
    && ("DeduplicationScope" in text ==> fifo && text["DeduplicationScope"] in {"queue", "messageGroup"})
    && ("FifoThroughputLimit" in text ==> fifo && text["FifoThroughputLimit"] in {"perQueue", "perMessageGroupId"})
    && (throughput == "perMessageGroupId" ==> scope == "messageGroup")
  }

  predicate ValidCreation(name: string, text: map<string, string>) {
    && ("FifoQueue" in text ==> IsBool(text["FifoQueue"]))
    && (Lower(Attribute(text, "FifoQueue")) == "true") == FifoName(name)
    && ValidFifoAttributes(FifoName(name), text, map[])
  }

  /** `validateQueueAttributesLocked` with `parseRedrivePolicy`. */
  predicate ValidRedrive(queues: Queues, source: string, change: RedriveChange) {
    match change
    case Unmentioned => true
    case Blank => true
    case Malformed => false
    case Policy(p) =>
      && 1 <= p.maxReceiveCount <= 1000
      && p.target != "" && p.target in queues && p.target != source
      && FifoName(p.target) == FifoName(source)
  }

  function Changed(q: Queue, change: AttributeChange): Queue {
    q.(attributes := q.attributes + change.text,
       delaySeconds := if change.delaySeconds.Some? then change.delaySeconds.value else q.delaySeconds,
       visibilityTimeout := if change.visibilityTimeout.Some? then change.visibilityTimeout.value else q.visibilityTimeout,
       redrive := match change.redrive
                  case Policy(p) => Some(p)
                  case Blank => None
                  case _ => q.redrive)
  }

  function NewQueue(name: string): Queue {
    Queue(name,
          if FifoName(name) then map["FifoQueue" := "true", "ContentBasedDeduplication" := "false"] else map[],
          0, 30, None, [], map[], 0)
  }

  /* ------------------------------ Receive ------------------------------ */

  datatype Receiving = Receiving(now: int, max: nat, hiddenFor: int, fifo: bool, maxReceiveCount: int, ids: seq<string>)

  /** The variables of the receive loop. */
  datatype Scan = Scan(
    remaining: seq<Message>, result: seq<Message>, blocked: set<string>, deadLetter: Option<Queue>, changed: bool)

  function DeadLettered(dlq: Queue, m: Message, now: int): Message {
    if IsFifo(dlq) then
      m.(receipt := "", visibleAt := now, dedupId := m.id, seqNo := Some(NextSeq(dlq.nextSeq)), sentAt := now)
    else
      m.(receipt := "", visibleAt := now)
  }

  function Redriven(dlq: Queue, m: Message, now: int): Queue {
    var d := DeadLettered(dlq, m, now);
    if IsFifo(dlq) then
      dlq.(messages := dlq.messages + [d], nextSeq := NextSeq(dlq.nextSeq),
           dedup := dlq.dedup[DedupKey(dlq.attributes, m.group, m.id) := DedupRecord(m.id, NextSeq(dlq.nextSeq), now + WINDOW)])
    else
      dlq.(messages := dlq.messages + [d])
  }

  function Delivered(c: Receiving, m: Message, k: nat): Message
    requires k < |c.ids|
  {
    m.(receiveCount := m.receiveCount + 1, receipt := c.ids[k], visibleAt := c.now + c.hiddenFor)
  }

  /** What one iteration does with its message. */
  datatype Fate = Held | Exhausted | Taken | Passed

  function FateOf(c: Receiving, s: Scan, m: Message): Fate {
    if c.fifo && m.group in s.blocked then Held
    else if m.visibleAt > c.now then Held
    else if s.deadLetter.Some? && m.receiveCount >= c.maxReceiveCount then Exhausted
    else if |s.result| < c.max then Taken
    else Passed
  }

  function Visit(c: Receiving, s: Scan, m: Message): Scan
    requires c.max <= |c.ids|
  {
    var block := if c.fifo then s.blocked + {m.group} else s.blocked;
    match FateOf(c, s, m)
    case Held => s.(remaining := s.remaining + [m], blocked := block)
    case Passed => s.(remaining := s.remaining + [m], blocked := block)
    case Exhausted => s.(deadLetter := Some(Redriven(s.deadLetter.value, m, c.now)), changed := true)
    case Taken =>
      var d := Delivered(c, m, |s.result|);
      s.(remaining := s.remaining + [d], result := s.result + [d], changed := true)
  }

  function ScanAll(c: Receiving, dlq: Option<Queue>, messages: seq<Message>): Scan
    requires c.max <= |c.ids|
  {
    if messages == [] then Scan([], [], {}, dlq, false)
    else Visit(c, ScanAll(c, dlq, messages[..|messages| - 1]), messages[|messages| - 1])
  }

  function Fates(c: Receiving, dlq: Option<Queue>, messages: seq<Message>): (f: seq<Fate>)
    requires c.max <= |c.ids|
    ensures |f| == |messages|
  {
    if messages == [] then []
    else
      var before := messages[..|messages| - 1];
      Fates(c, dlq, before) + [FateOf(c, ScanAll(c, dlq, before), messages[|messages| - 1])]
  }

  function Clamp(max: int): nat {
    if max < 1 then 1 else if max > 10 then 10 else max
  }

  function DeadLetterQueue(queues: Queues, q: Queue): Option<Queue> {
    if q.redrive.Some? && q.redrive.value.target in queues then Some(queues[q.redrive.value.target]) else None
  }

  function Context(q: Queue, max: int, visibility: int, now: int, ids: seq<string>): Receiving {
    Receiving(now, Clamp(max), Seconds(if visibility < 0 then q.visibilityTimeout else visibility), IsFifo(q),
              if q.redrive.Some? then q.redrive.value.maxReceiveCount else 0, ids)
  }

  /** The queues after the loop: the dead-letter queue grew in place, then the source gets `remaining`. */
  function AfterReceive(queues: Queues, name: string, s: Scan): Queues
    requires name in queues
  {
    var grown := if s.deadLetter.Some? && queues[name].redrive.Some?
                 then queues[queues[name].redrive.value.target := s.deadLetter.value] else queues;
    grown[name := grown[name].(messages := s.remaining)]
  }

  /* ------------------------------ Operations ------------------------------ */

  /** `digest` is the hex SHA-256 of the body. */
  datatype Sending = Sending(body: string, digest: string, delay: int, delaySpecified: bool, group: string, dedupId: string)

  datatype SendReply = Enqueued(message: Message) | Duplicate(id: string, seqNo: nat)

  function Unexpired(dedup: map<string, DedupRecord>, now: int): map<string, DedupRecord> {
    map k | k in dedup && dedup[k].expiresAt > now :: dedup[k]
  }

  function ChosenDedupId(m: Sending): string {
    if m.dedupId == "" then m.digest else m.dedupId
  }

  function Delay(q: Queue, m: Sending): int {
    if m.delay < 0 then q.delaySeconds else m.delay
  }

  /** The checks of `SendMessageWithOptions`, in order. */
  function SendError(q: Queue, m: Sending): Option<Error> {
    if !(0 <= Delay(q, m) <= 900) then Some(InvalidMessageParameter)
    else if IsFifo(q) && m.delaySpecified && Delay(q, m) != 0 then Some(InvalidMessageParameter)
    else if !IsFifo(q) && m.dedupId != "" then Some(InvalidMessageParameter)
    else if !IsFifo(q) then None
    else if m.group == "" then Some(MissingMessageParameter)
    else if !ValidIdentifier(m.group) then Some(InvalidMessageParameter)
    else if m.dedupId == "" && Lower(Attribute(q.attributes, "ContentBasedDeduplication")) != "true" then Some(MissingMessageParameter)
    else if !ValidIdentifier(ChosenDedupId(m)) then Some(InvalidMessageParameter)
    else None
  }

  function NewMessage(q: Queue, m: Sending, now: int, id: string): Message {
    var visibleAt := now + Seconds(Delay(q, m));
    if IsFifo(q) then Message(id, m.body, now, visibleAt, "", 0, m.group, ChosenDedupId(m), Some(NextSeq(q.nextSeq)))
    else Message(id, m.body, now, visibleAt, "", 0, m.group, "", None)
  }

  /** The queue after an accepted send, whether it saves, and the reply. */
  function Sent(q: Queue, m: Sending, now: int, id: string): (Queue, bool, SendReply)
    requires SendError(q, m).None?
  {
    var message := NewMessage(q, m, now, id);
    if !IsFifo(q) then
      (q.(messages := q.messages + [message]), true, Enqueued(message))
    else
      var pruned := Unexpired(q.dedup, now);
      var key := DedupKey(q.attributes, m.group, ChosenDedupId(m));
      if key in pruned then
        (q.(dedup := pruned), false, Duplicate(pruned[key].id, pruned[key].seqNo))
      else
        (q.(messages := q.messages + [message], nextSeq := NextSeq(q.nextSeq),
            dedup := pruned[key := DedupRecord(id, NextSeq(q.nextSeq), now + WINDOW)]),
         true, Enqueued(message))
  }

  /** Index of the first message with this receipt handle; |messages| if there is none. */
  function FindReceipt(messages: seq<Message>, receipt: string): (i: nat)
    ensures i <= |messages|
    ensures i < |messages| ==> messages[i].receipt == receipt
    ensures forall j :: 0 <= j < i ==> messages[j].receipt != receipt
  {
    if messages == [] || messages[0].receipt == receipt then 0 else 1 + FindReceipt(messages[1..], receipt)
  }

  /** An object notification: no group, no sequence number (`enqueueLocked`). */
  function Notified(q: Queue, body: string, now: int, id: string): Queue {
    q.(messages := q.messages + [Message(id, body, now, now, "", 0, "", "", None)])
  }

  datatype Op =
    | Create(name: string, change: AttributeChange)
    | Delete(name: string)
    | Purge(name: string)
    | Send(name: string, sending: Sending, now: int, id: string)
    | Receive(name: string, max: int, visibility: int, now: int, ids: seq<string>)
    | DeleteMessage(name: string, receipt: string)
    | ChangeVisibility(name: string, receipt: string, seconds: int, now: int)
    | SetAttributes(name: string, change: AttributeChange)
    | Notify(name: string, body: string, now: int, id: string)
    | ResetWorkload
    | Reset

  /** Enough ids are supplied for the messages a receive may return. */
  predicate WellFormed(op: Op) {
    op.Receive? ==> |op.ids| >= Clamp(op.max)
  }

  function Emptied(q: Queue): Queue {
    q.(messages := [], dedup := map[], nextSeq := 0)
  }

  /** The effect of an operation on the queues in memory, and whether it saves. */
  function Perform(queues: Queues, op: Op): Write<Queues>
    requires WellFormed(op)
  {
    var same := Write(queues, false);
    if op.Create? then
      if op.name in queues || !ValidCreation(op.name, op.change.text) || !ValidRedrive(queues, op.name, op.change.redrive) then same
      else Write(queues[op.name := Changed(NewQueue(op.name), op.change)], true)
    else if op.ResetWorkload? then Write(map n | n in queues :: Emptied(queues[n]), true)
    else if op.Reset? then Write(map[], true)
    else if op.name !in queues then same
    else
      var q := queues[op.name];
      match op
      case Delete(_) => Write(queues - {op.name}, true)
      case Purge(_) => Write(queues[op.name := q.(messages := [])], true)
      case Send(_, m, now, id) =>
        if SendError(q, m).Some? then same
        else Write(queues[op.name := Sent(q, m, now, id).0], Sent(q, m, now, id).1)
      case Receive(_, max, visibility, now, ids) =>
        var s := ScanAll(Context(q, max, visibility, now, ids), DeadLetterQueue(queues, q), q.messages);
        Write(AfterReceive(queues, op.name, s), s.changed)
      case DeleteMessage(_, receipt) =>
        var i := FindReceipt(q.messages, receipt);
        if i == |q.messages| then same
        else Write(queues[op.name := q.(messages := q.messages[..i] + q.messages[i + 1..])], true)
      case ChangeVisibility(_, receipt, seconds, now) =>
        var i := FindReceipt(q.messages, receipt);
        if i == |q.messages| then same
        else Write(queues[op.name := q.(messages := q.messages[i := q.messages[i].(visibleAt := now + Seconds(seconds))])], true)
      case SetAttributes(_, change) =>
        if "FifoQueue" in change.text || !ValidFifoAttributes(IsFifo(q), change.text, q.attributes)
           || !ValidRedrive(queues, op.name, change.redrive) then same
        else Write(queues[op.name := Changed(q, change)], true)
      case Notify(_, body, now, id) => Write(queues[op.name := Notified(q, body, now, id)], true)
  }

  function Advance(store: Store<Queues>, step: Step<Op>): Store<Queues>
    requires WellFormed(step.op)
  {
    Settle(store, Perform(store.live, step.op), step.saved)
  }
}
