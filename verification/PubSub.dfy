/**
 Pub/Sub delivery (internal/state/gcp.go): publishing, pulling with deadlines and dead-letter
 forwarding, acknowledging.  Ids drawn from `newID` are parameters.
 */
module PubSub {
  import opened Common
  import opened Durable

  const DELETED_TOPIC := "_deleted-topic_"

  /** `ackId` is "" until the message is delivered. */
  datatype Message = Message(id: string, data: string, ackId: string, publishTime: int, visibleAt: int, attempt: int)

  datatype Subscription = Subscription(
    topic: string, ackDeadline: int, deadLetterTopic: string, maxAttempts: int, messages: seq<Message>)

  datatype State = State(topics: set<string>, subs: map<string, Subscription>)

  function Seconds(n: int): int {
    n * 1_000_000_000
  }

  /* ------------------------------ Pull ------------------------------ */

  datatype Pulling = Pulling(now: int, max: nat, deadline: int, forwards: bool, maxAttempts: int, ids: seq<string>)

  datatype Scan = Scan(kept: seq<Message>, result: seq<Message>, forwarded: seq<Message>, changed: bool)

  datatype Fate = Forwarded | Taken | Kept

  /** Visible, and out of delivery attempts under a dead-letter policy. */
  predicate Exhausted(p: Pulling, m: Message) {
    m.visibleAt <= p.now && p.forwards && m.attempt >= p.maxAttempts
  }

  function FateOf(p: Pulling, s: Scan, m: Message): Fate {
    if Exhausted(p, m) then Forwarded
    else if |s.result| < p.max && m.visibleAt <= p.now then Taken
    else Kept
  }

  function Delivery(p: Pulling, m: Message, id: string): Message {
    m.(attempt := m.attempt + 1, ackId := id, visibleAt := p.now + Seconds(p.deadline))
  }

  function Copy(p: Pulling, m: Message, id: string): Message {
    m.(id := id, ackId := "", publishTime := p.now, visibleAt := p.now, attempt := 0)
  }

  function Visit(p: Pulling, s: Scan, m: Message, id: string): Scan {
    match FateOf(p, s, m)
    case Forwarded => s.(forwarded := s.forwarded + [Copy(p, m, id)], changed := true)
    case Taken => s.(result := s.result + [Delivery(p, m, id)], kept := s.kept + [Delivery(p, m, id)], changed := true)
    case Kept => s.(kept := s.kept + [m])
  }

  /** The pull loop over the first messages; the id drawn for message `i` is `ids[i]`. */
  function ScanAll(p: Pulling, messages: seq<Message>): Scan
    requires |messages| <= |p.ids|
  {
    if messages == [] then Scan([], [], [], false)
    else
      var n := |messages| - 1;
      Visit(p, ScanAll(p, messages[..n]), messages[n], p.ids[n])
  }

  function Fates(p: Pulling, messages: seq<Message>): (f: seq<Fate>)
    requires |messages| <= |p.ids|
    ensures |f| == |messages|
  {
    if messages == [] then []
    else
      var n := |messages| - 1;
      Fates(p, messages[..n]) + [FateOf(p, ScanAll(p, messages[..n]), messages[n])]
  }

  function Context(sub: Subscription, max: int, deadline: int, now: int, ids: seq<string>): Pulling {
    Pulling(now, if max < 1 then 1 else max, if deadline <= 0 then sub.ackDeadline else deadline,
            sub.deadLetterTopic != "" && sub.maxAttempts > 0, sub.maxAttempts, ids)
  }

  function Appended(sub: Subscription, topic: string, more: seq<Message>): Subscription {
    if sub.topic == topic then sub.(messages := sub.messages + more) else sub
  }

  /** Every subscription of the dead-letter topic has grown; then the pulled one gets `kept`. */
  function AfterPull(subs: map<string, Subscription>, name: string, s: Scan): map<string, Subscription>
    requires name in subs
  {
    var grown := map n | n in subs :: Appended(subs[n], subs[name].deadLetterTopic, s.forwarded);
    grown[name := grown[name].(messages := s.kept)]
  }

  /* ------------------------------ Operations ------------------------------ */

  function Stamped(m: Message, now: int, id: string): Message {
    m.(id := id, publishTime := now, visibleAt := now)
  }

  /** A published message keeps the request's fields and gets an id and the time. */
  function StampAll(messages: seq<Message>, now: int, ids: seq<string>): (r: seq<Message>)
    requires |messages| <= |ids|
    ensures |r| == |messages| && forall i :: 0 <= i < |r| ==> r[i] == Stamped(messages[i], now, ids[i])
  {
    seq(|messages|, i requires 0 <= i < |messages| => Stamped(messages[i], now, ids[i]))
  }

  function Unacked(messages: seq<Message>, acked: set<string>): seq<Message> {
    if messages == [] then []
    else
      var n := |messages| - 1;
      Unacked(messages[..n], acked) + (if messages[n].ackId in acked then [] else [messages[n]])
  }

  /** The deadline of each ack id: one value for all, one by one, or 0; a later entry wins. */
  function Deadlines(ackIds: seq<string>, seconds: seq<int>): map<string, int> {
    if ackIds == [] then map[]
    else
      var n := |ackIds| - 1;
      Deadlines(ackIds[..n], seconds)
        [ackIds[n] := if |seconds| == 1 then seconds[0] else if n < |seconds| then seconds[n] else 0]
  }

  function Extended(messages: seq<Message>, deadlines: map<string, int>, now: int): (r: seq<Message>)
    ensures |r| == |messages|
  {
    seq(|messages|, i requires 0 <= i < |messages| =>
      if messages[i].ackId in deadlines then messages[i].(visibleAt := now + Seconds(deadlines[messages[i].ackId])) else messages[i])
  }

  datatype Op =
    | Publish(topic: string, messages: seq<Message>, now: int, ids: seq<string>)
    | Pull(name: string, max: int, deadline: int, now: int, ids: seq<string>)
    | Ack(name: string, ackIds: set<string>)
    | Modify(name: string, handles: seq<string>, seconds: seq<int>, now: int)
    | Purge(name: string)
    | DeleteSubscription(name: string)
    | DeleteTopic(topic: string)
    | CreateTopic(topic: string)
    | Subscribe(name: string, topic: string, deadline: int)
    | Configure(name: string, ackDeadline: Option<int>, deadLetter: Option<(string, int)>)
    | ResetWorkload
    | Reset
    | LoadSnapshot(loaded: State)

  /** Enough ids are supplied. */
  predicate WellFormed(s: State, op: Op) {
    && (op.Publish? ==> |op.messages| <= |op.ids|)
    && (op.Pull? && op.name in s.subs ==> |s.subs[op.name].messages| <= |op.ids|)
  }

  function Perform(s: State, op: Op): Write<State>
    requires WellFormed(s, op)
  {
    var same := Write(s, false);
    match op
    case Publish(topic, messages, now, ids) =>
      if topic !in s.topics then same
      else Write(s.(subs := map n | n in s.subs :: Appended(s.subs[n], topic, StampAll(messages, now, ids))), true)
    case Pull(name, max, deadline, now, ids) =>
      if name !in s.subs || s.subs[name].topic == DELETED_TOPIC then same
      else
        var scan := ScanAll(Context(s.subs[name], max, deadline, now, ids), s.subs[name].messages);
        Write(s.(subs := AfterPull(s.subs, name, scan)), scan.changed)
    case Ack(name, acked) =>
      if name !in s.subs then same
      else Write(s.(subs := s.subs[name := s.subs[name].(messages := Unacked(s.subs[name].messages, acked))]), true)
    case Modify(name, ackIds, seconds, now) =>
      if name !in s.subs then same
      else Write(s.(subs := s.subs[name := s.subs[name].(messages := Extended(s.subs[name].messages, Deadlines(ackIds, seconds), now))]), true)
    case Purge(name) =>
      if name !in s.subs then same else Write(s.(subs := s.subs[name := s.subs[name].(messages := [])]), true)
    case DeleteSubscription(name) => if name !in s.subs then same else Write(s.(subs := s.subs - {name}), true)
    case DeleteTopic(topic) =>
      if topic !in s.topics then same
      else Write(State(s.topics - {topic},
                       map n | n in s.subs :: if s.subs[n].topic == topic then s.subs[n].(topic := DELETED_TOPIC) else s.subs[n]), true)
    case CreateTopic(topic) => if topic in s.topics then same else Write(s.(topics := s.topics + {topic}), true)
    case Subscribe(name, topic, deadline) =>
      if topic !in s.topics || name in s.subs then same
      else Write(s.(subs := s.subs[name := Subscription(topic, if deadline == 0 then 10 else deadline, "", 0, [])]), true)
    case Configure(name, ackDeadline, deadLetter) =>
      if name !in s.subs || (deadLetter.Some? && deadLetter.value.0 != "" && deadLetter.value.0 !in s.topics) then same
      else
        var sub := s.subs[name];
        var sub' := if ackDeadline.Some? then sub.(ackDeadline := ackDeadline.value) else sub;
        var sub'' := if deadLetter.Some? then sub'.(deadLetterTopic := deadLetter.value.0, maxAttempts := deadLetter.value.1) else sub';
        Write(s.(subs := s.subs[name := sub'']), true)
    case ResetWorkload => Write(s.(subs := map n | n in s.subs :: s.subs[n].(messages := [])), true)
    case Reset => Write(State({}, map[]), true)
    case LoadSnapshot(loaded) => Write(loaded, true)
  }

  /* ------------------------------ One pull ------------------------------ */

  function Ids(messages: seq<Message>): (r: seq<string>)
    ensures |r| == |messages|
  {
    seq(|messages|, i requires 0 <= i < |messages| => messages[i].id)
  }

  /** The ids of the messages with this fate or, for `None`, of all that stay. */
  function Pick(messages: seq<Message>, fates: seq<Fate>, taken: bool): seq<string>
    requires |messages| == |fates|
  {
    if messages == [] then []
    else
      var n := |messages| - 1;
      Pick(messages[..n], fates[..n], taken)
      + (if fates[n].Taken? || (!taken && fates[n].Kept?) then [messages[n].id] else [])
  }

  lemma IdsSnoc(messages: seq<Message>, m: Message)
    ensures Ids(messages + [m]) == Ids(messages) + [m.id]
  {
  }

  /** The copies forwarded: one for each exhausted message, with the same data, in order. */
  function ForwardedData(messages: seq<Message>, fates: seq<Fate>): seq<string>
    requires |messages| == |fates|
  {
    if messages == [] then []
    else
      var n := |messages| - 1;
      ForwardedData(messages[..n], fates[..n]) + (if fates[n].Forwarded? then [messages[n].data] else [])
  }

  function Data(messages: seq<Message>): (r: seq<string>)
    ensures |r| == |messages|
  {
    seq(|messages|, i requires 0 <= i < |messages| => messages[i].data)
  }

  lemma DataSnoc(messages: seq<Message>, m: Message)
    ensures Data(messages + [m]) == Data(messages) + [m.data]
  {
  }

  /** A pull splits the subscription by fate, in order, and returns at most `max` messages. */
  lemma {:induction false} PullSplitsByFate(p: Pulling, messages: seq<Message>)
    requires |messages| <= |p.ids| && p.max >= 1
    ensures var s, f := ScanAll(p, messages), Fates(p, messages);
            && Ids(s.kept) == Pick(messages, f, false)
            && Ids(s.result) == Pick(messages, f, true) && |s.result| <= p.max
            && Data(s.forwarded) == ForwardedData(messages, f)
  {
    if messages != [] {
      var n := |messages| - 1;
      PullSplitsByFate(p, messages[..n]);
      var s, m, id := ScanAll(p, messages[..n]), messages[n], p.ids[n];
      assert Fates(p, messages)[..n] == Fates(p, messages[..n]);
      IdsSnoc(s.kept, m);
      IdsSnoc(s.kept, Delivery(p, m, id));
      IdsSnoc(s.result, Delivery(p, m, id));
      DataSnoc(s.forwarded, Copy(p, m, id));
    }
  }

  /** What is returned was visible; what is forwarded was visible and used up its attempts. */
  lemma {:induction false} FatesAreJustified(p: Pulling, messages: seq<Message>, i: nat)
    requires |messages| <= |p.ids| && i < |messages|
    ensures !Fates(p, messages)[i].Kept? ==> messages[i].visibleAt <= p.now
    ensures Fates(p, messages)[i].Forwarded? <==> Exhausted(p, messages[i])
  {
    var n := |messages| - 1;
    if i < n {
      FatesAreJustified(p, messages[..n], i);
    }
  }

  /** The exhausted messages, or the others, in order. */
  function Filtered(p: Pulling, messages: seq<Message>, exhausted: bool): seq<Message> {
    if messages == [] then []
    else
      var n := |messages| - 1;
      Filtered(p, messages[..n], exhausted) + (if Exhausted(p, messages[n]) == exhausted then [messages[n]] else [])
  }

  ghost predicate FreshCopies(p: Pulling, copies: seq<Message>) {
    forall i :: 0 <= i < |copies| ==> copies[i].ackId == "" && copies[i].attempt == 0 && copies[i].visibleAt == copies[i].publishTime == p.now
  }

  /** The loop forwards a fresh copy of exactly the exhausted messages and keeps exactly the others. */
  lemma {:induction false} ScanFilters(p: Pulling, messages: seq<Message>)
    requires |messages| <= |p.ids|
    ensures var s := ScanAll(p, messages);
            && Data(s.forwarded) == Data(Filtered(p, messages, true)) && FreshCopies(p, s.forwarded)
            && Ids(s.kept) == Ids(Filtered(p, messages, false))
  {
    if messages != [] {
      var n := |messages| - 1;
      ScanFilters(p, messages[..n]);
      var s, m, id := ScanAll(p, messages[..n]), messages[n], p.ids[n];
      if Exhausted(p, m) {
        DataSnoc(s.forwarded, Copy(p, m, id));
        DataSnoc(Filtered(p, messages[..n], true), m);
        assert Filtered(p, messages, false) == Filtered(p, messages[..n], false);
      } else {
        assert Filtered(p, messages, true) == Filtered(p, messages[..n], true);
        IdsSnoc(Filtered(p, messages[..n], false), m);
        IdsSnoc(s.kept, m);
        IdsSnoc(s.kept, Delivery(p, m, id));
      }
    }
  }

  /** Dead-letter forwarding: every other subscription of the dead-letter topic gets, behind what it
      has, one fresh copy of each exhausted message in order; no other subscription changes; the
      pulled one keeps exactly the messages that are not exhausted. */
  lemma PullFansOut(s: State, op: Op, other: string)
    requires op.Pull? && WellFormed(s, op) && op.name in s.subs && s.subs[op.name].topic != DELETED_TOPIC
    requires other in s.subs && other != op.name
    ensures var sub, next := s.subs[op.name], Perform(s, op).next;
            var p := Context(sub, op.max, op.deadline, op.now, op.ids);
            && next.topics == s.topics && next.subs.Keys == s.subs.Keys
            && next.subs[op.name] == sub.(messages := next.subs[op.name].messages)
            && Ids(next.subs[op.name].messages) == Ids(Filtered(p, sub.messages, false))
            && s.subs[other].messages <= next.subs[other].messages
            && next.subs[other] == s.subs[other].(messages := next.subs[other].messages)
            && var copies := next.subs[other].messages[|s.subs[other].messages|..];
               && FreshCopies(p, copies)
               && Data(copies) == if s.subs[other].topic == sub.deadLetterTopic then Data(Filtered(p, sub.messages, true)) else []
  {
    hide ScanAll, Filtered;
    var sub, next := s.subs[op.name], Perform(s, op).next;
    var p := Context(sub, op.max, op.deadline, op.now, op.ids);
    ScanFilters(p, sub.messages);
    var scan := ScanAll(p, sub.messages);
    assert s.subs[other].topic == sub.deadLetterTopic ==>
        next.subs[other].messages[|s.subs[other].messages|..] == scan.forwarded;
  }

  lemma {:induction false} NothingForwardedIff(p: Pulling, messages: seq<Message>)
    requires |messages| <= |p.ids|
    ensures ScanAll(p, messages).forwarded == [] <==> forall i :: 0 <= i < |messages| ==> !Exhausted(p, messages[i])
  {
    if messages != [] {
      NothingForwardedIff(p, messages[..|messages| - 1]);
    }
  }

  /** Every subscription of the dead-letter topic gets its copies, the pulled one included, exactly
      when that topic is not the pulled subscription's own or no visible message has used up its
      attempts: into its own topic the copies are appended and then overwritten. */
  lemma OwnTopicLosesCopies(s: State, op: Op)
    requires op.Pull? && WellFormed(s, op) && op.name in s.subs && s.subs[op.name].topic != DELETED_TOPIC
    ensures var sub, subs' := s.subs[op.name], Perform(s, op).next.subs;
            var p := Context(sub, op.max, op.deadline, op.now, op.ids);
            var scan := ScanAll(p, sub.messages);
            (forall n <- s.subs :: s.subs[n].topic == sub.deadLetterTopic ==>
               n in subs' && subs'[n].messages == (if n == op.name then scan.kept else s.subs[n].messages) + scan.forwarded)
            <==> (sub.topic != sub.deadLetterTopic || forall m <- sub.messages :: !Exhausted(p, m))
  {
    hide ScanAll, Exhausted;
    var sub, subs' := s.subs[op.name], Perform(s, op).next.subs;
    var p := Context(sub, op.max, op.deadline, op.now, op.ids);
    var scan := ScanAll(p, sub.messages);
    NothingForwardedIff(p, sub.messages);
    assert subs'[op.name].messages == scan.kept;
    assert |scan.kept + scan.forwarded| == |scan.kept| + |scan.forwarded|;
  }

  /* ------------------------------ Runs ------------------------------ */

  /** The ways for a message to leave subscription `name`. */
  ghost predicate Leaves(s: State, op: Op, name: string, i: nat)
    requires WellFormed(s, op) && name in s.subs && i < |s.subs[name].messages|
  {
    || (op.Ack? && op.name == name && s.subs[name].messages[i].ackId in op.ackIds)
    || (op.Purge? && op.name == name)
    || (op.DeleteSubscription? && op.name == name)
    || op.ResetWorkload? || op.Reset? || op.LoadSnapshot?
    || (op.Pull? && op.name == name && s.subs[name].topic != DELETED_TOPIC
        && Exhausted(Context(s.subs[name], op.max, op.deadline, op.now, op.ids), s.subs[name].messages[i]))
  }

  ghost predicate Holds(s: State, name: string, id: string) {
    name in s.subs && exists m <- s.subs[name].messages :: m.id == id
  }

  lemma {:induction false} UnackedKeeps(messages: seq<Message>, acked: set<string>, m: Message)
    ensures m in Unacked(messages, acked) <==> m in messages && m.ackId !in acked
  {
    if messages != [] {
      var n := |messages| - 1;
      UnackedKeeps(messages[..n], acked, m);
      assert messages == messages[..n] + [messages[n]];
    }
  }

  lemma {:induction false} PullKeeps(p: Pulling, messages: seq<Message>, i: nat)
    requires |messages| <= |p.ids| && i < |messages|
    ensures Fates(p, messages)[i].Forwarded? || exists m <- ScanAll(p, messages).kept :: m.id == messages[i].id
  {
    var n := |messages| - 1;
    var s := ScanAll(p, messages[..n]);
    if i < n {
      PullKeeps(p, messages[..n], i);
      if !Fates(p, messages)[i].Forwarded? {
        var m :| m in s.kept && m.id == messages[i].id;
        assert m in ScanAll(p, messages).kept;
      }
    } else if !Fates(p, messages)[i].Forwarded? {
      var last := if Fates(p, messages)[i].Taken? then Delivery(p, messages[i], p.ids[i]) else messages[i];
      assert last in ScanAll(p, messages).kept && last.id == messages[i].id;
    }
  }

  /** A message leaves a subscription only by acknowledgement, purge, deletion, reset, snapshot load or dead-lettering. */
  lemma MessagesStay(s: State, op: Op, name: string, i: nat)
    requires WellFormed(s, op) && name in s.subs && i < |s.subs[name].messages|
    ensures Leaves(s, op, name, i) || Holds(Perform(s, op).next, name, s.subs[name].messages[i].id)
  {
    var messages := s.subs[name].messages;
    var m := messages[i];
    assert m in messages;
    if Leaves(s, op, name, i) {
    } else if op.Pull? && op.name == name {
      if s.subs[name].topic != DELETED_TOPIC {
        var p := Context(s.subs[name], op.max, op.deadline, op.now, op.ids);
        PullKeeps(p, messages, i);
        FatesAreJustified(p, messages, i);
      }
    } else if op.Ack? && op.name == name {
      UnackedKeeps(messages, op.ackIds, m);
    } else if op.Modify? && op.name == name {
      var r := Extended(messages, Deadlines(op.handles, op.seconds), op.now);
      assert r[i].id == m.id && r[i] in r;
    }
  }

  /** With non-empty ack ids, only delivered messages are acknowledged. */
  lemma UndeliveredAreNotAcked(messages: seq<Message>, acked: set<string>, m: Message)
    requires "" !in acked && m in messages && m.ackId == ""
    ensures m in Unacked(messages, acked)
  {
    UnackedKeeps(messages, acked, m);
  }

  /** An empty ack id acknowledges every message that was never delivered. */
  lemma EmptyAckTakesUndelivered(messages: seq<Message>, acked: set<string>, m: Message)
    requires "" in acked && m.ackId == ""
    ensures m !in Unacked(messages, acked)
  {
    UnackedKeeps(messages, acked, m);
  }

  /** Some message with this id is acknowledged, purged, deleted, reset or dead-lettered by the step. */
  ghost predicate Removes(s: State, op: Op, name: string, id: string)
    requires WellFormed(s, op)
  {
    name in s.subs && exists i: nat :: i < |s.subs[name].messages| && s.subs[name].messages[i].id == id && Leaves(s, op, name, i)
  }

  lemma StepKeepsMessage(s: State, op: Op, name: string, id: string)
    requires WellFormed(s, op) && Holds(s, name, id) && !Removes(s, op, name, id)
    ensures Holds(Perform(s, op).next, name, id)
  {
    hide Perform, Leaves;
    var m :| m in s.subs[name].messages && m.id == id;
    var i: nat :| i < |s.subs[name].messages| && s.subs[name].messages[i] == m;
    MessagesStay(s, op, name, i);
  }

  /** Over any run, with any saves failing, a saved message stays in its subscription, in memory and on
      disk, until a step removes it in one of those ways. */
  lemma {:induction false} SavedMessagesStay(states: seq<Store<State>>, steps: seq<Step<Op>>, name: string, id: string, i: nat, j: nat)
    requires IsRun(Perform, states, steps) && i <= j <= |steps|
    requires Holds(states[i].live, name, id) && Holds(states[i].committed, name, id)
    requires forall k: nat :: i <= k < j ==> WellFormed(states[k].live, steps[k].op) && !Removes(states[k].live, steps[k].op, name, id)
    ensures Holds(states[j].live, name, id) && Holds(states[j].committed, name, id)
    decreases j - i
  {
    hide Perform, Leaves, Holds, Removes;
    if i < j {
      SavedMessagesStay(states, steps, name, id, i, j - 1);
      assert StepAt(Perform, states, steps, j - 1);
      StepKeepsMessage(states[j - 1].live, steps[j - 1].op, name, id);
    }
  }

  /* ------------------------------ Failed saves ------------------------------ */

  lemma {:induction false} UnchangedPull(p: Pulling, messages: seq<Message>)
    requires |messages| <= |p.ids| && !ScanAll(p, messages).changed
    ensures ScanAll(p, messages).kept == messages && ScanAll(p, messages).forwarded == []
  {
    if messages != [] {
      var n := |messages| - 1;
      UnchangedPull(p, messages[..n]);
      assert messages == messages[..n] + [messages[n]];
    }
  }

  /** Every operation saves or leaves the state alone. */
  lemma PerformIsDisciplined(s: State, op: Op)
    requires WellFormed(s, op) && !Perform(s, op).saves
    ensures Perform(s, op).next == s
  {
    hide ScanAll, Unacked, Extended, Deadlines;
    if op.Pull? && op.name in s.subs && s.subs[op.name].topic != DELETED_TOPIC {
      var sub := s.subs[op.name];
      UnchangedPull(Context(sub, op.max, op.deadline, op.now, op.ids), sub.messages);
      assert sub.messages + [] == sub.messages;
      assert forall n <- s.subs :: Appended(s.subs[n], sub.deadLetterTopic, []) == s.subs[n] by {
        assert forall n <- s.subs :: s.subs[n].messages + [] == s.subs[n].messages;
      }
      assert Perform(s, op).next.subs == s.subs;
    }
  }

  /** Erasing the failed steps of any run changes nothing, however many subscriptions they touched. */
  lemma PubSubFailuresLeaveNoTrace(states: seq<Store<State>>, steps: seq<Step<Op>>) returns (kept: seq<Store<State>>)
    requires IsRun(Perform, states, steps) && states[0].live == states[0].committed
    ensures IsRun(Perform, kept, Succeeding(steps)) && kept[0] == states[0] && kept[|kept| - 1] == states[|steps|]
  {
    hide Perform;
    forall i: nat | i < |steps| ensures DisciplinedAt(Perform, states, steps, i) {
      assert StepAt(Perform, states, steps, i);
      if !Perform(states[i].live, steps[i].op).saves { PerformIsDisciplined(states[i].live, steps[i].op); }
    }
    kept := FailedSavesLeaveNoTrace(Perform, states, steps);
  }

  /** Two runs that differ only in steps whose save fails agree in every state and every commit. */
  lemma PubSubFailuresDoNotMatter(
    states: seq<Store<State>>, steps: seq<Step<Op>>, states': seq<Store<State>>, steps': seq<Step<Op>>, n: nat)
    requires IsRun(Perform, states, steps) && IsRun(Perform, states', steps') && n <= |steps| == |steps'| && states[0] == states'[0]
    requires forall i: nat :: i < |steps| ==> SameUnlessFailed(Perform, states, steps, states', steps', i)
    ensures states[n] == states'[n]
  {
    FailedMutationsDoNotMatter(Perform, states, steps, states', steps', n);
  }

  /* ------------------------------ A subscription that forwards to its own topic ------------------------------ */

  /** The subscription "s" of topic "t" that forwards to "t" after one attempt. */
  function Looping(messages: seq<Message>): State {
    State({"t"}, map["s" := Subscription("t", 10, "t", 1, messages)])
  }

  const SENT := Message("1", "d", "", 0, 0, 0)
  const DELIVERED := Message("1", "d", "a", 0, Seconds(10), 1)

  lemma LoopSetup()
    ensures Perform(State({}, map[]), CreateTopic("t")) == Write(State({"t"}, map[]), true)
    ensures Perform(State({"t"}, map[]), Subscribe("s", "t", 0)) == Write(State({"t"}, map["s" := Subscription("t", 10, "", 0, [])]), true)
    ensures Perform(State({"t"}, map["s" := Subscription("t", 10, "", 0, [])]), Configure("s", None, Some(("t", 1)))) == Write(Looping([]), true)
  {
    assert {} + {"t"} == {"t"};
    assert map[]["s" := Subscription("t", 10, "", 0, [])] == map["s" := Subscription("t", 10, "", 0, [])];
    assert map["s" := Subscription("t", 10, "", 0, [])]["s" := Subscription("t", 10, "t", 1, [])] == Looping([]).subs;
  }

  lemma LoopPublish()
    ensures Perform(Looping([]), Publish("t", [SENT], 0, ["1"])) == Write(Looping([SENT]), true)
  {
    assert StampAll([SENT], 0, ["1"]) == [SENT];
    assert Appended(Looping([]).subs["s"], "t", [SENT]) == Looping([SENT]).subs["s"];
    assert Perform(Looping([]), Publish("t", [SENT], 0, ["1"])).next.subs == Looping([SENT]).subs;
  }

  /** A pull of the one message there is. */
  lemma LoopPull(m: Message, now: int, id: string, s: Scan)
    requires var p := Context(Looping([]).subs["s"], 1, 0, now, [id]);
             s == Visit(p, Scan([], [], [], false), m, id)
    ensures Perform(Looping([m]), Pull("s", 1, 0, now, [id])) == Write(Looping(s.kept), s.changed)
  {
    var p := Context(Looping([m]).subs["s"], 1, 0, now, [id]);
    assert [m][..0] == [];
    assert ScanAll(p, [m]) == s;
    hide ScanAll, Visit, Context;
    assert Perform(Looping([m]), Pull("s", 1, 0, now, [id])).next.subs == Looping(s.kept).subs;
  }

  lemma LoopPulls()
    ensures Perform(Looping([SENT]), Pull("s", 1, 0, 0, ["a"])) == Write(Looping([DELIVERED]), true)
    ensures Perform(Looping([DELIVERED]), Pull("s", 1, 0, Seconds(10), ["b"])) == Write(Looping([]), true)
  {
    hide Perform;
    var p, p' := Context(Looping([]).subs["s"], 1, 0, 0, ["a"]), Context(Looping([]).subs["s"], 1, 0, Seconds(10), ["b"]);
    LoopPull(SENT, 0, "a", Visit(p, Scan([], [], [], false), SENT, "a"));
    assert Visit(p, Scan([], [], [], false), SENT, "a").kept == [DELIVERED];
    LoopPull(DELIVERED, Seconds(10), "b", Visit(p', Scan([], [], [], false), DELIVERED, "b"));
    assert Visit(p', Scan([], [], [], false), DELIVERED, "b").kept == [];
  }

  function LoopSteps(): seq<Step<Op>> {
    [Step(CreateTopic("t"), true), Step(Subscribe("s", "t", 0), true), Step(Configure("s", None, Some(("t", 1))), true),
     Step(Publish("t", [SENT], 0, ["1"]), true), Step(Pull("s", 1, 0, 0, ["a"]), true), Step(Pull("s", 1, 0, Seconds(10), ["b"]), true)]
  }

  /** A run that publishes one message, pulls it, and pulls again: the copy meant for the dead-letter
      topic is in no subscription, although nothing was acknowledged. */
  lemma CopyIsLost() returns (states: seq<Store<State>>)
    ensures IsRun(Perform, states, LoopSteps()) && states[0] == Store(State({}, map[]), State({}, map[]))
    ensures states[4].live == Looping([SENT]) && states[6].live == Looping([])
  {
    LoopSetup();
    LoopPublish();
    LoopPulls();
    hide Perform;
    var live := [State({}, map[]), State({"t"}, map[]), State({"t"}, map["s" := Subscription("t", 10, "", 0, [])]),
                 Looping([]), Looping([SENT]), Looping([DELIVERED]), Looping([])];
    states := seq(7, i requires 0 <= i < 7 => Store(live[i], live[i]));
    forall i: nat | i < 6 ensures StepAt(Perform, states, LoopSteps(), i) {
      var step := LoopSteps()[i];
      assert step.saved && WellFormed(live[i], step.op) && Perform(live[i], step.op) == Write(live[i + 1], true) by {
        if i == 0 {} else if i == 1 {} else if i == 2 {} else if i == 3 {} else if i == 4 {}
      }
    }
  }
}
