/**
 What a pull returns, forwards and leaves, said of the messages before the call alone; what the other
 requests leave of each message; and what that means over runs: a message under a running deadline is
 not delivered again.
 */
module PubSubDelivery {
  import opened Common
  import opened Durable
  import opened PubSub

  /** The time, the greatest number of messages, until when the returned ones are hidden, and the limit
      of a dead-letter policy. */
  datatype Rules = Rules(now: int, max: nat, hiddenUntil: int, limit: Option<int>)

  /** A pull asks for one message at least, and for the subscription's deadline where it has none. */
  function RulesOf(sub: Subscription, max: int, deadline: int, now: int): Rules {
    Rules(now, if max < 1 then 1 else max,
          now + 1_000_000_000 * (if deadline <= 0 then sub.ackDeadline else deadline),
          if sub.deadLetterTopic != "" && sub.maxAttempts > 0 then Some(sub.maxAttempts) else None)
  }

  predicate Visible(r: Rules, m: Message) {
    m.visibleAt <= r.now
  }

  /** Visible and delivered as often as the policy allows. */
  predicate Spent(r: Rules, m: Message) {
    Visible(r, m) && r.limit.Some? && m.attempt >= r.limit.value
  }

  predicate Eligible(r: Rules, m: Message) {
    Visible(r, m) && !Spent(r, m)
  }

  /** How many of the first `n` messages are eligible. */
  function Rank(r: Rules, messages: seq<Message>, n: nat): nat
    requires n <= |messages|
  {
    if n == 0 then 0 else Rank(r, messages, n - 1) + if Eligible(r, messages[n - 1]) then 1 else 0
  }

  /** The first `max` eligible messages are returned. */
  predicate Returned(r: Rules, messages: seq<Message>, i: nat)
    requires i < |messages|
  {
    Eligible(r, messages[i]) && Rank(r, messages, i) < r.max
  }

  function Handed(r: Rules, m: Message, ackId: string): Message {
    m.(attempt := m.attempt + 1, ackId := ackId, visibleAt := r.hiddenUntil)
  }

  /** The smaller of `max` and the number of eligible messages is returned: the first of them, in order. */
  ghost predicate Replies(r: Rules, messages: seq<Message>, ids: seq<string>, n: nat, reply: seq<Message>)
    requires n <= |messages| <= |ids|
  {
    && |reply| == (if Rank(r, messages, n) < r.max then Rank(r, messages, n) else r.max)
    && forall i: nat :: i < n && Returned(r, messages, i) ==>
         Rank(r, messages, i) < |reply| && reply[Rank(r, messages, i)] == Handed(r, messages[i], ids[i])
  }

  /** What stays. */
  function Left(r: Rules, messages: seq<Message>, ids: seq<string>, n: nat): seq<Message>
    requires n <= |messages| <= |ids|
  {
    if n == 0 then []
    else
      Left(r, messages, ids, n - 1)
      + if Spent(r, messages[n - 1]) then []
        else if Returned(r, messages, n - 1) then [Handed(r, messages[n - 1], ids[n - 1])] else [messages[n - 1]]
  }

  /** The copies for the dead-letter topic: a new id and time, never delivered. */
  function Copies(r: Rules, messages: seq<Message>, ids: seq<string>, n: nat): seq<Message>
    requires n <= |messages| <= |ids|
  {
    if n == 0 then []
    else
      Copies(r, messages, ids, n - 1)
      + if Spent(r, messages[n - 1]) then [Message(ids[n - 1], messages[n - 1].data, "", r.now, r.now, 0)] else []
  }

  /** The reply and every subscription afterwards. */
  ghost predicate Delivers(s: State, name: string, r: Rules, ids: seq<string>, reply: seq<Message>, s': State)
    requires name in s.subs && |s.subs[name].messages| <= |ids|
  {
    var sub, n := s.subs[name], |s.subs[name].messages|;
    && Replies(r, sub.messages, ids, n, reply)
    && s'.topics == s.topics && s'.subs.Keys == s.subs.Keys
    && s'.subs[name] == sub.(messages := Left(r, sub.messages, ids, n))
    && forall other <- s.subs :: other != name ==>
         s'.subs[other] == (if s.subs[other].topic == sub.deadLetterTopic
                            then s.subs[other].(messages := s.subs[other].messages + Copies(r, sub.messages, ids, n))
                            else s.subs[other])
  }

  lemma {:induction false} RankGrows(r: Rules, messages: seq<Message>, i: nat, n: nat)
    requires i <= n <= |messages|
    ensures Rank(r, messages, i) <= Rank(r, messages, n)
    decreases n
  {
    if i < n { RankGrows(r, messages, i, n - 1); }
  }

  ghost predicate Agrees(r: Rules, p: Pulling) {
    && r.now == p.now && r.max == p.max && r.hiddenUntil == p.now + Seconds(p.deadline)
    && r.limit == if p.forwards then Some(p.maxAttempts) else None
  }

  /** The variables of the pull loop after `n` messages. */
  ghost predicate Progress(r: Rules, p: Pulling, messages: seq<Message>, n: nat, s: Scan)
    requires Agrees(r, p) && n <= |messages| <= |p.ids|
  {
    && Replies(r, messages, p.ids, n, s.result) && s.kept == Left(r, messages, p.ids, n)
    && s.forwarded == Copies(r, messages, p.ids, n)
    && (s.changed <==> s.result != [] || s.forwarded != [])
  }

  lemma FateIsDecided(r: Rules, p: Pulling, messages: seq<Message>, n: nat, s: Scan)
    requires Agrees(r, p) && n < |messages| <= |p.ids| && Progress(r, p, messages, n, s)
    ensures FateOf(p, s, messages[n]).Forwarded? <==> Spent(r, messages[n])
    ensures FateOf(p, s, messages[n]).Taken? <==> Returned(r, messages, n)
  {
    hide Left, Copies, Rank;
  }

  lemma RankStep(r: Rules, messages: seq<Message>, n: nat)
    requires n < |messages|
    ensures Rank(r, messages, n + 1) == Rank(r, messages, n) + if Eligible(r, messages[n]) then 1 else 0
  {
  }

  lemma RepliesAt(r: Rules, messages: seq<Message>, ids: seq<string>, n: nat, reply: seq<Message>, more: seq<Message>, i: nat)
    requires n < |messages| <= |ids| && Replies(r, messages, ids, n, reply) && i <= n
    requires more == if Returned(r, messages, n) then [Handed(r, messages[n], ids[n])] else []
    ensures |reply + more| == (if Rank(r, messages, n + 1) < r.max then Rank(r, messages, n + 1) else r.max)
    ensures Returned(r, messages, i) ==>
              Rank(r, messages, i) < |reply + more| && (reply + more)[Rank(r, messages, i)] == Handed(r, messages[i], ids[i])
  {
    hide Rank, Eligible, Handed;
    RankStep(r, messages, n);
    if i < n && Returned(r, messages, i) {
      assert reply[Rank(r, messages, i)] == Handed(r, messages[i], ids[i]);
    }
  }

  lemma RepliesStep(r: Rules, messages: seq<Message>, ids: seq<string>, n: nat, reply: seq<Message>)
    requires n < |messages| <= |ids| && Replies(r, messages, ids, n, reply)
    ensures Replies(r, messages, ids, n + 1, reply + if Returned(r, messages, n) then [Handed(r, messages[n], ids[n])] else [])
  {
    var more := if Returned(r, messages, n) then [Handed(r, messages[n], ids[n])] else [];
    hide Rank, Eligible, Handed, Returned;
    RepliesAt(r, messages, ids, n, reply, more, n);
    forall i: nat | i < n + 1 && Returned(r, messages, i)
      ensures Rank(r, messages, i) < |reply + more| && (reply + more)[Rank(r, messages, i)] == Handed(r, messages[i], ids[i])
    {
      RepliesAt(r, messages, ids, n, reply, more, i);
    }
  }

  lemma ProgressStep(r: Rules, p: Pulling, messages: seq<Message>, n: nat, s: Scan)
    requires Agrees(r, p) && n < |messages| <= |p.ids| && Progress(r, p, messages, n, s)
    ensures Progress(r, p, messages, n + 1, Visit(p, s, messages[n], p.ids[n]))
  {
    FateIsDecided(r, p, messages, n, s);
    RepliesStep(r, messages, p.ids, n, s.result);
    hide Replies, Returned, Spent, FateOf;
    assert s.result + [] == s.result && s.kept + [] == s.kept && s.forwarded + [] == s.forwarded;
  }

  lemma {:induction false} LoopProgresses(r: Rules, p: Pulling, messages: seq<Message>, n: nat)
    requires Agrees(r, p) && n <= |messages| <= |p.ids|
    ensures Progress(r, p, messages, n, ScanAll(p, messages[..n]))
  {
    if n == 0 {
    } else {
      hide Visit, Progress;
      LoopProgresses(r, p, messages, n - 1);
      assert messages[..n][..n - 1] == messages[..n - 1];
      ProgressStep(r, p, messages, n - 1, ScanAll(p, messages[..n - 1]));
    }
  }

  lemma PullDelivers(s: State, op: Op)
    requires op.Pull? && WellFormed(s, op) && op.name in s.subs && s.subs[op.name].topic != DELETED_TOPIC
    ensures var sub := s.subs[op.name];
            var r, scan := RulesOf(sub, op.max, op.deadline, op.now), ScanAll(Context(sub, op.max, op.deadline, op.now, op.ids), sub.messages);
            && Delivers(s, op.name, r, op.ids, scan.result, Perform(s, op).next)
            && (Perform(s, op).saves <==> scan.result != [] || Copies(r, sub.messages, op.ids, |sub.messages|) != [])
  {
    var sub := s.subs[op.name];
    var r, p := RulesOf(sub, op.max, op.deadline, op.now), Context(sub, op.max, op.deadline, op.now, op.ids);
    assert sub.messages[..|sub.messages|] == sub.messages;
    LoopProgresses(r, p, sub.messages, |sub.messages|);
    hide ScanAll, Replies, Left, Copies;
  }

  /* ------------------------------ Publish, acknowledge, modify ------------------------------ */

  /** Every subscription of the topic grows by the messages, each under its new id and visible at once. */
  ghost predicate Publishes(s: State, topic: string, messages: seq<Message>, now: int, ids: seq<string>, s': State)
    requires |messages| <= |ids|
  {
    && s'.topics == s.topics && s'.subs.Keys == s.subs.Keys
    && forall n <- s.subs ::
         var old', new' := s.subs[n].messages, s'.subs[n].messages;
         if s.subs[n].topic != topic then s'.subs[n] == s.subs[n]
         else
           && s'.subs[n] == s.subs[n].(messages := new') && |new'| == |old'| + |messages| && new'[..|old'|] == old'
           && forall i: nat :: i < |messages| ==>
                new'[|old'| + i] == Message(ids[i], messages[i].data, messages[i].ackId, now, now, messages[i].attempt)
  }

  lemma PublishPublishes(s: State, op: Op)
    requires op.Publish? && WellFormed(s, op) && op.topic in s.topics
    ensures Publishes(s, op.topic, op.messages, op.now, op.ids, Perform(s, op).next)
  {
  }

  /** How many of the first `n` messages are not acknowledged. */
  function Kept(messages: seq<Message>, acked: seq<string>, n: nat): nat
    requires n <= |messages|
  {
    if n == 0 then 0 else Kept(messages, acked, n - 1) + if messages[n - 1].ackId in acked then 0 else 1
  }

  /** Exactly those of the first `n` messages that are not acknowledged stay, in order. */
  ghost predicate AcknowledgesUpTo(before: seq<Message>, acked: seq<string>, n: nat, after: seq<Message>)
    requires n <= |before|
  {
    && |after| == Kept(before, acked, n)
    && forall i: nat :: i < n && before[i].ackId !in acked ==>
         Kept(before, acked, i) < |after| && after[Kept(before, acked, i)] == before[i]
  }

  ghost predicate Acknowledges(before: seq<Message>, acked: seq<string>, after: seq<Message>) {
    AcknowledgesUpTo(before, acked, |before|, after)
  }

  lemma KeptStep(messages: seq<Message>, acked: seq<string>, n: nat)
    requires n < |messages|
    ensures Kept(messages, acked, n + 1) == Kept(messages, acked, n) + if messages[n].ackId in acked then 0 else 1
  {
  }

  lemma AcknowledgesAt(before: seq<Message>, acked: seq<string>, n: nat, after: seq<Message>, more: seq<Message>, i: nat)
    requires n < |before| && AcknowledgesUpTo(before, acked, n, after) && i <= n
    requires more == if before[n].ackId in acked then [] else [before[n]]
    ensures |after + more| == Kept(before, acked, n + 1)
    ensures before[i].ackId !in acked ==>
              Kept(before, acked, i) < |after + more| && (after + more)[Kept(before, acked, i)] == before[i]
  {
    hide Kept;
    KeptStep(before, acked, n);
    if i < n && before[i].ackId !in acked {
      assert after[Kept(before, acked, i)] == before[i];
    }
  }

  lemma AcknowledgesStep(before: seq<Message>, acked: seq<string>, n: nat, after: seq<Message>, more: seq<Message>)
    requires n < |before| && AcknowledgesUpTo(before, acked, n, after)
    requires more == if before[n].ackId in acked then [] else [before[n]]
    ensures AcknowledgesUpTo(before, acked, n + 1, after + more)
  {
    hide Kept;
    AcknowledgesAt(before, acked, n, after, more, n);
    forall i: nat | i < n + 1 && before[i].ackId !in acked
      ensures Kept(before, acked, i) < |after + more| && (after + more)[Kept(before, acked, i)] == before[i]
    {
      AcknowledgesAt(before, acked, n, after, more, i);
    }
  }

  lemma UnackedSnoc(messages: seq<Message>, n: nat, acked: set<string>)
    requires n < |messages|
    ensures Unacked(messages[..n + 1], acked) == Unacked(messages[..n], acked) + if messages[n].ackId in acked then [] else [messages[n]]
  {
    assert messages[..n + 1][..n] == messages[..n];
  }

  lemma {:induction false} UnackedUpTo(messages: seq<Message>, acked: seq<string>, n: nat)
    requires n <= |messages|
    ensures AcknowledgesUpTo(messages, acked, n, Unacked(messages[..n], set id | id in acked))
  {
    if n == 0 {
    } else {
      UnackedUpTo(messages, acked, n - 1);
      UnackedSnoc(messages, n - 1, set id | id in acked);
      hide Unacked, AcknowledgesUpTo;
      var more := if messages[n - 1].ackId in acked then [] else [messages[n - 1]];
      AcknowledgesStep(messages, acked, n - 1, Unacked(messages[..n - 1], set id | id in acked), more);
    }
  }

  lemma UnackedAcknowledges(messages: seq<Message>, acked: seq<string>)
    ensures Acknowledges(messages, acked, Unacked(messages, set id | id in acked))
  {
    UnackedUpTo(messages, acked, |messages|);
    assert messages[..|messages|] == messages;
  }

  /** The last entry for the message's ack id decides its new deadline; without one it stays as it was. */
  ghost predicate Redated(ackIds: seq<string>, seconds: seq<int>, now: int, m: Message, m': Message) {
    && (m.ackId !in ackIds ==> m' == m)
    && forall k: nat :: k < |ackIds| && ackIds[k] == m.ackId && m.ackId !in ackIds[k + 1..] ==>
         m' == m.(visibleAt := now + 1_000_000_000 * (if |seconds| == 1 then seconds[0] else if k < |seconds| then seconds[k] else 0))
  }

  lemma {:induction false} LastEntryCounts(ackIds: seq<string>, seconds: seq<int>, k: nat)
    requires k < |ackIds| && ackIds[k] !in ackIds[k + 1..]
    ensures ackIds[k] in Deadlines(ackIds, seconds)
    ensures Deadlines(ackIds, seconds)[ackIds[k]] == if |seconds| == 1 then seconds[0] else if k < |seconds| then seconds[k] else 0
  {
    var n := |ackIds| - 1;
    if k < n {
      assert ackIds[k + 1..][n - k - 1] == ackIds[n];
      assert ackIds[..n][k + 1..] == ackIds[k + 1..n] == ackIds[k + 1..][..n - k - 1];
      LastEntryCounts(ackIds[..n], seconds, k);
    }
  }

  lemma {:induction false} OnlyEntriesCount(ackIds: seq<string>, seconds: seq<int>, id: string)
    ensures id in Deadlines(ackIds, seconds) <==> id in ackIds
  {
    if ackIds != [] {
      OnlyEntriesCount(ackIds[..|ackIds| - 1], seconds, id);
      assert ackIds == ackIds[..|ackIds| - 1] + [ackIds[|ackIds| - 1]];
    }
  }

  lemma ExtendedRedates(messages: seq<Message>, ackIds: seq<string>, seconds: seq<int>, now: int, i: nat)
    requires i < |messages|
    ensures Redated(ackIds, seconds, now, messages[i], Extended(messages, Deadlines(ackIds, seconds), now)[i])
  {
    var m := messages[i];
    OnlyEntriesCount(ackIds, seconds, m.ackId);
    forall k: nat | k < |ackIds| && ackIds[k] == m.ackId && m.ackId !in ackIds[k + 1..]
      ensures Deadlines(ackIds, seconds)[m.ackId] == if |seconds| == 1 then seconds[0] else if k < |seconds| then seconds[k] else 0
    {
      LastEntryCounts(ackIds, seconds, k);
    }
  }

  /* ------------------------------ Deadlines over runs ------------------------------ */

  /** What a pull would return, were its save to go through. */
  ghost function Reply(s: State, op: Op): seq<Message>
    requires op.Pull? && WellFormed(s, op) && op.name in s.subs
  {
    ScanAll(Context(s.subs[op.name], op.max, op.deadline, op.now, op.ids), s.subs[op.name].messages).result
  }

  /** No message with this id becomes visible in the subscription before `time`. */
  ghost predicate HiddenUntil(s: State, name: string, id: string, time: int) {
    name in s.subs ==> forall m <- s.subs[name].messages :: m.id == id ==> m.visibleAt >= time
  }

  /** The operation draws other ids, changes no deadline of the message, loads no snapshot, and if it
      pulls from the subscription, does so before `time`. */
  ghost predicate Spares(s: State, op: Op, name: string, id: string, time: int) {
    && ((op.Publish? || op.Pull?) ==> id !in op.ids)
    && (op.Modify? && op.name == name && name in s.subs ==> forall m <- s.subs[name].messages :: m.ackId in op.handles ==> m.id != id)
    && (op.Pull? && op.name == name ==> op.now < time)
    && !op.LoadSnapshot?
  }

  lemma {:induction false} LeftStaysHidden(r: Rules, messages: seq<Message>, ids: seq<string>, n: nat, id: string, time: int)
    requires n <= |messages| <= |ids| && r.now < time
    requires forall m <- messages :: m.id == id ==> m.visibleAt >= time
    ensures forall m <- Left(r, messages, ids, n) :: m.id == id ==> m.visibleAt >= time
  {
    if n > 0 { LeftStaysHidden(r, messages, ids, n - 1, id, time); }
  }

  lemma {:induction false} CopiesAreNew(r: Rules, messages: seq<Message>, ids: seq<string>, n: nat)
    requires n <= |messages| <= |ids|
    ensures forall m <- Copies(r, messages, ids, n) :: m.id in ids
  {
    if n > 0 { CopiesAreNew(r, messages, ids, n - 1); }
  }

  lemma PullKeepsHidden(s: State, op: Op, name: string, id: string, time: int)
    requires op.Pull? && WellFormed(s, op) && Spares(s, op, name, id, time) && HiddenUntil(s, name, id, time)
    ensures HiddenUntil(Perform(s, op).next, name, id, time)
  {
    if op.name in s.subs && s.subs[op.name].topic != DELETED_TOPIC && name in s.subs {
      PullDelivers(s, op);
      hide Perform, ScanAll, Replies, Left, Copies;
      var sub := s.subs[op.name];
      var r := RulesOf(sub, op.max, op.deadline, op.now);
      CopiesAreNew(r, sub.messages, op.ids, |sub.messages|);
      if op.name == name { LeftStaysHidden(r, sub.messages, op.ids, |sub.messages|, id, time); }
    }
  }

  lemma ModifyKeepsHidden(s: State, op: Op, name: string, id: string, time: int)
    requires op.Modify? && Spares(s, op, name, id, time) && HiddenUntil(s, name, id, time)
    ensures HiddenUntil(Perform(s, op).next, name, id, time)
  {
    if op.name == name && name in s.subs {
      var messages := s.subs[name].messages;
      var messages' := Extended(messages, Deadlines(op.handles, op.seconds), op.now);
      forall i: nat | i < |messages| ensures messages'[i].id == id ==> messages'[i].visibleAt >= time {
        assert messages[i] in messages;
        ExtendedRedates(messages, op.handles, op.seconds, op.now, i);
        OnlyEntriesCount(op.handles, op.seconds, messages[i].ackId);
      }
    }
  }

  lemma PerformKeepsHidden(s: State, op: Op, name: string, id: string, time: int)
    requires WellFormed(s, op) && Spares(s, op, name, id, time) && HiddenUntil(s, name, id, time)
    ensures HiddenUntil(Perform(s, op).next, name, id, time)
  {
    hide ScanAll, Unacked, Extended, Deadlines;
    if op.Pull? {
      PullKeepsHidden(s, op, name, id, time);
    } else if op.Modify? {
      ModifyKeepsHidden(s, op, name, id, time);
    } else if op.Ack? && op.name == name && name in s.subs {
      forall m | m in Unacked(s.subs[name].messages, op.ackIds) ensures m in s.subs[name].messages {
        UnackedKeeps(s.subs[name].messages, op.ackIds, m);
      }
    }
  }

  lemma {:induction false} StaysHidden(states: seq<Store<State>>, steps: seq<Step<Op>>, name: string, id: string, time: int, i: nat, j: nat)
    requires IsRun(Perform, states, steps) && i <= j <= |steps|
    requires HiddenUntil(states[i].live, name, id, time) && HiddenUntil(states[i].committed, name, id, time)
    requires forall k: nat :: i <= k < j ==> Spares(states[k].live, steps[k].op, name, id, time)
    ensures HiddenUntil(states[j].live, name, id, time) && HiddenUntil(states[j].committed, name, id, time)
    decreases j
  {
    if i < j {
      hide Perform, HiddenUntil, Spares;
      StaysHidden(states, steps, name, id, time, i, j - 1);
      assert StepAt(Perform, states, steps, j - 1);
      PerformKeepsHidden(states[j - 1].live, steps[j - 1].op, name, id, time);
    }
  }

  /** The subscription's messages with this id are the one at index `i`. */
  ghost predicate OnlyAt(messages: seq<Message>, id: string, i: nat) {
    i < |messages| && forall j :: 0 <= j < |messages| ==> (messages[j].id == id <==> j == i)
  }

  lemma {:induction false} ReplyIsReturned(r: Rules, messages: seq<Message>, ids: seq<string>, n: nat, reply: seq<Message>, k: nat) returns (i: nat)
    requires n <= |messages| <= |ids| && Replies(r, messages, ids, n, reply) && k < |reply|
    ensures i < n && Returned(r, messages, i) && Rank(r, messages, i) == k
    decreases n
  {
    hide Eligible;
    i := n - 1;
    if !(Eligible(r, messages[i]) && Rank(r, messages, i) == k) {
      var shorter := if Rank(r, messages, i) < |reply| then reply[..Rank(r, messages, i)] else reply;
      forall j: nat | j < i ensures Rank(r, messages, j) <= Rank(r, messages, i)
        && (Eligible(r, messages[j]) ==> Rank(r, messages, j) < Rank(r, messages, i)) {
        RankGrows(r, messages, j, i);
        RankGrows(r, messages, j + 1, i);
      }
      i := ReplyIsReturned(r, messages, ids, n - 1, shorter, k);
    }
  }

  lemma {:induction false} ReturnedIsHidden(r: Rules, messages: seq<Message>, ids: seq<string>, n: nat, id: string, i: nat)
    requires n <= |messages| <= |ids| && OnlyAt(messages, id, i) && Returned(r, messages, i)
    ensures forall m <- Left(r, messages, ids, n) :: m.id == id ==> m.visibleAt >= r.hiddenUntil
  {
    if n > 0 { ReturnedIsHidden(r, messages, ids, n - 1, id, i); }
  }

  lemma PullHides(s: State, op: Op, id: string, i: nat, k: nat)
    requires op.Pull? && WellFormed(s, op) && op.name in s.subs && s.subs[op.name].topic != DELETED_TOPIC
    requires OnlyAt(s.subs[op.name].messages, id, i) && k < |Reply(s, op)| && Reply(s, op)[k].id == id
    ensures var sub := s.subs[op.name];
            HiddenUntil(Perform(s, op).next, op.name, id,
                        op.now + 1_000_000_000 * (if op.deadline <= 0 then sub.ackDeadline else op.deadline))
    ensures Perform(s, op).saves
  {
    var sub := s.subs[op.name];
    var r := RulesOf(sub, op.max, op.deadline, op.now);
    PullDelivers(s, op);
    hide ScanAll, Left, Copies, Perform, Rank;
    var i' := ReplyIsReturned(r, sub.messages, op.ids, |sub.messages|, Reply(s, op), k);
    ReturnedIsHidden(r, sub.messages, op.ids, |sub.messages|, id, i);
  }

  /** The acknowledgement deadline: after a saved pull returned a message, no pull from the subscription
      returns it again before the deadline, unless that is changed or the message loaded from a snapshot. */
  lemma NotRedeliveredInTime(
    states: seq<Store<State>>, steps: seq<Step<Op>>, name: string, id: string, at: nat, first: nat, i: nat, j: nat, k: nat)
    requires IsRun(Perform, states, steps) && i < j < |steps| && steps[i].saved
    requires steps[i].op.Pull? && steps[j].op.Pull? && steps[i].op.name == steps[j].op.name == name
    requires WellFormed(states[i].live, steps[i].op) && WellFormed(states[j].live, steps[j].op)
    requires name in states[i].live.subs && states[i].live.subs[name].topic != DELETED_TOPIC
    requires name in states[j].live.subs && states[j].live.subs[name].topic != DELETED_TOPIC
    requires OnlyAt(states[i].live.subs[name].messages, id, at)
    requires first < |Reply(states[i].live, steps[i].op)| && Reply(states[i].live, steps[i].op)[first].id == id
    requires k < |Reply(states[j].live, steps[j].op)|
    requires var op, own := steps[i].op, states[i].live.subs[name].ackDeadline;
             var time := op.now + 1_000_000_000 * (if op.deadline <= 0 then own else op.deadline);
             && (forall l: nat :: i < l < j ==> Spares(states[l].live, steps[l].op, name, id, time))
             && steps[j].op.now < time
    ensures Reply(states[j].live, steps[j].op)[k].id != id
  {
    var op, own := steps[i].op, states[i].live.subs[name].ackDeadline;
    var time := op.now + 1_000_000_000 * (if op.deadline <= 0 then own else op.deadline);
    assert StepAt(Perform, states, steps, i);
    hide Perform, Spares, OnlyAt, ScanAll;
    PullHides(states[i].live, op, id, at, first);
    StaysHidden(states, steps, name, id, time, i + 1, j);
    var s', op' := states[j].live, steps[j].op;
    var messages := s'.subs[name].messages;
    PullDelivers(s', op');
    hide Left, Copies, Rank;
    var from := ReplyIsReturned(RulesOf(s'.subs[name], op'.max, op'.deadline, op'.now), messages, op'.ids, |messages|, Reply(s', op'), k);
    assert messages[from] in messages;
  }
}
