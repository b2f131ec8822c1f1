/** The store's Pub/Sub methods: message lists rewritten in place by loops. */
module PubSubService {
  import opened Common
  import opened Durable
  import opened PubSub
  import PubSubDelivery

  datatype Error = TopicNotFound | SubscriptionNotFound | SaveFailed

  class PubSubStore {
    var state: State
    var committed: State

    ghost function Now(): Store<State>
      reads this
    {
      Store(state, committed)
    }

    constructor ()
      ensures Now() == Store(State({}, map[]), State({}, map[]))
    {
      state, committed := State({}, map[]), State({}, map[]);
    }

    method Save(ok: bool)
      modifies this
      ensures Now() == Settle(old(Now()), Write(old(state), true), ok)
    {
      if ok {
        committed := state;
      } else {
        state := committed;
      }
    }

    /** Appends to every subscription of the topic, in whatever order the map yields them. */
    static method AppendToTopic(subs: map<string, Subscription>, topic: string, more: seq<Message>) returns (r: map<string, Subscription>)
      ensures r == map n | n in subs :: Appended(subs[n], topic, more)
    {
      r := subs;
      var todo := subs.Keys;
      while todo != {}
        invariant todo <= subs.Keys && r.Keys == subs.Keys
        invariant forall n <- subs :: r[n] == if n in todo then subs[n] else Appended(subs[n], topic, more)
        decreases |todo|
      {
        var n :| n in todo;
        todo := todo - {n};
        if r[n].topic == topic {
          r := r[n := r[n].(messages := r[n].messages + more)];
        }
      }
    }

    method Publish(topic: string, messages: seq<Message>, now: int, ids: seq<string>, saveOk: bool) returns (error: Option<Error>)
      requires |messages| <= |ids|
      modifies this
      ensures Now() == Settle(old(Now()), Perform(old(state), Op.Publish(topic, messages, now, ids)), saveOk)
      ensures error == if topic !in old(state.topics) then Some(TopicNotFound) else if saveOk then None else Some(SaveFailed)
      ensures error.None? ==> PubSubDelivery.Publishes(old(state), topic, messages, now, ids, state) && committed == state
    {
      if topic !in state.topics {
        return Some(TopicNotFound);
      }
      var stamped: seq<Message>, i := [], 0;
      while i < |messages|
        invariant i <= |messages| && |stamped| == i
        invariant forall j :: 0 <= j < i ==> stamped[j] == Stamped(messages[j], now, ids[j])
      {
        stamped := stamped + [messages[i].(id := ids[i], publishTime := now, visibleAt := now)];
        i := i + 1;
      }
      assert stamped == StampAll(messages, now, ids);
      var subs := AppendToTopic(state.subs, topic, stamped);
      state := state.(subs := subs);
      Save(saveOk);
      error := if saveOk then None else Some(SaveFailed);
    }

    /** The pull loop, on the live subscriptions: an exhausted message is copied to every subscription
        of the dead-letter topic at once, a delivered one is changed in place. */
    method PullMessages(name: string, p: Pulling) returns (kept: seq<Message>, result: seq<Message>, changed: bool)
      requires name in state.subs && |state.subs[name].messages| <= |p.ids|
      modifies this
      ensures state == old(state).(subs := state.subs) && committed == old(committed) && name in state.subs
      ensures var s := ScanAll(p, old(state.subs)[name].messages);
              && kept == s.kept && result == s.result && changed == s.changed
              && state.subs[name := state.subs[name].(messages := kept)] == AfterPull(old(state.subs), name, s)
    {
      hide ScanAll, Pulled;
      ghost var before := state.subs;
      var deadLetterTopic, count := state.subs[name].deadLetterTopic, |state.subs[name].messages|;
      kept, result, changed := [], [], false;
      ghost var forwarded: seq<Message> := [];
      var i := 0;
      PulledNone(before, name, p);
      while i < count
        invariant i <= count && state == old(state).(subs := state.subs) && committed == old(committed)
        invariant Pulled(before, name, p, i, state.subs, Scan(kept, result, forwarded, changed))
      {
        PulledStep(before, name, p, i, state.subs, Scan(kept, result, forwarded, changed));
        var m := state.subs[name].messages[i];
        if Exhausted(p, m) {
          var copy := m.(id := p.ids[i], ackId := "", publishTime := p.now, visibleAt := p.now, attempt := 0);
          var subs := AppendToTopic(state.subs, deadLetterTopic, [copy]);
          state, changed, forwarded := state.(subs := subs), true, forwarded + [copy];
        } else if |result| < p.max && m.visibleAt <= p.now {
          m := m.(attempt := m.attempt + 1, ackId := p.ids[i], visibleAt := p.now + Seconds(p.deadline));
          state := state.(subs := WithMessage(state.subs, name, i, m));
          result, changed, kept := result + [m], true, kept + [m];
        } else {
          kept := kept + [m];
        }
        i := i + 1;
      }
      PulledAll(before, name, p, state.subs, Scan(kept, result, forwarded, changed));
    }

    method Pull(name: string, max: int, deadline: int, now: int, ids: seq<string>, saveOk: bool) returns (r: Result<seq<Message>, Error>)
      requires name in state.subs ==> |state.subs[name].messages| <= |ids|
      modifies this
      ensures Now() == Settle(old(Now()), Perform(old(state), Op.Pull(name, max, deadline, now, ids)), saveOk)
      ensures name !in old(state.subs) ==> r == Err(SubscriptionNotFound)
      ensures name in old(state.subs) && old(state.subs)[name].topic == DELETED_TOPIC ==> r == Err(TopicNotFound)
      ensures name in old(state.subs) && old(state.subs)[name].topic != DELETED_TOPIC ==>
                var sub := old(state.subs)[name];
                var s := ScanAll(Context(sub, max, deadline, now, ids), sub.messages);
                r == if s.changed && !saveOk then Err(SaveFailed) else Ok(s.result)
      ensures r.Ok? ==>
                PubSubDelivery.Delivers(
                  old(state), name, PubSubDelivery.RulesOf(old(state.subs)[name], max, deadline, now), ids, r.value, state)
    {
      if name !in state.subs {
        return Err(SubscriptionNotFound);
      }
      var sub := state.subs[name];
      if sub.topic == DELETED_TOPIC {
        return Err(TopicNotFound);
      }
      PubSubDelivery.PullDelivers(state, Op.Pull(name, max, deadline, now, ids));
      var kept, result, changed := PullMessages(name, Context(sub, max, deadline, now, ids));
      state := state.(subs := state.subs[name := state.subs[name].(messages := kept)]);
      if changed {
        Save(saveOk);
        if !saveOk {
          return Err(SaveFailed);
        }
      }
      r := Ok(result);
    }

    method Acknowledge(name: string, ackIds: seq<string>, saveOk: bool) returns (error: Option<Error>)
      modifies this
      ensures Now() == Settle(old(Now()), Perform(old(state), Ack(name, set id | id in ackIds)), saveOk)
      ensures error == if name !in old(state.subs) then Some(SubscriptionNotFound) else if saveOk then None else Some(SaveFailed)
      ensures error.None? ==>
                && name in state.subs && state == old(state).(subs := old(state.subs)[name := state.subs[name]]) && committed == state
                && PubSubDelivery.Acknowledges(old(state.subs)[name].messages, ackIds, state.subs[name].messages)
    {
      if name !in state.subs {
        return Some(SubscriptionNotFound);
      }
      PubSubDelivery.UnackedAcknowledges(state.subs[name].messages, ackIds);
      var acked := set id | id in ackIds;
      var messages := state.subs[name].messages;
      var slice := new Message[|messages|](i requires 0 <= i < |messages| => messages[i]);
      assert slice[..] == messages;
      var n := Compact(slice, acked);
      state := state.(subs := state.subs[name := state.subs[name].(messages := slice[..n])]);
      Save(saveOk);
      error := if saveOk then None else Some(SaveFailed);
    }

    static method Extend(before: seq<Message>, deadlines: map<string, int>, now: int) returns (messages: seq<Message>)
      ensures messages == Extended(before, deadlines, now)
    {
      messages := before;
      var j := 0;
      while j < |messages|
        invariant j <= |messages| == |before|
        invariant forall k :: 0 <= k < j ==> messages[k] == Extended(before, deadlines, now)[k]
        invariant forall k :: j <= k < |before| ==> messages[k] == before[k]
      {
        if messages[j].ackId in deadlines {
          messages := messages[j := messages[j].(visibleAt := now + Seconds(deadlines[messages[j].ackId]))];
        }
        j := j + 1;
      }
    }

    method ModifyAckDeadline(name: string, ackIds: seq<string>, seconds: seq<int>, now: int, saveOk: bool) returns (error: Option<Error>)
      modifies this
      ensures Now() == Settle(old(Now()), Perform(old(state), Modify(name, ackIds, seconds, now)), saveOk)
      ensures error == if name !in old(state.subs) then Some(SubscriptionNotFound) else if saveOk then None else Some(SaveFailed)
      ensures error.None? ==>
                && name in state.subs && state == old(state).(subs := old(state.subs)[name := state.subs[name]]) && committed == state
                && |state.subs[name].messages| == |old(state.subs)[name].messages|
                && forall i: nat :: i < |state.subs[name].messages| ==>
                     PubSubDelivery.Redated(ackIds, seconds, now, old(state.subs)[name].messages[i], state.subs[name].messages[i])
    {
      if name !in state.subs {
        return Some(SubscriptionNotFound);
      }
      var deadlines: map<string, int>, i := map[], 0;
      while i < |ackIds|
        invariant i <= |ackIds| && deadlines == Deadlines(ackIds[..i], seconds)
      {
        assert ackIds[..i + 1][..i] == ackIds[..i];
        deadlines := deadlines[ackIds[i] := if |seconds| == 1 then seconds[0] else if i < |seconds| then seconds[i] else 0];
        i := i + 1;
      }
      assert ackIds[..i] == ackIds;
      var messages := Extend(state.subs[name].messages, deadlines, now);
      forall i: nat | i < |messages| ensures PubSubDelivery.Redated(ackIds, seconds, now, state.subs[name].messages[i], messages[i]) {
        PubSubDelivery.ExtendedRedates(state.subs[name].messages, ackIds, seconds, now, i);
      }
      state := state.(subs := state.subs[name := state.subs[name].(messages := messages)]);
      Save(saveOk);
      error := if saveOk then None else Some(SaveFailed);
    }
  }

  /** The live message changed through its pointer. */
  function WithMessage(subs: map<string, Subscription>, name: string, i: nat, m: Message): map<string, Subscription>
    requires name in subs && i < |subs[name].messages|
  {
    subs[name := subs[name].(messages := subs[name].messages[i := m])]
  }

  /** The live subscriptions after `i` iterations of the pull loop: every other one has received the
      copies so far if it belongs to the dead-letter topic, and the messages still to come are as
      they were. */
  ghost predicate Pulled(before: map<string, Subscription>, name: string, p: Pulling, i: nat, subs: map<string, Subscription>, s: Scan) {
    && name in before && i <= |before[name].messages| <= |p.ids| && s == ScanAll(p, before[name].messages[..i])
    && subs.Keys == before.Keys && subs[name] == before[name].(messages := subs[name].messages)
    && |subs[name].messages| >= |before[name].messages|
    && (forall k :: i <= k < |before[name].messages| ==> subs[name].messages[k] == before[name].messages[k])
    && forall n <- before :: n != name ==> subs[n] == Appended(before[n], before[name].deadLetterTopic, s.forwarded)
  }

  /** Appending one copy more to every subscription of the topic. */
  function Grown(subs: map<string, Subscription>, topic: string, copy: Message): map<string, Subscription> {
    map n | n in subs :: Appended(subs[n], topic, [copy])
  }

  lemma PulledNone(before: map<string, Subscription>, name: string, p: Pulling)
    requires name in before && |before[name].messages| <= |p.ids|
    ensures Pulled(before, name, p, 0, before, Scan([], [], [], false))
  {
    assert before[name].messages[..0] == [];
    assert forall n <- before :: before[n].messages + [] == before[n].messages;
  }

  lemma PulledStep(before: map<string, Subscription>, name: string, p: Pulling, i: nat, subs: map<string, Subscription>, s: Scan)
    requires Pulled(before, name, p, i, subs, s) && i < |before[name].messages|
    ensures name in subs && i < |subs[name].messages|
    ensures var m, id := before[name].messages[i], p.ids[i];
            && subs[name].messages[i] == m
            && (Exhausted(p, m) ==>
                  Pulled(before, name, p, i + 1, Grown(subs, before[name].deadLetterTopic, Copy(p, m, id)),
                         s.(forwarded := s.forwarded + [Copy(p, m, id)], changed := true)))
            && (!Exhausted(p, m) && |s.result| < p.max && m.visibleAt <= p.now ==>
                  Pulled(before, name, p, i + 1, WithMessage(subs, name, i, Delivery(p, m, id)),
                         Scan(s.kept + [Delivery(p, m, id)], s.result + [Delivery(p, m, id)], s.forwarded, true)))
            && (!Exhausted(p, m) && !(|s.result| < p.max && m.visibleAt <= p.now) ==>
                  Pulled(before, name, p, i + 1, subs, s.(kept := s.kept + [m])))
  {
    hide Exhausted;
    var messages := before[name].messages;
    assert messages[..i + 1][..i] == messages[..i];
    assert ScanAll(p, messages[..i + 1]) == Visit(p, s, messages[i], p.ids[i]);
    hide ScanAll;
    var copy := Copy(p, messages[i], p.ids[i]);
    forall n | n in before && n != name
      ensures Appended(Appended(before[n], before[name].deadLetterTopic, s.forwarded), before[name].deadLetterTopic, [copy])
              == Appended(before[n], before[name].deadLetterTopic, s.forwarded + [copy])
    {
      assert before[n].messages + s.forwarded + [copy] == before[n].messages + (s.forwarded + [copy]);
    }
  }

  /** The loop's in-place changes amount to `AfterPull`. */
  lemma PulledAll(before: map<string, Subscription>, name: string, p: Pulling, subs: map<string, Subscription>, s: Scan)
    requires name in before && Pulled(before, name, p, |before[name].messages|, subs, s)
    ensures name in subs && s == ScanAll(p, before[name].messages)
    ensures subs[name := subs[name].(messages := s.kept)] == AfterPull(before, name, s)
  {
    hide ScanAll;
    assert before[name].messages[..|before[name].messages|] == before[name].messages;
  }

  /** The in-place filter of `AckPubSub`: kept messages move to the front of the same slice. */
  method Compact(a: array<Message>, acked: set<string>) returns (n: nat)
    modifies a
    ensures n <= a.Length && a[..n] == Unacked(old(a[..]), acked)
  {
    n := 0;
    var i := 0;
    while i < a.Length
      invariant n <= i <= a.Length
      invariant a[..n] == Unacked(old(a[..])[..i], acked)
      invariant forall k :: i <= k < a.Length ==> a[k] == old(a[k])
    {
      assert old(a[..])[..i + 1][..i] == old(a[..])[..i];
      if a[i].ackId !in acked {
        a[n] := a[i];
        n := n + 1;
      }
      i := i + 1;
    }
    assert old(a[..])[..i] == old(a[..]);
  }
}
