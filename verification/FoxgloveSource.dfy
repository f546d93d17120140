/** The stream source object: its fields and the methods that update them, against the session steps. */
module FoxgloveSource {
  import opened Slices
  import opened Wrappers
  import opened FoxgloveProtocol
  import opened FoxgloveSubscription
  import opened FoxgloveSession
  import opened FoxgloveRuns
  import opened OrderedKeys

  /** Iterating the key list: the next key is live, not yet visited, and extends the visited set. */
  lemma HeldOnce(gone: set<SubId>, before: set<SubId>, k: SubId)
    ensures SameValue(gone * (before + {k}), if k in gone then gone * before + {k} else gone * before)
  {
    assert gone * (before + {k}) == if k in gone then gone * before + {k} else gone * before;
  }

  lemma NextKey(subs: map<SubId, ChannelId>, id: ChannelId, keys: seq<SubId>, i: nat)
    requires keys == SortedSubs(subs.Keys) && i < |keys|
    ensures keys[i] in subs && keys[i] !in Elements(keys[..i])
    ensures var gone := Holding(subs, id);
            SameValue(gone * Elements(keys[..i + 1]),
                 if subs[keys[i]] == id then gone * Elements(keys[..i]) + {keys[i]} else gone * Elements(keys[..i]))
  {
    assert keys[i] in Elements(keys);
    LastIsNew(keys[..i + 1]);
    PrefixOfPrefix(keys, i + 1, i);
    HeldOnce(Holding(subs, id), Elements(keys[..i]), keys[i]);
  }

  lemma AllGone(subs: map<SubId, ChannelId>, id: ChannelId)
    ensures SameValue(Holding(subs, id) * Elements(SortedSubs(subs.Keys)), Holding(subs, id))
  {
    assert Holding(subs, id) * Elements(SortedSubs(subs.Keys)) == Holding(subs, id);
  }

  lemma NoneHeld(gone: set<SubId>, keys: seq<SubId>)
    requires |keys| == 0
    ensures SameValue({}, gone * Elements(keys))
  {
    assert gone * Elements(keys) == {};
  }

  lemma NothingErased<V>(m: map<SubId, V>)
    ensures SameValue(m - {}, m)
  {
    assert m - {} == m;
  }

  lemma EraseOne<V>(m: map<SubId, V>, erased: set<SubId>, k: SubId)
    ensures SameValue((m - erased) - {k}, m - (erased + {k}))
  {
    assert (m - erased) - {k} == m - (erased + {k});
  }

  class FoxgloveSource {
    var selectedChannels: seq<ChannelInfo>
    var advertisedChannels: map<ChannelId, ChannelInfo>
    var subscriptions: map<SubId, ChannelId>
    var bindingBySubscription: map<SubId, Handle>
    var nextSubscriptionId: SubId
    var lastAppliedDesired: set<string>
    var connected: bool
    var reconnectPending: bool
    var reconnectTick: nat
    var textQueue: seq<Text>
    var messageQueue: seq<Binary>
    var desiredTopicsSlot: Option<set<string>>
    /** Frames sent, notices handled, ids allocated, bindings made and messages pushed since the last reset. */
    ghost var log: seq<Entry>

    ghost function Tables(): Session
      reads this
    {
      Session(advertisedChannels, subscriptions, bindingBySubscription, nextSubscriptionId, lastAppliedDesired, log)
    }

    ghost function View(): Source
      reads this
    {
      Source(selectedChannels, Tables(), connected, reconnectPending, reconnectTick, textQueue, messageQueue,
             desiredTopicsSlot)
    }

    constructor ()
      ensures Started(View()) && !connected && selectedChannels == [] && desiredTopicsSlot == None
    {
      selectedChannels, advertisedChannels := [], map[];
      subscriptions, bindingBySubscription, nextSubscriptionId := map[], map[], 1;
      lastAppliedDesired, desiredTopicsSlot := {}, None;
      connected, reconnectPending, reconnectTick := false, false, 0;
      textQueue, messageQueue := [], [];
      log := [];
    }

    /** onStart against a host that accepts the topic advertisement; `seed` is what the dialog discovered. */
    method OnStart(selected: seq<ChannelInfo>, seed: seq<ChannelInfo>)
      requires Started(View())
      modifies `selectedChannels, `advertisedChannels, `connected
      ensures Started(View()) && connected && selectedChannels == selected
      ensures advertisedChannels == Announced(old(advertisedChannels), seed)
    {
      selectedChannels := selected;
      for i := 0 to |seed|
        invariant advertisedChannels == Announced(old(advertisedChannels), seed[..i])
        modifies `advertisedChannels
      {
        PrefixOfPrefix(seed, i + 1, i);
        advertisedChannels := advertisedChannels[seed[i].id := seed[i]];
      }
      Whole(seed);
      AnnouncedKeyed(old(advertisedChannels), seed);
      connected := true;
    }

    // ----- callback threads: enqueue only -----

    method OnText(text: Text)
      modifies `textQueue
      ensures View() == Step(old(View()), TextArrived(text))
    {
      textQueue := textQueue + [text];
    }

    method OnBinaryMessage(msg: Binary)
      modifies `messageQueue
      ensures View() == Step(old(View()), BinaryArrived(msg))
    {
      messageQueue := messageQueue + [msg];
    }

    method SetActiveTopics(topics: set<string>)
      modifies `desiredTopicsSlot
      ensures View() == Step(old(View()), DesiredWritten(topics))
    {
      desiredTopicsSlot := Some(topics);
    }

    method OnDisconnected()
      modifies `connected
      ensures View() == Step(old(View()), Disconnected)
    {
      if connected {
        connected := false;
      }
    }

    // ----- poll thread -----

    method BindChannel(ch: ChannelInfo, subId: SubId, host: Host)
      modifies `bindingBySubscription, `log
      ensures match host(subId, ch)
              case None => bindingBySubscription == old(bindingBySubscription) && log == old(log)
              case Some(h) => bindingBySubscription == old(bindingBySubscription)[subId := h]
                              && log == old(log) + [Bound(subId, ch, h)]
    {
      var binding := host(subId, ch);
      if binding.Some? {
        bindingBySubscription := bindingBySubscription[subId := binding.value];
        log := log + [Bound(subId, ch, binding.value)];
      }
    }

    method RegisterSubscription(ch: ChannelInfo, host: Host) returns (subId: SubId)
      modifies `subscriptions, `bindingBySubscription, `nextSubscriptionId, `log
      ensures Tables() == Register(old(Tables()), ch, host)
      ensures subId == old(nextSubscriptionId)
    {
      subId := nextSubscriptionId;
      nextSubscriptionId := (nextSubscriptionId + 1) % ID_RANGE;
      subscriptions := subscriptions[subId := ch.id];
      log := log + [Allocated(subId, ch.id)];
      BindChannel(ch, subId, host);
    }

    method DropSubscriptions(ids: seq<SubId>)
      modifies `subscriptions, `bindingBySubscription, `log
      ensures Tables() == Drop(old(Tables()), ids)
    {
      if ids != [] {
        log := log + [Sent(Unsubscribe(ids))];
        for i := 0 to |ids|
          invariant subscriptions == old(subscriptions) - Elements(ids[..i])
          invariant bindingBySubscription == old(bindingBySubscription) - Elements(ids[..i])
          modifies `subscriptions, `bindingBySubscription
        {
          OneMore(ids, i);
          ElementsOfConcat(ids[..i], [ids[i]]);
          subscriptions := subscriptions - {ids[i]};
          bindingBySubscription := bindingBySubscription - {ids[i]};
        }
        Whole(ids);
      }
    }

    method AddSubscriptions(ids: seq<ChannelId>, host: Host)
      modifies `subscriptions, `bindingBySubscription, `nextSubscriptionId, `log
      ensures Tables() == Add(old(Tables()), ids, host)
    {
      var toSend: seq<(SubId, ChannelId)> := [];
      for i := 0 to |ids|
        invariant (Tables(), toSend) == RegisterAll(old(Tables()), ids[..i], host)
      {
        PrefixOfPrefix(ids, i + 1, i);
        if ids[i] in advertisedChannels {
          var subId := RegisterSubscription(advertisedChannels[ids[i]], host);
          toSend := toSend + [(subId, ids[i])];
        }
      }
      Whole(ids);
      if toSend != [] {
        log := log + [Sent(Subscribe(toSend))];
      }
    }

    method ReconcileSubscriptions(host: Host)
      modifies `subscriptions, `bindingBySubscription, `nextSubscriptionId, `log
      ensures Tables() == Reconcile(old(Tables()), selectedChannels, host)
    {
      var topics := FilteredAdvertisedTopics(advertisedChannels, selectedChannels);
      var diff := ComputeSubscriptionDiff(subscriptions, topics, lastAppliedDesired);
      DropSubscriptions(diff.toUnsubscribe);
      AddSubscriptions(diff.toSubscribe, host);
    }

    method ApplyDesiredTopics(host: Host)
      requires connected
      modifies `subscriptions, `bindingBySubscription, `nextSubscriptionId, `log, `lastAppliedDesired,
               `desiredTopicsSlot
      ensures View() == Desired(old(View()), host)
    {
      var desired := desiredTopicsSlot;
      desiredTopicsSlot := None;
      if desired.None? {
        return;
      }
      lastAppliedDesired := desired.value;
      assert Tables() == old(Tables()).(desired := desired.value);
      ReconcileSubscriptions(host);
    }

    method OnAdvertise(channels: seq<ChannelInfo>, host: Host)
      modifies `advertisedChannels, `subscriptions, `bindingBySubscription, `nextSubscriptionId, `log
      ensures Tables() == HandleText(old(Tables()), selectedChannels, Advertise(channels), host)
    {
      for i := 0 to |channels|
        invariant advertisedChannels == Announced(old(advertisedChannels), channels[..i])
        modifies `advertisedChannels
      {
        PrefixOfPrefix(channels, i + 1, i);
        advertisedChannels := advertisedChannels[channels[i].id := channels[i]];
      }
      Whole(channels);
      if channels != [] {
        ReconcileSubscriptions(host);
      }
    }

    /** The inner loop of an unadvertise: erase every subscription of one channel, with its binding. */
    method EraseHolding(id: ChannelId)
      modifies `subscriptions, `bindingBySubscription
      ensures subscriptions == old(subscriptions) - Holding(old(subscriptions), id)
      ensures bindingBySubscription == old(bindingBySubscription) - Holding(old(subscriptions), id)
    {
      var subIds := SortedSubs(subscriptions.Keys);
      ghost var gone := Holding(subscriptions, id);
      ghost var erased: set<SubId> := {};
      NoneHeld(gone, subIds[..0]);
      NothingErased(subscriptions);
      NothingErased(bindingBySubscription);
      for i := 0 to |subIds|
        invariant SameValue(erased, gone * Elements(subIds[..i]))
        invariant SameValue(subscriptions, old(subscriptions) - erased)
        invariant SameValue(bindingBySubscription, old(bindingBySubscription) - erased)
      {
        NextKey(old(subscriptions), id, subIds, i);
        if subscriptions[subIds[i]] == id {
          EraseOne(old(subscriptions), erased, subIds[i]);
          EraseOne(old(bindingBySubscription), erased, subIds[i]);
          bindingBySubscription := bindingBySubscription - {subIds[i]};
          subscriptions := subscriptions - {subIds[i]};
          erased := erased + {subIds[i]};
        }
      }
      Whole(subIds);
      AllGone(old(subscriptions), id);
    }

    method ForgetChannel(id: ChannelId)
      modifies `advertisedChannels, `subscriptions, `bindingBySubscription, `log
      ensures Tables() == Forget(old(Tables()), id)
    {
      if id in advertisedChannels {
        advertisedChannels := advertisedChannels - {id};
      }
      EraseHolding(id);
      log := log + [Unadvertised(id)];
    }

    method OnUnadvertise(ids: seq<ChannelId>)
      modifies `advertisedChannels, `subscriptions, `bindingBySubscription, `log
      ensures Tables() == ForgetAll(old(Tables()), ids)
    {
      for i := 0 to |ids|
        invariant Tables() == ForgetAll(old(Tables()), ids[..i])
      {
        PrefixOfPrefix(ids, i + 1, i);
        ForgetChannel(ids[i]);
      }
      Whole(ids);
    }

    method OnTextMessage(text: Text, host: Host)
      modifies `advertisedChannels, `subscriptions, `bindingBySubscription, `nextSubscriptionId, `log
      ensures Tables() == HandleText(old(Tables()), selectedChannels, text, host)
    {
      match text {
        case Advertise(channels) => OnAdvertise(channels, host);
        case Unadvertise(ids) => OnUnadvertise(ids);
        case OtherText =>
      }
    }

    method CheckReconnect(ready: Ready)
      modifies `connected, `reconnectPending, `reconnectTick, `subscriptions, `bindingBySubscription,
               `advertisedChannels, `nextSubscriptionId, `log
      ensures View() == Check(old(View()), ready)
    {
      if !connected {
        if reconnectPending {
          if ready == Open {
            connected := true;
            reconnectPending := false;
            reconnectTick := 0;
            subscriptions := map[];
            bindingBySubscription := map[];
            advertisedChannels := map[];
            nextSubscriptionId := 1;
            log := [];
          } else if ready == Closed {
            reconnectPending := false;
          }
        } else {
          reconnectTick := reconnectTick + 1;
          if reconnectTick >= RECONNECT_TICKS {
            reconnectTick := 0;
            reconnectPending := true;
          }
        }
      }
    }

    method DrainTextQueue(host: Host)
      modifies `textQueue, `advertisedChannels, `subscriptions, `bindingBySubscription, `nextSubscriptionId, `log
      ensures View() == Texts(old(View()), host)
    {
      var batch := textQueue;
      textQueue := [];
      for i := 0 to |batch|
        invariant Tables() == HandleTexts(old(Tables()), selectedChannels, batch[..i], host)
        modifies `advertisedChannels, `subscriptions, `bindingBySubscription, `nextSubscriptionId, `log
      {
        PrefixOfPrefix(batch, i + 1, i);
        OnTextMessage(batch[i], host);
      }
      Whole(batch);
    }

    method DrainMessageQueue()
      modifies `messageQueue, `log
      ensures View() == Messages(old(View()))
    {
      var batch := messageQueue;
      messageQueue := [];
      for i := 0 to |batch|
        invariant Tables() == PushAll(old(Tables()), batch[..i])
        modifies `log
      {
        PrefixOfPrefix(batch, i + 1, i);
        if batch[i].sub in bindingBySubscription {
          log := log + [Pushed(batch[i].sub, bindingBySubscription[batch[i].sub])];
        }
      }
      Whole(batch);
    }

    /** One poll with nothing arriving in between: the four actions in the source's order. */
    method OnPoll(ready: Ready, host: Host)
      modifies this
      ensures View() == Polled(old(View()), ready, host)
    {
      CheckReconnect(ready);
      DrainTextQueue(host);
      if connected {
        ApplyDesiredTopics(host);
      }
      DrainMessageQueue();
    }

    /** onStop: one unsubscribe frame for everything that is live, then the tables are cleared. */
    method OnStop() returns (frame: Option<Frame>)
      modifies this
      ensures frame == if old(connected) && old(subscriptions) != map[]
                       then Some(Unsubscribe(SortedSubs(old(subscriptions).Keys))) else None
      ensures old(connected) && old(Replay(log)) == old(subscriptions)
              ==> (if frame.Some? then Replay(old(log) + [Sent(frame.value)]) else old(Replay(log))) == map[]
      ensures Started(View()) && !connected && desiredTopicsSlot == None && advertisedChannels == map[]
      ensures textQueue == old(textQueue) && messageQueue == old(messageQueue)
      ensures reconnectPending == old(reconnectPending) && reconnectTick == old(reconnectTick)
    {
      frame := None;
      if connected && subscriptions != map[] {
        frame := Some(Unsubscribe(SortedSubs(subscriptions.Keys)));
        ReplayAppend(log, Sent(frame.value));
      }
      connected := false;
      selectedChannels := [];
      subscriptions, bindingBySubscription, advertisedChannels := map[], map[], map[];
      nextSubscriptionId := 1;
      lastAppliedDesired := {};
      desiredTopicsSlot := None;
      log := [];
    }
  }
}
