/** What a run has been told: the catalog, the subscribed channels and the pushes, from the actions themselves. */
module FoxgloveHistory {
  import opened Slices
  import opened Wrappers
  import opened FoxgloveProtocol
  import opened FoxgloveSubscription
  import opened FoxgloveSession
  import opened FoxgloveRuns
  import opened OrderedKeys

  // ----- which texts count -----

  /** The action at which a reconnecting source finds the socket open. */
  predicate Resets(src: Source, a: Action) {
    a == CheckConnection(Open) && !src.connected && src.reconnectPending
  }

  /** The texts handled since the last reset, or since the start. */
  function Handled(src: Source, actions: seq<Action>): seq<Text> {
    if actions == [] then []
    else
      var front, last := actions[..|actions| - 1], actions[|actions| - 1];
      if Resets(Run(src, front), last) then []
      else if last.DrainTexts? then Handled(src, front) + Pending(src.texts, front)
      else Handled(src, front)
  }

  predicate EverReset(src: Source, actions: seq<Action>) {
    actions != [] &&
    var front := actions[..|actions| - 1];
    Resets(Run(src, front), actions[|actions| - 1]) || EverReset(src, front)
  }

  // ----- what they say about one channel -----

  /** The last of the listed channels with this id. */
  function LastListed(channels: seq<ChannelInfo>, id: ChannelId): Option<ChannelInfo> {
    if channels == [] then None
    else if channels[|channels| - 1].id == id then Some(channels[|channels| - 1])
    else LastListed(channels[..|channels| - 1], id)
  }

  /** What a text makes of the channel. */
  function Told(before: Option<ChannelInfo>, t: Text, id: ChannelId): Option<ChannelInfo> {
    match t
    case Advertise(channels) => if LastListed(channels, id).Some? then LastListed(channels, id) else before
    case Unadvertise(ids) => if id in ids then None else before
    case OtherText => before
  }

  function ToldAll(before: Option<ChannelInfo>, texts: seq<Text>, id: ChannelId): Option<ChannelInfo> {
    if texts == [] then before else Told(ToldAll(before, texts[..|texts| - 1], id), texts[|texts| - 1], id)
  }

  function InfoOf(catalog: map<ChannelId, ChannelInfo>, id: ChannelId): Option<ChannelInfo> {
    if id in catalog then Some(catalog[id]) else None
  }

  /** The channel as the run has been told of it: the texts since the last reset decide, and before a reset the
      channels selected at the start. */
  function Known(src: Source, actions: seq<Action>, id: ChannelId): Option<ChannelInfo> {
    ToldAll(if EverReset(src, actions) then None else InfoOf(src.session.catalog, id), Handled(src, actions), id)
  }

  lemma {:induction false} ToldConcat(before: Option<ChannelInfo>, a: seq<Text>, b: seq<Text>, id: ChannelId)
    ensures ToldAll(before, a + b, id) == ToldAll(ToldAll(before, a, id), b, id)
  {
    if b == [] {
      NothingAfter(a, b);
    } else {
      var front, last := b[..|b| - 1], b[|b| - 1];
      ToldConcat(before, a, front, id);
      LastOff(b);
      Regroup(a, front, [last]);
      CutConcat(a + front, [last]);
    }
  }

  lemma {:induction false} AnnouncedTells(
      catalog: map<ChannelId, ChannelInfo>, channels: seq<ChannelInfo>, id: ChannelId)
    ensures InfoOf(Announced(catalog, channels), id) == Told(InfoOf(catalog, id), Advertise(channels), id)
  {
    if channels != [] {
      AnnouncedTells(catalog, channels[..|channels| - 1], id);
    }
  }

  lemma TextTells(s: Session, selection: seq<ChannelInfo>, t: Text, host: Host, id: ChannelId)
    ensures InfoOf(HandleText(s, selection, t, host).catalog, id) == Told(InfoOf(s.catalog, id), t, id)
  {
    match t
    case Advertise(channels) =>
      AnnouncedTells(s.catalog, channels, id);
      ReconcileLeavesCatalog(s.(catalog := Announced(s.catalog, channels)), selection, host);
    case Unadvertise(ids) => ForgetAllKeeps(s, ids);
    case OtherText =>
  }

  lemma {:induction false} TextsTell(
      s: Session, selection: seq<ChannelInfo>, texts: seq<Text>, host: Host, id: ChannelId)
    ensures InfoOf(HandleTexts(s, selection, texts, host).catalog, id) == ToldAll(InfoOf(s.catalog, id), texts, id)
  {
    if texts != [] {
      var front := texts[..|texts| - 1];
      TextsTell(s, selection, front, host, id);
      TextTells(HandleTexts(s, selection, front, host), selection, texts[|texts| - 1], host, id);
    }
  }

  lemma {:induction false} PushAllCatalog(s: Session, msgs: seq<Binary>)
    ensures PushAll(s, msgs).catalog == s.catalog
  {
    if msgs != [] {
      PushAllCatalog(s, msgs[..|msgs| - 1]);
    }
  }

  lemma {:induction false} QueueIsPending(src: Source, actions: seq<Action>)
    ensures Same(Run(src, actions).texts, Pending(src.texts, actions))
    ensures Run(src, actions).selection == src.selection
  {
    if actions != [] {
      QueueIsPending(src, actions[..|actions| - 1]);
    }
  }

  lemma StepOnCatalog(src: Source, a: Action, id: ChannelId)
    ensures InfoOf(Step(src, a).session.catalog, id)
            == if Resets(src, a) then None
               else if a.DrainTexts? then ToldAll(InfoOf(src.session.catalog, id), src.texts, id)
               else InfoOf(src.session.catalog, id)
  {
    match a
    case DrainTexts(host) => TextsTell(src.session, src.selection, src.texts, host, id);
    case ApplyDesired(host) =>
      if src.connected && src.slot.Some? {
        ReconcileLeavesCatalog(src.session.(desired := src.slot.value), src.selection, host);
      }
    case DrainMessages => PushAllCatalog(src.session, src.messages);
    case _ =>
  }

  /** The catalog holds of every channel what the run has been told. */
  lemma {:induction false} CatalogIsKnown(src: Source, actions: seq<Action>, id: ChannelId)
    ensures InfoOf(Run(src, actions).session.catalog, id) == Known(src, actions, id)
  {
    if actions != [] {
      var front, last := actions[..|actions| - 1], actions[|actions| - 1];
      CatalogIsKnown(src, front, id);
      QueueIsPending(src, front);
      StepOnCatalog(Run(src, front), last, id);
      if last.DrainTexts? {
        ToldConcat(if EverReset(src, front) then None else InfoOf(src.session.catalog, id), Handled(src, front),
                   Pending(src.texts, front), id);
      }
    }
  }

  /** From the actions alone: a channel is subscribed, under exactly one id, if and only if it is known, its encoding
      is supported, the selection lets its topic through, and the host's last set has the topic. */
  lemma SubscribedExactly(src: Source, actions: seq<Action>, id: ChannelId)
    requires Started(src)
    requires Unwrapped(Run(src, actions).session)
    ensures var subs, ch := Run(src, actions).session.subs, Known(src, actions, id);
            && (id in subs.Values <==>
                  && ch.Some? && ClassifyChannel(ch.value).supported
                  && (src.selection == []
                       || exists i :: 0 <= i < |src.selection| && src.selection[i].topic == ch.value.topic)
                  && ch.value.topic in HostSet(src, actions))
            && forall a, b :: a in subs && b in subs && subs[a] == subs[b] ==> a == b
  {
    SubscriptionEquation(src, actions);
    CatalogIsKnown(src, actions, id);
  }

  // ----- what a drain pushes -----

  function BoundCount(bindings: map<SubId, Handle>, msgs: seq<Binary>): nat {
    if msgs == [] then 0
    else BoundCount(bindings, msgs[..|msgs| - 1]) + if msgs[|msgs| - 1].sub in bindings then 1 else 0
  }

  /** Every queued message whose id has a binding is pushed through it, in order, and nothing else is logged or
      changed. */
  lemma {:induction false} PushedExactly(s: Session, msgs: seq<Binary>, i: nat)
    ensures var s', n := PushAll(s, msgs), |s.log|;
            && s' == s.(log := s'.log) && s.log <= s'.log && |s'.log| == n + BoundCount(s.bindings, msgs)
            && (i < |msgs| && msgs[i].sub in s.bindings ==>
                  && n + BoundCount(s.bindings, msgs[..i]) < |s'.log|
                  && s'.log[n + BoundCount(s.bindings, msgs[..i])] == Pushed(msgs[i].sub, s.bindings[msgs[i].sub]))
  {
    if msgs != [] {
      var front := msgs[..|msgs| - 1];
      PushedExactly(s, front, i);
      if i < |front| {
        PrefixOfPrefix(msgs, |msgs| - 1, i);
      }
    }
  }

  // ----- when a lost connection is retried -----

  function Checks(actions: seq<Action>): nat {
    if actions == [] then 0
    else Checks(actions[..|actions| - 1]) + if actions[|actions| - 1].CheckConnection? then 1 else 0
  }

  /** After a lost connection, with no attempt under way, the attempt starts with the 150th poll and not before,
      whatever else happens; `tick` polls have gone by already. */
  lemma {:induction false} RetriedAfter150(src: Source, actions: seq<Action>)
    requires !src.connected && !src.reconnectPending && src.reconnectTick + Checks(actions) <= 150
    requires src.reconnectTick < 150
    requires actions != [] && actions[|actions| - 1].CheckConnection?
    ensures var after := Run(src, actions);
            && !after.connected
            && (after.reconnectPending <==> src.reconnectTick + Checks(actions) == 150)
            && after.reconnectTick == (src.reconnectTick + Checks(actions)) % 150
  {
    StillLost(src, actions[..|actions| - 1]);
  }

  lemma {:induction false} StillLost(src: Source, actions: seq<Action>)
    requires !src.connected && !src.reconnectPending && src.reconnectTick + Checks(actions) < 150
    ensures var after := Run(src, actions);
            !after.connected && !after.reconnectPending && after.reconnectTick == src.reconnectTick + Checks(actions)
  {
    if actions != [] {
      StillLost(src, actions[..|actions| - 1]);
    }
  }

  /** An attempt ends with the first poll that finds the socket open, which connects and empties the tables but keeps
      the host's set, or closed, which leaves everything but the attempt. */
  lemma AttemptEnds(src: Source)
    requires !src.connected && src.reconnectPending
    ensures Check(src, Opening) == src
    ensures Check(src, Closed) == src.(reconnectPending := false)
    ensures var s := Session(map[], map[], map[], 1, src.session.desired, []);
            Check(src, Open) == src.(connected := true, reconnectPending := false, reconnectTick := 0, session := s)
  {
  }

  // ----- what a new subscription is bound to -----

  /** A live id is bound as the host answered for its channel, or as before if it was live before. */
  ghost predicate BoundAsAnswered(before: Session, after: Session, host: Host, sub: SubId) {
    && after.catalog == before.catalog
    && (sub in after.subs && sub !in before.subs ==>
          && after.subs[sub] in before.catalog
          && var answer := host(sub, before.catalog[after.subs[sub]]);
             && (sub in after.bindings <==> answer.Some?)
             && (answer.Some? ==> after.bindings[sub] == answer.value))
    && (sub in before.subs ==> sub in after.subs && after.subs[sub] == before.subs[sub]
                               && (sub in after.bindings <==> sub in before.bindings)
                               && (sub in before.bindings ==> after.bindings[sub] == before.bindings[sub]))
  }

  lemma RegisterAnswers(s: Session, id: ChannelId, host: Host, sub: SubId)
    requires Sound(s) && s.nextId !in s.subs && id in s.catalog
    ensures BoundAsAnswered(s, Register(s, s.catalog[id], host), host, sub)
  {
    assert s.nextId !in s.bindings;
  }

  lemma AnswersThrough(a: Session, b: Session, c: Session, host: Host, sub: SubId)
    requires BoundAsAnswered(a, b, host, sub) && BoundAsAnswered(b, c, host, sub)
    ensures BoundAsAnswered(a, c, host, sub)
  {
  }

  lemma {:induction false} RegisterAllAnswers(s: Session, ids: seq<ChannelId>, host: Host, sub: SubId)
    requires Sound(s) && |Allocations(s.log)| + |ids| <= ID_RANGE
    requires forall i :: 0 <= i < |ids| ==> ids[i] in s.catalog
    requires forall i :: 0 <= i < |ids| ==> ids[i] !in s.subs.Values
    requires Ascending(ids)
    ensures BoundAsAnswered(s, RegisterAll(s, ids, host).0, host, sub)
  {
    if ids != [] {
      var front, id := ids[..|ids| - 1], ids[|ids| - 1];
      RegisterAllAnswers(s, front, host, sub);
      RegisterAllSound(s, front, host);
      RegisterAllLog(s, front, host);
      RegisterAllStep(s, ids, host);
      var s1 := RegisterAll(s, front, host).0;
      NextIdFresh(s1.subs, Allocations(s1.log), s1.nextId);
      RegisterAnswers(s1, id, host, sub);
      AnswersThrough(s, s1, RegisterAll(s, ids, host).0, host, sub);
    }
  }

  /** Every subscription a reconcile makes is bound exactly as the host answered for its channel, and not at all when
      the host refused; every one it keeps keeps its binding. */
  lemma ReconcileAnswers(s: Session, selection: seq<ChannelInfo>, host: Host, sub: SubId)
    requires Sound(s) && Replay(s.log) == s.subs && Unwrapped(Reconcile(s, selection, host))
    ensures BoundAsAnswered(Drop(s, SessionDiff(s, selection).toUnsubscribe), Reconcile(s, selection, host), host, sub)
  {
    var diff := SessionDiff(s, selection);
    ReconcileCount(s, selection, host);
    DroppedReady(s, selection);
    RegisterAllAnswers(Drop(s, diff.toUnsubscribe), diff.toSubscribe, host, sub);
  }
}
