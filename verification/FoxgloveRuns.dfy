/** Runs of the demand-mode source: callback threads enqueue, each poll action is one atomic step. */
module FoxgloveRuns {
  import opened Slices
  import opened Wrappers
  import opened FoxgloveProtocol
  import opened FoxgloveSubscription
  import opened FoxgloveSession
  import opened OrderedKeys

  /** What getReadyState() answers. */
  datatype Ready = Open | Closed | Opening

  datatype Source = Source(
    selection: seq<ChannelInfo>,
    session: Session,
    connected: bool,
    reconnectPending: bool,
    reconnectTick: nat,
    texts: seq<Text>,
    messages: seq<Binary>,
    slot: Option<set<string>>)

  datatype Action =
    // callback threads
    | TextArrived(text: Text)
    | BinaryArrived(msg: Binary)
    | DesiredWritten(topics: set<string>)
    | Disconnected
    // the four actions of onPoll
    | CheckConnection(ready: Ready)
    | DrainTexts(host: Host)
    | ApplyDesired(host: Host)
    | DrainMessages

  const RECONNECT_TICKS := 150

  /** The reconnect block at the top of onPoll. */
  function Check(src: Source, ready: Ready): Source {
    if src.connected then src
    else if src.reconnectPending then
      match ready
      case Open => src.(connected := true, reconnectPending := false, reconnectTick := 0, session := Reset(src.session))
      case Closed => src.(reconnectPending := false)
      case Opening => src
    else if src.reconnectTick + 1 >= RECONNECT_TICKS then src.(reconnectTick := 0, reconnectPending := true)
    else src.(reconnectTick := src.reconnectTick + 1)
  }

  function Texts(src: Source, host: Host): Source {
    src.(session := HandleTexts(src.session, src.selection, src.texts, host), texts := [])
  }

  /** applyDesiredTopics behind its `connected_` guard: the slot is taken only while connected. */
  function Desired(src: Source, host: Host): Source {
    if !src.connected || src.slot.None? then src
    else src.(session := Reconcile(src.session.(desired := src.slot.value), src.selection, host), slot := None)
  }

  function Messages(src: Source): Source {
    src.(session := PushAll(src.session, src.messages), messages := [])
  }

  function Step(src: Source, a: Action): Source {
    match a
    case TextArrived(t) => src.(texts := src.texts + [t])
    case BinaryArrived(m) => src.(messages := src.messages + [m])
    case DesiredWritten(d) => src.(slot := Some(d))
    case Disconnected => src.(connected := false)
    case CheckConnection(ready) => Check(src, ready)
    case DrainTexts(host) => Texts(src, host)
    case ApplyDesired(host) => Desired(src, host)
    case DrainMessages => Messages(src)
  }

  /** A whole poll, as the four actions in order. */
  function Polled(src: Source, ready: Ready, host: Host): Source {
    Messages(Desired(Texts(Check(src, ready), host), host))
  }

  function Run(src: Source, actions: seq<Action>): Source {
    if actions == [] then src else Step(Run(src, actions[..|actions| - 1]), actions[|actions| - 1])
  }

  /** A source right after onStart in demand mode; queues, slot and reconnect state are whatever they are. */
  ghost predicate Started(src: Source) {
    && Keyed(src.session.catalog)
    && src.session.subs == map[] && src.session.bindings == map[] && src.session.nextId == 1
    && src.session.desired == {} && src.session.log == []
  }

  ghost predicate SourceInv(src: Source) {
    Unwrapped(src.session) ==> Inv(src.session, src.selection)
  }

  // ----- text messages -----

  lemma {:induction false} AnnouncedKeyed(catalog: map<ChannelId, ChannelInfo>, channels: seq<ChannelInfo>)
    requires Keyed(catalog)
    ensures Keyed(Announced(catalog, channels))
  {
    if channels != [] {
      AnnouncedKeyed(catalog, channels[..|channels| - 1]);
    }
  }

  lemma ForgetInv(s: Session, selection: seq<ChannelInfo>, id: ChannelId)
    requires Inv(s, selection)
    ensures Inv(Forget(s, id), selection)
    ensures Allocations(Forget(s, id).log) == Allocations(s.log)
  {
    var e := Unadvertised(id);
    var s' := Forget(s, id);
    AllocationsAppend(s.log, e);
    ReplayAppend(s.log, e);
    PushesExtend(s.log, e);
    assert BindingsRecorded(s'.bindings, s'.subs, s'.log) by {
      assert forall x :: x in s.log ==> x in s'.log;
    }
    ForgetValues(s.subs, id);
    assert Target(s'.catalog, selection, s'.desired) == Target(s.catalog, selection, s.desired) - {id};
  }

  lemma ForgetValues(subs: map<SubId, ChannelId>, id: ChannelId)
    ensures (subs - Holding(subs, id)).Values == subs.Values - {id}
  {
    var subs' := subs - Holding(subs, id);
    forall v | v in subs.Values - {id} ensures v in subs'.Values {
      var k :| k in subs && subs[k] == v;
      assert k in subs';
    }
  }

  lemma {:induction false} ForgetAllInv(s: Session, selection: seq<ChannelInfo>, ids: seq<ChannelId>)
    requires Inv(s, selection)
    ensures Inv(ForgetAll(s, ids), selection)
    ensures Allocations(ForgetAll(s, ids).log) == Allocations(s.log)
  {
    if ids != [] {
      ForgetAllInv(s, selection, ids[..|ids| - 1]);
      ForgetInv(ForgetAll(s, ids[..|ids| - 1]), selection, ids[|ids| - 1]);
    }
  }

  /** Allocations only grow while the log grows, whatever the session looks like. */
  lemma {:induction false} ForgetAllCount(s: Session, ids: seq<ChannelId>)
    ensures Allocations(ForgetAll(s, ids).log) == Allocations(s.log)
    ensures Keyed(s.catalog) ==> Keyed(ForgetAll(s, ids).catalog)
  {
    if ids != [] {
      var s1 := ForgetAll(s, ids[..|ids| - 1]);
      ForgetAllCount(s, ids[..|ids| - 1]);
      AllocationsAppend(s1.log, Unadvertised(ids[|ids| - 1]));
    }
  }

  lemma TextCount(s: Session, selection: seq<ChannelInfo>, text: Text, host: Host)
    requires Keyed(s.catalog)
    ensures var s' := HandleText(s, selection, text, host);
            Keyed(s'.catalog) && |Allocations(s'.log)| >= |Allocations(s.log)|
  {
    match text
    case Advertise(channels) =>
      var s1 := s.(catalog := Announced(s.catalog, channels));
      AnnouncedKeyed(s.catalog, channels);
      ReconcileCount(s1, selection, host);
      ReconcileLeavesCatalog(s1, selection, host);
    case Unadvertise(ids) => ForgetAllCount(s, ids);
    case OtherText =>
  }

  lemma TextInv(s: Session, selection: seq<ChannelInfo>, text: Text, host: Host)
    requires Inv(s, selection) && Unwrapped(HandleText(s, selection, text, host))
    ensures Inv(HandleText(s, selection, text, host), selection)
  {
    match text
    case Advertise(channels) =>
      if channels != [] {
        AnnouncedKeyed(s.catalog, channels);
        ReconcileInv(s.(catalog := Announced(s.catalog, channels)), selection, host);
      }
    case Unadvertise(ids) => ForgetAllInv(s, selection, ids);
    case OtherText =>
  }

  lemma {:induction false} TextsInv(s: Session, selection: seq<ChannelInfo>, texts: seq<Text>, host: Host)
    requires Keyed(s.catalog)
    requires Unwrapped(s) ==> Inv(s, selection)
    ensures var s' := HandleTexts(s, selection, texts, host);
            Keyed(s'.catalog) && (Unwrapped(s') ==> Inv(s', selection))
  {
    if texts != [] {
      var s1 := HandleTexts(s, selection, texts[..|texts| - 1], host);
      TextsInv(s, selection, texts[..|texts| - 1], host);
      TextCount(s1, selection, texts[|texts| - 1], host);
      if Unwrapped(HandleTexts(s, selection, texts, host)) {
        TextInv(s1, selection, texts[|texts| - 1], host);
      }
    }
  }

  // ----- binary messages -----

  lemma PushInv(s: Session, selection: seq<ChannelInfo>, msg: Binary)
    requires Inv(s, selection)
    ensures Inv(Push(s, msg), selection)
  {
    if msg.sub in s.bindings {
      var e := Pushed(msg.sub, s.bindings[msg.sub]);
      AllocationsAppend(s.log, e);
      ReplayAppend(s.log, e);
      assert (s.log + [e])[..|s.log|] == s.log;
      assert PushSound(s.log + [e], |s.log|);
      PushesExtend(s.log, e);
      assert forall x :: x in s.log ==> x in s.log + [e];
    }
  }

  lemma {:induction false} PushAllInv(s: Session, selection: seq<ChannelInfo>, msgs: seq<Binary>)
    ensures var s' := PushAll(s, msgs);
            && s'.catalog == s.catalog && Allocations(s'.log) == Allocations(s.log)
            && (Inv(s, selection) ==> Inv(s', selection))
  {
    if msgs != [] {
      var s1 := PushAll(s, msgs[..|msgs| - 1]);
      PushAllInv(s, selection, msgs[..|msgs| - 1]);
      var msg := msgs[|msgs| - 1];
      if Inv(s1, selection) {
        PushInv(s1, selection, msg);
      }
      if msg.sub in s1.bindings {
        AllocationsAppend(s1.log, Pushed(msg.sub, s1.bindings[msg.sub]));
      }
    }
  }

  // ----- every action keeps the invariant -----

  lemma StartInv(src: Source)
    requires Started(src)
    ensures Inv(src.session, src.selection)
  {
  }

  lemma ResetInv(s: Session, selection: seq<ChannelInfo>)
    ensures Inv(Reset(s), selection)
  {
  }

  lemma StepInv(src: Source, a: Action)
    requires Keyed(src.session.catalog) && SourceInv(src)
    ensures Keyed(Step(src, a).session.catalog) && SourceInv(Step(src, a))
    ensures Step(src, a).selection == src.selection
  {
    match a
    case CheckConnection(ready) => ResetInv(src.session, src.selection);
    case DrainTexts(host) => TextsInv(src.session, src.selection, src.texts, host);
    case ApplyDesired(host) =>
      if src.connected && src.slot.Some? {
        var s := src.session.(desired := src.slot.value);
        ReconcileCount(s, src.selection, host);
        ReconcileLeavesCatalog(s, src.selection, host);
        if Unwrapped(Reconcile(s, src.selection, host)) {
          ReconcileInv(s, src.selection, host);
        }
      }
    case DrainMessages => PushAllInv(src.session, src.selection, src.messages);
    case _ =>
  }

  /** A poll keeps the invariant from any state that has it, reachable or not. */
  lemma PollInv(src: Source, ready: Ready, host: Host)
    requires Keyed(src.session.catalog) && SourceInv(src)
    ensures Keyed(Polled(src, ready, host).session.catalog) && SourceInv(Polled(src, ready, host))
  {
    var src1 := Step(src, CheckConnection(ready));
    StepInv(src, CheckConnection(ready));
    StepInv(src1, DrainTexts(host));
    StepInv(Step(src1, DrainTexts(host)), ApplyDesired(host));
    StepInv(Step(Step(src1, DrainTexts(host)), ApplyDesired(host)), DrainMessages);
  }

  lemma {:induction false} RunInv(src: Source, actions: seq<Action>)
    requires Started(src)
    ensures var src' := Run(src, actions);
            Keyed(src'.session.catalog) && SourceInv(src') && src'.selection == src.selection
  {
    if actions == [] {
      StartInv(src);
    } else {
      RunInv(src, actions[..|actions| - 1]);
      StepInv(Run(src, actions[..|actions| - 1]), actions[|actions| - 1]);
    }
  }

  // ----- the desired set -----

  /** The last set the host wrote, or the one that lay in the slot before. */
  function LastWritten(slot: Option<set<string>>, actions: seq<Action>): Option<set<string>> {
    if actions == [] then slot
    else
      var last := actions[|actions| - 1];
      if last.DesiredWritten? then Some(last.topics) else LastWritten(slot, actions[..|actions| - 1])
  }

  /** What the host wants as far as the source has been told: the last set written when the slot was last looked at
      while connected, and the empty set before that. */
  function HostSet(src: Source, actions: seq<Action>): set<string> {
    if actions == [] then {}
    else
      var front, last := actions[..|actions| - 1], actions[|actions| - 1];
      var written := LastWritten(src.slot, front);
      if last.ApplyDesired? && Run(src, front).connected && written.Some? then written.value else HostSet(src, front)
  }

  lemma StepOnDesired(src: Source, a: Action)
    ensures var after := Step(src, a);
            && after.session.desired
               == (if a.ApplyDesired? && src.connected && src.slot.Some? then src.slot.value else src.session.desired)
            && after.slot
               == match a
                  case DesiredWritten(d) => Some(d)
                  case ApplyDesired(_) => if src.connected then None else src.slot
                  case _ => src.slot
  {
    match a
    case DrainTexts(host) => TextsKeepDesired(src.session, src.selection, src.texts, host);
    case ApplyDesired(host) =>
      if src.connected && src.slot.Some? {
        ReconcileLeavesCatalog(src.session.(desired := src.slot.value), src.selection, host);
      }
    case DrainMessages => PushAllKeeps(src.session, src.messages);
    case _ =>
  }

  /** The session holds the set the actions say, and the slot what was written since it was taken. */
  lemma {:induction false} HeldIsHostSet(src: Source, actions: seq<Action>)
    requires Started(src)
    ensures var after, written := Run(src, actions), LastWritten(src.slot, actions);
            && after.session.desired == HostSet(src, actions)
            && (after.slot.Some? ==> after.slot == written)
            && (after.slot.None? && written.Some? ==> written.value == HostSet(src, actions))
  {
    if actions != [] {
      var front := actions[..|actions| - 1];
      HeldIsHostSet(src, front);
      StepOnDesired(Run(src, front), actions[|actions| - 1]);
    }
  }

  // ----- main results -----

  /** After every action of every run the subscribed channels are exactly the supported, filter-passing advertised
      ones whose topic is in the last set taken from the host, each under exactly one subscription id. */
  lemma SubscriptionEquation(src: Source, actions: seq<Action>)
    requires Started(src)
    requires Unwrapped(Run(src, actions).session)
    ensures var s := Run(src, actions).session;
            && s.subs.Values == Target(s.catalog, src.selection, HostSet(src, actions))
            && forall a, b :: a in s.subs && b in s.subs && s.subs[a] == s.subs[b] ==> a == b
  {
    RunInv(src, actions);
    HeldIsHostSet(src, actions);
  }

  /** A set that lies in the slot is taken, and replaces the one before, when the connected source looks at the slot. */
  lemma DesiredIsTaken(src: Source, actions: seq<Action>, host: Host, d: set<string>)
    requires Started(src) && Run(src, actions).connected && Run(src, actions).slot == Some(d)
    requires Unwrapped(Run(src, actions + [ApplyDesired(host)]).session)
    ensures var before, after := Run(src, actions), Run(src, actions + [ApplyDesired(host)]);
            && after.slot == None && after.session.catalog == before.session.catalog
            && after.session.subs.Values == Target(before.session.catalog, src.selection, d)
  {
    CutConcat(actions, [ApplyDesired(host)]);
    HeldIsHostSet(src, actions);
    SubscriptionEquation(src, actions + [ApplyDesired(host)]);
    ReconcileLeavesCatalog(Run(src, actions).session.(desired := d), Run(src, actions).selection, host);
  }

  /** The subscribed set is a function of catalog, selection and the host's last set: the order of events is
      forgotten. */
  lemma OrderIndependent(src: Source, actions: seq<Action>, src': Source, actions': seq<Action>)
    requires Started(src) && Started(src') && src.selection == src'.selection
    requires Unwrapped(Run(src, actions).session) && Unwrapped(Run(src', actions').session)
    requires Run(src, actions).session.catalog == Run(src', actions').session.catalog
    requires HostSet(src, actions) == HostSet(src', actions')
    ensures Run(src, actions).session.subs.Values == Run(src', actions').session.subs.Values
  {
    SubscriptionEquation(src, actions);
    SubscriptionEquation(src', actions');
  }

  /** In any reachable state another reconcile sends no frame, asks for no binding and changes no id. */
  lemma ReconcileAgainIsSilent(src: Source, actions: seq<Action>, host: Host)
    requires Started(src)
    requires Unwrapped(Run(src, actions).session)
    ensures var s := Run(src, actions).session; Reconcile(s, src.selection, host) == s
  {
    RunInv(src, actions);
    ReconcileIdempotent(Run(src, actions).session, src.selection, host);
  }

  /** Replaying the frames sent and the unadvertise notices handled since the last reset gives `subs`. */
  lemma ReplayGivesSubscriptions(src: Source, actions: seq<Action>)
    requires Started(src)
    requires Unwrapped(Run(src, actions).session)
    ensures var s := Run(src, actions).session; Replay(s.log) == s.subs
  {
    RunInv(src, actions);
  }

  /** Within a span no id is allocated twice, and bindings exist for live ids only. */
  lemma IdsNeverReused(src: Source, actions: seq<Action>)
    requires Started(src)
    requires Unwrapped(Run(src, actions).session)
    ensures var s := Run(src, actions).session;
            var al := Allocations(s.log);
            && (forall i :: 0 <= i < |al| ==> al[i].0 == if i == 0xFFFF_FFFF then 0 else i + 1)
            && (forall i, j :: 0 <= i < j < |al| ==> al[i].0 != al[j].0)
            && s.bindings.Keys <= s.subs.Keys
  {
    RunInv(src, actions);
    var al := Allocations(Run(src, actions).session.log);
    forall i, j | 0 <= i < j < |al| ensures al[i].0 != al[j].0 {
      if al[i].0 == al[j].0 {
        IdAtInjective(i, j);
      }
    }
  }

  /** A drained message is pushed only through the binding made for the one channel its id was allocated to. */
  lemma PushesFollowAllocation(src: Source, actions: seq<Action>, k: nat, id: ChannelId)
    requires Started(src)
    requires Unwrapped(Run(src, actions).session)
    requires var log := Run(src, actions).session.log;
             k < |log| && log[k].Pushed? && (log[k].sub, id) in Allocations(log)
    ensures var log := Run(src, actions).session.log;
            && BoundFor(log[..k], log[k].sub, id, log[k].handle)
            && log[k].sub in Replay(log[..k]) && Replay(log[..k])[log[k].sub] == id
  {
    RunInv(src, actions);
    var log := Run(src, actions).session.log;
    assert PushSound(log, k);
    var live := Replay(log[..k])[log[k].sub];
    AllocationsPrefix(log, k);
    assert (log[k].sub, live) in Allocations(log);
    var al := Allocations(log);
    var i :| 0 <= i < |al| && al[i] == (log[k].sub, id);
    var j :| 0 <= j < |al| && al[j] == (log[k].sub, live);
    IdAtInjective(i, j);
  }

  lemma {:induction false} AllocationsPrefix(log: seq<Entry>, k: nat)
    requires k <= |log|
    ensures Allocations(log[..k]) <= Allocations(log)
  {
    if k == |log| {
      assert log[..k] == log;
    } else {
      AllocationsPrefix(log[..|log| - 1], k);
      assert log[..|log| - 1][..k] == log[..k];
    }
  }

  // ----- the reconnect burst -----

  /** A source whose reconnect attempt is under way stays so until a poll finds the socket open or closed. */
  ghost predicate Waiting(src: Source) {
    !src.connected && src.reconnectPending
  }

  ghost predicate KeepsWaiting(actions: seq<Action>) {
    forall i :: 0 <= i < |actions| ==> !actions[i].CheckConnection? || actions[i].ready.Opening?
  }

  /** The text queue after one action. */
  function Queued(texts: seq<Text>, a: Action): seq<Text> {
    match a
    case TextArrived(t) => texts + [t]
    case DrainTexts(_) => []
    case _ => texts
  }

  /** The text queue after the actions: what arrived since the last drain. */
  function Pending(texts: seq<Text>, actions: seq<Action>): seq<Text> {
    if actions == [] then texts else Queued(Pending(texts, actions[..|actions| - 1]), actions[|actions| - 1])
  }

  lemma {:induction false} TextsKeepDesired(s: Session, selection: seq<ChannelInfo>, texts: seq<Text>, host: Host)
    ensures HandleTexts(s, selection, texts, host).desired == s.desired
  {
    if texts != [] {
      var front, last := texts[..|texts| - 1], texts[|texts| - 1];
      TextsKeepDesired(s, selection, front, host);
      var s' := HandleTexts(s, selection, front, host);
      match last
      case Advertise(channels) =>
        ReconcileLeavesCatalog(s'.(catalog := Announced(s'.catalog, channels)), selection, host);
      case Unadvertise(ids) => ForgetAllKeeps(s', ids);
      case OtherText =>
    }
  }

  lemma ReconcileLeavesCatalog(s: Session, selection: seq<ChannelInfo>, host: Host)
    ensures Reconcile(s, selection, host).catalog == s.catalog
    ensures Reconcile(s, selection, host).desired == s.desired
  {
    var diff := SessionDiff(s, selection);
    RegisterAllKeeps(Drop(s, diff.toUnsubscribe), diff.toSubscribe, host);
  }

  lemma {:induction false} RegisterAllKeeps(s: Session, ids: seq<ChannelId>, host: Host)
    ensures var s' := RegisterAll(s, ids, host).0;
            s'.catalog == s.catalog && s'.desired == s.desired
  {
    if ids != [] {
      RegisterAllKeeps(s, ids[..|ids| - 1], host);
    }
  }

  lemma {:induction false} ForgetAllKeeps(s: Session, ids: seq<ChannelId>)
    ensures ForgetAll(s, ids).desired == s.desired
    ensures forall c :: c in ForgetAll(s, ids).catalog <==> c in s.catalog && c !in ids
    ensures forall c :: c in ForgetAll(s, ids).catalog ==> ForgetAll(s, ids).catalog[c] == s.catalog[c]
  {
    if ids != [] {
      ForgetAllKeeps(s, ids[..|ids| - 1]);
      LastOff(ids);
    }
  }

  lemma {:induction false} PushAllKeeps(s: Session, msgs: seq<Binary>)
    ensures PushAll(s, msgs).desired == s.desired
  {
    if msgs != [] {
      PushAllKeeps(s, msgs[..|msgs| - 1]);
    }
  }

  lemma OneWaiting(src: Source, a: Action)
    requires Waiting(src) && (!a.CheckConnection? || a.ready.Opening?)
    ensures var after := Step(src, a);
            && Waiting(after) && after.selection == src.selection
            && after.session.desired == src.session.desired
            && Same(after.texts, Queued(src.texts, a))
  {
    match a
    case DrainTexts(host) => TextsKeepDesired(src.session, src.selection, src.texts, host);
    case DrainMessages => PushAllKeeps(src.session, src.messages);
    case _ =>
  }

  lemma {:induction false} WhileWaiting(src: Source, actions: seq<Action>)
    requires Waiting(src) && KeepsWaiting(actions)
    ensures var after := Run(src, actions);
            && Waiting(after) && after.selection == src.selection
            && after.session.desired == src.session.desired
            && Same(after.texts, Pending(src.texts, actions))
  {
    if actions != [] {
      WhileWaiting(src, actions[..|actions| - 1]);
      OneWaiting(Run(src, actions[..|actions| - 1]), actions[|actions| - 1]);
    }
  }

  /** The poll that finds the socket open: the session is the reset one with exactly the texts handled that arrived
      since the last drain, whatever else happened meanwhile. */
  lemma OnlyQueuedTextsSurvive(src: Source, actions: seq<Action>, host: Host)
    requires Waiting(src) && KeepsWaiting(actions)
    ensures var after := Run(src, actions + [CheckConnection(Open), DrainTexts(host)]);
            && after.connected && after.texts == []
            && after.session
               == HandleTexts(Reset(src.session), src.selection, Pending(src.texts, actions), host)
  {
    var tail := actions + [CheckConnection(Open), DrainTexts(host)];
    WhileWaiting(src, actions);
    assert tail[..|tail| - 1] == actions + [CheckConnection(Open)];
    assert tail[..|tail| - 1][..|actions|] == actions;
  }

  ghost predicate DrainsTexts(actions: seq<Action>) {
    exists i :: 0 <= i < |actions| && actions[i].DrainTexts?
  }

  /** The texts that arrive during the actions, after the last drain among them. */
  function Arrived(actions: seq<Action>): seq<Text> {
    Pending([], actions)
  }

  lemma {:induction false} PendingExactly(texts: seq<Text>, actions: seq<Action>)
    ensures Pending(texts, actions) == if DrainsTexts(actions) then Arrived(actions) else texts + Arrived(actions)
  {
    if actions != [] {
      var front, last := actions[..|actions| - 1], actions[|actions| - 1];
      PendingExactly(texts, front);
      assert actions == front + [last];
      assert DrainsTexts(actions) <==> DrainsTexts(front) || last.DrainTexts? by {
        if DrainsTexts(front) {
          var i :| 0 <= i < |front| && front[i].DrainTexts?;
          assert actions[i].DrainTexts?;
        }
        if last.DrainTexts? {
          assert actions[|front|].DrainTexts?;
        }
      }
    }
  }

  /** A text that adds or removes the channel. */
  predicate Mentions(t: Text, id: ChannelId) {
    match t
    case Advertise(channels) => exists i :: 0 <= i < |channels| && channels[i].id == id
    case Unadvertise(ids) => id in ids
    case OtherText => false
  }

  ghost predicate NoneMentions(texts: seq<Text>, id: ChannelId) {
    forall i :: 0 <= i < |texts| ==> !Mentions(texts[i], id)
  }

  lemma {:induction false} AnnouncedHas(catalog: map<ChannelId, ChannelInfo>, channels: seq<ChannelInfo>, id: ChannelId)
    ensures id in Announced(catalog, channels) <==> id in catalog || Mentions(Advertise(channels), id)
  {
    if channels != [] {
      var front, last := channels[..|channels| - 1], channels[|channels| - 1];
      AnnouncedHas(catalog, front, id);
      assert channels == front + [last];
      if Mentions(Advertise(front), id) {
        var i :| 0 <= i < |front| && front[i].id == id;
        assert channels[i].id == id;
      }
      if last.id == id {
        assert channels[|front|].id == id;
      }
    }
  }

  lemma TextOnCatalog(s: Session, selection: seq<ChannelInfo>, t: Text, host: Host, id: ChannelId)
    ensures id in HandleText(s, selection, t, host).catalog
            <==> if Mentions(t, id) then t.Advertise? else id in s.catalog
  {
    match t
    case Advertise(channels) =>
      AnnouncedHas(s.catalog, channels, id);
      ReconcileLeavesCatalog(s.(catalog := Announced(s.catalog, channels)), selection, host);
    case Unadvertise(ids) => ForgetAllKeeps(s, ids);
    case OtherText =>
  }

  lemma {:induction false} UnmentionedStays(
      s: Session, selection: seq<ChannelInfo>, texts: seq<Text>, host: Host, id: ChannelId)
    requires NoneMentions(texts, id)
    ensures id in HandleTexts(s, selection, texts, host).catalog <==> id in s.catalog
  {
    if texts != [] {
      var front := texts[..|texts| - 1];
      UnmentionedStays(s, selection, front, host, id);
      TextOnCatalog(HandleTexts(s, selection, front, host), selection, texts[|texts| - 1], host, id);
    }
  }

  lemma {:induction false} HandleTextsConcat(
      s: Session, selection: seq<ChannelInfo>, a: seq<Text>, b: seq<Text>, host: Host)
    ensures HandleTexts(s, selection, a + b, host)
            == HandleTexts(HandleTexts(s, selection, a, host), selection, b, host)
  {
    if b == [] {
      assert a + b == a;
    } else {
      assert (a + b)[..|a + b| - 1] == a + b[..|b| - 1];
      HandleTextsConcat(s, selection, a, b[..|b| - 1], host);
    }
  }

  /** An advertise that waits anywhere in the queue of a reconnecting source: whatever arrives and happens until the
      poll that finds the socket open, its channels are in the new catalog exactly when no text drain came before that
      poll. (A later text about the same channel would decide over it instead.) */
  lemma BurstSurvivesExactly(
      src: Source, front: seq<Text>, channels: seq<ChannelInfo>, back: seq<Text>, actions: seq<Action>, host: Host,
      id: ChannelId)
    requires Waiting(src) && KeepsWaiting(actions)
    requires src.texts == front + [Advertise(channels)] + back && Mentions(Advertise(channels), id)
    requires NoneMentions(back, id) && NoneMentions(Arrived(actions), id)
    ensures var catalog := Run(src, actions + [CheckConnection(Open), DrainTexts(host)]).session.catalog;
            id in catalog <==> !DrainsTexts(actions)
  {
    OnlyQueuedTextsSurvive(src, actions, host);
    PendingExactly(src.texts, actions);
    var reset, arrived := Reset(src.session), Arrived(actions);
    if DrainsTexts(actions) {
      UnmentionedStays(reset, src.selection, arrived, host, id);
    } else {
      var upTo, rest := front + [Advertise(channels)], back + arrived;
      Regroup(upTo, back, arrived);
      HandleTextsConcat(reset, src.selection, upTo, rest, host);
      CutConcat(front, [Advertise(channels)]);
      TextOnCatalog(HandleTexts(reset, src.selection, front, host), src.selection, Advertise(channels), host, id);
      UnmentionedStays(HandleTexts(reset, src.selection, upTo, host), src.selection, rest, host, id);
    }
  }

  // ----- messages and resets -----

  /** What happens from the end of one poll to the end of the next. */
  datatype Turn = Turn(arrivals: seq<Action>, ready: Ready, host: Host)

  predicate IsArrival(a: Action) {
    a.TextArrived? || a.BinaryArrived? || a.DesiredWritten? || a.Disconnected?
  }

  ghost predicate AreArrivals(actions: seq<Action>) {
    forall i :: 0 <= i < |actions| ==> IsArrival(actions[i])
  }

  ghost predicate IsTurn(t: Turn) {
    AreArrivals(t.arrivals)
  }

  function Turns(src: Source, turns: seq<Turn>): Source {
    if turns == [] then src
    else
      var t := turns[|turns| - 1];
      Polled(Run(Turns(src, turns[..|turns| - 1]), t.arrivals), t.ready, t.host)
  }

  /** The binary messages among the arrivals. */
  function Binaries(arrivals: seq<Action>): seq<Binary> {
    if arrivals == [] then []
    else
      var last := arrivals[|arrivals| - 1];
      Binaries(arrivals[..|arrivals| - 1]) + if last.BinaryArrived? then [last.msg] else []
  }

  lemma {:induction false} AfterArrivals(src: Source, arrivals: seq<Action>)
    requires AreArrivals(arrivals)
    ensures var after := Run(src, arrivals);
            && after.messages == src.messages + Binaries(arrivals)
            && after.reconnectPending == src.reconnectPending && (after.connected ==> src.connected)
  {
    if arrivals != [] {
      var front := arrivals[..|arrivals| - 1];
      AfterArrivals(src, front);
    }
  }

  ghost predicate AreTurns(turns: seq<Turn>) {
    forall i :: 0 <= i < |turns| ==> IsTurn(turns[i])
  }

  /** No reconnect is pending while connected. */
  ghost predicate Settled(src: Source) {
    src.connected ==> !src.reconnectPending
  }

  /** Every poll leaves an empty message queue. */
  lemma {:induction false} TurnsSettled(src: Source, turns: seq<Turn>)
    requires Settled(src) && AreTurns(turns)
    ensures Settled(Turns(src, turns))
    ensures turns != [] ==> Turns(src, turns).messages == []
  {
    if turns != [] {
      var front, t := turns[..|turns| - 1], turns[|turns| - 1];
      TurnsSettled(src, front);
      AfterArrivals(Turns(src, front), t.arrivals);
    }
  }

  /** No message crosses a reset: from the second poll on, those queued when a poll resets the tables all arrived since
      the poll before, when the old connection was already gone and the new one being opened. The first poll also has
      what was queued before. */
  lemma NoMessageCrossesReset(src: Source, turns: seq<Turn>, t: Turn)
    requires Settled(src) && IsTurn(t) && AreTurns(turns)
    requires var before := Run(Turns(src, turns), t.arrivals);
             Waiting(before) && t.ready.Open?
    ensures Waiting(Turns(src, turns))
    ensures Run(Turns(src, turns), t.arrivals).messages
            == (if turns == [] then src.messages else []) + Binaries(t.arrivals)
  {
    TurnsSettled(src, turns);
    AfterArrivals(Turns(src, turns), t.arrivals);
  }

  /** A stop clears neither the queues nor a pending reconnect, so a restarted source may be neither settled nor empty.
      Not settled: the next disconnect is taken for the end of the old attempt, and a message of the lost connection
      stays queued across the reset. */
  lemma StalePendingCrosses(src: Source, m: Binary, t: Turn)
    requires Started(src) && src.connected && src.reconnectPending && src.messages == []
    requires t.arrivals == [BinaryArrived(m), Disconnected] && t.ready.Open?
    ensures !Settled(src)
    ensures var before := Run(src, t.arrivals);
            Waiting(before) && before.messages == [m]
            && Check(before, t.ready).session == Reset(before.session) && Check(before, t.ready).messages == [m]
  {
    var first := [BinaryArrived(m)];
    assert first[..0] == [];
    assert Run(src, first) == src.(messages := [m]);
    assert t.arrivals[..1] == first && |t.arrivals| == 2;
  }

  // ----- messages left over from a stopped session -----

  /** The one channel a fresh source subscribes to when it is offered and desired. */
  lemma FirstSubscription(s: Session, selection: seq<ChannelInfo>, ch: ChannelInfo, host: Host)
    requires s.subs == map[] && s.bindings == map[] && s.nextId == 1
    requires s.catalog == map[ch.id := ch] && Offered(ch, selection) && s.desired == {ch.topic}
    ensures var s' := Reconcile(s, selection, host);
            s'.subs == map[1 := ch.id]
            && s'.bindings == if host(1, ch).Some? then map[1 := host(1, ch).value] else map[]
  {
    var diff := SessionDiff(s, selection);
    assert diff.toUnsubscribe == [] by {
      EmptyList(diff.toUnsubscribe);
    }
    DiffLists(s, selection);
    assert Target(s.catalog, selection, s.desired) == {ch.id};
    assert s.subs.Values == {};
    OnlyElement(diff.toSubscribe, ch.id);
    OneRegistered(s, ch, host);
  }

  lemma OneRegistered(s: Session, ch: ChannelInfo, host: Host)
    requires ch.id in s.catalog && s.catalog[ch.id] == ch
    ensures RegisterAll(s, [ch.id], host) == (Register(s, ch, host), [(s.nextId, ch.id)])
  {
    var ids := [ch.id];
    assert ids[..|ids| - 1] == [];
    assert RegisterAll(s, [], host) == (s, []);
    var none: seq<(SubId, ChannelId)> := [];
    assert none + [(s.nextId, ch.id)] == [(s.nextId, ch.id)];
  }

  lemma OnlyElement(ids: seq<ChannelId>, id: ChannelId)
    requires Elements(ids) == {id} && Ascending(ids)
    ensures ids == [id]
  {
    assert id in Elements(ids);
    forall i | 0 <= i < |ids| ensures ids[i] == id {
      assert ids[i] in Elements(ids);
    }
    if |ids| > 1 {
      FirstTwo(ids);
    }
  }

  lemma FirstTwo(ids: seq<ChannelId>)
    requires Ascending(ids) && |ids| > 1
    ensures ids[0] < ids[1]
  {
  }

  /** A binary message queued before the start, under id 1 of the stopped session, is pushed through the new session's
      binding of id 1 by the first poll that makes one. */
  lemma StoppedMessageIsPushed(src: Source, ch: ChannelInfo, ready: Ready, host: Host)
    requires Started(src) && src.connected && src.texts == [] && src.messages == [Binary(1)]
    requires src.session.catalog == map[ch.id := ch] && Offered(ch, src.selection) && src.slot == Some({ch.topic})
    requires host(1, ch).Some?
    ensures var log := Polled(src, ready, host).session.log;
            log != [] && log[|log| - 1] == Pushed(1, host(1, ch).value)
  {
    var s := src.session.(desired := src.slot.value);
    FirstSubscription(s, src.selection, ch, host);
    var s1 := Reconcile(s, src.selection, host);
    assert Desired(Texts(Check(src, ready), host), host).session == s1;
    assert src.messages[..0] == [];
    assert PushAll(s1, src.messages) == Push(s1, Binary(1));
  }

  // ----- a live binding is never remade -----

  lemma {:induction false} RegisterAllBinds(s: Session, ids: seq<ChannelId>, host: Host, sub: SubId)
    requires Sound(s) && |Allocations(s.log)| + |ids| <= ID_RANGE
    requires forall i :: 0 <= i < |ids| ==> ids[i] in s.catalog
    requires forall i :: 0 <= i < |ids| ==> ids[i] !in s.subs.Values
    requires Ascending(ids) && sub in s.subs
    ensures var s' := RegisterAll(s, ids, host).0;
            && LastBound(s'.log, sub) == LastBound(s.log, sub)
            && (sub in s'.bindings <==> sub in s.bindings)
            && (sub in s.bindings ==> s'.bindings[sub] == s.bindings[sub])
  {
    if ids != [] {
      var front, id := ids[..|ids| - 1], ids[|ids| - 1];
      RegisterAllBinds(s, front, host, sub);
      RegisterAllSound(s, front, host);
      RegisterAllLog(s, front, host);
      RegisterAllStep(s, ids, host);
      var s1 := RegisterAll(s, front, host).0;
      NextIdFresh(s1.subs, Allocations(s1.log), s1.nextId);
      RegisterBinds(s1, s1.catalog[id], host, sub);
    }
  }

  /** A subscription that survives a reconcile keeps its binding, made for the channel as it was then. */
  lemma ReconcileKeepsBinding(s: Session, selection: seq<ChannelInfo>, host: Host, sub: SubId)
    requires Sound(s) && Replay(s.log) == s.subs && Unwrapped(Reconcile(s, selection, host))
    requires sub in s.subs && s.subs[sub] in Target(s.catalog, selection, s.desired)
    ensures var s' := Reconcile(s, selection, host);
            && LastBound(s'.log, sub) == LastBound(s.log, sub)
            && (sub in s'.bindings <==> sub in s.bindings)
            && (sub in s.bindings ==> s'.bindings[sub] == s.bindings[sub])
  {
    var diff := SessionDiff(s, selection);
    var s1 := Drop(s, diff.toUnsubscribe);
    ReconcileCount(s, selection, host);
    DroppedReady(s, selection);
    KeptValues(s, selection);
    assert sub in s1.subs;
    LastBoundAppend(s.log, Sent(Unsubscribe(diff.toUnsubscribe)), sub);
    RegisterAllBinds(s1, diff.toSubscribe, host, sub);
    var (s2, pairs) := RegisterAll(s1, diff.toSubscribe, host);
    LastBoundAppend(s2.log, Sent(Subscribe(pairs)), sub);
  }

  /** The binding was made for the channel as the catalog has it now. */
  ghost predicate IsCurrent(s: Session, sub: SubId) {
    && sub in s.subs && s.subs[sub] in s.catalog
    && LastBound(s.log, sub).Some? && LastBound(s.log, sub).value.0 == s.catalog[s.subs[sub]]
  }

  /** An advertise over a live, bound subscription: it stays exactly when its channel is still offered under a desired
      topic; it then keeps its binding, which is the right one exactly when the channel is advertised as it was when
      the binding was made. */
  lemma ReadvertiseExactly(
      s: Session, selection: seq<ChannelInfo>, channels: seq<ChannelInfo>, host: Host, sub: SubId)
    requires Inv(s, selection) && sub in s.bindings && channels != []
    requires Unwrapped(HandleText(s, selection, Advertise(channels), host))
    ensures sub in s.subs
    ensures var s', id := HandleText(s, selection, Advertise(channels), host), s.subs[sub];
            && id in s'.catalog && LastBound(s.log, sub).Some?
            && (Offered(s'.catalog[id], selection) && s'.catalog[id].topic in s.desired ==>
                  && sub in s'.subs && s'.subs[sub] == id
                  && sub in s'.bindings && s'.bindings[sub] == s.bindings[sub]
                  && (IsCurrent(s', sub) <==> LastBound(s.log, sub).value.0 == s'.catalog[id]))
            && (!(Offered(s'.catalog[id], selection) && s'.catalog[id].topic in s.desired) ==>
                  id !in s'.subs.Values)
  {
    var s1 := s.(catalog := Announced(s.catalog, channels));
    var id := s.subs[sub];
    AnnouncedKeyed(s.catalog, channels);
    assert id in s.subs.Values;
    AnnouncedHas(s.catalog, channels, id);
    ReconcileLeavesCatalog(s1, selection, host);
    ReconcileInv(s1, selection, host);
    if id in Target(s1.catalog, selection, s1.desired) {
      ReconcileKeepsBinding(s1, selection, host, sub);
    }
  }
}
