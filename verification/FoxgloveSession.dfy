/** Demand-mode session of the Foxglove source: what every poll action does to its tables,
    with a log of the frames sent and the notices handled since the last reset. */
module FoxgloveSession {
  import opened Slices
  import opened Wrappers
  import opened FoxgloveProtocol
  import opened FoxgloveSubscription
  import opened OrderedKeys

  /** A parser binding handed out by the host. */
  type Handle = nat

  /** The host's answers to ensureParserBinding: any answer to any request. */
  type Host = (SubId, ChannelInfo) -> Option<Handle>

  datatype Frame =
    | Subscribe(pairs: seq<(SubId, ChannelId)>)
    | Unsubscribe(ids: seq<SubId>)

  datatype Entry =
    | Sent(frame: Frame)
    | Unadvertised(id: ChannelId)
    | Allocated(sub: SubId, id: ChannelId)
    | Bound(sub: SubId, channel: ChannelInfo, handle: Handle)
    | Pushed(sub: SubId, handle: Handle)

  datatype Session = Session(
    catalog: map<ChannelId, ChannelInfo>,
    subs: map<SubId, ChannelId>,
    bindings: map<SubId, Handle>,
    nextId: SubId,
    desired: set<string>,
    log: seq<Entry>)

  datatype Text =
    | Advertise(channels: seq<ChannelInfo>)
    | Unadvertise(ids: seq<ChannelId>)
    | OtherText

  datatype Binary = Binary(sub: SubId)

  // ----- steps -----

  /** registerSubscription with bindChannel: ids wrap at 32 bits, a refused binding is only reported. */
  function Register(s: Session, ch: ChannelInfo, host: Host): Session {
    var sub := s.nextId;
    var s' := s.(nextId := (sub + 1) % ID_RANGE, subs := s.subs[sub := ch.id],
                 log := s.log + [Allocated(sub, ch.id)]);
    match host(sub, ch)
    case None => s'
    case Some(h) => s'.(bindings := s'.bindings[sub := h], log := s'.log + [Bound(sub, ch, h)])
  }

  /** Registers the listed channels in order, skipping any that is no longer advertised. */
  function RegisterAll(s: Session, ids: seq<ChannelId>, host: Host): (Session, seq<(SubId, ChannelId)>) {
    if ids == [] then (s, [])
    else
      var (s1, pairs) := RegisterAll(s, ids[..|ids| - 1], host);
      var id := ids[|ids| - 1];
      if id in s1.catalog then (Register(s1, s1.catalog[id], host), pairs + [(s1.nextId, id)]) else (s1, pairs)
  }

  function SessionDiff(s: Session, selection: seq<ChannelInfo>): SubscriptionDiff {
    Diff(s.subs, OfferedTopics(s.catalog, selection), s.desired)
  }

  function Drop(s: Session, ids: seq<SubId>): Session {
    if ids == [] then s
    else s.(subs := s.subs - Elements(ids), bindings := s.bindings - Elements(ids),
            log := s.log + [Sent(Unsubscribe(ids))])
  }

  function Add(s: Session, ids: seq<ChannelId>, host: Host): Session {
    var (s', pairs) := RegisterAll(s, ids, host);
    if pairs == [] then s' else s'.(log := s'.log + [Sent(Subscribe(pairs))])
  }

  /** reconcileSubscriptions: the diff is taken once, then dropped and added. */
  function Reconcile(s: Session, selection: seq<ChannelInfo>, host: Host): Session {
    var diff := SessionDiff(s, selection);
    Add(Drop(s, diff.toUnsubscribe), diff.toSubscribe, host)
  }

  function Announced(catalog: map<ChannelId, ChannelInfo>, channels: seq<ChannelInfo>): map<ChannelId, ChannelInfo> {
    if channels == [] then catalog
    else
      var ch := channels[|channels| - 1];
      Announced(catalog, channels[..|channels| - 1])[ch.id := ch]
  }

  function Holding(subs: map<SubId, ChannelId>, id: ChannelId): set<SubId> {
    set s | s in subs && subs[s] == id
  }

  function Forget(s: Session, id: ChannelId): Session {
    var gone := Holding(s.subs, id);
    s.(catalog := s.catalog - {id}, subs := s.subs - gone, bindings := s.bindings - gone,
       log := s.log + [Unadvertised(id)])
  }

  function ForgetAll(s: Session, ids: seq<ChannelId>): Session {
    if ids == [] then s else Forget(ForgetAll(s, ids[..|ids| - 1]), ids[|ids| - 1])
  }

  /** onTextMessage for a decoded message. */
  function HandleText(s: Session, selection: seq<ChannelInfo>, text: Text, host: Host): Session {
    match text
    case Advertise(channels) =>
      if channels == [] then s
      else Reconcile(s.(catalog := Announced(s.catalog, channels)), selection, host)
    case Unadvertise(ids) => ForgetAll(s, ids)
    case OtherText => s
  }

  function HandleTexts(s: Session, selection: seq<ChannelInfo>, texts: seq<Text>, host: Host): Session {
    if texts == [] then s
    else HandleText(HandleTexts(s, selection, texts[..|texts| - 1], host), selection, texts[|texts| - 1], host)
  }

  /** A message whose id has no binding is dropped. */
  function Push(s: Session, msg: Binary): Session {
    if msg.sub in s.bindings then s.(log := s.log + [Pushed(msg.sub, s.bindings[msg.sub])]) else s
  }

  function PushAll(s: Session, msgs: seq<Binary>): Session {
    if msgs == [] then s else Push(PushAll(s, msgs[..|msgs| - 1]), msgs[|msgs| - 1])
  }

  /** The reset after a reconnect: everything but the desired set, and a new log. */
  function Reset(s: Session): Session {
    Session(map[], map[], map[], 1, s.desired, [])
  }

  // ----- what the server has seen -----

  function ApplyPairs(subs: map<SubId, ChannelId>, pairs: seq<(SubId, ChannelId)>): map<SubId, ChannelId> {
    if pairs == [] then subs
    else
      var (sub, id) := pairs[|pairs| - 1];
      ApplyPairs(subs, pairs[..|pairs| - 1])[sub := id]
  }

  function ReplayEntry(subs: map<SubId, ChannelId>, e: Entry): map<SubId, ChannelId> {
    match e
    case Sent(Subscribe(pairs)) => ApplyPairs(subs, pairs)
    case Sent(Unsubscribe(ids)) => subs - Elements(ids)
    case Unadvertised(id) => subs - Holding(subs, id)
    case _ => subs
  }

  /** The subscriptions a server holds that saw these frames and sent these notices. */
  function Replay(log: seq<Entry>): map<SubId, ChannelId> {
    if log == [] then map[] else ReplayEntry(Replay(log[..|log| - 1]), log[|log| - 1])
  }

  lemma ReplayAppend(log: seq<Entry>, e: Entry)
    ensures SameValue(Replay(log + [e]), ReplayEntry(Replay(log), e))
  {
    CutConcat(log, [e]);
  }

  function Allocations(log: seq<Entry>): seq<(SubId, ChannelId)> {
    if log == [] then []
    else
      var before := Allocations(log[..|log| - 1]);
      match log[|log| - 1]
      case Allocated(sub, id) => before + [(sub, id)]
      case _ => before
  }

  lemma AllocationsAppend(log: seq<Entry>, e: Entry)
    ensures Same(Allocations(log + [e]),
                 if e.Allocated? then Allocations(log) + [(e.sub, e.id)] else Allocations(log))
  {
    CutConcat(log, [e]);
  }

  /** The last binding made for an id: the channel as it was advertised then, and the handle. */
  function LastBound(log: seq<Entry>, sub: SubId): Option<(ChannelInfo, Handle)> {
    if log == [] then None
    else
      match log[|log| - 1]
      case Bound(n, ch, h) => if n == sub then Some((ch, h)) else LastBound(log[..|log| - 1], sub)
      case _ => LastBound(log[..|log| - 1], sub)
  }

  lemma LastBoundAppend(log: seq<Entry>, e: Entry, sub: SubId)
    ensures LastBound(log + [e], sub)
            == if e.Bound? && e.sub == sub then Some((e.channel, e.handle)) else LastBound(log, sub)
  {
    CutConcat(log, [e]);
  }

  /** The id's last binding was made for that channel and gave that handle. */
  ghost predicate BoundFor(log: seq<Entry>, sub: SubId, id: ChannelId, h: Handle) {
    var b := LastBound(log, sub);
    b.Some? && b.value.0.id == id && b.value.1 == h
  }

  // ----- invariants -----

  /** The id of the i-th allocation after a reset. */
  function IdAt(i: nat): SubId {
    (1 + i) % ID_RANGE
  }

  /** Fewer than 2^32 allocations since the reset: no id has been handed out twice. */
  ghost predicate Unwrapped(s: Session) {
    |Allocations(s.log)| <= ID_RANGE
  }

  ghost predicate Injective(subs: map<SubId, ChannelId>) {
    forall a, b :: a in subs && b in subs && subs[a] == subs[b] ==> a == b
  }

  /** A push goes through the binding made for the channel its id was live under at that moment. */
  ghost predicate PushSound(log: seq<Entry>, k: nat)
    requires k < |log| && log[k].Pushed?
  {
    var live := Replay(log[..k]);
    && log[k].sub in live
    && BoundFor(log[..k], log[k].sub, live[log[k].sub], log[k].handle)
    && (log[k].sub, live[log[k].sub]) in Allocations(log[..k])
  }

  ghost predicate PushesSound(log: seq<Entry>) {
    forall k :: 0 <= k < |log| && log[k].Pushed? ==> PushSound(log, k)
  }

  ghost predicate Keyed(catalog: map<ChannelId, ChannelInfo>) {
    forall id :: id in catalog ==> catalog[id].id == id
  }

  /** Ids are handed out 1, 2, 3, ... since the reset. */
  ghost predicate Counted(al: seq<(SubId, ChannelId)>, nextId: SubId) {
    nextId == IdAt(|al|) && forall i :: 0 <= i < |al| ==> al[i].0 == IdAt(i)
  }

  ghost predicate SubsAllocated(subs: map<SubId, ChannelId>, al: seq<(SubId, ChannelId)>) {
    forall sub :: sub in subs ==> (sub, subs[sub]) in al
  }

  /** Bindings exist for live ids only, each made for the channel the id is live under. */
  ghost predicate BindingsRecorded(bindings: map<SubId, Handle>, subs: map<SubId, ChannelId>, log: seq<Entry>) {
    && bindings.Keys <= subs.Keys
    && forall sub :: sub in bindings ==> BoundFor(log, sub, subs[sub], bindings[sub])
  }

  /** Everything but the two equations about `subs`, which hold between actions only. */
  ghost predicate Sound(s: Session) {
    && Keyed(s.catalog)
    && Injective(s.subs)
    && Counted(Allocations(s.log), s.nextId)
    && SubsAllocated(s.subs, Allocations(s.log))
    && BindingsRecorded(s.bindings, s.subs, s.log)
    && PushesSound(s.log)
  }

  /** The advertised channels that are supported, pass the filter and have a desired topic. */
  function Target(catalog: map<ChannelId, ChannelInfo>, selection: seq<ChannelInfo>, desired: set<string>)
    : set<ChannelId>
  {
    set id | id in catalog && Offered(catalog[id], selection) && catalog[id].topic in desired
  }

  ghost predicate Converged(s: Session, selection: seq<ChannelInfo>) {
    s.subs.Values == Target(s.catalog, selection, s.desired)
  }

  ghost predicate Inv(s: Session, selection: seq<ChannelInfo>) {
    Sound(s) && Replay(s.log) == s.subs && Converged(s, selection)
  }

  // ----- log bookkeeping -----

  /** Appending an entry that is not a push keeps the pushes sound. */
  lemma PushesExtend(log: seq<Entry>, e: Entry)
    requires PushesSound(log)
    requires e.Pushed? ==> PushSound(log + [e], |log|)
    ensures PushesSound(log + [e])
  {
    var log' := log + [e];
    forall k | 0 <= k < |log'| && log'[k].Pushed? ensures PushSound(log', k) {
      if k < |log| {
        assert log'[..k] == log[..k];
        assert PushSound(log, k);
      }
    }
  }

  lemma IdAtInjective(i: nat, j: nat)
    requires i < ID_RANGE && j < ID_RANGE && IdAt(i) == IdAt(j)
    ensures i == j
  {
  }

  /** Below the wrap the next id is not in use. */
  lemma NextIdFresh(subs: map<SubId, ChannelId>, al: seq<(SubId, ChannelId)>, nextId: SubId)
    requires Counted(al, nextId) && SubsAllocated(subs, al) && |al| < ID_RANGE
    ensures nextId !in subs
  {
    if nextId in subs {
      var i :| 0 <= i < |al| && al[i] == (nextId, subs[nextId]);
      IdAtInjective(i, |al|);
    }
  }

  // ----- registering -----

  lemma RegisterLog(s: Session, ch: ChannelInfo, host: Host)
    ensures var s' := Register(s, ch, host);
            && Same(Allocations(s'.log), Allocations(s.log) + [(s.nextId, ch.id)])
            && SameValue(Replay(s'.log), Replay(s.log))
            && s.log <= s'.log
            && (PushesSound(s.log) ==> PushesSound(s'.log))
  {
    var e := Allocated(s.nextId, ch.id);
    var log1 := s.log + [e];
    AllocationsAppend(s.log, e);
    ReplayAppend(s.log, e);
    if PushesSound(s.log) { PushesExtend(s.log, e); }
    match host(s.nextId, ch)
    case None =>
    case Some(h) =>
      var b := Bound(s.nextId, ch, h);
      AllocationsAppend(log1, b);
      ReplayAppend(log1, b);
      if PushesSound(log1) { PushesExtend(log1, b); }
  }

  lemma CountedNext(al: seq<(SubId, ChannelId)>, sub: SubId, id: ChannelId)
    requires Counted(al, sub)
    ensures Counted(al + [(sub, id)], (sub + 1) % ID_RANGE)
  {
  }

  lemma SubsAllocatedNext(subs: map<SubId, ChannelId>, al: seq<(SubId, ChannelId)>, sub: SubId, id: ChannelId)
    requires SubsAllocated(subs, al)
    ensures SubsAllocated(subs[sub := id], al + [(sub, id)])
  {
    var al' := al + [(sub, id)];
    assert al'[|al|] == (sub, id);
    assert forall p :: p in al ==> p in al';
  }

  lemma BindingsAfterRegister(s: Session, ch: ChannelInfo, host: Host)
    requires BindingsRecorded(s.bindings, s.subs, s.log) && s.nextId !in s.subs
    ensures var s' := Register(s, ch, host); BindingsRecorded(s'.bindings, s'.subs, s'.log)
  {
    var s' := Register(s, ch, host);
    forall sub | sub in s'.bindings ensures BoundFor(s'.log, sub, s'.subs[sub], s'.bindings[sub]) {
      RegisterBinds(s, ch, host, sub);
    }
  }

  /** Registering binds the new id only. */
  lemma RegisterBinds(s: Session, ch: ChannelInfo, host: Host, sub: SubId)
    ensures LastBound(Register(s, ch, host).log, sub)
            == if sub == s.nextId && host(sub, ch).Some? then Some((ch, host(sub, ch).value)) else LastBound(s.log, sub)
  {
    var e := Allocated(s.nextId, ch.id);
    LastBoundAppend(s.log, e, sub);
    if host(s.nextId, ch).Some? {
      LastBoundAppend(s.log + [e], Bound(s.nextId, ch, host(s.nextId, ch).value), sub);
    }
  }

  lemma RegisterSound(s: Session, ch: ChannelInfo, host: Host)
    requires Sound(s) && |Allocations(s.log)| < ID_RANGE
    requires ch.id !in s.subs.Values
    ensures s.nextId !in s.subs
    ensures Sound(Register(s, ch, host))
  {
    var al := Allocations(s.log);
    NextIdFresh(s.subs, al, s.nextId);
    RegisterLog(s, ch, host);
    CountedNext(al, s.nextId, ch.id);
    SubsAllocatedNext(s.subs, al, s.nextId, ch.id);
    BindingsAfterRegister(s, ch, host);
    InjectiveNext(s.subs, s.nextId, ch.id);
  }

  lemma InjectiveNext(subs: map<SubId, ChannelId>, sub: SubId, id: ChannelId)
    requires Injective(subs) && id !in subs.Values
    ensures Injective(subs[sub := id])
  {
    forall a | a in subs ensures subs[a] != id {
      assert subs[a] in subs.Values;
    }
  }

  lemma ApplyPairsAppend(subs: map<SubId, ChannelId>, pairs: seq<(SubId, ChannelId)>, sub: SubId, id: ChannelId)
    ensures ApplyPairs(subs, pairs + [(sub, id)]) == ApplyPairs(subs, pairs)[sub := id]
  {
    CutConcat(pairs, [(sub, id)]);
  }

  lemma RegisterAllStep(s: Session, ids: seq<ChannelId>, host: Host)
    requires ids != []
    ensures var (s1, pairs) := RegisterAll(s, ids[..|ids| - 1], host);
            var id := ids[|ids| - 1];
            id in s1.catalog ==>
              RegisterAll(s, ids, host) == (Register(s1, s1.catalog[id], host), pairs + [(s1.nextId, id)])
  {
  }

  /** What registering a list of channels does, wrap or no wrap. */
  lemma {:induction false} RegisterAllLog(s: Session, ids: seq<ChannelId>, host: Host)
    requires forall i :: 0 <= i < |ids| ==> ids[i] in s.catalog
    requires Keyed(s.catalog)
    ensures var (s', pairs) := RegisterAll(s, ids, host);
            && s'.catalog == s.catalog && s'.desired == s.desired
            && |Allocations(s'.log)| == |Allocations(s.log)| + |ids|
            && Replay(s'.log) == Replay(s.log)
            && s'.subs == ApplyPairs(s.subs, pairs)
            && |pairs| == |ids|
  {
    if ids != [] {
      var front, id := ids[..|ids| - 1], ids[|ids| - 1];
      RegisterAllLog(s, front, host);
      RegisterAllStep(s, ids, host);
      var (s1, pairs) := RegisterAll(s, front, host);
      RegisterLog(s1, s1.catalog[id], host);
      ApplyPairsAppend(s.subs, pairs, s1.nextId, id);
    }
  }

  ghost predicate Extends(subs: map<SubId, ChannelId>, subs': map<SubId, ChannelId>) {
    forall sub :: sub in subs ==> sub in subs' && subs'[sub] == subs[sub]
  }

  lemma RegisterOneSound(s: Session, id: ChannelId, taken: set<ChannelId>, host: Host)
    requires Sound(s) && |Allocations(s.log)| < ID_RANGE
    requires id in s.catalog && SameValue(s.subs.Values, taken) && id !in taken
    ensures var s' := Register(s, s.catalog[id], host);
            Sound(s') && SameValue(s'.subs.Values, taken + {id}) && Extends(s.subs, s'.subs)
  {
    RegisterSound(s, s.catalog[id], host);
    ValuesAfterAdd(s.subs, s.nextId, id);
  }

  lemma ExtendsThrough(a: map<SubId, ChannelId>, b: map<SubId, ChannelId>, c: map<SubId, ChannelId>)
    requires Extends(a, b) && Extends(b, c)
    ensures Extends(a, c)
  {
  }

  lemma {:induction false} RegisterAllSound(s: Session, ids: seq<ChannelId>, host: Host)
    requires Sound(s) && |Allocations(s.log)| + |ids| <= ID_RANGE
    requires forall i :: 0 <= i < |ids| ==> ids[i] in s.catalog
    requires forall i :: 0 <= i < |ids| ==> ids[i] !in s.subs.Values
    requires Ascending(ids)
    ensures var s' := RegisterAll(s, ids, host).0;
            && Sound(s')
            && SameValue(s'.subs.Values, s.subs.Values + Elements(ids))
            && Extends(s.subs, s'.subs)
  {
    if ids != [] {
      var front, id := ids[..|ids| - 1], ids[|ids| - 1];
      RegisterAllSound(s, front, host);
      RegisterAllLog(s, front, host);
      RegisterAllStep(s, ids, host);
      var s1 := RegisterAll(s, front, host).0;
      LastIsNew(ids);
      RegisterOneSound(s1, id, s.subs.Values + Elements(front), host);
      RegroupSets(s.subs.Values, Elements(front), {id});
      ExtendsThrough(s.subs, s1.subs, RegisterAll(s, ids, host).0.subs);
    } else {
      NoneAdded(s.subs.Values, ids);
    }
  }

  lemma LastIsNew(ids: seq<ChannelId>)
    requires ids != [] && Ascending(ids)
    ensures var front, id := ids[..|ids| - 1], ids[|ids| - 1];
            id !in Elements(front) && SameValue(Elements(ids), Elements(front) + {id})
  {
    var front, id := ids[..|ids| - 1], ids[|ids| - 1];
    LastOff(ids);
    ElementsOfConcat(front, [id]);
    assert Elements(ids) == Elements(front) + {id};
  }

  lemma ValuesAfterAdd(subs: map<SubId, ChannelId>, sub: SubId, id: ChannelId)
    requires sub !in subs
    ensures SameValue(subs[sub := id].Values, subs.Values + {id})
  {
    var subs' := subs[sub := id];
    forall v | v in subs.Values ensures v in subs'.Values {
      var k :| k in subs && subs[k] == v;
      assert subs'[k] == v;
    }
    assert subs'[sub] == id;
    assert subs'.Values == subs.Values + {id};
  }

  lemma RegroupSets<T>(a: set<T>, b: set<T>, c: set<T>)
    ensures SameValue((a + b) + c, a + (b + c))
  {
    assert (a + b) + c == a + (b + c);
  }

  lemma NoneAdded(a: set<ChannelId>, ids: seq<ChannelId>)
    requires |ids| == 0
    ensures SameValue(a + Elements(ids), a)
  {
    assert a + Elements(ids) == a;
  }

  // ----- dropping -----

  lemma DropSound(s: Session, ids: seq<SubId>)
    requires Sound(s)
    ensures Sound(Drop(s, ids))
    ensures Allocations(Drop(s, ids).log) == Allocations(s.log)
    ensures Replay(s.log) == s.subs ==> Replay(Drop(s, ids).log) == Drop(s, ids).subs
  {
    if ids != [] {
      var e := Sent(Unsubscribe(ids));
      AllocationsAppend(s.log, e);
      ReplayAppend(s.log, e);
      PushesExtend(s.log, e);
    }
  }

  // ----- reconcile -----

  lemma ReconcileCount(s: Session, selection: seq<ChannelInfo>, host: Host)
    requires Keyed(s.catalog)
    ensures |Allocations(Reconcile(s, selection, host).log)|
            == |Allocations(s.log)| + |SessionDiff(s, selection).toSubscribe|
  {
    var diff := SessionDiff(s, selection);
    var s1 := Drop(s, diff.toUnsubscribe);
    if diff.toUnsubscribe != [] {
      AllocationsAppend(s.log, Sent(Unsubscribe(diff.toUnsubscribe)));
    }
    forall i | 0 <= i < |diff.toSubscribe| ensures diff.toSubscribe[i] in s.catalog {
      assert diff.toSubscribe[i] in Elements(diff.toSubscribe);
    }
    RegisterAllLog(s1, diff.toSubscribe, host);
    var (s2, pairs) := RegisterAll(s1, diff.toSubscribe, host);
    if pairs != [] {
      AllocationsAppend(s2.log, Sent(Subscribe(pairs)));
    }
  }

  lemma DiffLists(s: Session, selection: seq<ChannelInfo>)
    ensures var ids := SessionDiff(s, selection).toSubscribe;
            && Ascending(ids)
            && Elements(ids) == Target(s.catalog, selection, s.desired) - s.subs.Values
            && forall i :: 0 <= i < |ids| ==> ids[i] in s.catalog && ids[i] !in s.subs.Values
  {
    var topics := OfferedTopics(s.catalog, selection);
    var ids := SessionDiff(s, selection).toSubscribe;
    forall i | 0 <= i < |ids| ensures ids[i] in ToAdd(s.subs, topics, s.desired) {
      assert ids[i] in Elements(ids);
    }
    assert ToAdd(s.subs, topics, s.desired) == Target(s.catalog, selection, s.desired) - s.subs.Values;
  }

  lemma AddSound(s: Session, ids: seq<ChannelId>, host: Host)
    requires Sound(s) && Replay(s.log) == s.subs
    requires |Allocations(s.log)| + |ids| <= ID_RANGE
    requires forall i :: 0 <= i < |ids| ==> ids[i] in s.catalog
    requires forall i :: 0 <= i < |ids| ==> ids[i] !in s.subs.Values
    requires Ascending(ids)
    ensures var s' := Add(s, ids, host);
            && Sound(s') && Replay(s'.log) == s'.subs
            && s'.catalog == s.catalog && s'.desired == s.desired
            && s'.subs.Values == s.subs.Values + Elements(ids)
            && Extends(s.subs, s'.subs)
  {
    RegisterAllSound(s, ids, host);
    RegisterAllLog(s, ids, host);
    var (s2, pairs) := RegisterAll(s, ids, host);
    var e := Sent(Subscribe(pairs));
    if pairs != [] {
      AllocationsAppend(s2.log, e);
      ReplayAppend(s2.log, e);
      PushesExtend(s2.log, e);
    }
  }

  /** The first half of a reconcile leaves a session the second half can extend. */
  lemma DroppedReady(s: Session, selection: seq<ChannelInfo>)
    requires Sound(s) && Replay(s.log) == s.subs
    ensures var diff := SessionDiff(s, selection);
            var s1 := Drop(s, diff.toUnsubscribe);
            && Sound(s1) && Replay(s1.log) == s1.subs
            && s1.catalog == s.catalog && s1.desired == s.desired
            && |Allocations(s1.log)| == |Allocations(s.log)|
            && s1.subs.Values + Elements(diff.toSubscribe) == Target(s.catalog, selection, s.desired)
            && ReconcileKeeps(s, s1, selection)
            && Ascending(diff.toSubscribe)
            && forall i :: 0 <= i < |diff.toSubscribe| ==>
                 diff.toSubscribe[i] in s1.catalog && diff.toSubscribe[i] !in s1.subs.Values
  {
    DropSound(s, SessionDiff(s, selection).toUnsubscribe);
    KeptValues(s, selection);
    DiffLists(s, selection);
  }

  lemma KeepsThenExtends(s: Session, s1: Session, s2: Session, selection: seq<ChannelInfo>)
    requires ReconcileKeeps(s, s1, selection) && Extends(s1.subs, s2.subs)
    ensures ReconcileKeeps(s, s2, selection)
  {
  }

  /** Reconciling any consistent session makes its subscriptions exactly the target. */
  lemma ReconcileInv(s: Session, selection: seq<ChannelInfo>, host: Host)
    requires Sound(s) && Replay(s.log) == s.subs
    requires Unwrapped(Reconcile(s, selection, host))
    ensures Inv(Reconcile(s, selection, host), selection)
    ensures ReconcileKeeps(s, Reconcile(s, selection, host), selection)
  {
    var diff := SessionDiff(s, selection);
    var s1 := Drop(s, diff.toUnsubscribe);
    ReconcileCount(s, selection, host);
    DroppedReady(s, selection);
    AddSound(s1, diff.toSubscribe, host);
    KeepsThenExtends(s, s1, Add(s1, diff.toSubscribe, host), selection);
  }

  /** Subscriptions whose channel stays wanted keep their id. */
  ghost predicate ReconcileKeeps(s: Session, s': Session, selection: seq<ChannelInfo>) {
    forall sub :: sub in s.subs && s.subs[sub] in Target(s.catalog, selection, s.desired)
      ==> sub in s'.subs && s'.subs[sub] == s.subs[sub]
  }

  lemma KeptValues(s: Session, selection: seq<ChannelInfo>)
    ensures var s1 := Drop(s, SessionDiff(s, selection).toUnsubscribe);
            && s1.subs.Values == s.subs.Values * Target(s.catalog, selection, s.desired)
            && ReconcileKeeps(s, s1, selection)
            && s1.subs.Keys <= s.subs.Keys
  {
    var topics := OfferedTopics(s.catalog, selection);
    var drop := ToDrop(s.subs, topics, s.desired);
    var s1 := Drop(s, SessionDiff(s, selection).toUnsubscribe);
    assert s1.subs == s.subs - drop;
    forall id | id in s.subs.Values * Target(s.catalog, selection, s.desired) ensures id in s1.subs.Values {
      var sub :| sub in s.subs && s.subs[sub] == id;
      assert sub in s1.subs;
    }
  }

  /** A second reconcile in a row changes nothing: no frame, no id, no binding request. */
  lemma ReconcileIdempotent(s: Session, selection: seq<ChannelInfo>, host: Host)
    requires Converged(s, selection)
    ensures Reconcile(s, selection, host) == s
  {
    var topics := OfferedTopics(s.catalog, selection);
    forall sub | sub in s.subs ensures Wanted(s.subs[sub], topics, s.desired) {
      assert s.subs[sub] in s.subs.Values;
    }
    assert ToDrop(s.subs, topics, s.desired) == {};
    assert ToAdd(s.subs, topics, s.desired) == {};
    var diff := SessionDiff(s, selection);
    EmptyList(diff.toUnsubscribe);
    EmptyList(diff.toSubscribe);
  }

  lemma EmptyList(ids: seq<nat>)
    ensures Elements(ids) == {} <==> ids == []
  {
    if ids != [] {
      assert ids[0] in Elements(ids);
    }
  }
}
