/** The subscription diff and the advertise filter, as loops over ordered maps. */
module FoxgloveSubscription {
  import opened Slices
  import opened FoxgloveProtocol
  import opened OrderedKeys

  const ID_RANGE := 0x1_0000_0000

  /** uint32_t subscription ids. */
  type SubId = x: nat | x < ID_RANGE

  datatype SubscriptionDiff = SubscriptionDiff(toUnsubscribe: seq<SubId>, toSubscribe: seq<ChannelId>)

  /** An empty selection is no filter; otherwise it is an allow-list of topics. */
  predicate PassesAdvertiseFilter(topic: string, selection: seq<ChannelInfo>) {
    selection == [] || exists i :: 0 <= i < |selection| && selection[i].topic == topic
  }

  predicate Offered(ch: ChannelInfo, selection: seq<ChannelInfo>) {
    ClassifyChannel(ch).supported && PassesAdvertiseFilter(ch.topic, selection)
  }

  /** The channels the source may subscribe to, with their topics. */
  function OfferedTopics(catalog: map<ChannelId, ChannelInfo>, selection: seq<ChannelInfo>): map<ChannelId, string> {
    map id | id in catalog && Offered(catalog[id], selection) :: catalog[id].topic
  }

  /** The same map built channel by channel. */
  function OfferedAmong(catalog: map<ChannelId, ChannelInfo>, selection: seq<ChannelInfo>, ids: seq<ChannelId>)
    : map<ChannelId, string>
  {
    if ids == [] then map[]
    else
      var before, id := OfferedAmong(catalog, selection, ids[..|ids| - 1]), ids[|ids| - 1];
      if id in catalog && Offered(catalog[id], selection) then before[id := catalog[id].topic] else before
  }

  lemma {:induction false} OfferedAmongIs(
      catalog: map<ChannelId, ChannelInfo>, selection: seq<ChannelInfo>, ids: seq<ChannelId>, id: ChannelId)
    ensures var m := OfferedAmong(catalog, selection, ids);
            && (id in m <==> id in ids && id in catalog && Offered(catalog[id], selection))
            && (id in m ==> m[id] == catalog[id].topic)
  {
    if ids != [] {
      OfferedAmongIs(catalog, selection, ids[..|ids| - 1], id);
      LastOff(ids);
    }
  }

  lemma OfferedStep(catalog: map<ChannelId, ChannelInfo>, selection: seq<ChannelInfo>, ids: seq<ChannelId>, i: nat)
    requires i < |ids| && ids[i] in catalog
    ensures var before, ch := OfferedAmong(catalog, selection, ids[..i]), catalog[ids[i]];
            SameValue(OfferedAmong(catalog, selection, ids[..i + 1]),
                 if Offered(ch, selection) then before[ids[i] := ch.topic] else before)
  {
    PrefixOfPrefix(ids, i + 1, i);
  }

  method FilteredAdvertisedTopics(catalog: map<ChannelId, ChannelInfo>, selection: seq<ChannelInfo>)
    returns (out: map<ChannelId, string>)
    ensures out == OfferedTopics(catalog, selection)
  {
    out := map[];
    var ids := Sorted(catalog.Keys);
    SortedMembers(catalog.Keys);
    for i := 0 to |ids|
      invariant SameValue(out, OfferedAmong(catalog, selection, ids[..i]))
    {
      OfferedStep(catalog, selection, ids, i);
      if ClassifyChannel(catalog[ids[i]]).supported && PassesAdvertiseFilter(catalog[ids[i]].topic, selection) {
        out := out[ids[i] := catalog[ids[i]].topic];
      }
    }
    Whole(ids);
    EveryKeyListed(catalog, selection, ids);
  }

  lemma EveryKeyListed(catalog: map<ChannelId, ChannelInfo>, selection: seq<ChannelInfo>, ids: seq<ChannelId>)
    requires Elements(ids) == catalog.Keys
    ensures SameValue(OfferedAmong(catalog, selection, ids), OfferedTopics(catalog, selection))
  {
    var a, b := OfferedAmong(catalog, selection, ids), OfferedTopics(catalog, selection);
    forall id ensures (id in a <==> id in b) && (id in a ==> a[id] == b[id]) {
      OfferedAmongIs(catalog, selection, ids, id);
      assert id in catalog <==> id in Elements(ids);
    }
    assert a == b;
  }

  /** A live subscription stays iff its channel is still offered under a desired topic. */
  predicate Wanted(id: ChannelId, topics: map<ChannelId, string>, desired: set<string>) {
    id in topics && topics[id] in desired
  }

  function ToDrop(subs: map<SubId, ChannelId>, topics: map<ChannelId, string>, desired: set<string>): set<SubId> {
    set s | s in subs && !Wanted(subs[s], topics, desired)
  }

  function ToAdd(subs: map<SubId, ChannelId>, topics: map<ChannelId, string>, desired: set<string>): set<ChannelId> {
    set id | id in topics && topics[id] in desired && id !in subs.Values
  }

  /** The diff, declaratively: both lists are ascending enumerations of exactly the ids concerned. */
  function Diff(subs: map<SubId, ChannelId>, topics: map<ChannelId, string>, desired: set<string>): SubscriptionDiff {
    SubscriptionDiff(SortedSubs(ToDrop(subs, topics, desired)), Sorted(ToAdd(subs, topics, desired)))
  }

  function SortedSubs(s: set<SubId>): (r: seq<SubId>)
    ensures Ascending(r) && Elements(r) == s
  {
    var t: set<nat> := s;
    var r := Sorted(t);
    assert forall i :: 0 <= i < |r| ==> r[i] in Elements(r);
    r
  }

  method ComputeSubscriptionDiff(
      subs: map<SubId, ChannelId>, topics: map<ChannelId, string>, desired: set<string>)
    returns (diff: SubscriptionDiff)
    ensures diff == Diff(subs, topics, desired)
  {
    var drop, subscribed := CollectStale(subs, topics, desired);
    var add := CollectMissing(topics, desired, subscribed);
    assert ToAdd(subs, topics, desired)
        == set id | id in topics && topics[id] in desired && id !in subscribed;
    diff := SubscriptionDiff(drop, add);
  }

  /** The channels of the first few subscriptions, as the loop collects them. */
  function Covered(subs: map<SubId, ChannelId>, ids: seq<SubId>): set<ChannelId> {
    set i | 0 <= i < |ids| && ids[i] in subs :: subs[ids[i]]
  }

  lemma CoveredStep(subs: map<SubId, ChannelId>, ids: seq<SubId>, i: nat)
    requires i < |ids| && ids[i] in subs
    ensures Covered(subs, ids[..i + 1]) == Covered(subs, ids[..i]) + {subs[ids[i]]}
  {
    var now, next := ids[..i], ids[..i + 1];
    forall c | c in Covered(subs, now) ensures c in Covered(subs, next) {
      var j :| 0 <= j < |now| && now[j] in subs && subs[now[j]] == c;
      assert next[j] == now[j];
    }
    assert next[i] == ids[i];
  }

  lemma CoveredAll(subs: map<SubId, ChannelId>)
    ensures Covered(subs, SortedSubs(subs.Keys)) == subs.Values
  {
    var ids := SortedSubs(subs.Keys);
    forall c | c in subs.Values ensures c in Covered(subs, ids) {
      var s :| s in subs && subs[s] == c;
      assert s in Elements(ids);
      var i :| 0 <= i < |ids| && ids[i] == s;
    }
  }

  /** First loop: the subscriptions to drop, and the channels that have one. */
  method CollectStale(subs: map<SubId, ChannelId>, topics: map<ChannelId, string>, desired: set<string>)
    returns (drop: seq<SubId>, subscribed: set<ChannelId>)
    ensures drop == SortedSubs(ToDrop(subs, topics, desired))
    ensures subscribed == subs.Values
  {
    subscribed, drop := {}, [];
    var ids := SortedSubs(subs.Keys);
    ghost var stale := ToDrop(subs, topics, desired);
    for i := 0 to |ids|
      invariant drop == Kept(ids[..i], stale)
      invariant subscribed == Covered(subs, ids[..i])
    {
      var s := ids[i];
      assert s in Elements(ids);
      KeptStep(ids, i, stale);
      CoveredStep(subs, ids, i);
      subscribed := subscribed + {subs[s]};
      var keep := subs[s] in topics && topics[subs[s]] in desired;
      if !keep {
        drop := drop + [s];
      }
    }
    Whole(ids);
    CoveredAll(subs);
    KeptSorted(subs.Keys, stale);
  }

  /** Second loop: the desired channels that no subscription covers. */
  method CollectMissing(topics: map<ChannelId, string>, desired: set<string>, subscribed: set<ChannelId>)
    returns (add: seq<ChannelId>)
    ensures add == Sorted(set id | id in topics && topics[id] in desired && id !in subscribed)
  {
    add := [];
    ghost var missing := set id | id in topics && topics[id] in desired && id !in subscribed;
    var ids := Sorted(topics.Keys);
    for i := 0 to |ids|
      invariant add == Kept(ids[..i], missing)
    {
      var id := ids[i];
      assert id in Elements(ids);
      KeptStep(ids, i, missing);
      if topics[id] in desired && id !in subscribed {
        add := add + [id];
      }
    }
    Whole(ids);
    KeptSorted(topics.Keys, missing);
  }
}
