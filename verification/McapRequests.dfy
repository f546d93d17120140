/** Which parser requests a recording leads to, and what each of them asks for. */
module McapRequests {
  import opened Slices
  import opened Wrappers
  import opened McapBinding

  /** The parser a channel needs. A schema's encoding stands in for a missing message encoding and, where it has one,
      for "cdr"; a channel without schema goes by its message encoding and names its topic as the type. */
  lemma RequestMeans(c: Channel, schemas: map<nat, Schema>)
    ensures RequestFor(c, schemas).topic == c.topic
    ensures c.schemaId == 0 || c.schemaId !in schemas ==>
              var q := RequestFor(c, schemas);
              && q.parserEncoding == c.encoding && q.typeName == c.topic
              && (q.ros1 <==> c.encoding in {"ros1", "ros1msg"})
    ensures c.schemaId != 0 && c.schemaId in schemas ==>
              var q, s := RequestFor(c, schemas), schemas[c.schemaId];
              && q.typeName == s.name
              && (c.encoding == "" ==> q.parserEncoding == s.encoding)
              && (c.encoding == "cdr" ==> q.parserEncoding == if s.encoding == "" then "cdr" else s.encoding)
              && (c.encoding != "" && c.encoding != "cdr" ==> q.parserEncoding == c.encoding)
              && (q.ros1 <==> || c.encoding == "ros1" || q.parserEncoding in {"ros1", "ros1msg"}
                              || s.encoding == "ros1msg")
  {
  }

  // ----- where a request comes from -----

  /** The loop's variables when channel k of file f is looked at. */
  function At(host: Host, selected: set<string>, files: seq<Split>, f: nat, k: nat): Binder
    requires f < |files|
  {
    BindChannels(host, selected, files[f], BindFiles(host, selected, files, f), k)
  }

  predicate IsChannel(files: seq<Split>, f: nat, k: nat) {
    f < |files| && k < |files[f].channels|
  }

  /** A selected channel whose schema, if it names one, is there. */
  predicate Usable(selected: set<string>, files: seq<Split>, f: nat, k: nat)
    requires IsChannel(files, f, k)
  {
    files[f].channels[k].topic in selected && !Dangling(files[f].channels[k], files[f].schemas)
  }

  function RequestAt(files: seq<Split>, f: nat, k: nat): Request
    requires IsChannel(files, f, k)
  {
    RequestFor(files[f].channels[k], files[f].schemas)
  }

  predicate Before(f: nat, k: nat, f': nat, k': nat) {
    f < f' || (f == f' && k < k')
  }

  /** The first usable channel of its topic. */
  ghost predicate IsFirst(selected: set<string>, files: seq<Split>, f: nat, k: nat) {
    && IsChannel(files, f, k) && Usable(selected, files, f, k)
    && forall f': nat, k': nat ::
         IsChannel(files, f', k') && Before(f', k', f, k) && Usable(selected, files, f', k') ==>
         files[f'].channels[k'].topic != files[f].channels[k].topic
  }

  lemma {:induction false} DecidedWithin(host: Host, selected: set<string>, files: seq<Split>, f: nat, j: nat, k: nat)
    requires f < |files| && j <= k <= |files[f].channels|
    ensures forall t :: t in At(host, selected, files, f, j).byTopic ==> t in At(host, selected, files, f, k).byTopic
    ensures At(host, selected, files, f, j).calls <= At(host, selected, files, f, k).calls
  {
    if j < k {
      DecidedWithin(host, selected, files, f, j, k - 1);
      DecidedOnce(host, selected, files[f].schemas, At(host, selected, files, f, k - 1), files[f].channels[k - 1]);
    }
  }

  lemma {:induction false} DecidedUpTo(
      host: Host, selected: set<string>, files: seq<Split>, f: nat, j: nat, f': nat, k: nat)
    requires f <= f' < |files| && j <= |files[f].channels| && k <= |files[f'].channels| && (f == f' ==> j <= k)
    decreases f'
    ensures forall t :: t in At(host, selected, files, f, j).byTopic ==> t in At(host, selected, files, f', k).byTopic
    ensures At(host, selected, files, f, j).calls <= At(host, selected, files, f', k).calls
  {
    if f == f' {
      DecidedWithin(host, selected, files, f, j, k);
    } else {
      DecidedUpTo(host, selected, files, f, j, f' - 1, |files[f' - 1].channels|);
      DecidedWithin(host, selected, files, f', 0, k);
    }
  }

  /** When a usable channel has been looked at, its topic is decided. */
  lemma UsableDecides(host: Host, selected: set<string>, files: seq<Split>, f: nat, k: nat, f': nat, k': nat)
    requires IsChannel(files, f, k) && Usable(selected, files, f, k)
    requires Before(f, k, f', k') && f' < |files| && k' <= |files[f'].channels|
    ensures files[f].channels[k].topic in At(host, selected, files, f', k').byTopic
  {
    DecidedUpTo(host, selected, files, f, k + 1, f', k');
  }

  /** Only usable channels decide. */
  ghost predicate DecidedBy(selected: set<string>, files: seq<Split>, topic: string, f: nat, k: nat) {
    exists f': nat, k': nat :: IsChannel(files, f', k') && Before(f', k', f, k) && Usable(selected, files, f', k')
                     && files[f'].channels[k'].topic == topic
  }

  lemma {:induction false} OnlyUsableDecide(
      host: Host, selected: set<string>, files: seq<Split>, f: nat, k: nat, topic: string)
    requires f < |files| && k <= |files[f].channels| && topic in At(host, selected, files, f, k).byTopic
    decreases f, k
    ensures DecidedBy(selected, files, topic, f, k)
  {
    if k > 0 {
      if topic in At(host, selected, files, f, k - 1).byTopic {
        OnlyUsableDecide(host, selected, files, f, k - 1, topic);
        var f': nat, k': nat :| IsChannel(files, f', k') && Before(f', k', f, k - 1) && Usable(selected, files, f', k')
                      && files[f'].channels[k'].topic == topic;
        assert Before(f', k', f, k);
      } else {
        assert IsChannel(files, f, k - 1) && Before(f, k - 1, f, k) && Usable(selected, files, f, k - 1);
      }
    } else if f > 0 {
      OnlyUsableDecide(host, selected, files, f - 1, |files[f - 1].channels|, topic);
      var f': nat, k': nat :| IsChannel(files, f', k') && Before(f', k', f - 1, |files[f - 1].channels|)
                    && Usable(selected, files, f', k') && files[f'].channels[k'].topic == topic;
      assert Before(f', k', f, k);
    }
  }

  /** A channel's topic is still open when it is looked at exactly when it is the first usable one. */
  lemma OpenExactly(host: Host, selected: set<string>, files: seq<Split>, f: nat, k: nat)
    requires IsChannel(files, f, k) && Usable(selected, files, f, k)
    ensures files[f].channels[k].topic !in At(host, selected, files, f, k).byTopic <==> IsFirst(selected, files, f, k)
  {
    var topic := files[f].channels[k].topic;
    if topic in At(host, selected, files, f, k).byTopic {
      OnlyUsableDecide(host, selected, files, f, k, topic);
    } else {
      forall f': nat, k': nat | IsChannel(files, f', k') && Before(f', k', f, k) && Usable(selected, files, f', k')
        ensures files[f'].channels[k'].topic != topic
      {
        UsableDecides(host, selected, files, f', k', f, k);
      }
    }
  }

  /** Call i was made for channel k of file f. */
  ghost predicate MadeFor(
      host: Host, selected: set<string>, files: seq<Split>, call: Call, i: nat, f: nat, k: nat)
  {
    && IsFirst(selected, files, f, k) && RequestAt(files, f, k).parserEncoding != ""
    && call == Call(RequestAt(files, f, k), host(i, RequestAt(files, f, k)))
  }

  lemma {:induction false} CallMadeFor(
      host: Host, selected: set<string>, files: seq<Split>, f: nat, k: nat, i: nat) returns (f': nat, k': nat)
    requires f < |files| && k <= |files[f].channels| && i < |At(host, selected, files, f, k).calls|
    decreases f, k
    ensures MadeFor(host, selected, files, At(host, selected, files, f, k).calls[i], i, f', k')
  {
    if k > 0 {
      var before := At(host, selected, files, f, k - 1);
      if i < |before.calls| {
        f', k' := CallMadeFor(host, selected, files, f, k - 1, i);
        DecidedWithin(host, selected, files, f, k - 1, k);
      } else {
        f', k' := f, k - 1;
        OpenExactly(host, selected, files, f, k - 1);
      }
    } else {
      f', k' := CallMadeFor(host, selected, files, f - 1, |files[f - 1].channels|, i);
    }
  }

  /** Every request is that of the first usable channel of its topic, in reading order, and its answer is the host's
      to that request. */
  lemma RequestsAreFirsts(host: Host, selected: set<string>, files: seq<Split>, i: nat) returns (f: nat, k: nat)
    requires i < |BindFiles(host, selected, files, |files|).calls|
    ensures MadeFor(host, selected, files, BindFiles(host, selected, files, |files|).calls[i], i, f, k)
  {
    var last := |files| - 1;
    f, k := CallMadeFor(host, selected, files, last, |files[last].channels|, i);
  }

  /** And the first usable channel of every topic leads to one, if it has an encoding at all. */
  lemma FirstsAreRequested(host: Host, selected: set<string>, files: seq<Split>, f: nat, k: nat) returns (i: nat)
    requires IsFirst(selected, files, f, k) && RequestAt(files, f, k).parserEncoding != ""
    ensures i < |BindFiles(host, selected, files, |files|).calls|
    ensures MadeFor(host, selected, files, BindFiles(host, selected, files, |files|).calls[i], i, f, k)
  {
    var last := |files| - 1;
    OpenExactly(host, selected, files, f, k);
    i := |At(host, selected, files, f, k).calls|;
    DecidedUpTo(host, selected, files, f, k + 1, last, |files[last].channels|);
    assert At(host, selected, files, f, k + 1).calls[i] == BindFiles(host, selected, files, |files|).calls[i];
  }
}
