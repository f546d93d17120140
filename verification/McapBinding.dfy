/** Binding parsers to the selected channels of a split recording: one request per topic. */
module McapBinding {
  import opened Wrappers

  /** What the host hands out for a binding. */
  type Handle = nat

  datatype Channel = Channel(id: nat, topic: string, schemaId: nat, encoding: string)

  datatype Schema = Schema(name: string, encoding: string)

  /** One file of the recording: its channels in the order the reader lists them, ids distinct. */
  datatype Split = Split(channels: seq<Channel>, schemas: map<nat, Schema>)

  datatype Request = Request(topic: string, parserEncoding: string, typeName: string, ros1: bool)

  datatype Call = Call(request: Request, answer: Option<Handle>)

  /** The host's answer to the n-th request: any function. */
  type Host = (nat, Request) -> Option<Handle>

  /** The loop's variables: the topics decided so far, the bindings of the current file, the requests made, and the
      topics reported as errors. */
  datatype Binder = Binder(
    byTopic: map<string, Option<Handle>>, bindings: map<nat, Handle>, calls: seq<Call>, errors: seq<string>)

  const EMPTY_BINDER := Binder(map[], map[], [], [])

  predicate IsSchemaless(schemaId: nat) {
    schemaId == 0
  }

  /** A non-zero schema id that resolves to nothing. */
  predicate Dangling(c: Channel, schemas: map<nat, Schema>) {
    !IsSchemaless(c.schemaId) && c.schemaId !in schemas
  }

  function SchemaOf(c: Channel, schemas: map<nat, Schema>): Option<Schema> {
    if IsSchemaless(c.schemaId) || c.schemaId !in schemas then None else Some(schemas[c.schemaId])
  }

  function ParserEncoding(c: Channel, schema: Option<Schema>): string {
    if schema.Some? && (c.encoding == [] || (c.encoding == "cdr" && schema.value.encoding != []))
    then schema.value.encoding else c.encoding
  }

  function RequestFor(c: Channel, schemas: map<nat, Schema>): Request {
    var schema := SchemaOf(c, schemas);
    var encoding := ParserEncoding(c, schema);
    Request(
      c.topic, encoding, if schema.Some? then schema.value.name else c.topic,
      c.encoding == "ros1" || encoding == "ros1" || encoding == "ros1msg"
      || (schema.Some? && schema.value.encoding == "ros1msg"))
  }

  function BindChannel(host: Host, selected: set<string>, schemas: map<nat, Schema>, b: Binder, c: Channel): Binder {
    if c.topic !in selected then b
    else if c.topic in b.byTopic then
      if b.byTopic[c.topic].Some? then b.(bindings := b.bindings[c.id := b.byTopic[c.topic].value]) else b
    else if Dangling(c, schemas) then b
    else
      var request := RequestFor(c, schemas);
      if request.parserEncoding == [] then
        b.(byTopic := b.byTopic[c.topic := None], errors := b.errors + [c.topic])
      else
        var answer := host(|b.calls|, request);
        var asked := b.(byTopic := b.byTopic[c.topic := answer], calls := b.calls + [Call(request, answer)]);
        if answer.None? then asked.(errors := asked.errors + [c.topic])
        else asked.(bindings := asked.bindings[c.id := answer.value])
  }

  /** After the first k channels of a file. */
  function BindChannels(host: Host, selected: set<string>, file: Split, b: Binder, k: nat): Binder {
    if k == 0 || k > |file.channels| then b.(bindings := map[])
    else BindChannel(host, selected, file.schemas, BindChannels(host, selected, file, b, k - 1), file.channels[k - 1])
  }

  function BindFile(host: Host, selected: set<string>, file: Split, b: Binder): Binder {
    BindChannels(host, selected, file, b, |file.channels|)
  }

  /** After the first n files. */
  function BindFiles(host: Host, selected: set<string>, files: seq<Split>, n: nat): Binder {
    if n == 0 || n > |files| then EMPTY_BINDER
    else BindFile(host, selected, files[n - 1], BindFiles(host, selected, files, n - 1))
  }

  /** The channel bindings of file f. */
  function BindingsOf(host: Host, selected: set<string>, files: seq<Split>, f: nat): map<nat, Handle> {
    BindFiles(host, selected, files, f + 1).bindings
  }

  ghost predicate AnyAnswered(calls: seq<Call>) {
    exists i :: 0 <= i < |calls| && calls[i].answer.Some?
  }

  lemma AnsweredStep(calls: seq<Call>, call: Call)
    ensures AnyAnswered(calls + [call]) <==> AnyAnswered(calls) || call.answer.Some?
  {
    var all := calls + [call];
    if AnyAnswered(calls) {
      var i :| 0 <= i < |calls| && calls[i].answer.Some?;
      assert all[i].answer.Some?;
    }
    if call.answer.Some? {
      assert all[|calls|].answer.Some?;
    }
  }

  method BindParsers(host: Host, selected: set<string>, files: seq<Split>)
    returns (perFile: seq<map<nat, Handle>>, calls: seq<Call>, errors: seq<string>, anyBinding: bool)
    ensures |perFile| == |files|
    ensures forall f :: 0 <= f < |files| ==> perFile[f] == BindingsOf(host, selected, files, f)
    ensures var b := BindFiles(host, selected, files, |files|);
            calls == b.calls && errors == b.errors
    ensures anyBinding <==> AnyAnswered(calls)
  {
    perFile, calls, errors, anyBinding := [], [], [], false;
    var byTopic: map<string, Option<Handle>> := map[];
    ghost var last: map<nat, Handle> := map[];
    for f := 0 to |files|
      invariant |perFile| == f && forall g :: 0 <= g < f ==> perFile[g] == BindingsOf(host, selected, files, g)
      invariant Binder(byTopic, last, calls, errors) == BindFiles(host, selected, files, f)
      invariant anyBinding <==> AnyAnswered(calls)
    {
      var channels, schemas := files[f].channels, files[f].schemas;
      var bindings: map<nat, Handle> := map[];
      ghost var before := BindFiles(host, selected, files, f);
      for k := 0 to |channels|
        invariant Binder(byTopic, bindings, calls, errors) == BindChannels(host, selected, files[f], before, k)
        invariant anyBinding <==> AnyAnswered(calls)
      {
        var channel := channels[k];
        if channel.topic !in selected {
          continue;
        }
        if channel.topic in byTopic {
          if byTopic[channel.topic].Some? {
            bindings := bindings[channel.id := byTopic[channel.topic].value];
          }
          continue;
        }
        if !IsSchemaless(channel.schemaId) && channel.schemaId !in schemas {
          continue;
        }
        var request := RequestFor(channel, schemas);
        if request.parserEncoding == [] {
          errors := errors + [channel.topic];
          byTopic := byTopic[channel.topic := None];
          continue;
        }
        var handle := host(|calls|, request);
        AnsweredStep(calls, Call(request, handle));
        calls := calls + [Call(request, handle)];
        byTopic := byTopic[channel.topic := handle];
        if handle.None? {
          errors := errors + [channel.topic];
          continue;
        }
        bindings := bindings[channel.id := handle.value];
        anyBinding := true;
      }
      perFile := perFile + [bindings];
      last := bindings;
    }
  }

  // ----- one request per topic, one handle per topic -----

  /** What every step of the loops keeps: requests name distinct topics; a topic is decided exactly when it was asked
      for or reported without a request, and then by its one answer. */
  ghost predicate BinderInv(b: Binder) {
    && (forall i, j :: 0 <= i < j < |b.calls| ==> b.calls[i].request.topic != b.calls[j].request.topic)
    && (forall i :: 0 <= i < |b.calls| ==>
          b.calls[i].request.topic in b.byTopic && b.byTopic[b.calls[i].request.topic] == b.calls[i].answer)
    && (forall t :: t in b.byTopic && b.byTopic[t].Some? ==> WasAsked(b.calls, t))
  }

  ghost predicate WasAsked(calls: seq<Call>, topic: string) {
    exists i :: 0 <= i < |calls| && calls[i].request.topic == topic
  }

  lemma AskedStays(calls: seq<Call>, call: Call, topic: string)
    ensures WasAsked(calls, topic) || call.request.topic == topic <==> WasAsked(calls + [call], topic)
  {
    var all := calls + [call];
    if WasAsked(calls, topic) {
      var i :| 0 <= i < |calls| && calls[i].request.topic == topic;
      assert all[i].request.topic == topic;
    }
    if call.request.topic == topic {
      assert all[|calls|].request.topic == topic;
    }
  }

  lemma BindChannelInv(host: Host, selected: set<string>, schemas: map<nat, Schema>, b: Binder, c: Channel)
    requires BinderInv(b)
    ensures BinderInv(BindChannel(host, selected, schemas, b, c))
  {
    var request := RequestFor(c, schemas);
    var call := Call(request, host(|b.calls|, request));
    var after := BindChannel(host, selected, schemas, b, c);
    forall t | t in after.byTopic && after.byTopic[t].Some? ensures WasAsked(after.calls, t) {
      AskedStays(b.calls, call, t);
    }
  }

  lemma DecidedOnce(host: Host, selected: set<string>, schemas: map<nat, Schema>, b: Binder, c: Channel)
    ensures forall t :: t in b.byTopic ==>
              var after := BindChannel(host, selected, schemas, b, c);
              t in after.byTopic && after.byTopic[t] == b.byTopic[t]
  {
  }

  /** A decided topic stays as decided through the rest of a file. */
  lemma {:induction false} BindChannelsKeep(host: Host, selected: set<string>, file: Split, b: Binder, k: nat)
    requires BinderInv(b) && k <= |file.channels|
    ensures BinderInv(BindChannels(host, selected, file, b, k))
    ensures forall t :: t in b.byTopic ==>
              var after := BindChannels(host, selected, file, b, k);
              t in after.byTopic && after.byTopic[t] == b.byTopic[t]
  {
    if k > 0 {
      BindChannelsKeep(host, selected, file, b, k - 1);
      var before := BindChannels(host, selected, file, b, k - 1);
      BindChannelInv(host, selected, file.schemas, before, file.channels[k - 1]);
      DecidedOnce(host, selected, file.schemas, before, file.channels[k - 1]);
    }
  }

  lemma {:induction false} BindFilesInv(host: Host, selected: set<string>, files: seq<Split>, n: nat)
    requires n <= |files|
    ensures BinderInv(BindFiles(host, selected, files, n))
  {
    if n > 0 {
      BindFilesInv(host, selected, files, n - 1);
      BindChannelsKeep(host, selected, files[n - 1], BindFiles(host, selected, files, n - 1), |files[n - 1].channels|);
    }
  }

  lemma {:induction false} DecidedStays(
      host: Host, selected: set<string>, files: seq<Split>, m: nat, n: nat, topic: string)
    requires m <= n <= |files| && topic in BindFiles(host, selected, files, m).byTopic
    ensures topic in BindFiles(host, selected, files, n).byTopic
    ensures BindFiles(host, selected, files, n).byTopic[topic] == BindFiles(host, selected, files, m).byTopic[topic]
  {
    if m < n {
      DecidedStays(host, selected, files, m, n - 1, topic);
      BindFilesInv(host, selected, files, n - 1);
      BindChannelsKeep(host, selected, files[n - 1], BindFiles(host, selected, files, n - 1), |files[n - 1].channels|);
    }
  }

  /** A bound channel carries its topic's handle. */
  ghost predicate BoundByTopic(file: Split, b: Binder, k: nat) {
    forall id :: id in b.bindings ==>
      exists j :: 0 <= j < k && j < |file.channels| && file.channels[j].id == id
                  && HasHandle(b, file.channels[j].topic, b.bindings[id])
  }

  ghost predicate HasHandle(b: Binder, topic: string, h: Handle) {
    topic in b.byTopic && b.byTopic[topic] == Some(h)
  }

  /** A channel's step keeps the bindings it does not make, and makes one through the topic's handle. */
  lemma BindChannelBinds(
      host: Host, selected: set<string>, schemas: map<nat, Schema>, b: Binder, c: Channel, id: nat)
    ensures var after := BindChannel(host, selected, schemas, b, c);
            id in after.bindings ==>
              || (id in b.bindings && after.bindings[id] == b.bindings[id])
              || (c.id == id && HasHandle(after, c.topic, after.bindings[id]))
  {
  }

  lemma StillBoundByTopic(file: Split, before: Binder, after: Binder, k: nat, id: nat)
    requires BoundByTopic(file, before, k) && id in before.bindings && id in after.bindings
    requires after.bindings[id] == before.bindings[id]
    requires forall t :: t in before.byTopic ==> t in after.byTopic && after.byTopic[t] == before.byTopic[t]
    ensures exists j :: 0 <= j < k && j < |file.channels| && file.channels[j].id == id
                        && HasHandle(after, file.channels[j].topic, after.bindings[id])
  {
    var j :| 0 <= j < k && j < |file.channels| && file.channels[j].id == id
             && HasHandle(before, file.channels[j].topic, before.bindings[id]);
    assert HasHandle(after, file.channels[j].topic, after.bindings[id]);
  }

  lemma {:induction false} ChannelsBoundByTopic(host: Host, selected: set<string>, file: Split, b: Binder, k: nat)
    requires BinderInv(b) && k <= |file.channels|
    ensures BoundByTopic(file, BindChannels(host, selected, file, b, k), k)
  {
    if k > 0 {
      var before, c := BindChannels(host, selected, file, b, k - 1), file.channels[k - 1];
      var after := BindChannel(host, selected, file.schemas, before, c);
      ChannelsBoundByTopic(host, selected, file, b, k - 1);
      BindChannelsKeep(host, selected, file, b, k - 1);
      DecidedOnce(host, selected, file.schemas, before, c);
      forall id | id in after.bindings
        ensures exists j :: 0 <= j < k && j < |file.channels| && file.channels[j].id == id
                            && HasHandle(after, file.channels[j].topic, after.bindings[id])
      {
        BindChannelBinds(host, selected, file.schemas, before, c, id);
        if id in before.bindings && after.bindings[id] == before.bindings[id] {
          StillBoundByTopic(file, before, after, k - 1, id);
        }
      }
    }
  }

  ghost predicate DistinctIds(file: Split) {
    forall i, j :: 0 <= i < j < |file.channels| ==> file.channels[i].id != file.channels[j].id
  }

  /** No two requests name the same topic. */
  lemma OneRequestPerTopic(host: Host, selected: set<string>, files: seq<Split>, i: nat, j: nat)
    requires var calls := BindFiles(host, selected, files, |files|).calls;
             i < j < |calls|
    ensures var calls := BindFiles(host, selected, files, |files|).calls;
            calls[i].request.topic != calls[j].request.topic
  {
    BindFilesInv(host, selected, files, |files|);
  }

  /** Channel k of file f is bound to the handle its topic's one request got. */
  lemma BoundToTheAnswer(host: Host, selected: set<string>, files: seq<Split>, f: nat, k: nat) returns (i: nat)
    requires f < |files| && k < |files[f].channels| && DistinctIds(files[f])
    requires files[f].channels[k].id in BindingsOf(host, selected, files, f)
    ensures var calls := BindFiles(host, selected, files, |files|).calls;
            var c := files[f].channels[k];
            && i < |calls| && calls[i].request.topic == c.topic
            && calls[i].answer == Some(BindingsOf(host, selected, files, f)[c.id])
  {
    var c := files[f].channels[k];
    var here, end := BindFiles(host, selected, files, f + 1), BindFiles(host, selected, files, |files|);
    BindFilesInv(host, selected, files, f);
    ChannelsBoundByTopic(host, selected, files[f], BindFiles(host, selected, files, f), |files[f].channels|);
    assert HasHandle(here, c.topic, here.bindings[c.id]);
    DecidedStays(host, selected, files, f + 1, |files|, c.topic);
    BindFilesInv(host, selected, files, |files|);
    assert WasAsked(end.calls, c.topic);
    i :| 0 <= i < |end.calls| && end.calls[i].request.topic == c.topic;
  }

  /** All bound channels of one topic, in whatever files, share one handle. */
  lemma OneHandlePerTopic(
      host: Host, selected: set<string>, files: seq<Split>, f: nat, k: nat, f': nat, k': nat)
    requires f < |files| && k < |files[f].channels| && DistinctIds(files[f])
    requires f' < |files| && k' < |files[f'].channels| && DistinctIds(files[f'])
    requires files[f].channels[k].topic == files[f'].channels[k'].topic
    requires files[f].channels[k].id in BindingsOf(host, selected, files, f)
    requires files[f'].channels[k'].id in BindingsOf(host, selected, files, f')
    ensures BindingsOf(host, selected, files, f)[files[f].channels[k].id]
            == BindingsOf(host, selected, files, f')[files[f'].channels[k'].id]
  {
    var i := BoundToTheAnswer(host, selected, files, f, k);
    var j := BoundToTheAnswer(host, selected, files, f', k');
    if i < j {
      OneRequestPerTopic(host, selected, files, i, j);
    } else if j < i {
      OneRequestPerTopic(host, selected, files, j, i);
    }
  }

  /** A channel ends up bound exactly when it is selected and, once it has been looked at, its topic has a handle. */
  lemma {:induction false} BoundExactly(host: Host, selected: set<string>, file: Split, b: Binder, m: nat, k: nat)
    requires BinderInv(b) && k < m <= |file.channels| && DistinctIds(file)
    ensures var c := file.channels[k];
            var seen := BindChannels(host, selected, file, b, k + 1);
            c.id in BindChannels(host, selected, file, b, m).bindings
            <==> c.topic in selected && c.topic in seen.byTopic && seen.byTopic[c.topic].Some?
  {
    if k < m - 1 {
      BoundExactly(host, selected, file, b, m - 1, k);
      assert file.channels[m - 1].id != file.channels[k].id;
    } else {
      ChannelsBoundByTopic(host, selected, file, b, k);
      assert file.channels[k].id !in BindChannels(host, selected, file, b, k).bindings;
    }
  }
}
