/**
 The pipeline of the command line entry point: choosing a handler loader
 for every configured type from the plugins, loading the handlers, reading
 the sources and fanning the problem stream out to every sink.
 */
module Cli {
  import opened Types
  import opened Dict
  import opened Configuration
  import Junit

  // ---------------------------------------------------------------------
  // Plugins and handler loaders

  /**
   A handler loader, identified by the module it imports and the export it
   returns; invoking it is the `load` oracle of `ResolveHandlers`.
   */
  datatype Loader = Loader(moduleName: string, exportName: string)

  /** A plugin; either handler map may be missing. */
  datatype Plugin = Plugin(sourceHandlers: Option<Dict<Loader>>, sinkHandlers: Option<Dict<Loader>>)

  datatype Kind = SourceKind | SinkKind

  const JunitSourceLoader := Loader("./junit", "readJunit")
  const JunitSinkLoader := Loader("./junit", "writeJunit")

  /** The default plugin: the `junit` type as both a source and a sink. */
  const DefaultPlugin := Plugin(
    Some(Dict([Entry("junit", JunitSourceLoader)])),
    Some(Dict([Entry("junit", JunitSinkLoader)])))

  const UnknownSourcePrefix := "Unknown source type: "
  const UnknownSinkPrefix := "Unknown sink type: "

  function HandlersOf(p: Plugin, kind: Kind): Option<Dict<Loader>> {
    if kind == SourceKind then p.sourceHandlers else p.sinkHandlers
  }

  function TypeNames(items: seq<ReportRecord>): (ts: seq<string>)
    ensures |ts| == |items|
    ensures forall i :: 0 <= i < |items| ==> ts[i] == items[i].typeName
  {
    seq(|items|, i requires 0 <= i < |items| => items[i].typeName)
  }

  /**
   Reference definition: the loader of the last plugin in the list whose
   map of this kind defines the type, or `None` when none does.
   */
  function LastDefiner(plugins: seq<Plugin>, kind: Kind, t: string): Option<Loader> {
    if |plugins| == 0 then None
    else
      var m := HandlersOf(plugins[|plugins| - 1], kind);
      if m.Some? && Get(m.value, t).Some? then Get(m.value, t)
      else LastDefiner(plugins[..|plugins| - 1], kind, t)
  }

  /** One plugin's pass over the configured items: each type the plugin defines is (re)assigned. */
  function Register(acc: Dict<Loader>, items: seq<ReportRecord>, m: Dict<Loader>): (r: Dict<Loader>)
    requires Valid(acc)
    ensures Valid(r)
    ensures forall t :: Get(r, t) == if t in TypeNames(items) && Get(m, t).Some? then Get(m, t) else Get(acc, t)
    decreases |items|
  {
    if |items| == 0 then acc
    else
      var t0 := items[0].typeName;
      var next := if Get(m, t0).Some? then Put(acc, t0, Get(m, t0).value) else acc;
      assert forall t :: Get(next, t) == if t == t0 && Get(m, t).Some? then Get(m, t) else Get(acc, t);
      TypeNamesCons(items);
      Register(next, items[1..], m)
  }

  lemma TypeNamesCons(items: seq<ReportRecord>)
    requires |items| > 0
    ensures forall t :: t in TypeNames(items) <==> t == items[0].typeName || t in TypeNames(items[1..])
  {
    assert TypeNames(items) == [items[0].typeName] + TypeNames(items[1..]);
  }

  /**
   The loader map `loadHandlers` builds before its check: plugins scanned in
   order, later plugins replacing earlier ones, only configured types kept.
   */
  function Collect(items: seq<ReportRecord>, plugins: seq<Plugin>, kind: Kind): (r: Dict<Loader>)
    ensures Valid(r)
    ensures forall t :: Get(r, t) == if t in TypeNames(items) then LastDefiner(plugins, kind, t) else None
  {
    if |plugins| == 0 then Dict([])
    else
      var before := Collect(items, plugins[..|plugins| - 1], kind);
      match HandlersOf(plugins[|plugins| - 1], kind)
      case None => before
      case Some(m) => Register(before, items, m)
  }

  /** The type of the first item without a loader, if any. */
  function FirstUnknown(items: seq<ReportRecord>, d: Dict<Loader>): (r: Option<string>)
    ensures r.None? ==> forall i :: 0 <= i < |items| ==> Get(d, items[i].typeName).Some?
    ensures r.Some? ==> exists i :: (0 <= i < |items| && items[i].typeName == r.value
      && Get(d, r.value).None? && forall j :: 0 <= j < i ==> Get(d, items[j].typeName).Some?)
  {
    if |items| == 0 then None
    else if Get(d, items[0].typeName).None? then Some(items[0].typeName)
    else
      var r := FirstUnknown(items[1..], d);
      if r.Some? then
        var i :| 0 <= i < |items[1..]| && items[1..][i].typeName == r.value
          && Get(d, r.value).None? && forall j :: 0 <= j < i ==> Get(d, items[1..][j].typeName).Some?;
        assert items[i + 1] == items[1..][i];
        assert forall j :: 1 <= j < i + 1 ==> items[j] == items[1..][j - 1];
        r
      else
        assert forall j :: 1 <= j < |items| ==> items[j] == items[1..][j - 1];
        r
  }

  /**
   `loadHandlers`: the loader map for the configured items, or the error
   naming the first item, in configuration order, whose type no plugin
   defines. On success every configured type maps to the loader of the last
   plugin defining it, and no other type is present.
   */
  function LoadHandlers(items: seq<ReportRecord>, plugins: seq<Plugin>, kind: Kind, prefix: string): (r: Result<Dict<Loader>>)
    ensures r.Success? <==> forall i :: 0 <= i < |items| ==> LastDefiner(plugins, kind, items[i].typeName).Some?
    ensures r.Failure? ==> exists i :: (0 <= i < |items|
      && LastDefiner(plugins, kind, items[i].typeName).None?
      && (forall j :: 0 <= j < i ==> LastDefiner(plugins, kind, items[j].typeName).Some?)
      && r.error == ConfigurationError(prefix + items[i].typeName))
    ensures r.Success? ==> (Valid(r.value)
      && (forall t :: t in Keys(r.value) <==> t in TypeNames(items))
      && (forall t :: t in TypeNames(items) ==> Get(r.value, t) == LastDefiner(plugins, kind, t)))
  {
    var d := Collect(items, plugins, kind);
    CollectedItems(items, plugins, kind);
    match FirstUnknown(items, d)
    case Some(t) => Failure(ConfigurationError(prefix + t))
    case None =>
      assert forall t :: t in TypeNames(items) ==> exists i :: 0 <= i < |items| && items[i].typeName == t;
      Success(d)
  }

  /** Each configured item's type is looked up in the collected map as in the reference definition. */
  lemma CollectedItems(items: seq<ReportRecord>, plugins: seq<Plugin>, kind: Kind)
    ensures forall i :: 0 <= i < |items| ==>
      Get(Collect(items, plugins, kind), items[i].typeName) == LastDefiner(plugins, kind, items[i].typeName)
  {
    forall i | 0 <= i < |items|
      ensures Get(Collect(items, plugins, kind), items[i].typeName) == LastDefiner(plugins, kind, items[i].typeName)
    {
      assert TypeNames(items)[i] == items[i].typeName;
    }
  }

  /** A plugin without a map of this kind changes nothing. */
  lemma MissingMapContributesNothing(items: seq<ReportRecord>, plugins: seq<Plugin>, p: Plugin, kind: Kind)
    requires HandlersOf(p, kind).None?
    ensures Collect(items, plugins + [p], kind) == Collect(items, plugins, kind)
  {
    assert (plugins + [p])[..|plugins|] == plugins;
  }

  /** With the default plugin alone, a `junit` item gets the JUnit loader and any other type is unknown. */
  lemma DefaultPluginLoaders(f: string, t: string)
    ensures LoadHandlers([ReportRecord("junit", f)], [DefaultPlugin], SourceKind, UnknownSourcePrefix).Success?
    ensures Get(LoadHandlers([ReportRecord("junit", f)], [DefaultPlugin], SourceKind, UnknownSourcePrefix).value, "junit")
         == Some(JunitSourceLoader)
    ensures Get(LoadHandlers([ReportRecord("junit", f)], [DefaultPlugin], SinkKind, UnknownSinkPrefix).value, "junit")
         == Some(JunitSinkLoader)
    ensures t != "junit" ==>
      LoadHandlers([ReportRecord(t, f)], [DefaultPlugin], SinkKind, UnknownSinkPrefix)
        == Failure(ConfigurationError(UnknownSinkPrefix + t))
  {
    DefaultLoader([ReportRecord("junit", f)], SourceKind, UnknownSourcePrefix);
    DefaultLoader([ReportRecord("junit", f)], SinkKind, UnknownSinkPrefix);
    if t != "junit" {
      DefaultUnknown(ReportRecord(t, f), SinkKind, UnknownSinkPrefix);
    }
  }

  lemma DefaultLastDefiner(kind: Kind, t: string)
    ensures LastDefiner([DefaultPlugin], kind, t) ==
      if t == "junit" then Some(if kind == SourceKind then JunitSourceLoader else JunitSinkLoader) else None
  {
    assert [DefaultPlugin][..0] == [];
    var m := HandlersOf(DefaultPlugin, kind).value;
    assert Keys(m) == ["junit"];
  }

  lemma DefaultLoader(items: seq<ReportRecord>, kind: Kind, prefix: string)
    requires |items| == 1 && items[0].typeName == "junit"
    ensures LoadHandlers(items, [DefaultPlugin], kind, prefix).Success?
    ensures Get(LoadHandlers(items, [DefaultPlugin], kind, prefix).value, "junit")
         == Some(if kind == SourceKind then JunitSourceLoader else JunitSinkLoader)
  {
    DefaultLastDefiner(kind, "junit");
    assert TypeNames(items) == ["junit"];
  }

  lemma DefaultUnknown(item: ReportRecord, kind: Kind, prefix: string)
    requires item.typeName != "junit"
    ensures LoadHandlers([item], [DefaultPlugin], kind, prefix) == Failure(ConfigurationError(prefix + item.typeName))
  {
    DefaultLastDefiner(kind, item.typeName);
    assert [item][0] == item;
  }

  // ---------------------------------------------------------------------
  // Waiting for every result

  /**
   `Promise.all` taken in list order: every element has been started; the
   result is all the values, or the error of the first failing element.
   */
  function All<T>(rs: seq<Result<T>>): (r: Result<seq<T>>)
    ensures r.Success? <==> forall i :: 0 <= i < |rs| ==> rs[i].Success?
    ensures r.Success? ==> |r.value| == |rs| && forall i :: 0 <= i < |rs| ==> r.value[i] == rs[i].value
    ensures r.Failure? ==> exists i :: (0 <= i < |rs| && rs[i].Failure? && r.error == rs[i].error
      && forall j :: 0 <= j < i ==> rs[j].Success?)
  {
    if |rs| == 0 then Success([])
    else if rs[0].Failure? then Failure(rs[0].error)
    else
      var rest := All(rs[1..]);
      assert forall i :: 1 <= i < |rs| ==> rs[i] == rs[1..][i - 1];
      if rest.Failure? then
        var i :| 0 <= i < |rs[1..]| && rs[1..][i].Failure? && rest.error == rs[1..][i].error
          && forall j :: 0 <= j < i ==> rs[1..][j].Success?;
        assert rs[i + 1] == rs[1..][i];
        Failure(rest.error)
      else
        Success([rs[0].value] + rest.value)
  }

  /** The loaders `resolveHandlers` invokes: the loader of every map entry, once each, in entry order. */
  function LoaderCalls(loaders: Dict<Loader>): (r: seq<Loader>)
    ensures |r| == |loaders.entries|
    ensures forall i :: 0 <= i < |r| ==> r[i] == loaders.entries[i].value
  {
    seq(|loaders.entries|, i requires 0 <= i < |loaders.entries| => loaders.entries[i].value)
  }

  /**
   `resolveHandlers`: every loader is invoked; the handlers under the same
   keys in the same order, or the first failure.
   */
  function ResolveHandlers<H>(loaders: Dict<Loader>, load: Loader -> Result<H>): (r: Result<Dict<H>>)
    ensures r.Success? <==> forall i :: 0 <= i < |loaders.entries| ==> load(loaders.entries[i].value).Success?
    ensures r.Success? ==> (Keys(r.value) == Keys(loaders)
      && forall i :: 0 <= i < |loaders.entries| ==> r.value.entries[i].value == load(loaders.entries[i].value).value)
    ensures r.Failure? ==> exists i :: (0 <= i < |loaders.entries|
      && load(loaders.entries[i].value).Failure? && r.error == load(loaders.entries[i].value).error
      && forall j :: 0 <= j < i ==> load(loaders.entries[j].value).Success?)
  {
    var calls := LoaderCalls(loaders);
    var results := seq(|calls|, i requires 0 <= i < |calls| => load(calls[i]));
    assert forall i :: 0 <= i < |loaders.entries| ==> results[i] == load(loaders.entries[i].value);
    match All(results)
    case Failure(e) => Failure(e)
    case Success(hs) =>
      Success(Dict(seq(|hs|, i requires 0 <= i < |hs| && i < |loaders.entries| => Entry(loaders.entries[i].key, hs[i]))))
  }

  // ---------------------------------------------------------------------
  // The problem stream

  /** The contents of a file, as the text a handler decodes. */
  type Buffer = string

  /**
   What a source handler's generator produces when pulled to the end: the
   problems it yields and, if it throws, the error that ends it.
   */
  datatype Emitted = Emitted(problems: seq<Problem>, failure: Option<Exception>)

  /** The JUnit source handler on a parsed document: an invalid document throws before yielding anything. */
  function JunitEmitted(doc: Junit.Element): (e: Emitted)
    ensures e.failure.None? <==> doc.name == "testsuites"
    ensures e.failure.Some? ==> e == Emitted([], Some(InvalidSourceDataError))
    ensures e.failure.None? ==> Success(e.problems) == Junit.ReadJunit(doc)
  {
    match Junit.ReadJunit(doc)
    case Failure(err) => Emitted([], Some(err))
    case Success(ps) => Emitted(ps, None)
  }

  /**
   The stream `readProblems` returns, pulled to the end: each source's
   problems in turn, stopping at the first source that throws.
   */
  function Pull(runs: seq<Emitted>): Emitted {
    if |runs| == 0 then Emitted([], None)
    else
      var before := Pull(runs[..|runs| - 1]);
      if before.failure.Some? then before
      else Emitted(before.problems + runs[|runs| - 1].problems, runs[|runs| - 1].failure)
  }

  function Concat(pss: seq<seq<Problem>>): seq<Problem> {
    if |pss| == 0 then [] else Concat(pss[..|pss| - 1]) + pss[|pss| - 1]
  }

  function ProblemsOfRuns(runs: seq<Emitted>): (r: seq<seq<Problem>>)
    ensures |r| == |runs| && forall k :: 0 <= k < |runs| ==> r[k] == runs[k].problems
  {
    seq(|runs|, k requires 0 <= k < |runs| => runs[k].problems)
  }

  /**
   When no source throws, the stream is the concatenation of every source's
   problems in configured order and ends normally; when one throws, the
   stream holds the problems of the sources before it and those it yielded,
   and ends with its error.
   */
  lemma {:induction false} PullConcat(runs: seq<Emitted>)
    ensures (forall k :: 0 <= k < |runs| ==> runs[k].failure.None?) ==>
      Pull(runs) == Emitted(Concat(ProblemsOfRuns(runs)), None)
    ensures forall k :: (0 <= k < |runs| && runs[k].failure.Some?
      && (forall j :: 0 <= j < k ==> runs[j].failure.None?)) ==>
      Pull(runs) == Emitted(Concat(ProblemsOfRuns(runs[..k + 1])), runs[k].failure)
  {
    if forall k :: 0 <= k < |runs| ==> runs[k].failure.None? {
      PullAllSucceed(runs);
    }
    forall k | 0 <= k < |runs| && runs[k].failure.Some? && (forall j :: 0 <= j < k ==> runs[j].failure.None?)
      ensures Pull(runs) == Emitted(Concat(ProblemsOfRuns(runs[..k + 1])), runs[k].failure)
    {
      PullFirstFailure(runs, k);
    }
  }

  lemma {:induction false} PullAllSucceed(runs: seq<Emitted>)
    requires forall k :: 0 <= k < |runs| ==> runs[k].failure.None?
    ensures Pull(runs) == Emitted(Concat(ProblemsOfRuns(runs)), None)
  {
    if |runs| > 0 {
      var init := runs[..|runs| - 1];
      assert forall k :: 0 <= k < |init| ==> init[k] == runs[k];
      PullAllSucceed(init);
      assert ProblemsOfRuns(runs)[..|runs| - 1] == ProblemsOfRuns(init);
    }
  }

  lemma PullFirstFailure(runs: seq<Emitted>, k: nat)
    requires k < |runs| && runs[k].failure.Some?
    requires forall j :: 0 <= j < k ==> runs[j].failure.None?
    ensures Pull(runs) == Emitted(Concat(ProblemsOfRuns(runs[..k + 1])), runs[k].failure)
  {
    var prefix := runs[..k + 1];
    assert prefix[..k] == runs[..k];
    assert forall j :: 0 <= j < k ==> runs[..k][j] == runs[j];
    PullAllSucceed(runs[..k]);
    assert ProblemsOfRuns(prefix)[..k] == ProblemsOfRuns(runs[..k]);
    assert Pull(prefix) == Emitted(Concat(ProblemsOfRuns(prefix)), runs[k].failure);
    PullStops(0, runs, k + 1);
  }

  // ---------------------------------------------------------------------
  // The run, as a log of events

  datatype Event =
    | LoadSource(loader: Loader)
    | LoadSink(loader: Loader)
    | ReadFile(filename: string)
    | OpenFile(filename: string)
    | StartSink(sink: nat)
    | RunSource(source: nat)
    | Deliver(sink: nat, input: SinkInput)

  /** The phase an event belongs to; a run's phases never go backwards. */
  function Phase(e: Event): nat {
    match e
    case LoadSource(_) => 0
    case LoadSink(_) => 1
    case ReadFile(_) => 2
    case OpenFile(_) => 3
    case StartSink(_) => 4
    case RunSource(_) => 5
    case Deliver(_, _) => 5
  }

  /** One input delivered to sinks 0, …, n-1 in sink order. */
  function FanOut(n: nat, input: SinkInput): (r: seq<Event>)
    ensures |r| == n && forall i :: 0 <= i < n ==> r[i] == Deliver(i, input)
  {
    seq(n, i requires 0 <= i < n => Deliver(i, input))
  }

  /** Problems delivered one at a time, each to every sink before the next. */
  function Broadcast(n: nat, ps: seq<Problem>): seq<Event> {
    if |ps| == 0 then [] else Broadcast(n, ps[..|ps| - 1]) + FanOut(n, Next(ps[|ps| - 1]))
  }

  /**
   The events of pulling the stream through `n` sinks: each source's handler
   runs when the previous source is exhausted and its problems are broadcast;
   nothing runs after a source throws.
   */
  function Body(n: nat, runs: seq<Emitted>): seq<Event> {
    if |runs| == 0 then []
    else
      var init := runs[..|runs| - 1];
      if Pull(init).failure.Some? then Body(n, init)
      else Body(n, init) + [RunSource(|runs| - 1)] + Broadcast(n, runs[|runs| - 1].problems)
  }

  lemma {:induction false} DeliveriesAppend(a: seq<Problem>, b: seq<Problem>)
    ensures Deliveries(a + b) == Deliveries(a) + Deliveries(b)
    decreases |b|
  {
    if |b| > 0 {
      assert (a + b)[..|a + b| - 1] == a + b[..|b| - 1];
      DeliveriesAppend(a, b[..|b| - 1]);
    } else {
      assert a + b == a;
    }
  }

  /** Once a source has thrown, later sources change neither the stream nor the events. */
  lemma {:induction false} PullStops(n: nat, runs: seq<Emitted>, k: nat)
    requires k <= |runs| && Pull(runs[..k]).failure.Some?
    ensures Pull(runs) == Pull(runs[..k]) && Body(n, runs) == Body(n, runs[..k])
    decreases |runs| - k
  {
    if k < |runs| {
      assert runs[..k + 1][..k] == runs[..k];
      PullStops(n, runs, k + 1);
    } else {
      assert runs[..k] == runs;
    }
  }

  /** Delivering one input to every sink, in sink order. */
  method DeliverToAll(traces: seq<seq<SinkInput>>, input: SinkInput) returns (out: seq<seq<SinkInput>>, events: seq<Event>)
    ensures |out| == |traces|
    ensures forall i :: 0 <= i < |traces| ==> out[i] == traces[i] + [input]
    ensures events == FanOut(|traces|, input)
  {
    out := traces;
    events := [];
    var i := 0;
    while i < |traces|
      invariant 0 <= i <= |traces| && |out| == |traces|
      invariant forall j :: 0 <= j < i ==> out[j] == traces[j] + [input]
      invariant forall j :: i <= j < |traces| ==> out[j] == traces[j]
      invariant events == FanOut(i, input)
    {
      out := out[i := out[i] + [input]];
      events := events + [Deliver(i, input)];
      i := i + 1;
    }
  }

  /** Broadcasting the problems of one source. */
  method BroadcastAll(traces: seq<seq<SinkInput>>, ps: seq<Problem>) returns (out: seq<seq<SinkInput>>, events: seq<Event>)
    ensures |out| == |traces|
    ensures forall i :: 0 <= i < |traces| ==> out[i] == traces[i] + Deliveries(ps)
    ensures events == Broadcast(|traces|, ps)
  {
    out := traces;
    events := [];
    var k := 0;
    while k < |ps|
      invariant 0 <= k <= |ps| && |out| == |traces|
      invariant forall i :: 0 <= i < |traces| ==> out[i] == traces[i] + Deliveries(ps[..k])
      invariant events == Broadcast(|traces|, ps[..k])
    {
      var more;
      out, more := DeliverToAll(out, Next(ps[k]));
      assert ps[..k + 1][..k] == ps[..k];
      events := events + more;
      k := k + 1;
    }
    assert ps[..k] == ps;
  }

  /**
   `writeProblems` once every sink is open and its writer created: the
   stream is pulled source by source and each problem goes to every writer
   in sink order; if no source throws, every writer then gets the end
   marker, otherwise the run stops with the source's error and no writer
   ever gets one.
   */
  method WriteProblems(n: nat, runs: seq<Emitted>) returns (traces: seq<seq<SinkInput>>, failure: Option<Exception>, log: seq<Event>)
    ensures |traces| == n
    ensures failure == Pull(runs).failure
    ensures forall i :: 0 <= i < n ==>
      traces[i] == Deliveries(Pull(runs).problems) + (if failure.None? then [End] else [])
    ensures log == Body(n, runs) + (if failure.None? then FanOut(n, End) else [])
  {
    traces := seq(n, i => []);
    failure := None;
    log := [];
    var k := 0;
    while k < |runs| && failure.None?
      invariant 0 <= k <= |runs| && |traces| == n
      invariant failure == Pull(runs[..k]).failure
      invariant forall i :: 0 <= i < n ==> traces[i] == Deliveries(Pull(runs[..k]).problems)
      invariant log == Body(n, runs[..k])
    {
      assert runs[..k + 1][..k] == runs[..k];
      var events;
      var before := Pull(runs[..k]).problems;
      traces, events := BroadcastAll(traces, runs[k].problems);
      DeliveriesAppend(before, runs[k].problems);
      log := log + [RunSource(k)] + events;
      failure := runs[k].failure;
      k := k + 1;
    }
    if failure.Some? {
      PullStops(n, runs, k);
    } else {
      assert runs[..k] == runs;
      var ends;
      traces, ends := DeliverToAll(traces, End);
      log := log + ends;
    }
  }

  /** The inputs a given sink receives, in order, as recorded by the events. */
  function Project(events: seq<Event>, sink: nat): seq<SinkInput> {
    if |events| == 0 then []
    else
      var e := events[|events| - 1];
      Project(events[..|events| - 1], sink) + (if e.Deliver? && e.sink == sink then [e.input] else [])
  }

  lemma {:induction false} ProjectAppend(a: seq<Event>, b: seq<Event>, sink: nat)
    ensures Project(a + b, sink) == Project(a, sink) + Project(b, sink)
    decreases |b|
  {
    if |b| > 0 {
      assert (a + b)[..|a + b| - 1] == a + b[..|b| - 1];
      ProjectAppend(a, b[..|b| - 1], sink);
    } else {
      assert a + b == a;
    }
  }

  lemma {:induction false} ProjectFanOut(n: nat, input: SinkInput, sink: nat)
    ensures Project(FanOut(n, input), sink) == if sink < n then [input] else []
  {
    if n > 0 {
      assert FanOut(n, input)[..n - 1] == FanOut(n - 1, input);
      ProjectFanOut(n - 1, input, sink);
    }
  }

  lemma {:induction false} ProjectBroadcast(n: nat, ps: seq<Problem>, sink: nat)
    requires sink < n
    ensures Project(Broadcast(n, ps), sink) == Deliveries(ps)
  {
    if |ps| > 0 {
      ProjectBroadcast(n, ps[..|ps| - 1], sink);
      ProjectAppend(Broadcast(n, ps[..|ps| - 1]), FanOut(n, Next(ps[|ps| - 1])), sink);
      ProjectFanOut(n, Next(ps[|ps| - 1]), sink);
    }
  }

  lemma {:induction false} ProjectBody(n: nat, runs: seq<Emitted>, sink: nat)
    requires sink < n
    ensures Project(Body(n, runs), sink) == Deliveries(Pull(runs).problems)
  {
    if |runs| > 0 {
      var init := runs[..|runs| - 1];
      ProjectBody(n, init, sink);
      if Pull(init).failure.None? {
        var last := runs[|runs| - 1];
        ProjectAppend(Body(n, init) + [RunSource(|runs| - 1)], Broadcast(n, last.problems), sink);
        ProjectAppend(Body(n, init), [RunSource(|runs| - 1)], sink);
        assert Project([RunSource(|runs| - 1)], sink) == [] by {
          assert [RunSource(|runs| - 1)][..0] == [];
        }
        ProjectBroadcast(n, last.problems, sink);
        DeliveriesAppend(Pull(init).problems, last.problems);
      }
    }
  }

  /**
   The events of a write account for every sink's trace: the inputs the log
   shows delivered to a sink are exactly the problems of the stream, closed
   by the end marker when no source threw.
   */
  lemma SinkSeesTheStream(n: nat, runs: seq<Emitted>, sink: nat)
    requires sink < n
    ensures Pull(runs).failure.None? ==>
      Project(Body(n, runs) + FanOut(n, End), sink) == Deliveries(Pull(runs).problems) + [End]
    ensures Pull(runs).failure.Some? ==>
      Project(Body(n, runs), sink) == Deliveries(Pull(runs).problems)
  {
    ProjectBody(n, runs, sink);
    ProjectAppend(Body(n, runs), FanOut(n, End), sink);
    ProjectFanOut(n, End, sink);
  }

  /** An event delivering a problem, as opposed to the end marker. */
  predicate DeliversProblem(e: Event) {
    e.Deliver? && e.input.Next?
  }

  lemma {:induction false} BroadcastOnlyProblems(n: nat, ps: seq<Problem>)
    ensures forall j :: 0 <= j < |Broadcast(n, ps)| ==> DeliversProblem(Broadcast(n, ps)[j])
  {
    if |ps| > 0 {
      var a := Broadcast(n, ps[..|ps| - 1]);
      var b := FanOut(n, Next(ps[|ps| - 1]));
      BroadcastOnlyProblems(n, ps[..|ps| - 1]);
      assert forall j :: |a| <= j < |a + b| ==> (a + b)[j] == b[j - |a|];
    }
  }

  /**
   No end marker is delivered while the stream is pulled: every delivery in
   the body of a write carries a problem, so the end markers come after the
   last problem.
   */
  lemma {:induction false} BodyHasNoEnd(n: nat, runs: seq<Emitted>)
    ensures forall j :: 0 <= j < |Body(n, runs)| && Body(n, runs)[j].Deliver? ==> DeliversProblem(Body(n, runs)[j])
  {
    if |runs| > 0 {
      var init := runs[..|runs| - 1];
      BodyHasNoEnd(n, init);
      if Pull(init).failure.None? {
        var a := Body(n, init) + [RunSource(|runs| - 1)];
        var b := Broadcast(n, runs[|runs| - 1].problems);
        BroadcastOnlyProblems(n, runs[|runs| - 1].problems);
        assert forall j :: 0 <= j < |Body(n, init)| ==> a[j] == Body(n, init)[j];
        assert forall j :: |a| <= j < |a + b| ==> (a + b)[j] == b[j - |a|];
      }
    }
  }

  // ---------------------------------------------------------------------
  // runReportAlchemy

  /** Phases never go backwards along the log. */
  predicate PhaseOrdered(log: seq<Event>) {
    forall i, j :: 0 <= i < j < |log| ==> Phase(log[i]) <= Phase(log[j])
  }

  predicate InPhase(block: seq<Event>, p: nat) {
    forall i :: 0 <= i < |block| ==> Phase(block[i]) == p
  }

  predicate PhasesUpTo(log: seq<Event>, p: nat) {
    forall i :: 0 <= i < |log| ==> Phase(log[i]) <= p
  }

  lemma AppendPhase(log: seq<Event>, block: seq<Event>, p: nat)
    requires PhaseOrdered(log) && PhasesUpTo(log, p) && InPhase(block, p)
    ensures PhaseOrdered(log + block) && PhasesUpTo(log + block, p)
  {
    var r := log + block;
    forall i, j | 0 <= i < j < |r|
      ensures Phase(r[i]) <= Phase(r[j])
    {
      if j >= |log| {
        assert r[j] == block[j - |log|];
        if i >= |log| {
          assert r[i] == block[i - |log|];
        }
      }
    }
  }

  lemma {:induction false} BodyInPhase(n: nat, runs: seq<Emitted>)
    ensures InPhase(Body(n, runs), 5)
  {
    if |runs| > 0 {
      BodyInPhase(n, runs[..|runs| - 1]);
      BroadcastOnlyProblems(n, runs[|runs| - 1].problems);
    }
  }

  /** A handler resolved from a loader map sits under the key of its loader. */
  lemma ResolvedGet<H>(loaders: Dict<Loader>, load: Loader -> Result<H>, t: string)
    requires Valid(loaders) && ResolveHandlers(loaders, load).Success? && Get(loaders, t).Some?
    ensures Get(ResolveHandlers(loaders, load).value, t) == Some(load(Get(loaders, t).value).value)
  {
    var r := ResolveHandlers(loaders, load).value;
    var i :| 0 <= i < |loaders.entries| && loaders.entries[i] == Entry(t, Get(loaders, t).value);
    assert Keys(r)[i] == t;
    GetAt(r, i);
  }

  /**
   The loader the run uses for a configured type: that of the last plugin,
   the default plugin first and then the configured plugins in order, that
   defines the type.
   */
  function Chosen(config: Config, extra: seq<Plugin>, kind: Kind, t: string): Option<Loader> {
    LastDefiner([DefaultPlugin] + extra, kind, t)
  }

  /** Every source's type has a chosen loader, which succeeded, and `sources` holds its handler under the type. */
  ghost predicate SourcesLoaded<S>(config: Config, extra: seq<Plugin>, loadSource: Loader -> Result<S>, sources: Dict<S>) {
    forall k :: 0 <= k < |config.sources| ==>
      Chosen(config, extra, SourceKind, config.sources[k].typeName).Some?
      && loadSource(Chosen(config, extra, SourceKind, config.sources[k].typeName).value).Success?
      && Get(sources, config.sources[k].typeName)
         == Some(loadSource(Chosen(config, extra, SourceKind, config.sources[k].typeName).value).value)
  }

  /** Every source file was read, and `buffers` holds the contents in configured order. */
  predicate BuffersRead(config: Config, readFile: string -> Result<Buffer>, buffers: seq<Buffer>) {
    && |buffers| == |config.sources|
    && forall k :: 0 <= k < |config.sources| ==>
      readFile(config.sources[k].filename).Success? && buffers[k] == readFile(config.sources[k].filename).value
  }

  /** The problems each source's handler emits, with the loaders the run chooses and the files as read. */
  function SourceRuns<S>(config: Config, extra: seq<Plugin>, loadSource: Loader -> Result<S>,
                         readFile: string -> Result<Buffer>, emit: (S, Buffer) -> Emitted): (runs: seq<Emitted>)
    requires SourcesReady(config, extra, loadSource, readFile)
    ensures |runs| == |config.sources|
  {
    seq(|config.sources|, k requires 0 <= k < |config.sources| =>
      emit(loadSource(Chosen(config, extra, SourceKind, config.sources[k].typeName).value).value,
           readFile(config.sources[k].filename).value))
  }

  /** Every source's type has a chosen loader, that loader succeeds, and its file can be read. */
  predicate SourcesReady<S>(config: Config, extra: seq<Plugin>, loadSource: Loader -> Result<S>,
                            readFile: string -> Result<Buffer>) {
    forall k :: 0 <= k < |config.sources| ==>
      Chosen(config, extra, SourceKind, config.sources[k].typeName).Some?
      && loadSource(Chosen(config, extra, SourceKind, config.sources[k].typeName).value).Success?
      && readFile(config.sources[k].filename).Success?
  }

  /** The loader map `runReportAlchemy` builds for the sources: the default plugin first, then the configured ones. */
  function SourceMap(config: Config, extra: seq<Plugin>): Result<Dict<Loader>> {
    LoadHandlers(config.sources, [DefaultPlugin] + extra, SourceKind, UnknownSourcePrefix)
  }

  /** The loader map `runReportAlchemy` builds for the sinks. */
  function SinkMap(config: Config, extra: seq<Plugin>): Result<Dict<Loader>> {
    LoadHandlers(config.sinks, [DefaultPlugin] + extra, SinkKind, UnknownSinkPrefix)
  }

  /** The events of invoking the loader of every entry of a map, once each, in entry order. */
  function LoadEvents(loaders: Dict<Loader>, kind: Kind): (r: seq<Event>)
    ensures |r| == |loaders.entries|
    ensures forall i :: 0 <= i < |r| ==>
      r[i] == if kind == SourceKind then LoadSource(loaders.entries[i].value) else LoadSink(loaders.entries[i].value)
  {
    var calls := LoaderCalls(loaders);
    seq(|calls|, i requires 0 <= i < |calls| => if kind == SourceKind then LoadSource(calls[i]) else LoadSink(calls[i]))
  }

  /**
   The loading part of `runReportAlchemy`: both loader maps are checked,
   sources first, before any loader runs; then every source loader is
   invoked once, in entry order, and only if all succeed every sink loader.
   */
  method LoadAll<S, K>(config: Config, extra: seq<Plugin>,
                       loadSource: Loader -> Result<S>, loadSink: Loader -> Result<K>)
    returns (failure: Option<Exception>, log: seq<Event>, sources: Dict<S>)
    ensures SourceMap(config, extra).Failure? ==> failure == Some(SourceMap(config, extra).error) && log == []
    ensures SourceMap(config, extra).Success? && SinkMap(config, extra).Failure? ==>
      failure == Some(SinkMap(config, extra).error) && log == []
    ensures SourceMap(config, extra).Success? && SinkMap(config, extra).Success? ==>
      var resolved := ResolveHandlers(SourceMap(config, extra).value, loadSource);
      var sinks := ResolveHandlers(SinkMap(config, extra).value, loadSink);
      && log == LoadEvents(SourceMap(config, extra).value, SourceKind)
                + (if resolved.Success? then LoadEvents(SinkMap(config, extra).value, SinkKind) else [])
      && (resolved.Failure? ==> failure == Some(resolved.error))
      && (resolved.Success? ==> failure == if sinks.Success? then None else Some(sinks.error))
    ensures failure.None? <==> Loaded(config, extra, loadSource, loadSink)
    ensures SourceMap(config, extra).Success? && SinkMap(config, extra).Success? ==>
      log <= CompleteLoads(config, extra) && (failure.None? ==> log == CompleteLoads(config, extra))
    ensures failure.None? ==> SourcesLoaded(config, extra, loadSource, sources)
    ensures PhaseOrdered(log) && PhasesUpTo(log, 1)
  {
    log := [];
    sources := Dict([]);
    var sourceLoaders := SourceMap(config, extra);
    if sourceLoaders.Failure? {
      return Some(sourceLoaders.error), log, sources;
    }
    var sinkLoaders := SinkMap(config, extra);
    if sinkLoaders.Failure? {
      return Some(sinkLoaders.error), log, sources;
    }

    failure, log, sources := LoadResolved(sourceLoaders.value, sinkLoaders.value, loadSource, loadSink);
    StepPrefix(LoadEvents(sourceLoaders.value, SourceKind), LoadEvents(sinkLoaders.value, SinkKind), log,
      ResolveHandlers(sourceLoaders.value, loadSource).Success?);
    if failure.Some? {
      return;
    }
    forall k | 0 <= k < |config.sources|
      ensures Get(sourceLoaders.value, config.sources[k].typeName) == Chosen(config, extra, SourceKind, config.sources[k].typeName)
    {
      assert config.sources[k].typeName == TypeNames(config.sources)[k];
    }
    SourcesResolved(config, extra, loadSource, sourceLoaders.value);
  }

  /** Invoking every source loader, then, if all succeed, every sink loader. */
  method LoadResolved<S, K>(sourceLoaders: Dict<Loader>, sinkLoaders: Dict<Loader>,
                            loadSource: Loader -> Result<S>, loadSink: Loader -> Result<K>)
    returns (failure: Option<Exception>, log: seq<Event>, sources: Dict<S>)
    ensures var resolved := ResolveHandlers(sourceLoaders, loadSource);
      var sinks := ResolveHandlers(sinkLoaders, loadSink);
      && log == LoadEvents(sourceLoaders, SourceKind) + (if resolved.Success? then LoadEvents(sinkLoaders, SinkKind) else [])
      && (resolved.Failure? ==> failure == Some(resolved.error))
      && (resolved.Success? ==> failure == if sinks.Success? then None else Some(sinks.error))
      && (failure.None? ==> sources == resolved.value)
    ensures PhaseOrdered(log) && PhasesUpTo(log, 1)
  {
    sources := Dict([]);
    var sourceLoads := LoadEvents(sourceLoaders, SourceKind);
    AppendPhase([], sourceLoads, 0);
    log := sourceLoads;
    var resolved := ResolveHandlers(sourceLoaders, loadSource);
    if resolved.Failure? {
      return Some(resolved.error), log, sources;
    }
    sources := resolved.value;

    var sinkLoads := LoadEvents(sinkLoaders, SinkKind);
    AppendPhase(log, sinkLoads, 1);
    log := log + sinkLoads;
    var sinks := ResolveHandlers(sinkLoaders, loadSink);
    if sinks.Failure? {
      return Some(sinks.error), log, sources;
    }
    failure := None;
  }

  /** Every source's type gets a handler from the loader the run chooses for it. */
  lemma SourcesResolved<S>(config: Config, extra: seq<Plugin>, loadSource: Loader -> Result<S>, loaders: Dict<Loader>)
    requires Valid(loaders)
    requires forall k :: 0 <= k < |config.sources| ==>
      Chosen(config, extra, SourceKind, config.sources[k].typeName).Some?
      && Get(loaders, config.sources[k].typeName) == Chosen(config, extra, SourceKind, config.sources[k].typeName)
    requires ResolveHandlers(loaders, loadSource).Success?
    ensures SourcesLoaded(config, extra, loadSource, ResolveHandlers(loaders, loadSource).value)
  {
    forall k | 0 <= k < |config.sources|
      ensures Chosen(config, extra, SourceKind, config.sources[k].typeName).Some?
      ensures loadSource(Chosen(config, extra, SourceKind, config.sources[k].typeName).value).Success?
      ensures Get(ResolveHandlers(loaders, loadSource).value, config.sources[k].typeName)
           == Some(loadSource(Chosen(config, extra, SourceKind, config.sources[k].typeName).value).value)
    {
      var t := config.sources[k].typeName;
      ResolvedGet(loaders, loadSource, t);
      var i :| 0 <= i < |loaders.entries| && loaders.entries[i] == Entry(t, Get(loaders, t).value);
      assert loadSource(loaders.entries[i].value).Success?;
    }
  }

  function ReadEvents(config: Config): (r: seq<Event>)
    ensures |r| == |config.sources| && forall k :: 0 <= k < |r| ==> r[k] == ReadFile(config.sources[k].filename)
  {
    seq(|config.sources|, k requires 0 <= k < |config.sources| => ReadFile(config.sources[k].filename))
  }

  function OpenEvents(config: Config): (r: seq<Event>)
    ensures |r| == |config.sinks| && forall i :: 0 <= i < |r| ==> r[i] == OpenFile(config.sinks[i].filename)
  {
    seq(|config.sinks|, i requires 0 <= i < |config.sinks| => OpenFile(config.sinks[i].filename))
  }

  function StartEvents(n: nat): (r: seq<Event>)
    ensures |r| == n && forall i :: 0 <= i < n ==> r[i] == StartSink(i)
  {
    seq(n, i requires 0 <= i < n => StartSink(i))
  }

  /** The outcome of reading every source file, in configured order. */
  function Reads(config: Config, readFile: string -> Result<Buffer>): (rs: seq<Result<Buffer>>)
    ensures |rs| == |config.sources| && forall k :: 0 <= k < |rs| ==> rs[k] == readFile(config.sources[k].filename)
  {
    seq(|config.sources|, k requires 0 <= k < |config.sources| => readFile(config.sources[k].filename))
  }

  /** The outcome of opening every sink file, in configured order. */
  function Opens(config: Config, openForWriting: string -> Result<()>): (rs: seq<Result<()>>)
    ensures |rs| == |config.sinks| && forall i :: 0 <= i < |rs| ==> rs[i] == openForWriting(config.sinks[i].filename)
  {
    seq(|config.sinks|, i requires 0 <= i < |config.sinks| => openForWriting(config.sinks[i].filename))
  }

  /**
   The file part of `runReportAlchemy`: every source file is read, and only
   if all reads succeed every sink file is opened; only if all open is each
   sink's writer started, in sink order.
   */
  method OpenAll(config: Config, readFile: string -> Result<Buffer>, openForWriting: string -> Result<()>)
    returns (failure: Option<Exception>, log: seq<Event>, buffers: seq<Buffer>)
    ensures var read := All(Reads(config, readFile));
      var opening := All(Opens(config, openForWriting));
      && log == ReadEvents(config)
                + (if read.Success? then OpenEvents(config)
                   + (if opening.Success? then StartEvents(|config.sinks|) else []) else [])
      && (read.Failure? ==> failure == Some(read.error))
      && (read.Success? ==> failure == if opening.Success? then None else Some(opening.error))
    ensures failure.None? <==> FilesReady(config, readFile, openForWriting)
    ensures log <= CompleteFiles(config) && (failure.None? ==> log == CompleteFiles(config))
    ensures failure.None? ==> BuffersRead(config, readFile, buffers)
    ensures failure.None? ==> forall i :: 0 <= i < |config.sinks| ==> openForWriting(config.sinks[i].filename).Success?
    ensures PhaseOrdered(log)
    ensures forall j :: 0 <= j < |log| ==> 2 <= Phase(log[j]) <= 4
  {
    var readLog, sinkLog;
    failure, readLog, buffers := ReadSources(config, readFile);
    log := readLog;
    if failure.Some? {
      StepsPrefix(ReadEvents(config), OpenEvents(config), StartEvents(|config.sinks|), log, false, false);
      return;
    }
    failure, sinkLog := OpenSinks(config, openForWriting);
    FilePhases(readLog, sinkLog);
    log := log + sinkLog;
    StepsPrefix(ReadEvents(config), OpenEvents(config), StartEvents(|config.sinks|), log,
      true, All(Opens(config, openForWriting)).Success?);
  }

  /** Reading every source file; the buffers in configured order, or the first failing read's error. */
  method ReadSources(config: Config, readFile: string -> Result<Buffer>)
    returns (failure: Option<Exception>, log: seq<Event>, buffers: seq<Buffer>)
    ensures log == ReadEvents(config) && InPhase(log, 2)
    ensures failure == if All(Reads(config, readFile)).Success? then None else Some(All(Reads(config, readFile)).error)
    ensures failure.None? ==> BuffersRead(config, readFile, buffers)
  {
    log := ReadEvents(config);
    buffers := [];
    var read := All(Reads(config, readFile));
    if read.Failure? {
      return Some(read.error), log, buffers;
    }
    buffers := read.value;
    failure := None;
  }

  /** Opening every sink file and, only if all open, starting every writer in sink order. */
  method OpenSinks(config: Config, openForWriting: string -> Result<()>)
    returns (failure: Option<Exception>, log: seq<Event>)
    ensures var opening := All(Opens(config, openForWriting));
      && log == OpenEvents(config) + (if opening.Success? then StartEvents(|config.sinks|) else [])
      && failure == if opening.Success? then None else Some(opening.error)
    ensures failure.None? ==> forall i :: 0 <= i < |config.sinks| ==> openForWriting(config.sinks[i].filename).Success?
    ensures PhaseOrdered(log) && forall j :: 0 <= j < |log| ==> 3 <= Phase(log[j]) <= 4
  {
    log := OpenEvents(config);
    var opening := All(Opens(config, openForWriting));
    if opening.Failure? {
      return Some(opening.error), log;
    }
    var starts := StartEvents(|config.sinks|);
    AppendPhase(log, starts, 4);
    log := log + starts;
    failure := None;
  }

  /** Reads (phase 2) followed by opens and starts (phases 3 and 4) keep the phases in order. */
  lemma FilePhases(readLog: seq<Event>, sinkLog: seq<Event>)
    requires InPhase(readLog, 2)
    requires PhaseOrdered(sinkLog) && forall j :: 0 <= j < |sinkLog| ==> 3 <= Phase(sinkLog[j]) <= 4
    ensures PhaseOrdered(readLog + sinkLog) && forall j :: 0 <= j < |readLog + sinkLog| ==> 2 <= Phase((readLog + sinkLog)[j]) <= 4
  {
    var r := readLog + sinkLog;
    forall j | 0 <= j < |r|
      ensures r[j] == if j < |readLog| then readLog[j] else sinkLog[j - |readLog|]
    {
    }
  }

  /** Whether both loader maps are built and every source and sink loader succeeds. */
  predicate Loaded<S, K>(config: Config, extra: seq<Plugin>, loadSource: Loader -> Result<S>, loadSink: Loader -> Result<K>) {
    && SourceMap(config, extra).Success? && SinkMap(config, extra).Success?
    && ResolveHandlers(SourceMap(config, extra).value, loadSource).Success?
    && ResolveHandlers(SinkMap(config, extra).value, loadSink).Success?
  }

  /** Whether every source file can be read and every sink file opened. */
  predicate FilesReady(config: Config, readFile: string -> Result<Buffer>, openForWriting: string -> Result<()>) {
    All(Reads(config, readFile)).Success? && All(Opens(config, openForWriting)).Success?
  }

  /** Whether every step before the first problem succeeds: both maps, every loader, every read and every open. */
  predicate Prepared<S, K>(config: Config, extra: seq<Plugin>,
                           loadSource: Loader -> Result<S>, loadSink: Loader -> Result<K>,
                           readFile: string -> Result<Buffer>, openForWriting: string -> Result<()>) {
    Loaded(config, extra, loadSource, loadSink) && FilesReady(config, readFile, openForWriting)
  }

  /** The events of complete loading: every source loader, then every sink loader. */
  function CompleteLoads(config: Config, extra: seq<Plugin>): seq<Event>
    requires SourceMap(config, extra).Success? && SinkMap(config, extra).Success?
  {
    LoadEvents(SourceMap(config, extra).value, SourceKind) + LoadEvents(SinkMap(config, extra).value, SinkKind)
  }

  /** The file events of a complete preparation: every source read, every sink opened, every writer started. */
  function CompleteFiles(config: Config): seq<Event> {
    ReadEvents(config) + OpenEvents(config) + StartEvents(|config.sinks|)
  }

  /**
   The events of a complete preparation: every source loader, every sink
   loader, every source file read, every sink file opened, every writer
   started, in that order.
   */
  function PreparationLog(config: Config, extra: seq<Plugin>): seq<Event>
    requires SourceMap(config, extra).Success? && SinkMap(config, extra).Success?
  {
    CompleteLoads(config, extra) + CompleteFiles(config)
  }

  /**
   A complete preparation reads every source file, opens every sink file and
   starts every writer, and in a log that continues with the pulling of
   problems all of these come before the first source runs or problem moves.
   */
  lemma PreparedBeforePulling(config: Config, extra: seq<Plugin>, rest: seq<Event>)
    requires SourceMap(config, extra).Success? && SinkMap(config, extra).Success?
    requires InPhase(rest, 5)
    ensures var p := PreparationLog(config, extra);
      && (forall k :: 0 <= k < |config.sources| ==> ReadFile(config.sources[k].filename) in p)
      && (forall i :: 0 <= i < |config.sinks| ==> OpenFile(config.sinks[i].filename) in p && StartSink(i) in p)
      && (forall j :: 0 <= j < |p + rest| && Phase((p + rest)[j]) == 5 ==> |p| <= j)
  {
    var loads := CompleteLoads(config, extra);
    var files := CompleteFiles(config);
    FilesContents(config);
    LoadPhases(config, extra);
    BeforeTheRest(loads, files, rest);
  }

  /** Events of two earlier phases stay in a log continued by phase 5, and all of them come first. */
  lemma BeforeTheRest(loads: seq<Event>, files: seq<Event>, rest: seq<Event>)
    requires PhasesUpTo(loads, 4) && PhasesUpTo(files, 4) && InPhase(rest, 5)
    ensures forall e :: e in files ==> e in loads + files
    ensures forall j :: 0 <= j < |loads + files + rest| && Phase((loads + files + rest)[j]) == 5 ==> |loads + files| <= j
  {
  }

  /** The file events of a complete preparation: every read, open and writer start, none of them in phase 5. */
  lemma FilesContents(config: Config)
    ensures forall k :: 0 <= k < |config.sources| ==> ReadFile(config.sources[k].filename) in CompleteFiles(config)
    ensures forall i :: 0 <= i < |config.sinks| ==>
      OpenFile(config.sinks[i].filename) in CompleteFiles(config) && StartSink(i) in CompleteFiles(config)
    ensures PhasesUpTo(CompleteFiles(config), 4)
  {
    var rd := ReadEvents(config);
    var op := OpenEvents(config);
    var st := StartEvents(|config.sinks|);
    forall k | 0 <= k < |config.sources|
      ensures ReadFile(config.sources[k].filename) in rd
    {
      assert rd[k] == ReadFile(config.sources[k].filename);
    }
    forall i | 0 <= i < |config.sinks|
      ensures OpenFile(config.sinks[i].filename) in op && StartSink(i) in st
    {
      assert op[i] == OpenFile(config.sinks[i].filename);
      assert st[i] == StartSink(i);
    }
    AppendPhase([], rd, 2);
    AppendPhase(rd, op, 3);
    AppendPhase(rd + op, st, 4);
  }

  lemma LoadPhases(config: Config, extra: seq<Plugin>)
    requires SourceMap(config, extra).Success? && SinkMap(config, extra).Success?
    ensures PhasesUpTo(CompleteLoads(config, extra), 1)
  {
    var a := LoadEvents(SourceMap(config, extra).value, SourceKind);
    var b := LoadEvents(SinkMap(config, extra).value, SinkKind);
    forall j | 0 <= j < |a + b|
      ensures Phase((a + b)[j]) <= 1
    {
      if j < |a| {
        assert (a + b)[j] == a[j];
      } else {
        assert (a + b)[j] == b[j - |a|];
      }
    }
  }

  /**
   The part of `runReportAlchemy` before any problem moves: loading, then
   the files. `runs` are what the source handlers will emit once pulled. A
   preparation that stops early has done a prefix of the complete one.
   */
  method Prepare<S, K>(
    config: Config, extra: seq<Plugin>,
    loadSource: Loader -> Result<S>, loadSink: Loader -> Result<K>,
    readFile: string -> Result<Buffer>, openForWriting: string -> Result<()>,
    emit: (S, Buffer) -> Emitted)
    returns (failure: Option<Exception>, log: seq<Event>, runs: seq<Emitted>)
    ensures SourceMap(config, extra).Failure? ==> failure == Some(SourceMap(config, extra).error) && log == []
    ensures SourceMap(config, extra).Success? && SinkMap(config, extra).Failure? ==>
      failure == Some(SinkMap(config, extra).error) && log == []
    ensures SourceMap(config, extra).Success? && SinkMap(config, extra).Success? ==>
      log <= PreparationLog(config, extra)
    ensures failure.None? <==> Prepared(config, extra, loadSource, loadSink, readFile, openForWriting)
    ensures failure.None? ==> (SourcesReady(config, extra, loadSource, readFile)
      && runs == SourceRuns(config, extra, loadSource, readFile, emit)
      && log == PreparationLog(config, extra))
    ensures PhaseOrdered(log) && PhasesUpTo(log, 4)
  {
    var sources, fileLog;
    runs := [];
    failure, log, sources := LoadAll(config, extra, loadSource, loadSink);
    if failure.Some? {
      if SourceMap(config, extra).Success? && SinkMap(config, extra).Success? {
        PrefixExtend(log, CompleteLoads(config, extra), CompleteFiles(config));
      }
      return;
    }
    failure, fileLog, runs := PrepareFiles(config, extra, loadSource, readFile, openForWriting, emit, sources);
    PhasesConcat(log, fileLog);
    PrefixAfter(log, fileLog, CompleteFiles(config));
    log := log + fileLog;
  }

  /** The files of a run whose handlers are loaded, and what each source's handler will emit. */
  method PrepareFiles<S>(config: Config, extra: seq<Plugin>, loadSource: Loader -> Result<S>,
                         readFile: string -> Result<Buffer>, openForWriting: string -> Result<()>,
                         emit: (S, Buffer) -> Emitted, sources: Dict<S>)
    returns (failure: Option<Exception>, log: seq<Event>, runs: seq<Emitted>)
    requires SourcesLoaded(config, extra, loadSource, sources)
    ensures failure.None? <==> FilesReady(config, readFile, openForWriting)
    ensures log <= CompleteFiles(config) && (failure.None? ==> log == CompleteFiles(config))
    ensures failure.None? ==> (SourcesReady(config, extra, loadSource, readFile)
      && runs == SourceRuns(config, extra, loadSource, readFile, emit))
    ensures PhaseOrdered(log) && forall j :: 0 <= j < |log| ==> 2 <= Phase(log[j]) <= 4
  {
    var buffers;
    runs := [];
    failure, log, buffers := OpenAll(config, readFile, openForWriting);
    if failure.Some? {
      return;
    }
    runs := seq(|config.sources|, k requires 0 <= k < |config.sources| =>
      emit(Get(sources, config.sources[k].typeName).value, buffers[k]));
    PreparedRuns(config, extra, loadSource, readFile, emit, sources, buffers, runs);
  }

  /** A step that runs its second half only when the first succeeds has done a prefix of both halves. */
  lemma StepPrefix<T>(a: seq<T>, b: seq<T>, log: seq<T>, ok: bool)
    requires log == a + (if ok then b else [])
    ensures log <= a + b
  {
  }

  /**
   Three steps, each run only when the previous succeeds, have done a
   prefix of all three, and all of them when both conditions hold.
   */
  lemma StepsPrefix<T>(c: seq<T>, d: seq<T>, e: seq<T>, log: seq<T>, first: bool, second: bool)
    requires log == c + (if first then d + (if second then e else []) else [])
    ensures log <= c + d + e
    ensures first && second ==> log == c + d + e
  {
    if first && second {
      assert c + d + e == c + (d + e);
    } else if first {
      assert log == c + d;
    }
  }

  lemma PrefixExtend<T>(a: seq<T>, b: seq<T>, c: seq<T>)
    requires a <= b
    ensures a <= b + c
  {
    assert (b + c)[..|a|] == b[..|a|];
  }

  lemma PrefixAfter<T>(a: seq<T>, b: seq<T>, c: seq<T>)
    requires b <= c
    ensures a + b <= a + c
  {
    assert (a + c)[..|a + b|] == a + c[..|b|];
  }

  /** Loading (phases 0 and 1) followed by the files (phases 2 to 4) keeps the phases in order. */
  lemma PhasesConcat(loading: seq<Event>, files: seq<Event>)
    requires PhaseOrdered(loading) && PhasesUpTo(loading, 1)
    requires PhaseOrdered(files) && forall j :: 0 <= j < |files| ==> 2 <= Phase(files[j]) <= 4
    ensures PhaseOrdered(loading + files) && PhasesUpTo(loading + files, 4)
  {
    var r := loading + files;
    forall i, j | 0 <= i < j < |r|
      ensures Phase(r[i]) <= Phase(r[j])
    {
      if j >= |loading| {
        assert r[j] == files[j - |loading|];
        if i >= |loading| {
          assert r[i] == files[i - |loading|];
        }
      }
    }
    forall i | 0 <= i < |r|
      ensures Phase(r[i]) <= 4
    {
      if i >= |loading| {
        assert r[i] == files[i - |loading|];
      }
    }
  }

  /** The handlers loaded and the files read are exactly those `SourceRuns` runs. */
  lemma PreparedRuns<S>(config: Config, extra: seq<Plugin>, loadSource: Loader -> Result<S>,
                        readFile: string -> Result<Buffer>, emit: (S, Buffer) -> Emitted,
                        sources: Dict<S>, buffers: seq<Buffer>, runs: seq<Emitted>)
    requires SourcesLoaded(config, extra, loadSource, sources)
    requires BuffersRead(config, readFile, buffers)
    requires |runs| == |config.sources|
    requires forall k :: 0 <= k < |config.sources| ==>
      Get(sources, config.sources[k].typeName).Some? && runs[k] == emit(Get(sources, config.sources[k].typeName).value, buffers[k])
    ensures SourcesReady(config, extra, loadSource, readFile)
    ensures runs == SourceRuns(config, extra, loadSource, readFile, emit)
  {
    var expected := SourceRuns(config, extra, loadSource, readFile, emit);
    forall k | 0 <= k < |runs|
      ensures runs[k] == expected[k]
    {
    }
  }

  /**
   `runReportAlchemy` from the validated configuration on; `extra` are the
   configured plugins, after the default one. When the run succeeds every
   sink receives the problems of all sources, in configured order, then the
   end marker; a failed run never ends a sink's stream. All sinks receive
   the same inputs, the log shows each sink exactly its inputs, and the
   phases of the run never go backwards.
   */
  method Run<S, K>(
    config: Config, extra: seq<Plugin>,
    loadSource: Loader -> Result<S>, loadSink: Loader -> Result<K>,
    readFile: string -> Result<Buffer>, openForWriting: string -> Result<()>,
    emit: (S, Buffer) -> Emitted)
    returns (failure: Option<Exception>, traces: seq<seq<SinkInput>>, log: seq<Event>)
    ensures SourceMap(config, extra).Failure? ==> failure == Some(SourceMap(config, extra).error) && log == []
    ensures SourceMap(config, extra).Success? && SinkMap(config, extra).Failure? ==>
      failure == Some(SinkMap(config, extra).error) && log == []
    ensures !Prepared(config, extra, loadSource, loadSink, readFile, openForWriting) ==> failure.Some? && traces == []
    ensures Prepared(config, extra, loadSource, loadSink, readFile, openForWriting) ==>
      SourcesReady(config, extra, loadSource, readFile)
      && Written(|config.sinks|, SourceRuns(config, extra, loadSource, readFile, emit),
                 PreparationLog(config, extra), failure, traces, log)
    ensures failure.None? ==> (SourcesReady(config, extra, loadSource, readFile)
      && Completed(|config.sinks|, SourceRuns(config, extra, loadSource, readFile, emit), traces))
    ensures Delivered(failure, traces, log)
    ensures PhaseOrdered(log)
  {
    var runs;
    traces := [];
    failure, log, runs := Prepare(config, extra, loadSource, loadSink, readFile, openForWriting, emit);
    if failure.Some? {
      return;
    }
    traces, failure, log := WriteAfter(|config.sinks|, runs, log);
  }

  /**
   What writing `n` sinks after a preparation logged as `before` leaves: the
   run fails exactly as the stream does; every sink got the stream's
   problems, then the end marker only when no source threw; and the log
   continues with the write's events and nothing else.
   */
  predicate Written(n: nat, runs: seq<Emitted>, before: seq<Event>,
                    failure: Option<Exception>, traces: seq<seq<SinkInput>>, log: seq<Event>) {
    && failure == Pull(runs).failure
    && |traces| == n
    && (forall i :: 0 <= i < n ==> traces[i] == Deliveries(Pull(runs).problems) + (if failure.None? then [End] else []))
    && log == before + Body(n, runs) + (if failure.None? then FanOut(n, End) else [])
  }

  /** Every one of `n` sinks received the problems of all `runs`, in order, then the end marker. */
  predicate Completed(n: nat, runs: seq<Emitted>, traces: seq<seq<SinkInput>>) {
    && |traces| == n
    && forall i :: 0 <= i < n ==> traces[i] == Deliveries(Concat(ProblemsOfRuns(runs))) + [End]
  }

  /**
   What every run delivers, whatever happened: no end marker after a
   failure, the same inputs for every sink, and the log showing each sink
   exactly its inputs.
   */
  predicate Delivered(failure: Option<Exception>, traces: seq<seq<SinkInput>>, log: seq<Event>) {
    && (failure.Some? ==> forall i :: 0 <= i < |traces| ==> End !in traces[i])
    && (forall i, j :: 0 <= i < |traces| && 0 <= j < |traces| ==> traces[i] == traces[j])
    && (forall i :: 0 <= i < |traces| ==> Project(log, i) == traces[i])
  }

  /** The write following a preparation whose log is `before`: the log continues with the write's events. */
  method WriteAfter(n: nat, runs: seq<Emitted>, before: seq<Event>)
    returns (traces: seq<seq<SinkInput>>, failure: Option<Exception>, log: seq<Event>)
    requires PhaseOrdered(before) && PhasesUpTo(before, 4)
    ensures Written(n, runs, before, failure, traces, log)
    ensures failure.None? ==> Completed(n, runs, traces)
    ensures Delivered(failure, traces, log)
    ensures PhaseOrdered(log)
  {
    var written;
    traces, failure, written := Write(n, runs);
    AppendPhase(before, written, 5);
    ProjectAfterPreparation(before, written, traces);
    log := before + written;
    assert log == before + (Body(n, runs) + (if failure.None? then FanOut(n, End) else []));
  }

  /** Nothing is delivered before the writers start, so the write alone accounts for each sink's inputs. */
  lemma ProjectAfterPreparation(before: seq<Event>, written: seq<Event>, traces: seq<seq<SinkInput>>)
    requires PhasesUpTo(before, 4)
    requires forall i :: 0 <= i < |traces| ==> Project(written, i) == traces[i]
    ensures forall i :: 0 <= i < |traces| ==> Project(before + written, i) == traces[i]
  {
    forall i | 0 <= i < |traces|
      ensures Project(before + written, i) == traces[i]
    {
      ProjectAppend(before, written, i);
      ProjectQuiet(before, i);
    }
  }

  /** `writeProblems` on open sinks, seen from outside: what every sink receives and what the log shows. */
  method Write(n: nat, runs: seq<Emitted>) returns (traces: seq<seq<SinkInput>>, failure: Option<Exception>, written: seq<Event>)
    ensures |traces| == n && InPhase(written, 5)
    ensures failure == Pull(runs).failure
    ensures forall i :: 0 <= i < n ==>
      traces[i] == Deliveries(Pull(runs).problems) + (if failure.None? then [End] else [])
    ensures written == Body(n, runs) + (if failure.None? then FanOut(n, End) else [])
    ensures failure.None? ==> forall i :: 0 <= i < n ==> traces[i] == Deliveries(Concat(ProblemsOfRuns(runs))) + [End]
    ensures failure.Some? ==> forall i :: 0 <= i < n ==> End !in traces[i]
    ensures forall i, j :: 0 <= i < n && 0 <= j < n ==> traces[i] == traces[j]
    ensures forall i :: 0 <= i < n ==> Project(written, i) == traces[i]
  {
    traces, failure, written := WriteProblems(n, runs);
    WrittenFacts(n, runs, traces, failure, written);
    if failure.None? {
      PullComplete(runs);
    }
  }

  /** A stream that ends normally holds every source's problems, in order. */
  lemma {:induction false} PullComplete(runs: seq<Emitted>)
    requires Pull(runs).failure.None?
    ensures Pull(runs).problems == Concat(ProblemsOfRuns(runs))
  {
    if |runs| > 0 {
      var init := runs[..|runs| - 1];
      assert Pull(init).failure.None?;
      PullComplete(init);
      assert ProblemsOfRuns(runs)[..|runs| - 1] == ProblemsOfRuns(init);
    }
  }

  /** What the events and traces of a write imply: one phase, the log shows each sink its trace, no end after a failure. */
  lemma WrittenFacts(n: nat, runs: seq<Emitted>, traces: seq<seq<SinkInput>>, failure: Option<Exception>, written: seq<Event>)
    requires |traces| == n && failure == Pull(runs).failure
    requires forall i :: 0 <= i < n ==>
      traces[i] == Deliveries(Pull(runs).problems) + (if failure.None? then [End] else [])
    requires written == Body(n, runs) + (if failure.None? then FanOut(n, End) else [])
    ensures InPhase(written, 5)
    ensures forall i :: 0 <= i < n ==> Project(written, i) == traces[i]
    ensures failure.Some? ==> forall i :: 0 <= i < n ==> End !in traces[i]
  {
    BodyInPhase(n, runs);
    if failure.None? {
      assert InPhase(FanOut(n, End), 5);
      AppendPhase([], Body(n, runs), 5);
      AppendPhase(Body(n, runs), FanOut(n, End), 5);
    } else {
      assert written == Body(n, runs);
    }
    forall i | 0 <= i < n
      ensures Project(written, i) == traces[i]
    {
      SinkSeesTheStream(n, runs, i);
    }
    if failure.Some? {
      forall i | 0 <= i < n
        ensures End !in traces[i]
      {
        assert traces[i] == Deliveries(Pull(runs).problems);
      }
    }
  }

  /** A log with no deliveries projects to nothing. */
  lemma {:induction false} ProjectQuiet(events: seq<Event>, sink: nat)
    requires PhasesUpTo(events, 4)
    ensures Project(events, sink) == []
  {
    if |events| > 0 {
      ProjectQuiet(events[..|events| - 1], sink);
    }
  }

  /**
   What a JUnit sink writes, given the inputs a run delivers to it: the whole
   report when the stream ends normally, and only the prologue when a source
   throws, since the writer emits suites only on the end marker.
   */
  lemma JunitSinkFile(runs: seq<Emitted>, trace: seq<SinkInput>)
    requires trace == Deliveries(Pull(runs).problems) + (if Pull(runs).failure.None? then [End] else [])
    ensures Pull(runs).failure.None? ==>
      Junit.Feed(Junit.OpenJunit(), trace).output
        == Junit.Prologue + Junit.SuitesText(Junit.FileSuites(Pull(runs).problems)) + Junit.Epilogue
    ensures Pull(runs).failure.Some? ==> Junit.Feed(Junit.OpenJunit(), trace).output == Junit.Prologue
  {
    if Pull(runs).failure.None? {
      Junit.WriteJunitOutput(Pull(runs).problems);
    } else {
      assert trace == Deliveries(Pull(runs).problems);
      Junit.CollectInvariant(Pull(runs).problems);
    }
  }
}
