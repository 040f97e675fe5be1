/**
 Loading the configuration: discovering `.alchemyrc.json` by walking up from
 the working directory, and validating the parsed JSON into sources, sinks
 and plugin names.
 */
module Configuration {
  import opened Types
  import opened TypeGuard
  import opened Paths

  /** A configured report to read (a source) or write (a sink). */
  datatype ReportRecord = ReportRecord(typeName: string, filename: string)

  datatype Config = Config(sources: seq<ReportRecord>, sinks: seq<ReportRecord>, plugins: seq<string>)

  const ConfigurationFilename := ".alchemyrc.json"

  const NoFileMessage := "No configuration file found!"
  const UnreadableMessage := "Could not read configuration file"
  const NotAnObjectMessage := "Configuration JSON is not an object"
  const InvalidSourcesMessage := "Invalid report `sources` configuration"
  const InvalidSinksMessage := "Invalid report `sinks` configuration"

  /**
   `isReportSource` and `isReportSink` (the two are the same test): a non-null
   object whose `type` and `filename` properties are strings.
   */
  predicate IsReportRecord(v: Value) {
    IsNonNullObject(v) && Property(v, "type").Str? && Property(v, "filename").Str?
  }

  /**
   The record test accepts exactly the objects with string `type` and
   `filename` fields; arrays and every other value are refused, and fields
   other than those two do not matter.
   */
  lemma IsReportRecordCharacterized(v: Value, k: string, x: Value)
    ensures IsReportRecord(v) <==>
      v.Object? && "type" in v.fields && v.fields["type"].Str?
      && "filename" in v.fields && v.fields["filename"].Str?
    ensures v.Object? && k != "type" && k != "filename" ==>
      (IsReportRecord(Object(v.fields[k := x])) <==> IsReportRecord(v))
  {
  }

  function ToRecord(v: Value): (r: ReportRecord)
    requires IsReportRecord(v)
    ensures Str(r.typeName) == Property(v, "type") && Str(r.filename) == Property(v, "filename")
  {
    ReportRecord(Property(v, "type").s, Property(v, "filename").s)
  }

  function Records(items: seq<Value>): (rs: seq<ReportRecord>)
    requires forall i :: 0 <= i < |items| ==> IsReportRecord(items[i])
    ensures |rs| == |items|
    ensures forall i :: 0 <= i < |items| ==>
      Str(rs[i].typeName) == Property(items[i], "type") && Str(rs[i].filename) == Property(items[i], "filename")
  {
    seq(|items|, i requires 0 <= i < |items| => ToRecord(items[i]))
  }

  function Strings(items: seq<Value>): (ss: seq<string>)
    requires forall i :: 0 <= i < |items| ==> IsString(items[i])
    ensures |ss| == |items|
    ensures forall i :: 0 <= i < |items| ==> Str(ss[i]) == items[i]
  {
    seq(|items|, i requires 0 <= i < |items| && IsString(items[i]) => items[i].s)
  }

  predicate ValidRecords(v: Value) {
    IsArrayOf(v, IsReportRecord)
  }

  /**
   The checks `loadConfiguration` applies to the parsed JSON, in order:
   an object (or array), then valid `sources`, then valid `sinks`; a
   malformed or missing `plugins` is replaced by the empty list.
   */
  function Validate(json: Value): (r: Result<Config>)
    ensures !IsNonNullObject(json) ==> r == Failure(ConfigurationError(NotAnObjectMessage))
    ensures IsNonNullObject(json) && !ValidRecords(Property(json, "sources")) ==>
      r == Failure(ConfigurationError(InvalidSourcesMessage))
    ensures (IsNonNullObject(json) && ValidRecords(Property(json, "sources"))
             && !ValidRecords(Property(json, "sinks"))) ==>
      r == Failure(ConfigurationError(InvalidSinksMessage))
    ensures r.Success? <==>
      json.Object? && ValidRecords(Property(json, "sources")) && ValidRecords(Property(json, "sinks"))
    ensures r.Success? ==>
      var sources := json.fields["sources"].items;
      var sinks := json.fields["sinks"].items;
      && |r.value.sources| == |sources|
      && (forall i :: 0 <= i < |sources| ==>
            Str(r.value.sources[i].typeName) == sources[i].fields["type"]
            && Str(r.value.sources[i].filename) == sources[i].fields["filename"])
      && |r.value.sinks| == |sinks|
      && (forall i :: 0 <= i < |sinks| ==>
            Str(r.value.sinks[i].typeName) == sinks[i].fields["type"]
            && Str(r.value.sinks[i].filename) == sinks[i].fields["filename"])
    ensures r.Success? && IsArrayOf(Property(json, "plugins"), IsString) ==>
      |r.value.plugins| == |json.fields["plugins"].items|
      && forall i :: 0 <= i < |r.value.plugins| ==> Str(r.value.plugins[i]) == json.fields["plugins"].items[i]
    ensures r.Success? && !IsArrayOf(Property(json, "plugins"), IsString) ==> r.value.plugins == []
  {
    if !IsNonNullObject(json) then Failure(ConfigurationError(NotAnObjectMessage))
    else
      var sources := Property(json, "sources");
      if !ValidRecords(sources) then Failure(ConfigurationError(InvalidSourcesMessage))
      else
        var sinks := Property(json, "sinks");
        if !ValidRecords(sinks) then Failure(ConfigurationError(InvalidSinksMessage))
        else
          var plugins := Property(json, "plugins");
          Success(Config(
            Records(sources.items),
            Records(sinks.items),
            if IsArrayOf(plugins, IsString) then Strings(plugins.items) else []))
  }

  /**
   `plugins` can never make validation fail: replacing it with any value
   leaves sources and sinks, and success or the error, as they were.
   */
  lemma PluginsNeverAnError(fields: map<string, Value>, plugins: Value)
    ensures var before := Validate(Object(fields));
            var after := Validate(Object(fields["plugins" := plugins]));
            && before.Success? == after.Success?
            && (before.Failure? ==> before == after)
            && (before.Success? ==> before.value.sources == after.value.sources
                                    && before.value.sinks == after.value.sinks)
  {
    var o := Object(fields);
    var o' := Object(fields["plugins" := plugins]);
    assert Property(o, "sources") == Property(o', "sources");
    assert Property(o, "sinks") == Property(o', "sinks");
  }

  /** A JSON array passes the object test but has no `sources`, so it is refused for them. */
  lemma TopLevelArrayRejectedForSources(items: seq<Value>)
    ensures Validate(Array(items)) == Failure(ConfigurationError(InvalidSourcesMessage))
  {
    assert Property(Array(items), "sources") == Undefined;
  }

  /** `path.join(dir, name)` for a normalised absolute directory. */
  function Join(dir: string, name: string): (r: string)
  {
    if dir == "/" then dir + name else dir + "/" + name
  }

  /** The first directory in `dirs` holding a readable configuration file, as a file name. */
  function FirstReadable(dirs: seq<string>, readable: string -> bool): (r: Option<string>)
    ensures r.Some? ==>
      exists i :: 0 <= i < |dirs| && r.value == Join(dirs[i], ConfigurationFilename)
        && readable(r.value)
        && forall j :: 0 <= j < i ==> !readable(Join(dirs[j], ConfigurationFilename))
    ensures r.None? ==> forall i :: 0 <= i < |dirs| ==> !readable(Join(dirs[i], ConfigurationFilename))
  {
    if |dirs| == 0 then None
    else if readable(Join(dirs[0], ConfigurationFilename)) then Some(Join(dirs[0], ConfigurationFilename))
    else
      var r := FirstReadable(dirs[1..], readable);
      assert forall i :: 0 < i < |dirs| ==> dirs[i] == dirs[1..][i - 1];
      if r.Some? then
        var i :| 0 <= i < |dirs[1..]| && r.value == Join(dirs[1..][i], ConfigurationFilename)
          && readable(r.value)
          && forall j :: 0 <= j < i ==> !readable(Join(dirs[1..][j], ConfigurationFilename));
        assert r.value == Join(dirs[i + 1], ConfigurationFilename);
        r
      else r
  }

  /**
   `discoverConfigurationFilename`: the configuration file of the nearest
   directory, from the working directory `cwd` (given by its components) up
   to the root, that holds a readable one, or `None`.
   */
  function Discover(cwd: seq<string>, readable: string -> bool): (r: Option<string>)
    requires Components(cwd)
  {
    FirstReadable(PathsUpwards(Absolute(cwd)), readable)
  }

  /**
   Discovery searches the working directory first and then each ancestor:
   the answer is the file of the deepest ancestor with a readable file, and
   no deeper directory has one.
   */
  lemma DiscoverNearest(cwd: seq<string>, readable: string -> bool)
    requires Components(cwd)
    ensures Discover(cwd, readable).Some? ==>
      exists n :: 0 <= n <= |cwd|
        && Discover(cwd, readable).value == Join(Absolute(cwd[..n]), ConfigurationFilename)
        && readable(Discover(cwd, readable).value)
        && forall m :: n < m <= |cwd| ==> !readable(Join(Absolute(cwd[..m]), ConfigurationFilename))
    ensures Discover(cwd, readable).None? ==>
      forall n :: 0 <= n <= |cwd| ==> !readable(Join(Absolute(cwd[..n]), ConfigurationFilename))
  {
    var walk := PathsUpwards(Absolute(cwd));
    WalkComponents(cwd);
    var r := Discover(cwd, readable);
    if r.Some? {
      var i :| 0 <= i < |walk| && r.value == Join(walk[i], ConfigurationFilename)
        && readable(r.value)
        && forall j :: 0 <= j < i ==> !readable(Join(walk[j], ConfigurationFilename));
      var n := |cwd| - i;
      forall m | n < m <= |cwd|
        ensures !readable(Join(Absolute(cwd[..m]), ConfigurationFilename))
      {
        assert walk[|cwd| - m] == Absolute(cwd[..m]);
      }
    } else {
      forall n | 0 <= n <= |cwd|
        ensures !readable(Join(Absolute(cwd[..n]), ConfigurationFilename))
      {
        assert walk[|cwd| - n] == Absolute(cwd[..n]);
      }
    }
  }

  /**
   `loadConfiguration`: a non-empty explicit file name is used as given;
   otherwise the file is discovered from `cwd`. `read` gives the parsed JSON
   of a file, or `None` when reading it fails.
   */
  function LoadConfiguration(
    filename: Option<string>, cwd: seq<string>,
    readable: string -> bool, read: string -> Option<Value>): (r: Result<Config>)
    requires Components(cwd)
    ensures (filename.None? || filename.value == "") && Discover(cwd, readable).None? ==>
      r == Failure(ConfigurationError(NoFileMessage))
    ensures filename.Some? && filename.value != "" && read(filename.value).None? ==>
      r == Failure(ConfigurationError(UnreadableMessage))
    ensures filename.Some? && filename.value != "" && read(filename.value).Some? ==>
      r == Validate(read(filename.value).value)
    ensures ((filename.None? || filename.value == "") && Discover(cwd, readable).Some?
             && read(Discover(cwd, readable).value).None?) ==>
      r == Failure(ConfigurationError(UnreadableMessage))
    ensures ((filename.None? || filename.value == "") && Discover(cwd, readable).Some?
             && read(Discover(cwd, readable).value).Some?) ==>
      r == Validate(read(Discover(cwd, readable).value).value)
  {
    var resolved := if filename.Some? && filename.value != "" then filename else Discover(cwd, readable);
    if resolved.None? then Failure(ConfigurationError(NoFileMessage))
    else
      match read(resolved.value)
      case None => Failure(ConfigurationError(UnreadableMessage))
      case Some(json) => Validate(json)
  }

  /** An explicit file name bypasses discovery: readability of other files is irrelevant. */
  lemma ExplicitFilenameBypassesDiscovery(
    filename: string, cwd: seq<string>,
    readable: string -> bool, readable': string -> bool, read: string -> Option<Value>)
    requires Components(cwd) && filename != ""
    ensures LoadConfiguration(Some(filename), cwd, readable, read)
         == LoadConfiguration(Some(filename), cwd, readable', read)
  {
  }

  /**
   Without a file name, or with an empty one, the configuration is read from
   the nearest directory, from the working directory up, whose configuration
   file is readable: a deeper readable file always wins over a shallower one.
   */
  lemma DefaultLoadsNearest(cwd: seq<string>, readable: string -> bool, read: string -> Option<Value>, n: nat)
    requires Components(cwd) && n <= |cwd|
    requires readable(Join(Absolute(cwd[..n]), ConfigurationFilename))
    requires forall m :: n < m <= |cwd| ==> !readable(Join(Absolute(cwd[..m]), ConfigurationFilename))
    ensures LoadConfiguration(Some(""), cwd, readable, read) == LoadConfiguration(None, cwd, readable, read)
    ensures LoadConfiguration(None, cwd, readable, read) ==
      match read(Join(Absolute(cwd[..n]), ConfigurationFilename))
      case None => Failure(ConfigurationError(UnreadableMessage))
      case Some(json) => Validate(json)
  {
    DiscoverNearest(cwd, readable);
    var d := Discover(cwd, readable);
    assert d.Some?;
    var k :| 0 <= k <= |cwd|
      && d.value == Join(Absolute(cwd[..k]), ConfigurationFilename)
      && readable(d.value)
      && forall m :: k < m <= |cwd| ==> !readable(Join(Absolute(cwd[..m]), ConfigurationFilename));
    assert k == n;
  }
}
