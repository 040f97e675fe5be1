# report-alchemy, modelled in Dafny

report-alchemy converts problem reports (lint findings) between formats. A
configuration file `.alchemyrc.json` names *sources*, the reports to read, and
*sinks*, the reports to write. Each has a type and a file name. Plugins supply,
per type, a loader for a *source handler* and a loader for a *sink handler*:
- a source handler turns a file's contents into a lazily produced sequence of
  problems;
- a sink handler writes a report, receiving problems one at a time and then
  one end-of-stream `null`.

The built-in plugin handles the `junit` type in both directions.

This project models the deterministic core of that pipeline:

- **Types** (`types.dfy`): positions, problems, severities, the two exception
  kinds, and the protocol a sink writer expects. The sink protocol is a
  sequence of `Next(problem)` inputs closed by `End`.
- **Dict** (`dict.dfy`): the JavaScript plain object used as a dictionary.
  Its string keys are distinct and enumerate in first-assignment order.
- **Text** (`text.dfy`): decimal rendering and parsing of naturals, the
  string order used by `Array.prototype.sort`, and an insertion sort.
- **Xml** (`xml.dfy`): `escapeXML` and the `xmlText` template tag.
- **TypeGuard** (`typeguard.dfy`): a parsed JSON value, `isString` and
  `isArrayOf`.
- **Paths** (`paths.dfy`): `pathsUpwards`, with Node's POSIX `path.dirname`
  modelled on rooted paths.
- **Configuration** (`configuration.dfy`):
  - the record checks `isReportSource` and `isReportSink`;
  - the validation steps of `loadConfiguration`;
  - configuration-file discovery as a search over `pathsUpwards` with a
    readability oracle.
- **ESLintText** (`eslint.dfy`): the regular expression of `parseESLintText`,
  written out as a matcher. This includes the greedy split between message
  and code.
- **Junit** (`junit.dfy`):
  - `readJunit` over an abstract XML element tree;
  - `writeJunit` as a state machine whose output is a pure function of its
    input trace;
  - the reference grouping the output is proved against;
  - the round trip from written failure text back to a problem.
- **Cli** (`cli.dfy`):
  - `loadHandlers` and `resolveHandlers`;
  - the lazy problem stream of `readProblems`;
  - the fan-out of `writeProblems`, an imperative loop method with
    invariants;
  - the phase order of `runReportAlchemy`, recorded as an event log.

Loaders, file reading, file opening and the source handlers' output are
parameters of the model (oracles). `Promise.all` is modelled as "every element
is started; the first failure in list order is reported".

## Model

| member | source | states |
|---|---|---|
| Types.Deliveries | src/internal/types.ts:62-71 | the inputs a sink receives for a problem sequence: one `Next` per problem, in order |
| Types.DeliveriesComplete | src/internal/types.ts:62-71 | problems delivered one at a time and closed by the end marker obey the sink protocol: exactly one `End`, last |
| Types.Delivered | src/internal/types.ts:62-71 | a complete sink trace determines its problem sequence uniquely |
| Dict.Get | src/cli.ts:52 | property lookup finds a value exactly when the key is one of the object's keys, and the value is that key's entry |
| Dict.Put | src/internal/default-plugin/junit.ts:81-85 | assignment sets the key, leaves every other key's value alone, appends a new key to the enumeration order and keeps an existing key in place |
| Text.ParseNatToString | src/internal/default-plugin/junit.ts:21-22 | `parseInt` of the decimal rendering of a natural gives the natural back |
| Text.LessTransitive | src/internal/default-plugin/junit.ts:88 | the string order `sort` uses is transitive |
| Text.LessTotal | src/internal/default-plugin/junit.ts:88 | any two different strings are ordered one way or the other |
| Text.Sort | src/internal/default-plugin/junit.ts:87-88 | the sorted keys are in order and are a permutation of the input |
| Text.SortDistinct | src/internal/default-plugin/junit.ts:87-88 | sorting distinct keys gives a strictly increasing list with the same members |
| Xml.EscapeChar | src/internal/xml.ts:2-8 | each of the five special characters becomes an entity, and every other character is kept as is |
| Xml.EscapeXml | src/internal/xml.ts:13-14 | the result has no markup character, is at least as long as the input, and equals the input when it has no special character |
| Xml.EscapeConcat | src/internal/xml.ts:14 | escaping distributes over concatenation |
| Xml.UnescapeEscape | src/internal/xml.ts:2-14 | unescaping the escaped string gives the string back, so escaping loses nothing |
| Xml.EscapeExample | src/internal/xml.spec.ts:5-6 | `bar&<>'"foo` escapes to `bar&amp;&lt;&gt;&apos;&quot;foo` |
| Xml.XmlTextInterpolatesEscaped | src/internal/xml.ts:19-41 | the template tag interleaves its literal pieces with the values, string values escaped and numbers rendered in decimal |
| Xml.XmlTextIsEscapedInterpolation | src/internal/xml.ts:19-41 | when the literal pieces hold no special character, the tag equals escaping the plain interpolation, and unescaping it recovers that interpolation |
| Xml.XmlTextExamplesOuter | src/internal/xml.spec.ts:12-13 | `&` and `<` values between non-empty pieces become `a&amp;b&lt;c`, and `a&amp;b&lt;` with an empty last piece |
| Xml.XmlTextExamplesLeading | src/internal/xml.spec.ts:14-15 | with an empty first piece the result starts with the escaped value: `&amp;b&lt;` and `&amp;b&lt;c` |
| Xml.XmlTextExamplesThree | src/internal/xml.spec.ts:16-17 | three values `&`, `<`, `>` give `&amp;b&lt;c&gt;`, and `&amp;&lt;&gt;` when every piece is empty |
| Xml.XmlTextNumberExample | src/internal/xml.spec.ts:21 | numbers are inserted as their decimal rendering |
| TypeGuard.Every | src/internal/typeguard.ts:14 | `every` holds exactly when each element satisfies the test |
| TypeGuard.IsArrayOfCharacterized | src/internal/typeguard.ts:12-14 | `isArrayOf` is false on every non-array, true on the empty array, and true exactly when the value is an array whose elements all pass; one failing element makes it false |
| TypeGuard.Examples | src/internal/typeguard.ts:6-14 | strings pass `isString` and numbers and arrays do not; an array of strings passes `isArrayOf`, and a mixed array or a number fails |
| Paths.Dirname | src/internal/io.ts:60 | the parent of a rooted path is rooted and, unless the path is the root, shorter |
| Paths.PathsUpwards | src/internal/io.ts:49-62 | the walk starts with the start path exactly as given, each later path is the parent of the one before, and it ends with the root, which occurs only at the end |
| Paths.PathsUpwardsRoot | src/internal/io.ts:50-58 | the walk from the root is the root alone |
| Paths.DirnameDropsLast | src/internal/io.ts:60 | on a normalised path the parent drops the last component |
| Paths.WalkComponents | src/internal/io.ts:49-62 | from a normalised path with n components the walk has n + 1 paths: the path, each ancestor, the root |
| Paths.WalkExample | src/internal/io.ts:49-62 | `/foo/bar/baz` yields `/foo/bar/baz`, `/foo/bar`, `/foo`, `/` |
| Configuration.IsReportRecordCharacterized | src/internal/configuration.ts:49-59 | a record is exactly an object with string `type` and `filename`; other fields do not change the verdict |
| Configuration.Records | src/internal/configuration.ts:93 | one record per input item, in input order, whose type and file name are that item's `type` and `filename` strings |
| Configuration.Validate | src/internal/configuration.ts:79-108 | the checks run in order: non-object, then invalid `sources`, then invalid `sinks`, each with its message; on success sources and sinks are the input arrays in order; `plugins` is kept only when it is an array of strings, otherwise it is empty |
| Configuration.PluginsNeverAnError | src/internal/configuration.ts:104-106 | no value of `plugins` changes whether validation succeeds, which error it gives, or the sources and sinks |
| Configuration.TopLevelArrayRejectedForSources | src/internal/configuration.ts:79-96 | a JSON array passes the object check but fails with the `sources` error |
| Configuration.FirstReadable | src/internal/configuration.ts:36-46 | the answer is the configuration file of the first directory whose file is readable, and no earlier one is |
| Configuration.DiscoverNearest | src/internal/configuration.ts:35-47 | discovery returns the file of the deepest ancestor of the working directory that has a readable one, and `None` exactly when no ancestor has one |
| Configuration.LoadConfiguration | src/internal/configuration.ts:61-83 | no file name (or an empty one) and nothing discovered gives "No configuration file found!"; otherwise the explicit file, or else the discovered one, is read: unreadable gives "Could not read configuration file", readable gives the validation of its JSON |
| Configuration.DefaultLoadsNearest | src/internal/configuration.ts:61-74 | without a file name, or with an empty one, the configuration comes from the deepest directory from the working directory up whose file is readable |
| Configuration.ExplicitFilenameBypassesDiscovery | src/internal/configuration.ts:62 | a non-empty explicit file name is used without consulting discovery |
| ESLintText.Match | src/internal/default-plugin/junit.ts:15 | a successful match yields well-formed groups that compose back to exactly the matched text |
| ESLintText.SplitMessageCode | src/internal/default-plugin/junit.ts:15 | the message and code are split at a ` (` that leaves a non-empty code and closing parenthesis |
| ESLintText.LastOpen | src/internal/default-plugin/junit.ts:15 | the greedy message takes the last ` (` before the end, and no later one exists |
| ESLintText.MatchCompose | src/internal/default-plugin/junit.ts:15 | matching the text composed from well-formed groups whose code has no `(` gives those groups back |
| ESLintText.ParseESLintText | src/internal/default-plugin/junit.ts:17-27 | a parse result carries the decimal values of the two digit groups, `error` for `Error` and `warning` for `Warning`, a non-empty message and a non-empty code |
| ESLintText.ParseRender | src/internal/default-plugin/junit.ts:15-27 | rendering data and parsing it back gives the data, for single-line non-empty messages and codes without `(` |
| ESLintText.ZeroPositionAccepted | src/internal/default-plugin/junit.ts:15-22 | the pattern accepts line 0 and column 0 |
| Junit.ChildrenNamed | src/internal/default-plugin/junit.ts:37-40 | the selected children are exactly the children with the name, and no more of them than there are children |
| Junit.ChildrenNamedAppend | src/internal/default-plugin/junit.ts:37-40 | selection distributes over concatenation, so document order and repeated elements are kept |
| Junit.ChildrenNamedSingle | src/internal/default-plugin/junit.ts:37-40 | a single child is kept exactly when it has the name |
| Junit.ChildNamedIsFirst | src/internal/default-plugin/junit.ts:41 | `childNamed` finds the first child with the name |
| Junit.ProblemFromText | src/internal/default-plugin/junit.ts:47-65 | failure text that does not parse gives an error at line 1, column 1, with the whole text as message and no code; parsed text gives the parsed fields; start and end are equal |
| Junit.ReadJunit | src/internal/default-plugin/junit.ts:29-69 | a root not named `testsuites` fails with `InvalidSourceDataError`; otherwise the problems follow suite order, then testcase order, skip testcases without failure, and have start equal to end |
| Junit.SuiteProblemsAppend | src/internal/default-plugin/junit.ts:37-67 | the problems of consecutive suites concatenate |
| Junit.OneTestcase | src/internal/default-plugin/junit.ts:40-65 | a testcase yields one problem exactly when it has a `failure` child |
| Junit.FailureTextEscapes | src/internal/default-plugin/junit.ts:106-112 | the written failure text is the escaped plain text, so unescaping it gives the plain text |
| Junit.FailureRoundTrip | src/internal/default-plugin/junit.ts:47-65 | a problem with severity error or warning, a non-empty single-line message, a non-empty code without `(` and a start equal to its end is read back unchanged from its written failure text |
| Junit.CodelessFailureReadsAsText | src/internal/default-plugin/junit.ts:107-112 | a problem without a code is read back as an error at 1:1 whose message is the whole failure text, so writing then reading loses it |
| Junit.Accept | src/internal/default-plugin/junit.ts:77-121 | a problem writes nothing and is appended to its file's group, creating the group if new; the end marker writes the non-empty groups in sorted file order and the closing tag |
| Junit.FileOrder | src/internal/default-plugin/junit.ts:81-85 | the files of a problem sequence in first-appearance order, each once |
| Junit.ProblemsOf | src/internal/default-plugin/junit.ts:81-85 | every collected problem is for the file and was delivered |
| Junit.ProblemsOfComplete | src/internal/default-plugin/junit.ts:81-85 | no problem for the file is lost: each occurs as often as it was delivered, and no problem of another file occurs |
| Junit.ProblemsOfAppend | src/internal/default-plugin/junit.ts:81-85 | collecting distributes over concatenation, so arrival order is kept |
| Junit.ProblemsOfSingle | src/internal/default-plugin/junit.ts:81-85 | a single problem is collected exactly when it is for the file |
| Junit.CollectInvariant | src/internal/default-plugin/junit.ts:72-86 | while problems arrive the output stays the prologue, and the writer holds each file's problems in arrival order |
| Junit.FileSuitesOrdered | src/internal/default-plugin/junit.ts:87-92 | the written suites are named in strictly ascending order, cover every file with a problem, and none is empty |
| Junit.WriteJunitOutput | src/internal/default-plugin/junit.ts:71-121 | the whole output for a problem sequence closed by the end marker: prologue, one suite per file in sorted order with its problems in arrival order, closing tag |
| Junit.WriteJunitEmpty | src/internal/default-plugin/junit.ts:71-121 | with no problems the output is the prologue and the closing tag |
| Junit.ReadWrittenDocument | src/internal/default-plugin/junit.ts:29-121 | reading the document written for recoverable problems gives them back grouped by sorted file name |
| Junit.RegroupedPerFile | src/internal/default-plugin/junit.ts:75-92 | writing regroups problems but keeps each file's problems in arrival order |
| Cli.LoadHandlers | src/cli.ts:41-69 | on success each configured type maps to the loader of the last plugin defining it, and the keys are exactly the configured types; otherwise the error names, with the prefix, the first configured type no plugin defines |
| Cli.Register | src/cli.ts:50-57 | one plugin's pass reassigns exactly the configured types it defines |
| Cli.Collect | src/cli.ts:43-59 | scanning all plugins, a configured type maps to the last definer, and unconfigured types are absent |
| Cli.FirstUnknown | src/cli.ts:62-66 | the first item in configuration order whose type has no loader, or none |
| Cli.MissingMapContributesNothing | src/cli.ts:50 | a plugin without a map of a kind leaves the loader map unchanged |
| Cli.DefaultPluginLoaders | src/internal/default-plugin/index.ts:17-24 | the default plugin maps `junit` to its source and sink loaders, and any other type is unknown |
| Cli.All | src/cli.ts:72-75 | waiting for all results gives every value in order, or the first failure in list order |
| Cli.ResolveHandlers | src/cli.ts:71-83 | success exactly when every loader succeeds; the handlers keep the loader map's keys and order; otherwise the error of a failing loader |
| Cli.JunitEmitted | src/internal/default-plugin/junit.ts:29-34 | the JUnit source throws before yielding anything when the root is not `testsuites`, and otherwise yields what `readJunit` reads |
| Cli.PullConcat | src/cli.ts:97-111 | without a throwing source the stream is all sources' problems in configured order; with one, it is the problems before and including those the thrower yielded, ending with its error |
| Cli.PullStops | src/cli.ts:97-108 | once a source has thrown, later sources neither run nor add problems |
| Cli.DeliverToAll | src/cli.ts:133 | one input goes to every sink, in sink order |
| Cli.BroadcastAll | src/cli.ts:132-134 | each problem goes to every sink before the next problem |
| Cli.WriteProblems | src/cli.ts:129-136 | each writer receives the pulled problems in order, and then the end marker exactly when no source threw |
| Cli.SinkSeesTheStream | src/cli.ts:132-136 | the inputs the event log shows for a sink are exactly the stream's problems, closed by the end marker when no source threw |
| Cli.BodyHasNoEnd | src/cli.ts:132-136 | no end marker is delivered while problems are pulled, so the end markers come after the last problem |
| Cli.LoadAll | src/cli.ts:146-161 | both loader maps are checked, sources first, before any loader runs (an unknown type leaves the log empty); the log is then one `LoadSource` per source-map entry in entry order, followed by one `LoadSink` per sink-map entry exactly when every source loader succeeded; the error is the first failing source loader's, else the first failing sink loader's |
| Cli.LoadResolved | src/cli.ts:71-83 | every source loader is invoked once in entry order, and the sink loaders only after all of them succeed; the handlers are those `ResolveHandlers` gives |
| Cli.OpenAll | src/cli.ts:89-130 | the log is a `ReadFile` per source in order, then, only if every read succeeds, an `OpenFile` per sink, then, only if every open succeeds, a `StartSink` per sink; the error is the first failing read's, else the first failing open's; on success the buffers are the files' contents |
| Cli.ReadSources | src/cli.ts:89-95 | every source file is read; the contents in configured order, or the first failing read's error |
| Cli.OpenSinks | src/cli.ts:119-130 | every sink file is opened, and the writers are started in sink order only when every open succeeds |
| Cli.Prepare | src/cli.ts:139-164 | it succeeds exactly when both maps, every loader, every read and every open succeed, and then its log is the complete preparation (all loads, reads, opens and writer starts) and the runs are each source's handler on its file; a failed preparation has done a prefix of it |
| Cli.PreparedBeforePulling | src/cli.ts:139-166 | a complete preparation reads every source file, opens every sink file and starts every writer, all before the first source runs or problem moves |
| Cli.Write | src/cli.ts:114-137 | the run fails exactly as the stream does; every sink receives the pulled problems, even those before a throwing source's error, then one end marker only on success; the events are the pulling followed by the end fan-out |
| Cli.Run | src/cli.ts:139-166 | an unknown source type, or else an unknown sink type, fails before anything runs; a failed preparation delivers nothing; after a complete preparation every sink gets the stream's problems (the prefix before a throwing source too), the end marker only on success, and the log is the complete preparation followed by the pulling; on success the problems are those of all sources in order; the log shows each sink exactly its inputs |
| Cli.JunitSinkFile | src/internal/default-plugin/junit.ts:72-120 | a JUnit sink writes the whole report when the run succeeds, and only the prologue when a source throws mid-stream |

## Left out

- Reading and writing files (`readFile`, `fileReadable`, `openForWriting`) and the configuration file read are oracles. Their errors appear as `FileSystemError` values.
- `JSON.parse` and its syntax error are left out: the model starts from a parsed JSON value.
- XML parsing by `xmldoc` is left out. A document is an element tree whose failure text is already unescaped. Whitespace text nodes between written elements are not part of the tree read back.
- Dynamic `import()`, `createLoader` and `loadPlugins` are left out. A loader is identified by its module and export, and invoking it is an oracle.
- Argument parsing, error printing and `process.exit` are thin wrappers around the core and are left out.
- `Object.freeze` of problems is not modelled: Dafny datatypes are immutable already.
- Concurrency in `Promise.all`: the model reports the first failure in list order, whereas the program reports the first to reject in time.
- JavaScript object-key quirks are left out: keys such as `__proto__` or `constructor`, and integer-like keys, which enumerate before others.
- `Text.Less` compares characters, whereas JavaScript's default sort compares UTF-16 code units. The two differ only for characters outside the Basic Multilingual Plane.
- `String(n)` exponent notation for numbers of 10^21 and above, and `parseInt` precision loss for long digit strings, are left out: numbers are naturals.
- A missing `name` attribute on a test suite becomes the string `undefined`, the key the writer would coerce it to.
- `path.dirname` for unnormalised paths, `path.join` beyond a normalised directory, and `baseDir` are left out.
- `Paths.PathsUpwards` yields the start directory verbatim, as the code does. The repository's test for a start with redundant slashes expects a normalised first path, and that expectation is not modelled.
- `Types.ValidPosition`: positions are not required to be 1-based. The ESLint pattern reads line 0 and column 0, as `ESLintText.ZeroPositionAccepted` shows.
- `Cli.ResolveHandlers`, `Cli.OpenAll`: the sink file streams and sink writers are not values of the model. A writer's behaviour is that of its input trace, as `Cli.JunitSinkFile` shows for JUnit.
- No concrete end-to-end example of a full ESLint line is stated; `ESLintText.ParseRender` states the round trip for all inputs.
