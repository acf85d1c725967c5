/**
 * The conformance runner of `lib/index.js`: its options, task registration,
 * and `parse`, which hands the source to the less parser and then walks the
 * main file's tree and every imported file's tree, reporting the outcome to
 * a callback.
 */
module Conformance {
  import opened Wrappers
  import opened Ast
  import opened Events
  import opened Filename
  import opened Walker
  import opened WalkerFacts
  import opened Bus
  import opened DebugTask

  /** The runner's options after defaults are filled in. */
  datatype Options = Options(paths: seq<string>, entry: string, output: bool, streaming: bool, compiling: bool)

  /** The options object a caller passes; `None` marks a key the caller left out. */
  datatype UserOptions = UserOptions(
    paths: Option<seq<string>>, entry: Option<string>, output: Option<bool>,
    streaming: Option<bool>, compiling: Option<bool>)

  /** The defaults; `compiling` has no default and reads as `undefined`, which is falsy. */
  const Defaults := Options(["./node_modules"], "input", false, true, false)

  const NoUserOptions := UserOptions(None, None, None, None, None)

  function Or<T>(o: Option<T>, d: T): T {
    if o.Some? then o.value else d
  }

  /** `Object.assign(defaults, opts)`: every key the caller gave wins over its default. */
  function Configure(u: UserOptions): (o: Options)
    ensures u.paths.Some? ==> o.paths == u.paths.value
    ensures u.entry.Some? ==> o.entry == u.entry.value
    ensures u.output.Some? ==> o.output == u.output.value
    ensures u.streaming.Some? ==> o.streaming == u.streaming.value
    ensures u.compiling.Some? ==> o.compiling == u.compiling.value
    ensures u.paths.None? ==> o.paths == ["./node_modules"]
    ensures u.entry.None? ==> o.entry == "input"
    ensures u.output.None? ==> !o.output
    ensures u.streaming.None? ==> o.streaming
    ensures u.compiling.None? ==> !o.compiling
  {
    Options(Or(u.paths, Defaults.paths), Or(u.entry, Defaults.entry), Or(u.output, Defaults.output),
      Or(u.streaming, Defaults.streaming), Or(u.compiling, Defaults.compiling))
  }

  /** Without options the runner takes the defaults, and a complete options object is taken as it is. */
  lemma ConfigureFillsDefaults(o: Options)
    ensures Configure(NoUserOptions) == Defaults
    ensures Configure(UserOptions(Some(o.paths), Some(o.entry), Some(o.output), Some(o.streaming), Some(o.compiling))) == o
  {
  }

  /**
   * A runner: its identity (what tasks hold as `runner`), options, tasks and
   * listener table. The input it collects belongs to its stream side.
   */
  datatype Runner = Runner(id: nat, opts: Options, tasks: seq<Debug>, listeners: map<Kind, seq<Handler>>)

  /** The constructor: no task and no listener. */
  function NewRunner(id: nat, u: UserOptions): (c: Runner)
    ensures c.id == id && c.opts == Configure(u)
    ensures c.tasks == []
    ensures forall k :: Listeners(c.listeners, k) == []
    ensures Valid(c.listeners)
  {
    Runner(id, Configure(u), [], map[])
  }

  /**
   * `register`: the task is appended to the runner's tasks and installed
   * with the runner itself, which cannot fail; the task recorded is the
   * installed one, since the array holds the same object.
   */
  function Register(c: Runner, task: Debug): (r: Runner)
    ensures r.id == c.id && r.opts == c.opts
    ensures r.tasks == c.tasks + [task.(runner := Some(c.id))]
    ensures forall k :: Listeners(r.listeners, k) == Listeners(c.listeners, k) + DebugTask.ListenerFor(task.id, k)
    ensures Valid(c.listeners) ==> Valid(r.listeners)
  {
    var installed := Install(task, Some(InstallOptions(Some(c.id))), c.listeners);
    c.(tasks := c.tasks + [installed.value.0], listeners := installed.value.1)
  }

  /** Destroying the task just registered takes the runner's listeners back to what they were. */
  lemma RegisterThenDestroy(c: Runner, task: Debug)
    requires Valid(c.listeners)
    ensures var r := Register(c, task);
      Destroy(r.tasks[|r.tasks| - 1], r.listeners) == Success((task.(runner := None), c.listeners))
  {
    InstallThenDestroyRestores(task, Some(InstallOptions(Some(c.id))), c.listeners);
  }

  /** What the runner hands the less parser. */
  datatype LessRequest = LessRequest(css: string, paths: seq<string>, filename: string)

  /**
   * What the less parser reports: an error, or the main file's tree, the
   * imported files' trees in key order, and what rendering the parse tree
   * to CSS gives: the compiled CSS, or the error it throws (a stylesheet
   * can parse and still fail to evaluate, for example on an undefined
   * variable).
   */
  datatype LessOutcome =
    | LessFailed(err: Error)
    | LessParsed(root: Node, files: seq<(string, Node)>, rendered: Result<string, Error>)

  /** The value `parse` passes to its callback on success. */
  datatype Compiled = Compiled(raw: string, css: string)

  /**
   * One run of `parse`: the walker's events; the error passed to `emit` as
   * if it were an event name, if any; what the callback received, or `None`
   * when it was never called; and the exception that escaped the parser's
   * callback, if any.
   */
  datatype ParseRun = ParseRun(
    events: seq<Event>, misnamed: Option<Error>, reply: Option<Result<Compiled, Error>>, escaped: Option<Error>)

  function Request(opts: Options, css: string): LessRequest {
    LessRequest(css, opts.paths, opts.entry)
  }

  /** The walk of each imported file, in key order. */
  function FileTraces(files: seq<(string, Node)>): (ts: seq<Trace>)
    ensures |ts| == |files|
    ensures forall i :: 0 <= i < |files| ==> ts[i] == ProcessRoot(files[i].1)
  {
    if |files| == 0 then [] else [ProcessRoot(files[0].1)] + FileTraces(files[1..])
  }

  /** The walk of the main file followed by each imported file. */
  function Walks(root: Node, files: seq<(string, Node)>): seq<Trace> {
    [ProcessRoot(root)] + FileTraces(files)
  }

  /**
   * The part of `parse` after the less parser succeeded: one try around the
   * main tree, then one try around all imported trees, then the rendering,
   * which is outside any try, then the callback with the raw source and the
   * compiled CSS. A rendering that throws escapes before the callback.
   */
  function WalkAndReply(css: string, root: Node, files: seq<(string, Node)>, rendered: Result<string, Error>): ParseRun {
    var main := ProcessRoot(root);
    if !main.Completed() then ParseRun(main.events, None, Some(Failure(main.thrown.value)), None)
    else
      var imports := Chain(FileTraces(files));
      var events := main.events + imports.events;
      if !imports.Completed() then ParseRun(events, None, Some(Failure(imports.thrown.value)), None)
      else match rendered
        case Failure(e) => ParseRun(events, None, None, Some(e))
        case Success(out) => ParseRun(events, None, Some(Success(Compiled(css, out))), None)
  }

  /** The same with the rendering inside the try, so that its error reaches the callback too. */
  function WalkAndReplyCaught(css: string, root: Node, files: seq<(string, Node)>, rendered: Result<string, Error>): ParseRun {
    var r := WalkAndReply(css, root, files, rendered);
    if r.escaped.Some? then ParseRun(r.events, None, Some(Failure(r.escaped.value)), None) else r
  }

  /**
   * `parse` as written: on a less error the error is passed to `emit` as an
   * event name and the callback is never called; after a successful parse
   * the callback is called exactly when no exception escapes, and one
   * escapes only from a failed rendering.
   */
  function ParseAsWritten(opts: Options, css: string, less: LessRequest -> LessOutcome): (r: ParseRun)
    ensures less(Request(opts, css)).LessFailed? ==> r == ParseRun([], Some(less(Request(opts, css)).err), None, None)
    ensures less(Request(opts, css)).LessParsed? ==> r.misnamed.None? && (r.reply.Some? <==> r.escaped.None?)
    ensures r.escaped.Some? ==> less(Request(opts, css)).LessParsed? && less(Request(opts, css)).rendered == Failure(r.escaped.value)
  {
    match less(Request(opts, css))
    case LessFailed(e) => ParseRun([], Some(e), None, None)
    case LessParsed(root, files, rendered) => WalkAndReply(css, root, files, rendered)
  }

  /**
   * `parse` with a less error handed to the callback like any other error,
   * and with the rendering inside the try: the callback is always called,
   * nothing escapes, and wherever the code as written calls back it agrees
   * with it.
   */
  function Parse(opts: Options, css: string, less: LessRequest -> LessOutcome): (r: ParseRun)
    ensures r.misnamed.None? && r.reply.Some? && r.escaped.None?
    ensures less(Request(opts, css)).LessFailed? ==> r == ParseRun([], None, Some(Failure(less(Request(opts, css)).err)), None)
    ensures less(Request(opts, css)).LessParsed? && ParseAsWritten(opts, css, less).reply.Some? ==> r == ParseAsWritten(opts, css, less)
    ensures ParseAsWritten(opts, css, less).escaped.Some? ==>
      r == ParseAsWritten(opts, css, less).(reply := Some(Failure(ParseAsWritten(opts, css, less).escaped.value)), escaped := None)
  {
    match less(Request(opts, css))
    case LessFailed(e) => ParseRun([], None, Some(Failure(e)), None)
    case LessParsed(root, files, rendered) => WalkAndReplyCaught(css, root, files, rendered)
  }

  /**
   * The two try blocks behave as one walk over the main tree followed by the
   * imported trees: the events are those of the chained walk, the callback
   * gets the first error thrown, and it gets the raw source with the
   * compiled CSS exactly when no walk threw.
   */
  lemma {:induction false} WalkIsOneChain(css: string, root: Node, files: seq<(string, Node)>, rendered: Result<string, Error>)
    ensures var r := WalkAndReply(css, root, files, rendered);
      var all := Chain(Walks(root, files));
      && r.events == all.events
      && r.misnamed.None?
      && (r.reply.Some? && r.reply.value.Success? <==> all.Completed() && rendered.Success?)
      && (all.Completed() && rendered.Success? ==> r.reply == Some(Success(Compiled(css, rendered.value))))
      && (!all.Completed() ==> r.reply == Some(Failure(all.thrown.value)) && r.escaped.None?)
      && (all.Completed() && rendered.Failure? ==> r.reply.None? && r.escaped == Some(rendered.error))
  {
    assert Walks(root, files)[1..] == FileTraces(files);
  }

  /**
   * Walking stops at the first tree that throws: the trees before it
   * contribute all their events, the failing tree the events it emitted
   * before throwing, no later tree is walked, and the callback gets that
   * tree's error. Tree 0 is the main file; tree `i + 1` is the `i`th import.
   */
  lemma {:induction false} FirstFailingTreeEndsTheWalk(css: string, root: Node, files: seq<(string, Node)>, rendered: Result<string, Error>, i: nat)
    requires i < |Walks(root, files)| && !Walks(root, files)[i].Completed()
    requires forall j :: 0 <= j < i ==> Walks(root, files)[j].Completed()
    ensures var ts := Walks(root, files);
      WalkAndReply(css, root, files, rendered) ==
        ParseRun(AllEvents(ts[..i]) + ts[i].events, None, Some(Failure(ts[i].thrown.value)), None)
  {
    WalkIsOneChain(css, root, files, rendered);
    ChainStopsAtFirstThrow(Walks(root, files), i);
  }

  /** Every walk that completes reports exactly one ROOT, ahead of all its other events. */
  lemma {:induction false} RootCount(ts: seq<Trace>, root: Node, files: seq<(string, Node)>)
    requires ts == Walks(root, files)
    requires forall i :: 0 <= i < |ts| ==> ts[i].Completed()
    ensures Count(AllEvents(ts), ROOT) == |ts|
  {
    OneRootEach(ts, [root] + FilesRoots(files));
  }

  function FilesRoots(files: seq<(string, Node)>): (ns: seq<Node>)
    ensures |ns| == |files|
    ensures forall i :: 0 <= i < |files| ==> ns[i] == files[i].1
  {
    if |files| == 0 then [] else [files[0].1] + FilesRoots(files[1..])
  }

  lemma {:induction false} OneRootEach(ts: seq<Trace>, roots: seq<Node>)
    requires |ts| == |roots|
    requires forall i :: 0 <= i < |ts| ==> ts[i] == ProcessRoot(roots[i]) && ts[i].Completed()
    ensures Count(AllEvents(ts), ROOT) == |ts|
  {
    if |ts| > 0 {
      RootComesFirst(roots[0]);
      OneRootEach(ts[1..], roots[1..]);
      CountAppend(ts[0].events, AllEvents(ts[1..]), ROOT);
    }
  }

  /**
   * A successful `parse` reports one ROOT per file, the main file's first,
   * and replies with the raw source and the compiled CSS, which it only
   * does when the rendering succeeded.
   */
  lemma SuccessfulParseReportsEveryFile(opts: Options, css: string, less: LessRequest -> LessOutcome)
    requires less(Request(opts, css)).LessParsed?
    requires Parse(opts, css, less).reply.value.Success?
    ensures var o := less(Request(opts, css));
      var r := Parse(opts, css, less);
      && Count(r.events, ROOT) == |o.files| + 1
      && r.events[0] == Root(GetFilename(o.root).value, o.root)
      && o.rendered.Success?
      && r.reply.value.value == Compiled(css, o.rendered.value)
  {
    var o := less(Request(opts, css));
    var ts := Walks(o.root, o.files);
    WalkIsOneChain(css, o.root, o.files, o.rendered);
    ChainCompletes(ts);
    RootCount(ts, o.root, o.files);
    assert ts[0].Completed();
    RootComesFirst(o.root);
  }

  /** `parse` consults the less parser with the source, the import paths and the entry name, and with nothing else. */
  lemma ParseAsksLessOnly(opts: Options, css: string, less: LessRequest -> LessOutcome, other: LessRequest -> LessOutcome)
    requires less(LessRequest(css, opts.paths, opts.entry)) == other(LessRequest(css, opts.paths, opts.entry))
    ensures Parse(opts, css, less) == Parse(opts, css, other)
    ensures ParseAsWritten(opts, css, less) == ParseAsWritten(opts, css, other)
  {
  }

  /** As written, a less error is never reported to the callback; the corrected `Parse` reports it. */
  lemma LessErrorNeverReachesCallback(opts: Options, css: string, e: Error)
    ensures ParseAsWritten(opts, css, _ => LessFailed(e)).reply.None?
    ensures Parse(opts, css, _ => LessFailed(e)).reply == Some(Failure(e))
  {
  }
}
