/**
 * The transform stream of `lib/transform.js` that the runner is built on:
 * `_transform` collects the input and optionally passes each chunk straight
 * through; `_flush` parses everything collected and finishes the stream.
 * The runner's observable behaviour is the log of what it emits, pushes and
 * signals to the stream machinery.
 */
module Stream {
  import opened Wrappers
  import opened Ast
  import opened Events
  import opened Walker
  import opened Conformance

  /** One observable step of the runner. */
  datatype Signal =
    | Walked(event: Event)          // a walker event emitted during `parse`
    | Misnamed(err: Error)          // `emit(err)`: an error passed as the event name
    | ErrorEvent(err: Error)        // `emit('error', err)`
    | Complete                      // `emit('complete')`
    | Push(chunk: Option<string>)   // `push(chunk)`
    | Next                          // the `_transform` callback
    | Done                          // the `_flush` callback
    | Uncaught(err: Error)          // an exception escaping a callback

  /** The stream side of a runner: its options, the input collected so far, and its log. */
  datatype State = State(opts: Options, input: string, log: seq<Signal>)

  /** A runner's stream before any chunk arrived: the constructor starts the input empty. */
  function Open(c: Runner): (s: State)
    ensures s.opts == c.opts && s.input == "" && s.log == []
  {
    State(c.opts, "", [])
  }

  /** Chunks are passed straight through in streaming mode unless compiling. */
  predicate PassesThrough(o: Options) {
    o.streaming && !o.compiling
  }

  /** The chunks pushed, in order. */
  function Pushes(log: seq<Signal>): seq<Option<string>> {
    if |log| == 0 then [] else (if log[0].Push? then [log[0].chunk] else []) + Pushes(log[1..])
  }

  lemma {:induction false} PushesAppend(a: seq<Signal>, b: seq<Signal>)
    ensures Pushes(a + b) == Pushes(a) + Pushes(b)
  {
    if |a| > 0 {
      assert (a + b)[1..] == a[1..] + b;
      PushesAppend(a[1..], b);
    } else {
      assert a + b == b;
    }
  }

  /** What `input += chunk` adds: a null chunk adds nothing. */
  function Text(chunk: Option<string>): string {
    if chunk.Some? then chunk.value else ""
  }

  /** The text of the non-null chunks, concatenated. */
  function Collected(chunks: seq<Option<string>>): string {
    if |chunks| == 0 then "" else Text(chunks[0]) + Collected(chunks[1..])
  }

  /** `_transform`: collect the chunk, push it when passing through, then call `next` once. */
  function Transform(s: State, chunk: Option<string>): (r: State)
    ensures r.opts == s.opts && r.input == s.input + Text(chunk)
    ensures s.log < r.log && r.log[|r.log| - 1] == Next
  {
    var pushed := if PassesThrough(s.opts) then [Push(chunk)] else [];
    State(s.opts, s.input + Text(chunk), s.log + pushed + [Next])
  }

  /** A chunk is pushed exactly when passing through, and `next` is called exactly once. */
  lemma TransformSignals(s: State, chunk: Option<string>)
    ensures multiset(Transform(s, chunk).log)[Next] == multiset(s.log)[Next] + 1
    ensures Pushes(Transform(s, chunk).log) == Pushes(s.log) + (if PassesThrough(s.opts) then [chunk] else [])
  {
    var pushed := if PassesThrough(s.opts) then [Push(chunk)] else [];
    PushesAppend(s.log + pushed, [Next]);
    PushesAppend(s.log, pushed);
  }

  /** The stream delivering `chunks` one after another. */
  function Feed(s: State, chunks: seq<Option<string>>): State
    decreases |chunks|
  {
    if |chunks| == 0 then s else Feed(Transform(s, chunks[0]), chunks[1..])
  }

  /**
   * After a run of chunks the stream holds everything it held before
   * followed by the text of every non-null chunk in order, and the log only
   * grew.
   */
  lemma {:induction false} FeedCollectsEveryChunk(s: State, chunks: seq<Option<string>>)
    ensures Feed(s, chunks).opts == s.opts && Feed(s, chunks).input == s.input + Collected(chunks)
    decreases |chunks|
  {
    if |chunks| > 0 {
      var t := Transform(s, chunks[0]);
      FeedCollectsEveryChunk(t, chunks[1..]);
      assert t.input == s.input + Text(chunks[0]);
      assert Collected(chunks) == Text(chunks[0]) + Collected(chunks[1..]);
      assert s.input + Collected(chunks) == t.input + Collected(chunks[1..]);
    } else {
      assert s.input + "" == s.input;
    }
  }

  /** A run of chunks calls `next` once per chunk. */
  lemma {:induction false} FeedCallsNextPerChunk(s: State, chunks: seq<Option<string>>)
    ensures multiset(Feed(s, chunks).log)[Next] == multiset(s.log)[Next] + |chunks|
    decreases |chunks|
  {
    if |chunks| > 0 {
      var t := Transform(s, chunks[0]);
      assert Feed(s, chunks) == Feed(t, chunks[1..]);
      TransformSignals(s, chunks[0]);
      FeedCallsNextPerChunk(t, chunks[1..]);
    }
  }

  lemma Regroup<T>(a: seq<T>, b: seq<T>, c: seq<T>)
    ensures (a + b) + c == a + (b + c)
  {
  }

  /** A run of chunks pushes every chunk, null ones included, when passing through, and none otherwise. */
  lemma {:induction false} FeedPassesChunksThrough(s: State, chunks: seq<Option<string>>)
    ensures Pushes(Feed(s, chunks).log) == Pushes(s.log) + (if PassesThrough(s.opts) then chunks else [])
    decreases |chunks|
  {
    if |chunks| > 0 {
      var t := Transform(s, chunks[0]);
      assert t.opts == s.opts;
      assert Feed(s, chunks).log == Feed(t, chunks[1..]).log;
      TransformSignals(s, chunks[0]);
      FeedPassesChunksThrough(t, chunks[1..]);
      var head := if PassesThrough(s.opts) then [chunks[0]] else [];
      var tail := if PassesThrough(s.opts) then chunks[1..] else [];
      assert Pushes(t.log) == Pushes(s.log) + head;
      assert Pushes(Feed(s, chunks).log) == Pushes(t.log) + tail;
      assert head + tail == if PassesThrough(s.opts) then chunks else [];
      Regroup(Pushes(s.log), head, tail);
    } else {
      assert Pushes(s.log) + [] == Pushes(s.log);
    }
  }

  /** The walker's events as signals. */
  function WalkedAll(es: seq<Event>): (ss: seq<Signal>)
    ensures |ss| == |es|
    ensures forall i :: 0 <= i < |es| ==> ss[i] == Walked(es[i])
  {
    if |es| == 0 then [] else [Walked(es[0])] + WalkedAll(es[1..])
  }

  /** What `parse` itself emits, and the exception escaping it, if any. */
  function ParseSignals(run: ParseRun): seq<Signal> {
    WalkedAll(run.events)
    + (if run.misnamed.Some? then [Misnamed(run.misnamed.value)] else [])
    + (if run.escaped.Some? then [Uncaught(run.escaped.value)] else [])
  }

  /** The success path of the parse callback: push the CSS if compiling, then complete and finish. */
  function Finished(o: Options, c: Compiled): seq<Signal> {
    if o.compiling then [Push(Some(c.css)), Complete, Done] else [Complete, Done]
  }

  /** The error branch of the parse callback: report the error, complete and finish. */
  function Failed(e: Error): seq<Signal> {
    [ErrorEvent(e), Complete, Done]
  }

  /**
   * The parse callback as written: the error branch does not return, so the
   * success path runs after it, where `res.css` on an undefined `res` throws
   * if compiling, and otherwise the stream completes and finishes twice.
   */
  function CallbackAsWritten(o: Options, reply: Option<Result<Compiled, Error>>): seq<Signal> {
    match reply
    case None => []
    case Some(Failure(e)) =>
      if o.compiling then Failed(e) + [Uncaught(TypeError("res.css"))] else Failed(e) + [Complete, Done]
    case Some(Success(c)) => Finished(o, c)
  }

  /** The parse callback with the error branch returning. */
  function Callback(o: Options, reply: Option<Result<Compiled, Error>>): seq<Signal> {
    match reply
    case None => []
    case Some(Failure(e)) => Failed(e)
    case Some(Success(c)) => Finished(o, c)
  }

  /** The signals a flush appended. */
  function Appended(s: State, r: State): seq<Signal>
    requires s.log <= r.log
  {
    r.log[|s.log|..]
  }

  /** The rest of `_flush` as written, once `parse` has run. */
  function FinishAsWritten(s: State, run: ParseRun): (r: State)
    ensures r.opts == s.opts && r.input == s.input && s.log <= r.log
    ensures Appended(s, r) == ParseSignals(run) + CallbackAsWritten(s.opts, run.reply)
  {
    var log := s.log + ParseSignals(run) + CallbackAsWritten(s.opts, run.reply);
    assert s.log <= log;
    State(s.opts, s.input, log)
  }

  /** The rest of the corrected `_flush`, once `parse` has run. */
  function Finish(s: State, run: ParseRun): (r: State)
    ensures r.opts == s.opts && r.input == s.input && s.log <= r.log
    ensures Appended(s, r) == ParseSignals(run) + Callback(s.opts, run.reply)
  {
    var log := s.log + ParseSignals(run) + Callback(s.opts, run.reply);
    assert s.log <= log;
    State(s.opts, s.input, log)
  }

  /** `_flush` as written, over `parse` as written. */
  function FlushAsWritten(s: State, less: LessRequest -> LessOutcome): State {
    FinishAsWritten(s, ParseAsWritten(s.opts, s.input, less))
  }

  /** `_flush` with both defects corrected. */
  function Flush(s: State, less: LessRequest -> LessOutcome): State {
    Finish(s, Parse(s.opts, s.input, less))
  }

  /**
   * After a parse that emitted no misnamed error and let no exception
   * escape, a flush adds the walker's events and then the callback's signals.
   */
  lemma FinishAdds(s: State, run: ParseRun)
    requires run.misnamed.None? && run.escaped.None?
    ensures Appended(s, Finish(s, run)) == WalkedAll(run.events) + Callback(s.opts, run.reply)
    ensures Appended(s, FinishAsWritten(s, run)) == WalkedAll(run.events) + CallbackAsWritten(s.opts, run.reply)
  {
  }

  /**
   * A flush first emits the walker's events, then runs the callback, which
   * the corrected `parse` always calls.
   */
  lemma FlushAdds(s: State, less: LessRequest -> LessOutcome)
    ensures var run := Parse(s.opts, s.input, less);
      && run.reply.Some?
      && Appended(s, Flush(s, less)) == WalkedAll(run.events) + Callback(s.opts, run.reply)
  {
    FinishAdds(s, Parse(s.opts, s.input, less));
  }

  lemma {:induction false} NoPushWalked(es: seq<Event>)
    ensures Pushes(WalkedAll(es)) == []
  {
    if |es| > 0 {
      assert WalkedAll(es)[1..] == WalkedAll(es[1..]);
      NoPushWalked(es[1..]);
    }
  }

  /** The walker's events are only walker events: no push, no `complete`, no `done`, no exception. */
  lemma WalkedAllOnlyWalks(es: seq<Event>)
    ensures forall x :: x in WalkedAll(es) ==> x.Walked?
    ensures Pushes(WalkedAll(es)) == []
  {
    NoPushWalked(es);
  }

  /**
   * Once called, the corrected callback completes and finishes exactly once,
   * `done` last; an error is emitted right before `complete`, and on
   * success the compiled CSS, when compiling, is pushed before it.
   */
  lemma CallbackFinishesOnce(o: Options, reply: Result<Compiled, Error>)
    ensures var c := Callback(o, Some(reply));
      && multiset(c)[Complete] == 1 && multiset(c)[Done] == 1
      && |c| >= 2 && c[|c| - 1] == Done
    ensures reply.Failure? ==> Callback(o, Some(reply)) == [ErrorEvent(reply.error), Complete, Done]
    ensures reply.Success? && o.compiling ==> Callback(o, Some(reply)) == [Push(Some(reply.value.css)), Complete, Done]
    ensures reply.Success? && !o.compiling ==> Callback(o, Some(reply)) == [Complete, Done]
  {
    var c := Callback(o, Some(reply));
    if reply.Failure? {
      assert c == [ErrorEvent(reply.error), Complete, Done];
    } else if o.compiling {
      assert c == [Push(Some(reply.value.css)), Complete, Done];
    } else {
      assert c == [Complete, Done];
    }
  }

  /**
   * The corrected callback pushes the compiled CSS exactly when compiling
   * and the parse succeeded, and nothing escapes from it.
   */
  lemma CallbackPushesOnSuccess(o: Options, reply: Result<Compiled, Error>)
    ensures Pushes(Callback(o, Some(reply))) == (if o.compiling && reply.Success? then [Some(reply.value.css)] else [])
    ensures forall x :: x in Callback(o, Some(reply)) ==> !x.Walked? && !x.Uncaught?
  {
    var c := Callback(o, Some(reply));
    assert Pushes([Done]) == [];
    assert Pushes([Complete, Done]) == [] by {
      assert [Complete, Done][1..] == [Done];
    }
    if reply.Failure? {
      assert c == [ErrorEvent(reply.error), Complete, Done];
      assert c[1..] == [Complete, Done];
    } else if o.compiling {
      assert c == [Push(Some(reply.value.css)), Complete, Done];
      assert c[1..] == [Complete, Done];
    } else {
      assert c == [Complete, Done];
    }
  }

  /**
   * A flush completes and finishes the stream exactly once, `done` last:
   * the walker's events carry neither signal and the callback carries one
   * of each.
   */
  lemma FlushFinishesOnce(s: State, less: LessRequest -> LessOutcome)
    ensures var a := Appended(s, Flush(s, less));
      && multiset(a)[Complete] == 1
      && multiset(a)[Done] == 1
      && a[|a| - 1] == Done
  {
    var run := Parse(s.opts, s.input, less);
    assert run.misnamed.None? && run.escaped.None? && run.reply.Some?;
    assert Flush(s, less) == Finish(s, run);
    FinishFinishesOnce(s, run);
  }

  /** Finishing after a parse that called back and let nothing escape completes and finishes once. */
  lemma FinishFinishesOnce(s: State, run: ParseRun)
    requires run.misnamed.None? && run.escaped.None? && run.reply.Some?
    ensures var a := Appended(s, Finish(s, run));
      && multiset(a)[Complete] == 1
      && multiset(a)[Done] == 1
      && a[|a| - 1] == Done
  {
    FinishAdds(s, run);
    var reply := run.reply.value;
    assert run.reply == Some(reply);
    WalkedAllOnlyWalks(run.events);
    CallbackFinishesOnce(s.opts, reply);
    OnceAfterWalks(Appended(s, Finish(s, run)), WalkedAll(run.events), Callback(s.opts, Some(reply)));
  }

  /** Walker events followed by a log that finishes once still finish once. */
  lemma OnceAfterWalks(a: seq<Signal>, w: seq<Signal>, c: seq<Signal>)
    requires a == w + c
    requires forall x :: x in w ==> x.Walked?
    requires multiset(c)[Complete] == 1 && multiset(c)[Done] == 1
    requires |c| >= 2 && c[|c| - 1] == Done
    ensures multiset(a)[Complete] == 1 && multiset(a)[Done] == 1
    ensures a[|a| - 1] == Done
  {
    assert multiset(w + c) == multiset(w) + multiset(c);
    assert Complete !in w && Done !in w;
  }

  /** A root whose first rule list is empty: finding its filename throws. */
  const Unnamed := Node("Ruleset", true, false, None, Present([]), None, Bare)

  /** The walk of `Unnamed` throws before emitting anything. */
  lemma UnnamedThrows()
    ensures ProcessRoot(Unnamed) == Throw(TypeError("currentFileInfo"))
  {
  }

  /**
   * As written, a walk that throws finishes the stream twice when not
   * compiling and, when compiling, ends in an exception escaping the
   * callback after the stream was already finished. A parser that returns
   * the `Unnamed` tree is such a walk.
   */
  lemma FailedWalkFinishesTwice(s: State, less: LessRequest -> LessOutcome)
    requires ParseAsWritten(s.opts, s.input, less).reply.Some?
    requires ParseAsWritten(s.opts, s.input, less).reply.value.Failure?
    ensures var run := ParseAsWritten(s.opts, s.input, less);
      var e := run.reply.value.error;
      Appended(s, FlushAsWritten(s, less)) == WalkedAll(run.events) + [ErrorEvent(e), Complete, Done]
        + (if s.opts.compiling then [Uncaught(TypeError("res.css"))] else [Complete, Done])
  {
    FinishAdds(s, ParseAsWritten(s.opts, s.input, less));
  }

  /** A parser that returns the `Unnamed` tree makes the stream, when not compiling, complete and finish twice. */
  lemma UnnamedRootFinishesTwice(s: State)
    requires !s.opts.compiling
    ensures var a := Appended(s, FlushAsWritten(s, _ => LessParsed(Unnamed, [], Success(""))));
      && a == [ErrorEvent(TypeError("currentFileInfo")), Complete, Done, Complete, Done]
      && multiset(a)[Complete] == 2 && multiset(a)[Done] == 2
  {
    var less: LessRequest -> LessOutcome := _ => LessParsed(Unnamed, [], Success(""));
    var err := TypeError("currentFileInfo");
    UnnamedParse(s.opts, s.input);
    FailedWalkFinishesTwice(s, less);
    TwiceAfterNoEvents(Appended(s, FlushAsWritten(s, less)), err);
  }

  /** The as-written log of a failed walk that emitted no event completes and finishes twice. */
  lemma TwiceAfterNoEvents(a: seq<Signal>, err: Error)
    requires a == WalkedAll([]) + [ErrorEvent(err), Complete, Done] + [Complete, Done]
    ensures a == [ErrorEvent(err), Complete, Done, Complete, Done]
    ensures multiset(a)[Complete] == 2 && multiset(a)[Done] == 2
  {
    assert WalkedAll([]) == [];
    TwiceCounts(err);
  }

  /** The parse as written of the `Unnamed` tree replies with the walk's error and emits nothing. */
  lemma UnnamedParse(o: Options, css: string)
    ensures ParseAsWritten(o, css, _ => LessParsed(Unnamed, [], Success("")))
      == ParseRun([], None, Some(Failure(TypeError("currentFileInfo"))), None)
  {
    UnnamedThrows();
  }

  lemma TwiceCounts(e: Error)
    ensures var a := [ErrorEvent(e), Complete, Done, Complete, Done];
      multiset(a)[Complete] == 2 && multiset(a)[Done] == 2
  {
    var a := [ErrorEvent(e), Complete, Done, Complete, Done];
    assert multiset(a) == multiset{ErrorEvent(e), Complete, Done, Complete, Done};
  }

  /**
   * As written, a less error never finishes the stream: nothing is
   * completed, `done` is never called and no `error` event is emitted; the
   * error only reaches `emit` as an event name.
   */
  lemma LessErrorNeverFinishes(s: State, e: Error)
    ensures Appended(s, FlushAsWritten(s, _ => LessFailed(e))) == [Misnamed(e)]
    ensures Appended(s, Flush(s, _ => LessFailed(e))) == Failed(e)
  {
    assert WalkedAll([]) == [];
  }

  /** A main tree with one plain rule, carrying a file name. */
  const Named := Node("Ruleset", true, false, None, Present([WalkerFacts.ColorBlue]), None, Bare)

  /**
   * As written, a tree that walks cleanly but whose rendering throws never
   * finishes the stream: the walker's events are emitted, then the
   * exception escapes, and neither `complete` nor `done` follows.
   */
  lemma RenderErrorNeverFinishes(s: State, e: Error)
    ensures var a := Appended(s, FlushAsWritten(s, _ => LessParsed(Named, [], Failure(e))));
      && |a| > 0 && a[|a| - 1] == Uncaught(e)
      && Complete !in a && Done !in a
  {
    var less: LessRequest -> LessOutcome := _ => LessParsed(Named, [], Failure(e));
    var run := ParseAsWritten(s.opts, s.input, less);
    RootWalks();
    assert run == ParseRun(ProcessRoot(Named).events, None, None, Some(e));
    WalkedAllOnlyWalks(run.events);
    assert Appended(s, FlushAsWritten(s, less)) == WalkedAll(run.events) + [Uncaught(e)];
  }

  /** Corrected, the same rendering error is reported, and the stream completes and finishes. */
  lemma RenderErrorReported(s: State, e: Error)
    ensures var a := Appended(s, Flush(s, _ => LessParsed(Named, [], Failure(e))));
      |a| >= 3 && a[|a| - 3..] == Failed(e)
  {
    var less: LessRequest -> LessOutcome := _ => LessParsed(Named, [], Failure(e));
    RootWalks();
    assert Parse(s.opts, s.input, less).reply == Some(Failure(e));
    FlushAdds(s, less);
  }

  /** The walk of `Named` completes. */
  lemma RootWalks()
    ensures ProcessRoot(Named).Completed()
  {
    WalkerFacts.ColorBlueIsOneRule();
    assert [WalkerFacts.ColorBlue][1..] == [];
    assert ProcessNodes([WalkerFacts.ColorBlue]) == Then(ProcessNode(WalkerFacts.ColorBlue), Quiet);
    assert ProcessNodes([WalkerFacts.ColorBlue]).Completed();
    assert Filename.GetFilename(Named) == Success("input");
    assert ProcessChildren(Named) == ProcessNodes([WalkerFacts.ColorBlue]);
    assert ProcessRuleset(Named).Completed();
  }
}
