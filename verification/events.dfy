/**
 * The events the walker publishes, and the trace a walk leaves behind:
 * the events emitted so far and, when a handler threw, the error that
 * ended the walk. Emission is synchronous, so an event emitted before a
 * throw has already reached its listeners and stays in the trace.
 */
module Events {
  import opened Wrappers
  import opened Ast

  /** The event names the walker emits under. */
  datatype Kind =
    ROOT | RULESET | SELECTORS | SELECTOR | RULE | VARIABLE | COMMENT
    | MIXIN | MIXIN_DEFINITION | MIXIN_CALL | MEDIA | IMPORT

  /** One mixin-call argument as reported: the `[]` placeholder, or `value.value[0]` (`None` for `undefined`). */
  datatype ArgValue = Placeholder | Leading(leaf: Option<Leaf>)

  /** An emitted event with its payload. */
  datatype Event =
    | Root(name: string, raw: Node)
    | Ruleset(raw: Node)
    | Selectors(selector: Selector)
    | SelectorElement(name: string, element: Element)
    | Rule(name: string, value: string, raw: Node)
    | Variable(varName: Name, css: string, raw: Node)
    | Comment(text: Option<string>, raw: Node)
    | Mixin(raw: Node)
    | MixinDefinition(name: string, params: string, raw: Node)
    | MixinCall(name: string, args: seq<ArgValue>, raw: Node)
    | Media(features: string, raw: Node)
    | Import(raw: Node)
  {
    function Kind(): Kind {
      match this
      case Root(_, _) => ROOT
      case Ruleset(_) => RULESET
      case Selectors(_) => SELECTORS
      case SelectorElement(_, _) => SELECTOR
      case Rule(_, _, _) => RULE
      case Variable(_, _, _) => VARIABLE
      case Comment(_, _) => COMMENT
      case Mixin(_) => MIXIN
      case MixinDefinition(_, _, _) => MIXIN_DEFINITION
      case MixinCall(_, _, _) => MIXIN_CALL
      case Media(_, _) => MEDIA
      case Import(_) => IMPORT
    }

    /**
     * Whether the payload carries the originating syntax node. A SELECTORS
     * event carries its selector and a SELECTOR event its element instead.
     */
    predicate HasRaw() {
      !Selectors? && !SelectorElement?
    }
  }

  /** What a walk throws. */
  datatype Error =
    | TypeError(access: string)
    | MixinTypeNotUnderstood(kind: string)
    | MissingRunner

  /** The events emitted, and the error thrown if the walk did not run to its end. */
  datatype Trace = Trace(events: seq<Event>, thrown: Option<Error>) {
    predicate Completed() {
      thrown.None?
    }
  }

  const Quiet: Trace := Trace([], None)

  function Emit(e: Event): Trace {
    Trace([e], None)
  }

  function Throw(err: Error): Trace {
    Trace([], Some(err))
  }

  /** Run `a`, then `b` unless `a` threw. */
  function Then(a: Trace, b: Trace): Trace {
    if a.thrown.Some? then a else Trace(a.events + b.events, b.thrown)
  }

  /** Run the traces one after another, stopping at the first one that throws. */
  function Chain(ts: seq<Trace>): Trace {
    if |ts| == 0 then Quiet else Then(ts[0], Chain(ts[1..]))
  }

  /** Every event of every trace, in order. */
  function AllEvents(ts: seq<Trace>): seq<Event> {
    if |ts| == 0 then [] else ts[0].events + AllEvents(ts[1..])
  }

  /** A chain completes exactly when all of its traces do, and then it holds all of their events in order. */
  lemma {:induction false} ChainCompletes(ts: seq<Trace>)
    ensures Chain(ts).Completed() <==> forall i :: 0 <= i < |ts| ==> ts[i].Completed()
    ensures Chain(ts).Completed() ==> Chain(ts).events == AllEvents(ts)
  {
    if |ts| > 0 {
      ChainCompletes(ts[1..]);
      if ts[0].Completed() && Chain(ts[1..]).Completed() {
        forall i | 0 < i < |ts|
          ensures ts[i].Completed()
        {
          assert ts[i] == ts[1..][i - 1];
        }
      }
      if forall i :: 0 <= i < |ts| ==> ts[i].Completed() {
        assert forall i :: 0 <= i < |ts[1..]| ==> ts[1..][i] == ts[i + 1];
      }
    }
  }

  /**
   * A chain whose first throwing trace is `ts[i]` stops there: the traces
   * before it contributed all their events, `ts[i]` contributed the events it
   * emitted before throwing, and nothing after it ran.
   */
  lemma {:induction false} ChainStopsAtFirstThrow(ts: seq<Trace>, i: nat)
    requires i < |ts| && !ts[i].Completed()
    requires forall j :: 0 <= j < i ==> ts[j].Completed()
    ensures Chain(ts) == Trace(AllEvents(ts[..i]) + ts[i].events, ts[i].thrown)
  {
    if i == 0 {
      assert ts[..0] == [];
      assert Chain(ts) == ts[0];
      assert AllEvents(ts[..0]) + ts[0].events == ts[0].events;
    } else {
      assert forall j :: 0 <= j < i - 1 ==> ts[1..][j] == ts[j + 1];
      ChainStopsAtFirstThrow(ts[1..], i - 1);
      assert ts[..i][1..] == ts[1..][..i - 1];
      assert ts[1..][i - 1] == ts[i];
      var before := AllEvents(ts[1..][..i - 1]);
      assert AllEvents(ts[..i]) == ts[0].events + before;
      assert Chain(ts).events == ts[0].events + (before + ts[i].events);
      assert ts[0].events + (before + ts[i].events) == (ts[0].events + before) + ts[i].events;
      assert Chain(ts).thrown == ts[i].thrown;
    }
  }

  /** The originating nodes of the events of kind `k`, in emission order. */
  function Raws(es: seq<Event>, k: Kind): seq<Node> {
    if |es| == 0 then []
    else (if es[0].HasRaw() && es[0].Kind() == k then [es[0].raw] else []) + Raws(es[1..], k)
  }

  lemma {:induction false} RawsAppend(a: seq<Event>, b: seq<Event>, k: Kind)
    ensures Raws(a + b, k) == Raws(a, k) + Raws(b, k)
  {
    if |a| > 0 {
      assert (a + b)[1..] == a[1..] + b;
      RawsAppend(a[1..], b, k);
    } else {
      assert a + b == b;
    }
  }

  lemma RawsOne(e: Event, k: Kind)
    ensures Raws([e], k) == if e.HasRaw() && e.Kind() == k then [e.raw] else []
  {
    assert [e][1..] == [];
  }

  /** How many events of kind `k` a sequence holds. */
  function Count(es: seq<Event>, k: Kind): nat {
    if |es| == 0 then 0 else (if es[0].Kind() == k then 1 else 0) + Count(es[1..], k)
  }

  lemma {:induction false} CountAppend(a: seq<Event>, b: seq<Event>, k: Kind)
    ensures Count(a + b, k) == Count(a, k) + Count(b, k)
  {
    if |a| > 0 {
      assert (a + b)[1..] == a[1..] + b;
      CountAppend(a[1..], b, k);
    } else {
      assert a + b == b;
    }
  }
}
