/**
 * Properties of the tree walker: the order in which `_processNode` tests a
 * node, what each handler emits, that the walk visits the tree in preorder
 * and descends exactly where the handlers do, and that a throw stops the
 * rest of the walk.
 */
module WalkerFacts {
  import opened Wrappers
  import opened Js
  import opened Ast
  import opened Events
  import opened Values
  import opened Filename
  import opened Walker

  /**
   * The dispatch order: import, mixin, comment, media, `isRuleset`,
   * `variable`, rule. Imports and comments yield exactly one event and are
   * not descended into; a mixin goes down the mixin path even when it is
   * also a ruleset or a variable; a node nothing matches yields no event and
   * does not stop the walk.
   */
  lemma DispatchFollowsTestOrder(n: Node)
    ensures Test("import", n.kind) ==> ProcessNode(n) == Emit(Import(n))
    ensures (!Test("import", n.kind) && Test("mixin", n.kind)) ==>
      ProcessNode(n) == ProcessMixin(n)
      && |ProcessNode(n).events| > 0 && ProcessNode(n).events[0] == Mixin(n)
    ensures (!Test("import", n.kind) && !Test("mixin", n.kind) && Test("comment", n.kind)) ==>
      ProcessNode(n).Completed() && |ProcessNode(n).events| == 1
      && ProcessNode(n).events[0].Comment? && ProcessNode(n).events[0].raw == n
    ensures (!Test("import", n.kind) && !Test("mixin", n.kind) && !Test("comment", n.kind)
             && Test("media", n.kind)) ==>
      (ProcessNode(n).Completed() ==> |ProcessNode(n).events| > 0)
      && (|ProcessNode(n).events| > 0 ==>
            ProcessNode(n).events[0].Media? && ProcessNode(n).events[0].raw == n)
    ensures (!Test("import", n.kind) && !Test("mixin", n.kind) && !Test("comment", n.kind)
             && !Test("media", n.kind) && n.isRuleset) ==>
      |ProcessNode(n).events| > 0 && ProcessNode(n).events[0] == Ruleset(n)
    ensures (!Test("import", n.kind) && !Test("mixin", n.kind) && !Test("comment", n.kind)
             && !Test("media", n.kind) && !n.isRuleset && n.variable) ==>
      |ProcessNode(n).events| == (if ProcessNode(n).Completed() then 1 else 0)
      && (ProcessNode(n).Completed() ==>
            ProcessNode(n).events[0].Variable? && ProcessNode(n).events[0].raw == n)
    ensures (!Test("import", n.kind) && !Test("mixin", n.kind) && !Test("comment", n.kind)
             && !Test("media", n.kind) && !n.isRuleset && !n.variable && Test("rule", n.kind)) ==>
      |ProcessNode(n).events| == (if ProcessNode(n).Completed() then 1 else 0)
      && (ProcessNode(n).Completed() ==>
            ProcessNode(n).events[0].Rule? && ProcessNode(n).events[0].raw == n)
    ensures (!Test("import", n.kind) && !Test("mixin", n.kind) && !Test("comment", n.kind)
             && !Test("media", n.kind) && !n.isRuleset && !n.variable && !Test("rule", n.kind)) ==>
      ProcessNode(n) == Quiet
  {
    match RouteOf(n)
    case ToRuleset => RulesetShape(n);
    case ToMixin => MixinOutcomes(n);
    case _ =>
  }

  /** The selector events a ruleset emits between its RULESET event and its children's events. */
  function SelectorPart(r: Node): seq<Event> {
    if r.selectors.Some? then ProcessSelectors(r.selectors.value) else []
  }

  /**
   * A ruleset emits RULESET first, whatever else happens; when its walk
   * completes it had a `rules` array, every child completed, and its events
   * are RULESET, the selector events, then the children's events in order.
   */
  lemma RulesetShape(r: Node)
    ensures |ProcessRuleset(r).events| > 0 && ProcessRuleset(r).events[0] == Ruleset(r)
    ensures ProcessRuleset(r).Completed() <==> r.rules.Present? && ProcessNodes(r.rules.nodes).Completed()
    ensures ProcessRuleset(r).Completed() ==>
      ProcessRuleset(r).events == [Ruleset(r)] + SelectorPart(r) + ProcessNodes(r.rules.nodes).events
  {
  }

  /**
   * A mixin emits MIXIN before anything else. A definition then emits
   * MIXIN_DEFINITION with its parameter names joined by ", " and walks its
   * body as a ruleset only when `isRuleset`; a call emits one MIXIN_CALL with
   * one argument entry per argument and is not descended into; a mixin that
   * is neither throws right after its MIXIN event.
   */
  lemma MixinOutcomes(n: Node)
    ensures |ProcessMixin(n).events| > 0 && ProcessMixin(n).events[0] == Mixin(n)
    ensures !Test("definition", n.kind) && !Test("call", n.kind) ==>
      ProcessMixin(n) == Trace([Mixin(n)], Some(MixinTypeNotUnderstood(n.kind)))
    ensures !Test("definition", n.kind) && Test("call", n.kind) ==>
      |ProcessMixin(n).events| == (if ProcessMixin(n).Completed() then 2 else 1)
      && (ProcessMixin(n).Completed() <==> n.fields.CallFields?)
      && (ProcessMixin(n).Completed() ==>
            ProcessMixin(n).events[1] == MixinCall(Join(ElementValues(n.fields.selector.elements), ", "),
                                                   ArgumentValues(n.fields.arguments), n))
    ensures Test("definition", n.kind) && ProcessMixin(n).Completed() ==>
      n.fields.DefinitionFields? && |ProcessMixin(n).events| >= 2
      && ProcessMixin(n).events[1] == MixinDefinition(n.fields.mixinName, Join(ParamNames(n.fields.params), ", "), n)
    ensures Test("definition", n.kind) && !n.isRuleset ==> |ProcessMixin(n).events| <= 2
    ensures Test("definition", n.kind) && n.isRuleset && ProcessMixin(n).Completed() ==>
      |ProcessMixin(n).events| >= 3 && ProcessMixin(n).events[2] == Ruleset(n)
  {
    if Test("definition", n.kind) && n.isRuleset && n.fields.DefinitionFields? {
      RulesetShape(n);
    }
  }

  /**
   * `_processMixinCall` completes exactly when the node has a call selector
   * and an argument list. It then emits one MIXIN_CALL, named by its
   * selector's element values joined by ", ", whose arguments are
   * `_getArguments` of its argument list, carrying the node; nothing else.
   */
  lemma MixinCallOutcome(n: Node)
    ensures ProcessMixinCall(n).Completed() <==> n.fields.CallFields?
    ensures ProcessMixinCall(n).Completed() ==>
      ProcessMixinCall(n).events ==
        [MixinCall(Join(ElementValues(n.fields.selector.elements), ", "), ArgumentValues(n.fields.arguments), n)]
    ensures !ProcessMixinCall(n).Completed() ==> ProcessMixinCall(n).events == []
  {
  }

  /**
   * A media block completes exactly when it has media fields whose feature
   * list is readable, a `rules` array, and every body node completes. It
   * then emits MEDIA, whose features are the reference reductions of its
   * feature list, rendered and joined by ", ", and then the events of each
   * body node in order.
   */
  lemma MediaOutcome(n: Node)
    ensures ProcessMedia(n).Completed() <==>
      n.fields.MediaFields? && Reportable(n.fields.features) && n.rules.Present?
      && ProcessNodes(n.rules.nodes).Completed()
    ensures ProcessMedia(n).Completed() ==>
      ProcessMedia(n).events ==
        [Media(Join(RenderAll(Reported(n.fields.features)), ", "), n)] + ProcessNodes(n.rules.nodes).events
  {
    if n.fields.MediaFields? {
      RuleValuesReportsReference(n.fields.features);
    }
  }

  lemma MediaNeedsRules(n: Node)
    ensures n.rules.Absent? ==> !ProcessMedia(n).Completed()
  {
  }

  /**
   * A rule completes exactly when its name is an array of segments and its
   * value list is readable. It then emits one RULE whose name is the
   * segments joined by ", " and whose value is the reference reductions of
   * its value list, rendered and joined by ", "; otherwise it emits nothing.
   */
  lemma RuleOutcome(n: Node)
    ensures ProcessRule(n).Completed() <==>
      n.fields.RuleFields? && n.fields.name.Segments? && Reportable(n.fields.value.list)
    ensures ProcessRule(n).Completed() ==>
      ProcessRule(n).events ==
        [Rule(Join(n.fields.name.parts, ", "), Join(RenderAll(Reported(n.fields.value.list)), ", "), n)]
    ensures !ProcessRule(n).Completed() ==> ProcessRule(n).events == []
  {
    if n.fields.RuleFields? {
      RuleValuesReportsReference(n.fields.value.list);
    }
  }

  /** `color: blue` with its value as a one-expression list holding the keyword `blue`. */
  const ColorBlue: Node := Node("Rule", false, false, Some("input"), Absent, None,
    RuleFields(Segments(["color"]), RuleValue(Exprs([Expr(Some([Leaf("Keyword", Str("blue"), Missing)]))]), "blue")))

  /** `color: blue` with its value as the bare string `blue`. */
  const ColorBlueRaw: Node := ColorBlue.(fields := RuleFields(Segments(["color"]), RuleValue(Raw("blue"), "blue")))

  /** A plain node of type `Rule` is routed to the rule handler. */
  lemma RuleTypeRoutesToRule(n: Node)
    requires n.kind == "Rule" && !n.isRuleset && !n.variable
    ensures ProcessNode(n) == ProcessRule(n)
  {
    assert !Test("import", "Rule") && !Test("mixin", "Rule") && !Test("comment", "Rule") && !Test("media", "Rule");
    assert LowerAll("Rule"[..4]) == "rule";
    assert Test("rule", "Rule");
  }

  /** `color: blue` yields one RULE event named `color` with value `blue`. */
  lemma ColorBlueIsOneRule()
    ensures ProcessNode(ColorBlue) == Emit(Rule("color", "blue", ColorBlue))
  {
    RuleTypeRoutesToRule(ColorBlue);
  }

  /** The same holds when the value reaches the walker as a bare string. */
  lemma ColorBlueRawIsOneRule()
    ensures ProcessNode(ColorBlueRaw) == Emit(Rule("color", "blue", ColorBlueRaw))
  {
    RuleTypeRoutesToRule(ColorBlueRaw);
  }

  /** Every selector element, in source order. */
  function AllElements(sels: seq<Selector>): seq<Element> {
    if |sels| == 0 then [] else sels[0].elements + AllElements(sels[1..])
  }

  /** The selectors that the SELECTORS events carry, in order. */
  function CarriedSelectors(es: seq<Event>): seq<Selector> {
    if |es| == 0 then []
    else (if es[0].Selectors? then [es[0].selector] else []) + CarriedSelectors(es[1..])
  }

  /** The elements that the SELECTOR events carry, in order. */
  function CarriedElements(es: seq<Event>): seq<Element> {
    if |es| == 0 then []
    else (if es[0].SelectorElement? then [es[0].element] else []) + CarriedElements(es[1..])
  }

  /** Every SELECTOR event is named by the `value` of the element it carries. */
  ghost predicate NamedByElement(es: seq<Event>) {
    forall e :: e in es && e.SelectorElement? ==> e.name == e.element.value
  }

  lemma {:induction false} CarriedAppend(a: seq<Event>, b: seq<Event>)
    ensures CarriedSelectors(a + b) == CarriedSelectors(a) + CarriedSelectors(b)
    ensures CarriedElements(a + b) == CarriedElements(a) + CarriedElements(b)
  {
    if |a| > 0 {
      assert (a + b)[1..] == a[1..] + b;
      CarriedAppend(a[1..], b);
    } else {
      assert a + b == b;
    }
  }

  /** The SELECTOR events of one selector carry its elements, in order, and no selector. */
  lemma {:induction false} ElementsCarried(elements: seq<Element>)
    ensures CarriedElements(ElementEvents(elements)) == elements
    ensures CarriedSelectors(ElementEvents(elements)) == []
  {
    if |elements| > 0 {
      ElementsCarried(elements[1..]);
      assert elements == [elements[0]] + elements[1..];
    }
  }

  /**
   * `_processSelector` emits, for each element in order, one SELECTOR event
   * named by the element's `value` and carrying the element itself, and
   * nothing else.
   */
  lemma {:induction false} ElementEventsFollowSource(elements: seq<Element>)
    ensures |ElementEvents(elements)| == |elements|
    ensures forall i :: 0 <= i < |elements| ==>
      ElementEvents(elements)[i] == SelectorElement(elements[i].value, elements[i])
    ensures CarriedElements(ElementEvents(elements)) == elements
    ensures CarriedSelectors(ElementEvents(elements)) == []
    ensures Count(ElementEvents(elements), SELECTOR) == |elements|
    ensures Count(ElementEvents(elements), SELECTORS) == 0
  {
    ElementsCarried(elements);
    if |elements| > 0 {
      var e := ElementEvents(elements);
      var rest := elements[1..];
      ElementEventsFollowSource(rest);
      assert e == [SelectorElement(elements[0].value, elements[0])] + ElementEvents(rest);
      forall i | 0 < i < |elements|
        ensures e[i] == SelectorElement(elements[i].value, elements[i])
      {
        assert e[i] == ElementEvents(rest)[i - 1] && rest[i - 1] == elements[i];
      }
      assert elements == [elements[0]] + rest;
    }
  }

  /**
   * `_processSelectors`: the SELECTORS events carry the ruleset's selectors
   * in order, and the SELECTOR events carry every selector's elements in
   * source order, each named by its element's `value`.
   */
  lemma {:induction false} SelectorEventsFollowSource(sels: seq<Selector>)
    ensures CarriedSelectors(ProcessSelectors(sels)) == sels
    ensures CarriedElements(ProcessSelectors(sels)) == AllElements(sels)
  {
    if |sels| > 0 {
      var head := [Selectors(sels[0])];
      var elems := ProcessSelector(sels[0]);
      var rest := ProcessSelectors(sels[1..]);
      assert ProcessSelectors(sels) == head + elems + rest;
      SelectorEventsFollowSource(sels[1..]);
      ElementsCarried(sels[0].elements);
      CarriedThree(head, elems, rest);
      assert CarriedSelectors(head) == [sels[0]] && CarriedElements(head) == [];
      assert sels == [sels[0]] + sels[1..];
    }
  }

  lemma CarriedThree(a: seq<Event>, b: seq<Event>, c: seq<Event>)
    ensures CarriedSelectors(a + b + c) == CarriedSelectors(a) + CarriedSelectors(b) + CarriedSelectors(c)
    ensures CarriedElements(a + b + c) == CarriedElements(a) + CarriedElements(b) + CarriedElements(c)
  {
    CarriedAppend(a + b, c);
    CarriedAppend(a, b);
  }

  /** Every SELECTOR event of a ruleset is named by the `value` of the element it carries. */
  lemma {:induction false} SelectorEventsNamedByElement(sels: seq<Selector>)
    ensures NamedByElement(ProcessSelectors(sels))
  {
    if |sels| > 0 {
      SelectorEventsNamedByElement(sels[1..]);
      ElementEventsFollowSource(sels[0].elements);
      var elems := ProcessSelector(sels[0]);
      var rest := ProcessSelectors(sels[1..]);
      assert ProcessSelectors(sels) == [Selectors(sels[0])] + (elems + rest);
      assert NamedByElement(elems);
    }
  }

  /** One SELECTORS event per selector and one SELECTOR event per element. */
  lemma {:induction false} SelectorEventCounts(sels: seq<Selector>)
    ensures Count(ProcessSelectors(sels), SELECTORS) == |sels|
    ensures Count(ProcessSelectors(sels), SELECTOR) == |AllElements(sels)|
  {
    if |sels| > 0 {
      SelectorEventCounts(sels[1..]);
      ElementEventsFollowSource(sels[0].elements);
      var head := [Selectors(sels[0])];
      var elems := ProcessSelector(sels[0]);
      var rest := ProcessSelectors(sels[1..]);
      assert ProcessSelectors(sels) == head + (elems + rest);
      CountAppend(head, elems + rest, SELECTORS);
      CountAppend(elems, rest, SELECTORS);
      CountAppend(head, elems + rest, SELECTOR);
      CountAppend(elems, rest, SELECTOR);
    }
  }

  /** No selector event carries a syntax node. */
  /** Where the events of the i-th selector start: after i SELECTORS events and the elements of the selectors before it. */
  function SelectorOffset(sels: seq<Selector>, i: nat): nat
    requires i <= |sels|
  {
    i + |AllElements(sels[..i])|
  }

  lemma {:induction false} SelectorsAppend(a: seq<Selector>, b: seq<Selector>)
    ensures ProcessSelectors(a + b) == ProcessSelectors(a) + ProcessSelectors(b)
  {
    if |a| > 0 {
      assert (a + b)[0] == a[0];
      assert (a + b)[1..] == a[1..] + b;
      SelectorsAppend(a[1..], b);
    } else {
      assert a + b == b;
    }
  }

  lemma {:induction false} SelectorEventsLength(sels: seq<Selector>)
    ensures |ProcessSelectors(sels)| == |sels| + |AllElements(sels)|
  {
    if |sels| > 0 {
      SelectorEventsLength(sels[1..]);
      ElementEventsFollowSource(sels[0].elements);
    }
  }

  lemma SelectorsCons(sel: Selector, rest: seq<Selector>)
    ensures ProcessSelectors([sel] + rest) == ([Selectors(sel)] + ElementEvents(sel.elements)) + ProcessSelectors(rest)
  {
    assert ([sel] + rest)[0] == sel && ([sel] + rest)[1..] == rest;
  }

  /** The events of a ruleset's selectors split around the i-th selector's own events. */
  lemma SelectorEventsSplit(sels: seq<Selector>, i: nat)
    requires i < |sels|
    ensures ProcessSelectors(sels) ==
      ProcessSelectors(sels[..i]) + (([Selectors(sels[i])] + ElementEvents(sels[i].elements)) + ProcessSelectors(sels[i + 1..]))
  {
    SplitAt(sels, i);
    SelectorsAppend(sels[..i], [sels[i]] + sels[i + 1..]);
    SelectorsCons(sels[i], sels[i + 1..]);
  }

  lemma SplitAt<T>(s: seq<T>, i: nat)
    requires i < |s|
    ensures s == s[..i] + ([s[i]] + s[i + 1..])
  {
    assert s[..i] + ([s[i]] + s[i + 1..]) == s[..i] + s[i..];
  }

  /** The events before the i-th selector's: one SELECTORS per earlier selector and one SELECTOR per earlier element. */
  lemma SelectorEventsBefore(sels: seq<Selector>, i: nat)
    requires i <= |sels|
    ensures |ProcessSelectors(sels[..i])| == SelectorOffset(sels, i)
  {
    SelectorEventsLength(sels[..i]);
  }

  /** The i-th selector's SELECTORS event sits at its offset, with room for its elements after it. */
  lemma SelectorEventsHeadAt(sels: seq<Selector>, i: nat)
    requires i < |sels|
    ensures SelectorOffset(sels, i) + |sels[i].elements| < |ProcessSelectors(sels)|
    ensures ProcessSelectors(sels)[SelectorOffset(sels, i)] == Selectors(sels[i])
  {
    var elems := ElementEvents(sels[i].elements);
    SelectorEventsSplit(sels, i);
    SelectorEventsBefore(sels, i);
    ElementsLength(sels[i].elements);
    MiddleAt(ProcessSelectors(sels[..i]), [Selectors(sels[i])], elems, ProcessSelectors(sels[i + 1..]));
  }

  /** The m-th element of the i-th selector has its SELECTOR event right after the m earlier ones. */
  lemma SelectorEventsElementAt(sels: seq<Selector>, i: nat, m: nat)
    requires i < |sels| && m < |sels[i].elements|
    ensures SelectorOffset(sels, i) + 1 + m < |ProcessSelectors(sels)|
    ensures ProcessSelectors(sels)[SelectorOffset(sels, i) + 1 + m] == SelectorElement(sels[i].elements[m].value, sels[i].elements[m])
  {
    var elems := ElementEvents(sels[i].elements);
    SelectorEventsSplit(sels, i);
    SelectorEventsBefore(sels, i);
    ElementAt(sels[i].elements, m);
    MiddleAt(ProcessSelectors(sels[..i]), [Selectors(sels[i])], elems, ProcessSelectors(sels[i + 1..]));
  }

  lemma ElementsLength(elements: seq<Element>)
    ensures |ElementEvents(elements)| == |elements|
  {
    ElementEventsFollowSource(elements);
  }

  lemma ElementAt(elements: seq<Element>, m: nat)
    requires m < |elements|
    ensures |ElementEvents(elements)| == |elements|
    ensures ElementEvents(elements)[m] == SelectorElement(elements[m].value, elements[m])
  {
    ElementEventsFollowSource(elements);
  }

  /** Indexing into the middle of `a + ((x + b) + c)`. */
  lemma MiddleAt<T>(a: seq<T>, x: seq<T>, b: seq<T>, c: seq<T>)
    requires |x| == 1
    ensures |a| + |b| < |a + ((x + b) + c)|
    ensures (a + ((x + b) + c))[|a|] == x[0]
    ensures forall m :: 0 <= m < |b| ==> (a + ((x + b) + c))[|a| + 1 + m] == b[m]
  {
  }

  /**
   * `_processSelectors` in full: as many events as selectors and elements
   * together, and the events of each selector in turn, its SELECTORS event
   * first and then its elements' SELECTOR events.
   */
  lemma SelectorEventsInterleave(sels: seq<Selector>)
    ensures |ProcessSelectors(sels)| == |sels| + |AllElements(sels)|
    ensures forall i :: 0 <= i < |sels| ==>
      SelectorOffset(sels, i) + |sels[i].elements| < |ProcessSelectors(sels)|
      && ProcessSelectors(sels)[SelectorOffset(sels, i)] == Selectors(sels[i])
    ensures forall i, m :: 0 <= i < |sels| && 0 <= m < |sels[i].elements| ==>
      SelectorOffset(sels, i) + 1 + m < |ProcessSelectors(sels)|
      && ProcessSelectors(sels)[SelectorOffset(sels, i) + 1 + m] == SelectorElement(sels[i].elements[m].value, sels[i].elements[m])
  {
    SelectorEventsLength(sels);
    forall i | 0 <= i < |sels|
      ensures SelectorOffset(sels, i) + |sels[i].elements| < |ProcessSelectors(sels)|
      ensures ProcessSelectors(sels)[SelectorOffset(sels, i)] == Selectors(sels[i])
    {
      SelectorEventsHeadAt(sels, i);
    }
    forall i, m | 0 <= i < |sels| && 0 <= m < |sels[i].elements|
      ensures SelectorOffset(sels, i) + 1 + m < |ProcessSelectors(sels)|
      ensures ProcessSelectors(sels)[SelectorOffset(sels, i) + 1 + m] == SelectorElement(sels[i].elements[m].value, sels[i].elements[m])
    {
      SelectorEventsElementAt(sels, i, m);
    }
  }

  lemma {:induction false} SelectorEventsCarryNoNode(sels: seq<Selector>, k: Kind)
    ensures Raws(ProcessSelectors(sels), k) == []
  {
    if |sels| > 0 {
      SelectorEventsCarryNoNode(sels[1..], k);
      ElementEventsCarryNoNode(sels[0].elements, k);
      RawsOne(Selectors(sels[0]), k);
      NoneInThree([Selectors(sels[0])], ProcessSelector(sels[0]), ProcessSelectors(sels[1..]), k);
    }
  }

  lemma NoneInThree(a: seq<Event>, b: seq<Event>, c: seq<Event>, k: Kind)
    requires Raws(a, k) == [] && Raws(b, k) == [] && Raws(c, k) == []
    ensures Raws(a + b + c, k) == []
  {
    RawsAppend(a + b, c, k);
    RawsAppend(a, b, k);
  }

  lemma {:induction false} ElementEventsCarryNoNode(elements: seq<Element>, k: Kind)
    ensures Raws(ElementEvents(elements), k) == []
  {
    if |elements| > 0 {
      ElementEventsCarryNoNode(elements[1..], k);
      assert ElementEvents(elements)[1..] == ElementEvents(elements[1..]);
    }
  }

  /** Whether the walker goes on from `n` into its `rules`. */
  predicate Descends(n: Node) {
    match RouteOf(n)
    case ToMixin => Test("definition", n.kind) && n.isRuleset
    case ToMedia => true
    case ToRuleset => true
    case _ => false
  }

  /** Whether a completed visit of `n` emits an event of kind `k` that carries `n` itself. */
  predicate EmitsOwn(n: Node, k: Kind) {
    match RouteOf(n)
    case ToImport => k == IMPORT
    case ToMixin =>
      k == MIXIN
      || (if Test("definition", n.kind) then k == MIXIN_DEFINITION || (n.isRuleset && k == RULESET)
          else k == MIXIN_CALL)
    case ToComment => k == COMMENT
    case ToMedia => k == MEDIA
    case ToRuleset => k == RULESET
    case ToVariable => k == VARIABLE
    case ToRule => k == RULE
    case Unrecognised => false
  }

  /**
   * The nodes that should carry an event of kind `k`, listed independently
   * of the walker: `n` when it emits such an event itself, then, in preorder,
   * those of every child the walker descends into.
   */
  function Expected(n: Node, k: Kind): seq<Node>
    decreases n, 1
  {
    (if EmitsOwn(n, k) then [n] else [])
    + (if Descends(n) && n.rules.Present? then ExpectedAll(n.rules.nodes, k) else [])
  }

  function ExpectedAll(ns: seq<Node>, k: Kind): seq<Node>
    decreases ns
  {
    if |ns| == 0 then [] else Expected(ns[0], k) + ExpectedAll(ns[1..], k)
  }

  /**
   * A completed walk visits the tree in preorder: for every kind, the nodes
   * its events of that kind carry are exactly the reference list. So each
   * ruleset reached is reported once, before anything beneath it, and
   * nothing beneath an import, a comment, a rule or a mixin call is visited.
   */
  lemma {:induction false} WalkVisitsInPreorder(n: Node, k: Kind)
    requires ProcessNode(n).Completed()
    ensures Raws(ProcessNode(n).events, k) == Expected(n, k)
    decreases n, 3
  {
    match RouteOf(n)
    case ToImport => ImportVisits(n, k);
    case ToComment => CommentVisits(n, k);
    case ToVariable => VariableVisits(n, k);
    case ToRule => RuleVisits(n, k);
    case Unrecognised =>
      LeafExpected(n, k);
      assert ProcessNode(n).events == [];
    case ToRuleset =>
      assert ProcessNode(n) == ProcessRuleset(n);
      RulesetVisitsInPreorder(n, k);
    case ToMedia =>
      assert ProcessNode(n) == ProcessMedia(n);
      MediaVisitsInPreorder(n, k);
    case ToMixin =>
      assert ProcessNode(n) == ProcessMixin(n);
      MixinVisitsInPreorder(n, k);
  }

  /** What the reference list holds for a node the walker does not descend into. */
  lemma LeafExpected(n: Node, k: Kind)
    requires !Descends(n)
    ensures Expected(n, k) == if EmitsOwn(n, k) then [n] else []
  {
  }

  /** A node that is not descended into carries only the event it emits itself. */
  lemma OwnEventOnly(n: Node, e: Event, k: Kind)
    requires !Descends(n) && e.HasRaw() && e.raw == n
    requires EmitsOwn(n, k) <==> e.Kind() == k
    ensures Raws([e], k) == Expected(n, k)
  {
    LeafExpected(n, k);
    RawsOne(e, k);
  }

  /** An import, a comment, a variable or a rule carries its own event and nothing beneath it. */
  lemma ImportVisits(n: Node, k: Kind)
    requires RouteOf(n) == ToImport
    ensures Raws(ProcessNode(n).events, k) == Expected(n, k)
  {
    assert ProcessNode(n).events == [Import(n)];
    OwnEventOnly(n, Import(n), k);
  }

  lemma CommentVisits(n: Node, k: Kind)
    requires RouteOf(n) == ToComment
    ensures Raws(ProcessNode(n).events, k) == Expected(n, k)
  {
    var e := Comment(if n.fields.CommentFields? then Some(n.fields.text) else None, n);
    assert ProcessNode(n).events == [e];
    OwnEventOnly(n, e, k);
  }

  lemma VariableVisits(n: Node, k: Kind)
    requires RouteOf(n) == ToVariable && ProcessNode(n).Completed()
    ensures Raws(ProcessNode(n).events, k) == Expected(n, k)
  {
    assert ProcessNode(n) == ProcessVariable(n);
    var e := Variable(n.fields.name, n.fields.value.css, n);
    assert ProcessNode(n).events == [e];
    OwnEventOnly(n, e, k);
  }

  lemma RuleVisits(n: Node, k: Kind)
    requires RouteOf(n) == ToRule && ProcessNode(n).Completed()
    ensures Raws(ProcessNode(n).events, k) == Expected(n, k)
  {
    assert ProcessNode(n) == ProcessRule(n);
    RuleOutcome(n);
    var e := ProcessRule(n).events[0];
    assert ProcessNode(n).events == [e] && e.Rule? && e.raw == n;
    OwnEventOnly(n, e, k);
  }

  lemma {:induction false} MediaVisitsInPreorder(n: Node, k: Kind)
    requires RouteOf(n) == ToMedia && ProcessMedia(n).Completed()
    ensures Raws(ProcessMedia(n).events, k) == Expected(n, k)
    decreases n, 2
  {
    MediaOutcome(n);
    var head := Media(Join(RenderAll(Reported(n.fields.features)), ", "), n);
    var body := ProcessNodes(n.rules.nodes).events;
    WalkAllVisitsInPreorder(n.rules.nodes, k);
    MediaThenBody(head, body, k, ExpectedAll(n.rules.nodes, k));
    MediaExpected(n, k);
  }

  /** What the reference list holds for a media block with a body. */
  lemma MediaExpected(n: Node, k: Kind)
    requires RouteOf(n) == ToMedia && n.rules.Present?
    ensures Expected(n, k) == (if k == MEDIA then [n] else []) + ExpectedAll(n.rules.nodes, k)
  {
  }

  /** A MEDIA event in front of body events that carry `below`. */
  lemma MediaThenBody(e: Event, body: seq<Event>, k: Kind, below: seq<Node>)
    requires e.Media? && Raws(body, k) == below
    ensures Raws([e] + body, k) == (if k == MEDIA then [e.raw] else []) + below
  {
    RawsOne(e, k);
    RawsAppend([e], body, k);
  }

  /** What the reference list holds for a mixin definition. */
  lemma DefinitionMixinExpected(n: Node, k: Kind)
    requires RouteOf(n) == ToMixin && Test("definition", n.kind)
    ensures Expected(n, k) == (if k == MIXIN then [n] else []) +
      ((if k == MIXIN_DEFINITION || (n.isRuleset && k == RULESET) then [n] else [])
       + (if n.isRuleset && n.rules.Present? then ExpectedAll(n.rules.nodes, k) else []))
  {
  }

  /** What the reference list holds for a mixin call. */
  lemma CallMixinExpected(n: Node, k: Kind)
    requires RouteOf(n) == ToMixin && !Test("definition", n.kind)
    ensures Expected(n, k) == (if k == MIXIN then [n] else []) + (if k == MIXIN_CALL then [n] else [])
  {
  }

  /** A `mixin` event for `n` in front of events that carry `below`. */
  lemma MixinThenOwn(n: Node, own: seq<Event>, k: Kind, below: seq<Node>)
    requires Raws(own, k) == below
    ensures Raws([Mixin(n)] + own, k) == (if k == MIXIN then [n] else []) + below
  {
    RawsOne(Mixin(n), k);
    RawsAppend([Mixin(n)], own, k);
  }

  lemma {:induction false} MixinVisitsInPreorder(n: Node, k: Kind)
    requires RouteOf(n) == ToMixin && ProcessMixin(n).Completed()
    ensures Raws(ProcessMixin(n).events, k) == Expected(n, k)
    decreases n, 2
  {
    if Test("definition", n.kind) {
      var own := ProcessMixinDefinition(n);
      assert ProcessMixin(n) == Then(Emit(Mixin(n)), own);
      assert own.Completed() && ProcessMixin(n).events == [Mixin(n)] + own.events;
      DefinitionVisitsInPreorder(n, k);
      MixinThenOwn(n, own.events, k,
        (if k == MIXIN_DEFINITION || (n.isRuleset && k == RULESET) then [n] else [])
        + (if n.isRuleset && n.rules.Present? then ExpectedAll(n.rules.nodes, k) else []));
      DefinitionMixinExpected(n, k);
    } else {
      var own := ProcessMixinCall(n);
      assert Test("call", n.kind);
      assert ProcessMixin(n) == Then(Emit(Mixin(n)), own);
      assert own.Completed() && ProcessMixin(n).events == [Mixin(n)] + own.events;
      CallVisits(n, k);
      MixinThenOwn(n, own.events, k, if k == MIXIN_CALL then [n] else []);
      CallMixinExpected(n, k);
    }
  }

  lemma CallVisits(n: Node, k: Kind)
    requires ProcessMixinCall(n).Completed()
    ensures Raws(ProcessMixinCall(n).events, k) == (if k == MIXIN_CALL then [n] else [])
  {
    assert ProcessMixinCall(n).events == [MixinCall(Join(ElementValues(n.fields.selector.elements), ", "), ArgumentValues(n.fields.arguments), n)];
  }

  lemma {:induction false} DefinitionVisitsInPreorder(n: Node, k: Kind)
    requires ProcessMixinDefinition(n).Completed()
    ensures Raws(ProcessMixinDefinition(n).events, k) ==
      (if k == MIXIN_DEFINITION || (n.isRuleset && k == RULESET) then [n] else [])
      + (if n.isRuleset && n.rules.Present? then ExpectedAll(n.rules.nodes, k) else [])
    decreases n, 1
  {
    assert n.fields.DefinitionFields?;
    var d := MixinDefinition(n.fields.mixinName, Join(ParamNames(n.fields.params), ", "), n);
    if n.isRuleset {
      RulesetVisitsInPreorder(n, k);
      assert ProcessMixinDefinition(n).events == [d] + ProcessRuleset(n).events;
      OwnThenBody(d, ProcessRuleset(n).events, k, ExpectedAll(n.rules.nodes, k));
      assert n.isRuleset && n.rules.Present?;
    } else {
      assert ProcessMixinDefinition(n).events == [d];
      RawsOne(d, k);
      var own := if k == MIXIN_DEFINITION then [n] else [];
      assert Raws(ProcessMixinDefinition(n).events, k) == own == own + [];
    }
  }

  /** A definition's own event followed by its body walked as a ruleset. */
  lemma OwnThenBody(d: Event, body: seq<Event>, k: Kind, below: seq<Node>)
    requires d.MixinDefinition?
    requires Raws(body, k) == (if k == RULESET then [d.raw] else []) + below
    ensures Raws([d] + body, k) == (if k == MIXIN_DEFINITION || k == RULESET then [d.raw] else []) + below
  {
    RawsOne(d, k);
    RawsAppend([d], body, k);
    if k == RULESET {
      assert Raws([d] + body, k) == [] + ([d.raw] + below);
    } else if k == MIXIN_DEFINITION {
      assert Raws([d] + body, k) == [d.raw] + ([] + below);
    } else {
      assert Raws([d] + body, k) == [] + ([] + below);
    }
  }

  lemma {:induction false} RulesetVisitsInPreorder(r: Node, k: Kind)
    requires ProcessRuleset(r).Completed()
    ensures r.rules.Present?
    ensures Raws(ProcessRuleset(r).events, k) == (if k == RULESET then [r] else []) + ExpectedAll(r.rules.nodes, k)
    decreases r, 0
  {
    RulesetShape(r);
    var head := [Ruleset(r)];
    var sel := SelectorPart(r);
    var body := ProcessNodes(r.rules.nodes).events;
    assert ProcessRuleset(r).events == (head + sel) + body;
    WalkAllVisitsInPreorder(r.rules.nodes, k);
    RawsAppend(head + sel, body, k);
    RawsAppend(head, sel, k);
    if r.selectors.Some? {
      SelectorEventsCarryNoNode(r.selectors.value, k);
      assert Raws(sel, k) == [];
    } else {
      assert sel == [];
    }
    RawsOne(Ruleset(r), k);
  }

  lemma {:induction false} WalkAllVisitsInPreorder(ns: seq<Node>, k: Kind)
    requires ProcessNodes(ns).Completed()
    ensures Raws(ProcessNodes(ns).events, k) == ExpectedAll(ns, k)
    decreases ns
  {
    if |ns| > 0 {
      WalkVisitsInPreorder(ns[0], k);
      WalkAllVisitsInPreorder(ns[1..], k);
      RawsAppend(ProcessNode(ns[0]).events, ProcessNodes(ns[1..]).events, k);
    }
  }

  /** How many events of kind `k` a trace holds, summed with a trace run after it. */
  lemma CountThen(a: Trace, b: Trace, k: Kind)
    ensures Count(Then(a, b).events, k) == Count(a.events, k) + (if a.Completed() then Count(b.events, k) else 0)
  {
    if a.Completed() {
      CountAppend(a.events, b.events, k);
    }
  }

  /** Only `_processRoot` emits ROOT: walking any node never does, completed or not. */
  lemma {:induction false} WalkEmitsNoRoot(n: Node)
    ensures Count(ProcessNode(n).events, ROOT) == 0
    decreases n, 4
  {
    match RouteOf(n)
    case ToImport =>
    case ToComment =>
    case ToVariable =>
    case ToRule =>
    case Unrecognised =>
    case ToRuleset =>
      assert ProcessNode(n) == ProcessRuleset(n);
      RulesetEmitsNoRoot(n);
    case ToMedia =>
      assert ProcessNode(n) == ProcessMedia(n);
      MediaEmitsNoRoot(n);
    case ToMixin =>
      assert ProcessNode(n) == ProcessMixin(n);
      MixinEmitsNoRoot(n);
  }

  lemma {:induction false} MediaEmitsNoRoot(n: Node)
    ensures Count(ProcessMedia(n).events, ROOT) == 0
    decreases n, 3
  {
    if n.fields.MediaFields? && RuleValues(n.fields.features).Success? {
      var head := Emit(Media(Join(RenderAll(RuleValues(n.fields.features).value), ", "), n));
      assert ProcessMedia(n) == Then(head, ProcessChildren(n));
      ChildrenEmitNoRoot(n);
      CountThen(head, ProcessChildren(n), ROOT);
    }
  }

  lemma {:induction false} MixinEmitsNoRoot(n: Node)
    ensures Count(ProcessMixin(n).events, ROOT) == 0
    decreases n, 3
  {
    var sub :=
      if Test("definition", n.kind) then ProcessMixinDefinition(n)
      else if Test("call", n.kind) then ProcessMixinCall(n)
      else Throw(MixinTypeNotUnderstood(n.kind));
    assert ProcessMixin(n) == Then(Emit(Mixin(n)), sub);
    if Test("definition", n.kind) {
      DefinitionEmitsNoRoot(n);
    }
    CountThen(Emit(Mixin(n)), sub, ROOT);
  }

  lemma {:induction false} DefinitionEmitsNoRoot(n: Node)
    ensures Count(ProcessMixinDefinition(n).events, ROOT) == 0
    decreases n, 2
  {
    if n.fields.DefinitionFields? {
      var def := Emit(MixinDefinition(n.fields.mixinName, Join(ParamNames(n.fields.params), ", "), n));
      var body := if n.isRuleset then ProcessRuleset(n) else Quiet;
      assert ProcessMixinDefinition(n) == Then(def, body);
      if n.isRuleset {
        RulesetEmitsNoRoot(n);
      }
      CountThen(def, body, ROOT);
    }
  }

  lemma {:induction false} RulesetEmitsNoRoot(r: Node)
    ensures Count(ProcessRuleset(r).events, ROOT) == 0
    decreases r, 1
  {
    var sel := if r.selectors.Some? then Trace(ProcessSelectors(r.selectors.value), None) else Quiet;
    if r.selectors.Some? {
      assert Count(sel.events, ROOT) == 0 by {
        SelectorsHaveNoRoot(r.selectors.value);
      }
    }
    ChildrenEmitNoRoot(r);
    CountThen(sel, ProcessChildren(r), ROOT);
    CountThen(Emit(Ruleset(r)), Then(sel, ProcessChildren(r)), ROOT);
  }

  lemma {:induction false} ChildrenEmitNoRoot(n: Node)
    ensures Count(ProcessChildren(n).events, ROOT) == 0
    decreases n, 0
  {
    if n.rules.Present? {
      NodesEmitNoRoot(n.rules.nodes);
    }
  }

  lemma {:induction false} NodesEmitNoRoot(ns: seq<Node>)
    ensures Count(ProcessNodes(ns).events, ROOT) == 0
    decreases ns
  {
    if |ns| > 0 {
      WalkEmitsNoRoot(ns[0]);
      NodesEmitNoRoot(ns[1..]);
      CountThen(ProcessNode(ns[0]), ProcessNodes(ns[1..]), ROOT);
    }
  }

  lemma {:induction false} SelectorsHaveNoRoot(sels: seq<Selector>)
    ensures Count(ProcessSelectors(sels), ROOT) == 0
  {
    if |sels| > 0 {
      SelectorsHaveNoRoot(sels[1..]);
      ElementsHaveNoRoot(sels[0].elements);
      var head := [Selectors(sels[0])];
      var elems := ProcessSelector(sels[0]);
      var rest := ProcessSelectors(sels[1..]);
      assert ProcessSelectors(sels) == head + (elems + rest);
      CountAppend(head, elems + rest, ROOT);
      CountAppend(elems, rest, ROOT);
    }
  }

  lemma {:induction false} ElementsHaveNoRoot(elements: seq<Element>)
    ensures Count(ElementEvents(elements), ROOT) == 0
  {
    if |elements| > 0 {
      ElementsHaveNoRoot(elements[1..]);
      assert ElementEvents(elements)[1..] == ElementEvents(elements[1..]);
    }
  }

  /**
   * `_processRoot` emits ROOT first, named by the file-name guess, and then
   * exactly the events of walking the root as a ruleset; ROOT occurs once.
   * When the guess throws, nothing is emitted.
   */
  lemma RootComesFirst(root: Node)
    ensures GetFilename(root).Failure? ==> ProcessRoot(root) == Throw(GetFilename(root).error)
    ensures GetFilename(root).Success? ==>
      ProcessRoot(root).events == [Root(GetFilename(root).value, root)] + ProcessRuleset(root).events
      && ProcessRoot(root).thrown == ProcessRuleset(root).thrown
      && Count(ProcessRoot(root).events, ROOT) == 1
  {
    if GetFilename(root).Success? {
      RulesetEmitsNoRoot(root);
      CountAppend([Root(GetFilename(root).value, root)], ProcessRuleset(root).events, ROOT);
    }
  }

  /** The traces of walking each node on its own. */
  function NodeTraces(ns: seq<Node>): (ts: seq<Trace>)
    ensures |ts| == |ns|
    ensures forall i :: 0 <= i < |ns| ==> ts[i] == ProcessNode(ns[i])
  {
    if |ns| == 0 then [] else [ProcessNode(ns[0])] + NodeTraces(ns[1..])
  }

  /**
   * Walking a list of siblings is walking each in turn until one throws: the
   * first throw ends the walk of the remaining siblings.
   */
  lemma {:induction false} SiblingsStopAtFirstThrow(ns: seq<Node>)
    ensures ProcessNodes(ns) == Chain(NodeTraces(ns))
  {
    if |ns| > 0 {
      SiblingsStopAtFirstThrow(ns[1..]);
      assert NodeTraces(ns)[1..] == NodeTraces(ns[1..]);
    }
  }
}
