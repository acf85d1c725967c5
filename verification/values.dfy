/**
 * Leaf-value reduction: how the walker turns a value list into the strings
 * it reports for rules and media features, and how it reports mixin-call
 * arguments. Both are best-effort: a leaf with nothing usable is dropped
 * and an argument that cannot be read becomes an empty-array placeholder.
 */
module Values {
  import opened Wrappers
  import opened Js
  import opened Ast
  import opened Events

  /** `leaf.type.toLowerCase() === 'operation'`. */
  predicate IsOperation(kind: string) {
    LowerAll(kind) == "operation"
  }

  /** The per-leaf choice: `value` if truthy, else `name` if truthy, else `'Operation'` for operations, else `undefined`. */
  function Reduce(l: Leaf): Prop {
    if Truthy(l.value) then l.value
    else if Truthy(l.name) then l.name
    else if IsOperation(l.kind) then Str("Operation")
    else Missing
  }

  /**
   * The reduction of a leaf is one of its value, its name, `'Operation'` or
   * nothing; the value wins over the name, which wins over `'Operation'`;
   * and something usable comes out exactly when one of the three is there.
   */
  lemma ReducePrefersValueThenName(l: Leaf)
    ensures Reduce(l) in {l.value, l.name, Str("Operation"), Missing}
    ensures Truthy(l.value) ==> Reduce(l) == l.value
    ensures !Truthy(l.value) && Truthy(l.name) ==> Reduce(l) == l.name
    ensures Truthy(Reduce(l)) <==> Truthy(l.value) || Truthy(l.name) || IsOperation(l.kind)
    ensures !Truthy(Reduce(l)) <==> Reduce(l) == Missing
  {
  }

  /** An expression whose `value[0]` exists. */
  predicate Resolvable(e: Expr) {
    e.operands.Some? && |e.operands.value| > 0
  }

  /** The first pass: `value.value[0]` for every expression; `None` stands for `undefined`. */
  function FirstLeaves(items: seq<Expr>): (r: Result<seq<Option<Leaf>>, Error>)
    ensures r.Success? <==> forall i :: 0 <= i < |items| ==> items[i].operands.Some?
    ensures r.Success? ==> |r.value| == |items|
    ensures r.Success? ==> forall i :: 0 <= i < |items| ==> (r.value[i].Some? <==> Resolvable(items[i]))
    ensures r.Success? ==> forall i :: 0 <= i < |items| && Resolvable(items[i]) ==>
      r.value[i].value == items[i].operands.value[0]
  {
    if |items| == 0 then Success([])
    else match items[0].operands
      case None => Failure(TypeError("value[0]"))
      case Some(ls) =>
        var first := if |ls| == 0 then None else Some(ls[0]);
        match FirstLeaves(items[1..])
        case Failure(e) => Failure(e)
        case Success(rest) => Success([first] + rest)
  }

  /** The second pass: reduce every leaf; reading a field of `undefined` throws. */
  function ReduceAll(leaves: seq<Option<Leaf>>): (r: Result<seq<Prop>, Error>)
    ensures r.Success? <==> forall i :: 0 <= i < |leaves| ==> leaves[i].Some?
    ensures r.Success? ==> |r.value| == |leaves|
    ensures r.Success? ==> forall i :: 0 <= i < |leaves| ==> r.value[i] == Reduce(leaves[i].value)
  {
    if |leaves| == 0 then Success([])
    else match leaves[0]
      case None => Failure(TypeError("leaf.value"))
      case Some(l) =>
        match ReduceAll(leaves[1..])
        case Failure(e) => Failure(e)
        case Success(rest) => Success([Reduce(l)] + rest)
  }

  /** The final `filter(leaf => leaf)`. */
  function Kept(ps: seq<Prop>): seq<Prop> {
    if |ps| == 0 then []
    else if Truthy(ps[0]) then [ps[0]] + Kept(ps[1..])
    else Kept(ps[1..])
  }

  /** `a` can be obtained from `b` by deleting entries. */
  ghost predicate Subsequence<T>(a: seq<T>, b: seq<T>) {
    |a| == 0 || (|b| > 0 && ((a[0] == b[0] && Subsequence(a[1..], b[1..])) || Subsequence(a, b[1..])))
  }

  function CountTruthy(ps: seq<Prop>): nat {
    if |ps| == 0 then 0 else (if Truthy(ps[0]) then 1 else 0) + CountTruthy(ps[1..])
  }

  /**
   * Filtering keeps exactly the truthy entries in order: the result is a
   * subsequence of the input made only of truthy entries, and there are as
   * many of them as the input has truthy entries.
   */
  lemma {:induction false} KeptIsTheTruthySubsequence(ps: seq<Prop>)
    ensures Subsequence(Kept(ps), ps)
    ensures forall j :: 0 <= j < |Kept(ps)| ==> Truthy(Kept(ps)[j])
    ensures |Kept(ps)| == CountTruthy(ps) <= |ps|
  {
    if |ps| > 0 {
      KeptIsTheTruthySubsequence(ps[1..]);
      if Truthy(ps[0]) {
        assert Kept(ps)[1..] == Kept(ps[1..]);
      }
    }
  }

  /** `_getRuleValues`: reduce a value list to the values worth reporting. */
  function RuleValues(v: ValueList): (r: Result<seq<Prop>, Error>)
    ensures v.Raw? ==> r == Success([Str(v.text)])
    ensures v.Exprs? ==> (r.Success? <==> forall i :: 0 <= i < |v.items| ==> Resolvable(v.items[i]))
    ensures v.Exprs? && r.Success? ==> |r.value| <= |v.items|
    ensures v.Exprs? && r.Success? ==> forall j :: 0 <= j < |r.value| ==> Truthy(r.value[j])
  {
    match v
    case Raw(s) => Success([Str(s)])
    case Exprs(items) =>
      match FirstLeaves(items)
      case Failure(e) => Failure(e)
      case Success(leaves) =>
        match ReduceAll(leaves)
        case Failure(e) => Failure(e)
        case Success(ps) =>
          KeptIsTheTruthySubsequence(ps);
          Success(Kept(ps))
  }

  /** The reduction of each expression's leading leaf, in source order. */
  function Reductions(items: seq<Expr>): (r: seq<Prop>)
    requires forall i :: 0 <= i < |items| ==> Resolvable(items[i])
    ensures |r| == |items|
    ensures forall i :: 0 <= i < |items| && Resolvable(items[i]) ==> r[i] == Reduce(items[i].operands.value[0])
  {
    if |items| == 0 then [] else assert Resolvable(items[0]); [Reduce(items[0].operands.value[0])] + Reductions(items[1..])
  }

  /**
   * What a successful reduction of an expression list reports: an
   * order-preserving subsequence of the per-expression reductions that
   * leaves out exactly the reductions that came to nothing.
   */
  lemma RuleValuesAreTheUsableReductions(items: seq<Expr>)
    requires RuleValues(Exprs(items)).Success?
    ensures Subsequence(RuleValues(Exprs(items)).value, Reductions(items))
    ensures |RuleValues(Exprs(items)).value| == CountTruthy(Reductions(items))
  {
    var leaves := FirstLeaves(items).value;
    var ps := ReduceAll(leaves).value;
    assert ps == Reductions(items);
    KeptIsTheTruthySubsequence(ps);
  }

  /** A value list the reducer can read: a bare string, or expressions that all have a leading leaf array. */
  predicate Reportable(v: ValueList) {
    v.Raw? || forall i :: 0 <= i < |v.items| ==> Resolvable(v.items[i])
  }

  /**
   * The reference answer for a readable value list: the string itself, or
   * the usable per-expression reductions in source order.
   */
  function Reported(v: ValueList): seq<Prop>
    requires Reportable(v)
  {
    if v.Raw? then [Str(v.text)] else Kept(Reductions(v.items))
  }

  /** The reducer succeeds exactly on the readable value lists, and then reports the reference answer. */
  lemma RuleValuesReportsReference(v: ValueList)
    ensures RuleValues(v).Success? <==> Reportable(v)
    ensures Reportable(v) ==> RuleValues(v).value == Reported(v)
  {
    if v.Exprs? && Reportable(v) {
      var leaves := FirstLeaves(v.items).value;
      assert ReduceAll(leaves).value == Reductions(v.items);
    }
  }

  /** One argument as `_getArguments` reports it. */
  function ArgumentValue(a: Arg): ArgValue {
    match a.value
    case None => Placeholder
    case Some(e) =>
      match e.operands
      case None => Placeholder
      case Some(ls) => Leading(if |ls| == 0 then None else Some(ls[0]))
  }

  /** `_getArguments`: one entry per argument, in order, with a placeholder for each argument that cannot be read. */
  function ArgumentValues(args: seq<Arg>): (r: seq<ArgValue>)
    ensures |r| == |args|
    ensures forall i :: 0 <= i < |args| ==>
      (r[i] == Placeholder <==> args[i].value.None? || args[i].value.value.operands.None?)
    ensures forall i :: 0 <= i < |args| && args[i].value.Some? && args[i].value.value.operands.Some? ==>
      (r[i] == Leading(None) <==> |args[i].value.value.operands.value| == 0)
    ensures forall i :: 0 <= i < |args| && args[i].value.Some? && Resolvable(args[i].value.value) ==>
      r[i] == Leading(Some(args[i].value.value.operands.value[0]))
  {
    if |args| == 0 then [] else [ArgumentValue(args[0])] + ArgumentValues(args[1..])
  }
}
