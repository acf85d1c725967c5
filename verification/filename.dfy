/**
 * `_getFilename`: a best-effort guess of the file a tree came from. It reads
 * the file information of the first rule; failing that, it walks the left
 * spine (`node`, `node.rules[0]`, `node.rules[0].rules[0]`, ...) down to the
 * first node that carries file information.
 */
module Filename {
  import opened Wrappers
  import opened Ast
  import opened Events

  /** What the guess returns when the spine ends at a node without a `rules` field. */
  const Sentinel: string := "error getting filename"

  /** The node's first rule, when it has a non-empty `rules` array. */
  predicate HasFirstRule(n: Node) {
    n.rules.Present? && |n.rules.nodes| > 0
  }

  /** The left spine: the node, then the left spine of its first rule. */
  function LeftSpine(n: Node): (s: seq<Node>)
    ensures |s| > 0 && s[0] == n
    ensures !HasFirstRule(s[|s| - 1])
    decreases n
  {
    [n] + (if HasFirstRule(n) then LeftSpine(n.rules.nodes[0]) else [])
  }

  /**
   * The `while (!tmp.currentFileInfo)` loop. Reading `rules[0]` of a node
   * with no `rules` field throws inside the loop's own `try` and yields the
   * sentinel; an empty `rules` array yields `undefined`, and the next loop
   * test then throws outside any `try`.
   */
  function SpineSearch(t: Node): Result<string, Error>
    decreases t
  {
    if t.fileInfo.Some? then Success(t.fileInfo.value)
    else if t.rules.Absent? then Success(Sentinel)
    else if |t.rules.nodes| == 0 then Failure(TypeError("currentFileInfo"))
    else SpineSearch(t.rules.nodes[0])
  }

  /** The spine search returns the file name of the first spine node that has one. */
  lemma {:induction false} SpineSearchFindsFirstFileInfo(n: Node, k: nat)
    requires k < |LeftSpine(n)| && LeftSpine(n)[k].fileInfo.Some?
    requires forall j :: 0 <= j < k ==> LeftSpine(n)[j].fileInfo.None?
    ensures SpineSearch(n) == Success(LeftSpine(n)[k].fileInfo.value)
    decreases n
  {
    var sp := LeftSpine(n);
    if k > 0 {
      assert sp[0].fileInfo.None?;
      assert HasFirstRule(n);
      var c := n.rules.nodes[0];
      var cs := LeftSpine(c);
      assert sp == [n] + cs;
      forall j | 0 <= j < k - 1
        ensures cs[j].fileInfo.None?
      {
        assert cs[j] == sp[j + 1];
      }
      assert cs[k - 1] == sp[k];
      SpineSearchFindsFirstFileInfo(c, k - 1);
    }
  }

  /**
   * When no spine node has a file name, the spine search returns the
   * sentinel if the spine ends at a node without `rules`, and throws if it
   * ends at an empty `rules` array.
   */
  lemma {:induction false} SpineSearchWithoutFileInfo(n: Node)
    requires forall k :: 0 <= k < |LeftSpine(n)| ==> LeftSpine(n)[k].fileInfo.None?
    ensures var last := LeftSpine(n)[|LeftSpine(n)| - 1];
      SpineSearch(n) == (if last.rules.Absent? then Success(Sentinel) else Failure(TypeError("currentFileInfo")))
    decreases n
  {
    var sp := LeftSpine(n);
    assert sp[0].fileInfo.None?;
    if HasFirstRule(n) {
      var c := n.rules.nodes[0];
      var cs := LeftSpine(c);
      assert sp == [n] + cs;
      forall k | 0 <= k < |cs|
        ensures cs[k].fileInfo.None?
      {
        assert cs[k] == sp[k + 1];
      }
      assert sp[|sp| - 1] == cs[|cs| - 1];
      SpineSearchWithoutFileInfo(c);
    } else {
      assert sp == [n];
    }
  }

  /**
   * `_getFilename`: the first rule's file name when the first rule carries
   * one; otherwise the search down the left spine, which starts again at
   * the node itself.
   */
  function GetFilename(r: Node): Result<string, Error> {
    if HasFirstRule(r) && r.rules.nodes[0].fileInfo.Some? then Success(r.rules.nodes[0].fileInfo.value)
    else SpineSearch(r)
  }

  /** `k` is the first position on the spine whose node has a file name. */
  ghost predicate FirstNamedAt(sp: seq<Node>, k: int) {
    0 <= k < |sp| && sp[k].fileInfo.Some? && forall j :: 0 <= j < k ==> sp[j].fileInfo.None?
  }

  /**
   * The guess in terms of the left spine: the file name of the spine's
   * second node (the first rule) when it has one; otherwise that of the
   * first spine node with one, the tree's own node included; and when no
   * spine node has one, the sentinel if the spine ends without `rules` and
   * an exception if it ends at an empty `rules` array.
   */
  lemma GetFilenameFollowsSpine(r: Node)
    ensures var sp := LeftSpine(r);
      |sp| > 1 && sp[1].fileInfo.Some? ==> GetFilename(r) == Success(sp[1].fileInfo.value)
    ensures var sp := LeftSpine(r);
      forall k :: FirstNamedAt(sp, k) && !(|sp| > 1 && sp[1].fileInfo.Some?) ==>
        GetFilename(r) == Success(sp[k].fileInfo.value)
    ensures var sp := LeftSpine(r);
      (forall k :: 0 <= k < |sp| ==> sp[k].fileInfo.None?) ==>
        GetFilename(r) == (if sp[|sp| - 1].rules.Absent? then Success(Sentinel) else Failure(TypeError("currentFileInfo")))
  {
    var sp := LeftSpine(r);
    assert HasFirstRule(r) ==> sp[1] == r.rules.nodes[0];
    assert |sp| > 1 ==> HasFirstRule(r);
    forall k | FirstNamedAt(sp, k) && !(|sp| > 1 && sp[1].fileInfo.Some?)
      ensures GetFilename(r) == Success(sp[k].fileInfo.value)
    {
      SpineSearchFindsFirstFileInfo(r, k);
    }
    if forall k :: 0 <= k < |sp| ==> sp[k].fileInfo.None? {
      SpineSearchWithoutFileInfo(r);
    }
  }
}
