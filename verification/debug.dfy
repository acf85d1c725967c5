/**
 * The Debug task of `lib/tasks/debug.js`: a subscriber that, once
 * installed on a runner, listens to five of the walker's events, and that
 * `destroy` unsubscribes again. Its listener bodies only print, so the model
 * keeps their identities and not what they do.
 */
module DebugTask {
  import opened Wrappers
  import opened Events
  import opened Bus

  /** The task's listener methods that it subscribes. */
  datatype Listener = OnRoot | OnRule | OnRuleset | OnSelector | OnVariable

  /** A listener method bound to one task instance: the identity `on` and `off` compare. */
  datatype Handler = Handler(task: nat, listener: Listener)

  /** A task instance: its identity, `taskName` and `runner` (`None` for `null`). */
  datatype Debug = Debug(id: nat, taskName: string, runner: Option<nat>)

  /** The options object handed to `install`; `runner` is `None` when missing. */
  datatype InstallOptions = InstallOptions(runner: Option<nat>)

  /** The event names the task listens to, each with its listener, in the order `install` subscribes them. */
  function Subscriptions(id: nat): seq<(Kind, Handler)> {
    [(ROOT, Handler(id, OnRoot)), (RULE, Handler(id, OnRule)), (RULESET, Handler(id, OnRuleset)),
     (SELECTOR, Handler(id, OnSelector)), (VARIABLE, Handler(id, OnVariable))]
  }

  /** The listener the task subscribes under `k`, if any. */
  function ListenerFor(id: nat, k: Kind): seq<Handler> {
    match k
    case ROOT => [Handler(id, OnRoot)]
    case RULE => [Handler(id, OnRule)]
    case RULESET => [Handler(id, OnRuleset)]
    case SELECTOR => [Handler(id, OnSelector)]
    case VARIABLE => [Handler(id, OnVariable)]
    case _ => []
  }

  lemma SubscriptionsAdd(id: nat, k: Kind)
    ensures Bus.SubscribedUnder(Subscriptions(id), k) == ListenerFor(id, k)
  {
    var s := Subscriptions(id);
    assert Bus.SubscribedUnder(s[5..], k) == [];
    assert Bus.SubscribedUnder(s[4..], k) == (if k == VARIABLE then [s[4].1] else []) + Bus.SubscribedUnder(s[5..], k);
    assert Bus.SubscribedUnder(s[3..], k) == (if k == SELECTOR then [s[3].1] else []) + Bus.SubscribedUnder(s[4..], k);
    assert Bus.SubscribedUnder(s[2..], k) == (if k == RULESET then [s[2].1] else []) + Bus.SubscribedUnder(s[3..], k);
    assert Bus.SubscribedUnder(s[1..], k) == (if k == RULE then [s[1].1] else []) + Bus.SubscribedUnder(s[2..], k);
  }

  /** The constructor: a fresh task is named `Debug` and has no runner. */
  function New(id: nat): (d: Debug)
    ensures d.id == id && d.taskName == "Debug" && d.runner.None?
  {
    Debug(id, "Debug", None)
  }

  /**
   * `install`: without options or without a runner it throws before
   * subscribing anything; otherwise it records the runner and subscribes
   * exactly one listener to each of ROOT, RULE, RULESET, SELECTOR and
   * VARIABLE on the runner's listener table `t`.
   */
  function Install(d: Debug, opts: Option<InstallOptions>, t: map<Kind, seq<Handler>>): (r: Result<(Debug, map<Kind, seq<Handler>>), Error>)
    ensures r.Failure? <==> opts.None? || opts.value.runner.None?
    ensures r.Failure? ==> r.error == MissingRunner
    ensures r.Success? ==> r.value.0 == d.(runner := opts.value.runner)
    ensures r.Success? ==> forall k :: Listeners(r.value.1, k) == Listeners(t, k) + ListenerFor(d.id, k)
    ensures r.Success? && Valid(t) ==> Valid(r.value.1)
  {
    if opts.None? || opts.value.runner.None? then Failure(MissingRunner)
    else
      var t' := Subscribe(t, Subscriptions(d.id));
      assert forall k :: Listeners(t', k) == Listeners(t, k) + ListenerFor(d.id, k) by {
        forall k
          ensures Listeners(t', k) == Listeners(t, k) + ListenerFor(d.id, k)
        {
          SubscribeAppends(t, Subscriptions(d.id), k);
          SubscriptionsAdd(d.id, k);
        }
      }
      Success((d.(runner := opts.value.runner), t'))
  }

  /**
   * `destroy`: dereferencing a `null` runner throws; otherwise the task's
   * five listeners are unsubscribed from the runner's table `t` and the
   * runner is cleared.
   */
  function Destroy(d: Debug, t: map<Kind, seq<Handler>>): (r: Result<(Debug, map<Kind, seq<Handler>>), Error>)
    ensures r.Failure? <==> d.runner.None?
    ensures r.Success? ==> r.value.0 == d.(runner := None)
    ensures r.Success? ==> forall k :: ListenerFor(d.id, k) == [] ==> Listeners(r.value.1, k) == Listeners(t, k)
    ensures r.Success? ==> forall k :: |ListenerFor(d.id, k)| == 1 ==>
      Listeners(r.value.1, k) == RemoveLast(Listeners(t, k), ListenerFor(d.id, k)[0])
    ensures r.Success? && Valid(t) ==> Valid(r.value.1)
  {
    if d.runner.None? then Failure(TypeError("runner.off"))
    else
      var t' := Unsubscribe(t, Subscriptions(d.id));
      assert forall k :: |ListenerFor(d.id, k)| == 1 ==> Listeners(t', k) == RemoveLast(Listeners(t, k), ListenerFor(d.id, k)[0]) by {
        forall k | |ListenerFor(d.id, k)| == 1
          ensures Listeners(t', k) == RemoveLast(Listeners(t, k), ListenerFor(d.id, k)[0])
        {
          var subs := Subscriptions(d.id);
          assert DistinctNames(subs);
          var i := match k
            case ROOT => 0 case RULE => 1 case RULESET => 2 case SELECTOR => 3 case _ => 4;
          assert subs[i] == (k, ListenerFor(d.id, k)[0]);
          UnsubscribeRemoves(t, subs, i);
        }
      }
      assert forall k :: ListenerFor(d.id, k) == [] ==> Listeners(t', k) == Listeners(t, k) by {
        forall k | ListenerFor(d.id, k) == []
          ensures Listeners(t', k) == Listeners(t, k)
        {
          var subs := Subscriptions(d.id);
          assert forall i :: 0 <= i < |subs| ==> subs[i].0 != k;
        }
      }
      Success((d.(runner := None), t'))
  }

  /**
   * Installing the task and then destroying it leaves the runner's listener
   * table as it was, even if the same task was already subscribed, and
   * leaves the task without a runner.
   */
  lemma InstallThenDestroyRestores(d: Debug, opts: Option<InstallOptions>, t: map<Kind, seq<Handler>>)
    requires Valid(t)
    requires Install(d, opts, t).Success?
    ensures Destroy(Install(d, opts, t).value.0, Install(d, opts, t).value.1) == Success((d.(runner := None), t))
  {
    var subs := Subscriptions(d.id);
    assert DistinctNames(subs);
    UnsubscribeUndoesSubscribe(t, subs);
  }

  /** Destroying a task that was never installed throws instead of doing nothing. */
  lemma DestroyBeforeInstallThrows(id: nat, t: map<Kind, seq<Handler>>)
    ensures Destroy(New(id), t).Failure?
  {
  }
}
