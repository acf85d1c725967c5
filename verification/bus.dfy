/**
 * The listener table behind the runner's `on` / `off`: for each event name,
 * its listeners in registration order. Like Node's event emitter, the table
 * never keeps an event name whose listener list has become empty, and `off`
 * removes the most recently added occurrence of the listener.
 */
module Bus {

  /** No event name is kept with an empty listener list. */
  ghost predicate Valid<K, H>(t: map<K, seq<H>>) {
    forall k :: k in t ==> t[k] != []
  }

  /** The listeners of `k`, in the order they are called. */
  function Listeners<K, H>(t: map<K, seq<H>>, k: K): seq<H> {
    if k in t then t[k] else []
  }

  /** Two valid tables with the same listeners for every name are the same table. */
  lemma SameListenersSameTable<K, H>(a: map<K, seq<H>>, b: map<K, seq<H>>)
    requires Valid(a) && Valid(b)
    requires forall k :: Listeners(a, k) == Listeners(b, k)
    ensures a == b
  {
    forall k | k in a
      ensures k in b && a[k] == b[k]
    {
      assert Listeners(a, k) == Listeners(b, k);
    }
    forall k | k in b
      ensures k in a
    {
      assert Listeners(a, k) == Listeners(b, k);
    }
  }

  /** `on(k, h)`: `h` becomes the last listener of `k`. */
  function On<K(!new), H>(t: map<K, seq<H>>, k: K, h: H): (r: map<K, seq<H>>)
    ensures Listeners(r, k) == Listeners(t, k) + [h]
    ensures forall j :: j != k ==> Listeners(r, j) == Listeners(t, j)
    ensures Valid(t) ==> Valid(r)
  {
    t[k := Listeners(t, k) + [h]]
  }

  /** `s` without the last occurrence of `h`. */
  function RemoveLast<H(==)>(s: seq<H>, h: H): seq<H> {
    if |s| == 0 then s
    else if s[|s| - 1] == h then s[..|s| - 1]
    else RemoveLast(s[..|s| - 1], h) + [s[|s| - 1]]
  }

  /** Where the last occurrence of `h` in `s` is, or -1 if there is none. */
  function LastIndex<H(==)>(s: seq<H>, h: H): (i: int)
    ensures -1 <= i < |s|
    ensures i < 0 ==> h !in s
    ensures i >= 0 ==> s[i] == h && h !in s[i + 1..]
  {
    if |s| == 0 then -1
    else if s[|s| - 1] == h then |s| - 1
    else
      var i := LastIndex(s[..|s| - 1], h);
      assert i >= 0 ==> s[i + 1..] == s[..|s| - 1][i + 1..] + [s[|s| - 1]];
      assert s == s[..|s| - 1] + [s[|s| - 1]];
      i
  }

  /** Removing a listener that is not registered changes nothing. */
  lemma {:induction false} RemoveLastAbsent<H>(s: seq<H>, h: H)
    requires h !in s
    ensures RemoveLast(s, h) == s
    decreases |s|
  {
    if |s| > 0 {
      var front := s[..|s| - 1];
      assert h !in front by {
        forall j | 0 <= j < |front| ensures front[j] != h {
          assert front[j] == s[j];
        }
      }
      RemoveLastAbsent(front, h);
      assert s == front + [s[|s| - 1]];
    }
  }

  /** When `s[i]` is the last occurrence of `h`, removing `h` drops exactly `s[i]`. */
  lemma {:induction false} RemoveLastAt<H>(s: seq<H>, h: H, i: nat)
    requires i < |s| && s[i] == h && h !in s[i + 1..]
    ensures RemoveLast(s, h) == s[..i] + s[i + 1..]
    decreases |s|
  {
    var n := |s| - 1;
    if i == n {
      assert s[i + 1..] == [];
    } else {
      var front := s[..n];
      var last := s[n];
      assert s[i + 1..] == front[i + 1..] + [last];
      assert last != h by {
        assert last == s[i + 1..][n - i - 1];
      }
      RemoveLastAt(front, h, i);
      assert RemoveLast(s, h) == front[..i] + front[i + 1..] + [last];
      assert s[..i] == front[..i];
    }
  }

  /**
   * Removing a listener that is not registered changes nothing; otherwise
   * exactly its last registration goes and the others keep their order.
   */
  lemma {:induction false} RemoveLastDropsLastOccurrence<H>(s: seq<H>, h: H)
    ensures var i := LastIndex(s, h);
      RemoveLast(s, h) == if i < 0 then s else s[..i] + s[i + 1..]
  {
    var i := LastIndex(s, h);
    if i < 0 {
      RemoveLastAbsent(s, h);
    } else {
      RemoveLastAt(s, h, i);
    }
  }

  /** `off(k, h)`: the last registration of `h` for `k` is dropped; an emptied name is removed. */
  function Off<K(!new), H(==)>(t: map<K, seq<H>>, k: K, h: H): (r: map<K, seq<H>>)
    ensures Listeners(r, k) == RemoveLast(Listeners(t, k), h)
    ensures forall j :: j != k ==> Listeners(r, j) == Listeners(t, j)
    ensures Valid(t) ==> Valid(r)
  {
    var rest := RemoveLast(Listeners(t, k), h);
    if rest == [] then t - {k} else t[k := rest]
  }

  /** Registering a listener and then removing it leaves a valid table as it was. */
  lemma OffUndoesOn<K(!new), H>(t: map<K, seq<H>>, k: K, h: H)
    requires Valid(t)
    ensures Off(On(t, k, h), k, h) == t
  {
    var s := Listeners(t, k) + [h];
    assert s[..|s| - 1] == Listeners(t, k);
    SameListenersSameTable(Off(On(t, k, h), k, h), t);
  }

  /** The listeners each subscription adds to `k`, in order. */
  function SubscribedUnder<K(==), H>(subs: seq<(K, H)>, k: K): seq<H> {
    if |subs| == 0 then []
    else (if subs[0].0 == k then [subs[0].1] else []) + SubscribedUnder(subs[1..], k)
  }

  /** `on` for each subscription in turn. */
  function Subscribe<K(!new), H>(t: map<K, seq<H>>, subs: seq<(K, H)>): (r: map<K, seq<H>>)
    ensures Valid(t) ==> Valid(r)
    decreases subs
  {
    if |subs| == 0 then t else Subscribe(On(t, subs[0].0, subs[0].1), subs[1..])
  }

  /** Subscribing appends to each name's listeners exactly the listeners subscribed under it, in order. */
  lemma {:induction false} SubscribeAppends<K(!new), H>(t: map<K, seq<H>>, subs: seq<(K, H)>, k: K)
    ensures Listeners(Subscribe(t, subs), k) == Listeners(t, k) + SubscribedUnder(subs, k)
    decreases subs
  {
    if |subs| > 0 {
      var on := On(t, subs[0].0, subs[0].1);
      var later := SubscribedUnder(subs[1..], k);
      assert Subscribe(t, subs) == Subscribe(on, subs[1..]);
      SubscribeAppends(on, subs[1..], k);
      if subs[0].0 == k {
        assert Listeners(on, k) == Listeners(t, k) + [subs[0].1];
        assert SubscribedUnder(subs, k) == [subs[0].1] + later;
        assert Listeners(t, k) + [subs[0].1] + later == Listeners(t, k) + ([subs[0].1] + later);
      } else {
        assert Listeners(on, k) == Listeners(t, k);
        assert SubscribedUnder(subs, k) == [] + later == later;
      }
    }
  }

  /** `off` for each subscription in turn. */
  function Unsubscribe<K(!new), H(==)>(t: map<K, seq<H>>, subs: seq<(K, H)>): (r: map<K, seq<H>>)
    ensures forall k :: (forall i :: 0 <= i < |subs| ==> subs[i].0 != k) ==> Listeners(r, k) == Listeners(t, k)
    ensures Valid(t) ==> Valid(r)
    decreases subs
  {
    if |subs| == 0 then t else Unsubscribe(Off(t, subs[0].0, subs[0].1), subs[1..])
  }

  /** Each event name appears in at most one subscription. */
  ghost predicate DistinctNames<K, H>(subs: seq<(K, H)>) {
    forall i, j :: 0 <= i < j < |subs| ==> subs[i].0 != subs[j].0
  }

  /**
   * Subscribing a list of listeners under distinct event names and then
   * unsubscribing the same list restores a valid table, whatever listeners
   * (including the same ones) were registered before.
   */
  lemma {:induction false} UnsubscribeUndoesSubscribe<K(!new), H>(t: map<K, seq<H>>, subs: seq<(K, H)>)
    requires Valid(t) && DistinctNames(subs)
    ensures Unsubscribe(Subscribe(t, subs), subs) == t
    decreases subs
  {
    if |subs| > 0 {
      var k0 := subs[0].0;
      var h0 := subs[0].1;
      var rest := subs[1..];
      assert DistinctNames(rest);
      var on := On(t, k0, h0);
      var full := Subscribe(on, rest);
      assert forall i :: 0 <= i < |rest| ==> rest[i].0 != k0;
      SubscribedUnderMissing(rest, k0);
      assert Subscribe(t, subs) == full;
      var off := Off(full, k0, h0);
      var back := Subscribe(t, rest);
      forall k
        ensures Listeners(off, k) == Listeners(back, k)
      {
        SubscribeAppends(on, rest, k);
        SubscribeAppends(t, rest, k);
        if k == k0 {
          var s := Listeners(t, k0) + [h0];
          assert Listeners(full, k0) == s;
          assert s[..|s| - 1] == Listeners(t, k0);
        }
      }
      SameListenersSameTable(off, back);
      UnsubscribeUndoesSubscribe(t, rest);
    }
  }

  /** Unsubscribing a list under distinct names removes from each name the last registration of its listener. */
  lemma {:induction false} UnsubscribeRemoves<K(!new), H>(t: map<K, seq<H>>, subs: seq<(K, H)>, i: nat)
    requires DistinctNames(subs) && i < |subs|
    ensures Listeners(Unsubscribe(t, subs), subs[i].0) == RemoveLast(Listeners(t, subs[i].0), subs[i].1)
    decreases subs
  {
    var off := Off(t, subs[0].0, subs[0].1);
    var rest := subs[1..];
    assert DistinctNames(rest);
    if i == 0 {
      assert forall j :: 0 <= j < |rest| ==> rest[j].0 != subs[0].0;
    } else {
      assert subs[i] == rest[i - 1];
      UnsubscribeRemoves(off, rest, i - 1);
    }
  }

  lemma {:induction false} SubscribedUnderMissing<K, H>(subs: seq<(K, H)>, k: K)
    requires forall i :: 0 <= i < |subs| ==> subs[i].0 != k
    ensures SubscribedUnder(subs, k) == []
  {
    if |subs| > 0 {
      SubscribedUnderMissing(subs[1..], k);
    }
  }
}
