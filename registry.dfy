/**
 * The hub's client list as a value: the list operations `onConnect` and
 * `onDisconnect` perform, and the fold the `Run` loop performs over the
 * register / unregister events it receives. The client handles are a type
 * parameter compared by `==`, which for the hub's clients is reference
 * (pointer) equality.
 */
module Registry {

  /** One event taken from the hub's `register` or `unregister` channel. */
  datatype Event<T> = Register(client: T) | Unregister(client: T)

  ghost predicate NoDup<T>(s: seq<T>) {
    forall i, j :: 0 <= i < j < |s| ==> s[i] != s[j]
  }

  /** The position of the first entry equal to `x`. */
  function FirstIndex<T(==)>(s: seq<T>, x: T): (k: nat)
    requires x in s
    ensures k < |s| && s[k] == x && x !in s[..k]
  {
    if s[0] == x then 0 else
      var k := 1 + FirstIndex(s[1..], x);
      assert s[..k] == [s[0]] + s[1..][..k - 1];
      k
  }

  /** The list with its first entry equal to `x` taken out, or unchanged when there is none. */
  function RemoveFirst<T(==)>(s: seq<T>, x: T): seq<T> {
    if s == [] then []
    else if s[0] == x then s[1..]
    else [s[0]] + RemoveFirst(s[1..], x)
  }

  /** Removing from position `i`, when `i` holds the first match, is `RemoveFirst`. */
  lemma {:induction false} RemoveFirstAt<T>(s: seq<T>, x: T, i: nat)
    requires i < |s| && s[i] == x && x !in s[..i]
    ensures RemoveFirst(s, x) == s[..i] + s[i + 1..]
  {
    if i > 0 {
      assert s[1..][..i - 1] == s[1..i];
      assert x !in s[1..][..i - 1];
      RemoveFirstAt(s[1..], x, i - 1);
      assert s[..i] == [s[0]] + s[1..][..i - 1];
      assert s[i + 1..] == s[1..][i..];
    }
  }

  /** Without a match there is nothing to remove. */
  lemma {:induction false} RemoveFirstAbsent<T>(s: seq<T>, x: T)
    requires x !in s
    ensures RemoveFirst(s, x) == s
  {
    if s != [] {
      assert x !in s[1..];
      RemoveFirstAbsent(s[1..], x);
    }
  }

  /**
   * What `onDisconnect` promises of the list: with a match, exactly the first
   * matching entry is gone and the others keep their relative order; without
   * one, the list is unchanged.
   */
  lemma {:induction false} RemoveFirstSpec<T>(s: seq<T>, x: T)
    ensures x !in s ==> RemoveFirst(s, x) == s
    ensures x in s ==> RemoveFirst(s, x) == s[..FirstIndex(s, x)] + s[FirstIndex(s, x) + 1..]
    ensures multiset(RemoveFirst(s, x)) == multiset(s) - multiset{x}
    ensures |RemoveFirst(s, x)| == if x in s then |s| - 1 else |s|
  {
    if x in s {
      var k := FirstIndex(s, x);
      RemoveFirstAt(s, x, k);
      assert s == s[..k] + [x] + s[k + 1..];
      assert multiset(s) == multiset(s[..k]) + multiset{x} + multiset(s[k + 1..]);
    } else {
      RemoveFirstAbsent(s, x);
      assert multiset(s)[x] == 0;
    }
  }

  /** On a list without duplicates, removing `x` leaves no `x` behind. */
  lemma RemoveFirstNoDup<T>(s: seq<T>, x: T)
    requires NoDup(s)
    ensures NoDup(RemoveFirst(s, x))
    ensures forall y :: y in RemoveFirst(s, x) <==> y in s && y != x
  {
    if x in s {
      var k := FirstIndex(s, x);
      RemoveFirstAt(s, x, k);
      var r := s[..k] + s[k + 1..];
      forall i, j | 0 <= i < j < |r| ensures r[i] != r[j] {
        var i' := if i < k then i else i + 1;
        var j' := if j < k then j else j + 1;
        assert r[i] == s[i'] && r[j] == s[j'];
      }
      forall y ensures y in r <==> y in s && y != x {
        if y in r {
          var i :| 0 <= i < |r| && r[i] == y;
          var i' := if i < k then i else i + 1;
          assert s[i'] == y && i' != k;
        }
        if y in s && y != x {
          var i :| 0 <= i < |s| && s[i] == y;
          assert i != k;
          assert r[if i < k then i else i - 1] == y;
        }
      }
    } else {
      RemoveFirstAbsent(s, x);
    }
  }

  /** On a list without duplicates, an element that is listed is listed exactly once. */
  lemma {:induction false} NoDupCount<T>(s: seq<T>, x: T)
    requires NoDup(s) && x in s
    ensures multiset(s)[x] == 1
    decreases |s|
  {
    if s[0] == x {
      assert x !in s[1..];
      assert s == [s[0]] + s[1..];
    } else {
      NoDupCount(s[1..], x);
      assert s == [s[0]] + s[1..];
    }
  }

  /** Deregistering twice removes no more than deregistering once. */
  lemma DeregisterTwice<T>(s: seq<T>, x: T)
    requires NoDup(s)
    ensures RemoveFirst(RemoveFirst(s, x), x) == RemoveFirst(s, x)
  {
    RemoveFirstNoDup(s, x);
    RemoveFirstAbsent(RemoveFirst(s, x), x);
  }

  /** How the hub's list changes on one event: `onConnect` appends, `onDisconnect` removes the first match. */
  function Step<T(==)>(s: seq<T>, e: Event<T>): seq<T> {
    match e
    case Register(c) => s + [c]
    case Unregister(c) => RemoveFirst(s, c)
  }

  /** The list after the `Run` loop has handled `evs`, in arrival order, starting from `s`. */
  function Apply<T(==)>(s: seq<T>, evs: seq<Event<T>>): seq<T>
    decreases |evs|
  {
    if evs == [] then s else Step(Apply(s, evs[..|evs| - 1]), evs[|evs| - 1])
  }

  /** The handles some event in `evs` registers. */
  function Registered<T>(evs: seq<Event<T>>): set<T>
    decreases |evs|
  {
    if evs == [] then {}
    else Registered(evs[..|evs| - 1]) + (if evs[|evs| - 1].Register? then {evs[|evs| - 1].client} else {})
  }

  /** The handles some event in `evs` deregisters. */
  function Unregistered<T>(evs: seq<Event<T>>): set<T>
    decreases |evs|
  {
    if evs == [] then {}
    else Unregistered(evs[..|evs| - 1]) + (if evs[|evs| - 1].Unregister? then {evs[|evs| - 1].client} else {})
  }

  /**
   * The life of a connection as `WebSocketHandler` produces it: the starting
   * list has no duplicates, every handle is registered at most once and is not
   * already listed, and it is deregistered only after it was registered.
   */
  ghost predicate Lifecycle<T>(s: seq<T>, evs: seq<Event<T>>) {
    && NoDup(s)
    && (forall i :: 0 <= i < |evs| && evs[i].Register? ==> evs[i].client !in s)
    && (forall i, j :: 0 <= i < j < |evs| && evs[i].Register? && evs[j].Register? ==> evs[i].client != evs[j].client)
    && (forall i, j ::
          (0 <= i < |evs| && 0 <= j < |evs| && evs[i].Unregister? && evs[j].Register? && evs[i].client == evs[j].client)
          ==> j < i)
  }

  /**
   * Registry membership is registrations minus deregistrations: under
   * `Lifecycle`, the list after the events has no duplicates and holds exactly
   * the handles that were listed or registered and have not been deregistered.
   */
  lemma {:induction false} ApplyMembership<T>(s: seq<T>, evs: seq<Event<T>>)
    requires Lifecycle(s, evs)
    ensures NoDup(Apply(s, evs))
    ensures forall x :: x in Apply(s, evs) <==> (x in s || x in Registered(evs)) && x !in Unregistered(evs)
    decreases |evs|
  {
    if evs != [] {
      var n := |evs| - 1;
      var init, last := evs[..n], evs[n];
      assert forall i :: 0 <= i < n ==> init[i] == evs[i];
      assert Lifecycle(s, init);
      ApplyMembership(s, init);
      var before := Apply(s, init);
      RegisteredAt(init);
      UnregisteredAt(init);
      match last
      case Register(c) =>
        assert c !in s;
        assert c !in before;
      case Unregister(c) =>
        RemoveFirstNoDup(before, c);
    }
  }

  /** Every handle in `Registered(evs)` comes from a register event. */
  lemma {:induction false} RegisteredAt<T>(evs: seq<Event<T>>)
    ensures forall x :: x in Registered(evs) ==> exists i :: 0 <= i < |evs| && evs[i] == Register(x)
    decreases |evs|
  {
    if evs != [] {
      var n := |evs| - 1;
      RegisteredAt(evs[..n]);
      forall x | x in Registered(evs) ensures exists i :: 0 <= i < |evs| && evs[i] == Register(x) {
        if x in Registered(evs[..n]) {
          var i :| 0 <= i < n && evs[..n][i] == Register(x);
          assert evs[i] == Register(x);
        } else {
          assert evs[n] == Register(x);
        }
      }
    }
  }

  /** Every handle in `Unregistered(evs)` comes from an unregister event. */
  lemma {:induction false} UnregisteredAt<T>(evs: seq<Event<T>>)
    ensures forall x :: x in Unregistered(evs) ==> exists i :: 0 <= i < |evs| && evs[i] == Unregister(x)
    decreases |evs|
  {
    if evs != [] {
      var n := |evs| - 1;
      UnregisteredAt(evs[..n]);
      forall x | x in Unregistered(evs) ensures exists i :: 0 <= i < |evs| && evs[i] == Unregister(x) {
        if x in Unregistered(evs[..n]) {
          var i :| 0 <= i < n && evs[..n][i] == Unregister(x);
          assert evs[i] == Unregister(x);
        } else {
          assert evs[n] == Unregister(x);
        }
      }
    }
  }

  /** Registering a handle and then deregistering it leaves a list that does not hold `c` as it was. */
  lemma RegisterThenUnregister<T>(s: seq<T>, c: T)
    requires c !in s
    ensures Apply(s, [Register(c), Unregister(c)]) == s
  {
    var evs := [Register(c), Unregister(c)];
    assert evs[..1] == [Register(c)];
    assert evs[..1][..0] == [];
    assert Apply(s, evs[..1]) == s + [c];
    RemoveFirstAt(s + [c], c, |s|);
    assert (s + [c])[..|s|] == s;
    assert (s + [c])[|s| + 1..] == [];
  }
}
