/** Storage actions and the two executors that apply them inside a transaction:
    the plain one, and the one that also derives inverses for rollback. */
module Actions {
  import opened Prelude
  import opened Bytes

  type Key = Bytes
  type Value = Bytes
  type Store = map<Key, Value>

  datatype Action =
    | Set(key: Key, value: Value)
    | Delete(key: Key)
    | Insert(key: Key, value: Value)
    | IncrementU64(key: Key, d64: u64)
    | DecrementU64(key: Key, d64: u64)
    | IncrementU128(key: Key, d: u128)
    | DecrementU128(key: Key, d: u128)
    | DecrementU128NoDelete(key: Key, d: u128)

  predicate RequiresPrevious(a: Action) {
    !a.Set? && !a.Delete?
  }

  /** What one action does to its key. */
  datatype Effect = Panics | Nothing | Put(value: Value) | Remove

  function Increase(prev: Option<Value>, d: nat, width: nat): Effect {
    if prev.None? then Put(Be(d, width))
    else if |prev.value| < width then Panics
    else Put(Be((FromBe(prev.value[..width]) + d) % Pow256(width), width))
  }

  function Decrease(prev: Option<Value>, d: nat, width: nat, keepZero: bool): Effect {
    if prev.None? then Nothing
    else if |prev.value| < width then Panics
    else
      var n := FromBe(prev.value[..width]);
      if d < n then Put(Be(n - d, width))
      else if keepZero then Put(Be(0, width))
      else Remove
  }

  predicate ZeroDelta(a: Action) {
    match a
    case IncrementU64(_, d) => d == 0
    case DecrementU64(_, d) => d == 0
    case IncrementU128(_, d) => d == 0
    case DecrementU128(_, d) => d == 0
    case DecrementU128NoDelete(_, d) => d == 0
    case _ => false
  }

  /** The effect given the key's previous value, a zero delta included. */
  function Meaning(a: Action, prev: Option<Value>): Effect {
    match a
    case Set(_, v) => Put(v)
    case Delete(_) => Remove
    case Insert(_, v) => if prev.Some? then Nothing else Put(v)
    case IncrementU64(_, d) => Increase(prev, d, 8)
    case DecrementU64(_, d) => Decrease(prev, d, 8, false)
    case IncrementU128(_, d) => Increase(prev, d, 16)
    case DecrementU128(_, d) => Decrease(prev, d, 16, false)
    case DecrementU128NoDelete(_, d) => Decrease(prev, d, 16, true)
  }

  /** The plain executor skips zero deltas. */
  function PlainEffect(a: Action, prev: Option<Value>): Effect {
    if ZeroDelta(a) then Nothing else Meaning(a, prev)
  }

  /** The inverse executor skips writes that change nothing. */
  function InverseEffect(a: Action, prev: Option<Value>): Effect {
    match a
    case Set(_, v) => if prev == Some(v) then Nothing else Put(v)
    case Delete(_) => if prev.None? then Nothing else Remove
    case _ => Meaning(a, prev)
  }

  /** The action that takes an effect back. */
  function Inverse(a: Action, prev: Option<Value>): Option<Action> {
    if InverseEffect(a, prev).Nothing? then None
    else if prev.Some? then Some(Set(a.key, prev.value))
    else Some(Delete(a.key))
  }

  function Lookup(s: Store, k: Key): Option<Value> {
    if k in s then Some(s[k]) else None
  }

  function Perform(s: Store, k: Key, e: Effect): Store
    requires !e.Panics?
  {
    match e
    case Nothing => s
    case Put(v) => s[k := v]
    case Remove => s - {k}
  }

  // ----- transactions -----

  /** Keys fetched before a batch runs. */
  function Fetch(s: Store, actions: seq<Action>, all: bool): Store {
    map a | a in actions && (all || RequiresPrevious(a)) && a.key in s :: a.key := s[a.key]
  }

  /** The map of fetched values after one action: a value is used once. */
  function Used(kv: Store, a: Action): Store {
    if RequiresPrevious(a) && !ZeroDelta(a) then kv - {a.key} else kv
  }

  function ExecuteAll(s: Store, kv: Store, actions: seq<Action>): Option<Store>
    decreases |actions|
  {
    if actions == [] then Some(s)
    else
      var a := actions[0];
      var e := PlainEffect(a, Lookup(kv, a.key));
      if e.Panics? then None
      else ExecuteAll(Perform(s, a.key, e), Used(kv, a), actions[1..])
  }

  datatype Undoable = Undoable(store: Store, inverses: seq<Action>)

  function ExecuteInverse(s: Store, kv: Store, actions: seq<Action>): Option<Undoable>
    decreases |actions|
  {
    if actions == [] then Some(Undoable(s, []))
    else
      var a := actions[0];
      var prev := Lookup(kv, a.key);
      var e := InverseEffect(a, prev);
      if e.Panics? then None
      else
        match ExecuteInverse(Perform(s, a.key, e), kv - {a.key}, actions[1..])
        case None => None
        case Some(u) =>
          var i := Inverse(a, prev);
          Some(Undoable(u.store, if i.Some? then [i.value] + u.inverses else u.inverses))
  }

  /** One transaction of the plain executor. */
  function Batch(s: Store, actions: seq<Action>): Option<Store> {
    ExecuteAll(s, Fetch(s, actions, false), actions)
  }

  /** One transaction of the inverse executor. */
  function BatchInverse(s: Store, actions: seq<Action>): Option<Undoable> {
    ExecuteInverse(s, Fetch(s, actions, true), actions)
  }

  // ----- distinct keys -----

  function Keys(actions: seq<Action>): (r: seq<Key>)
    ensures |r| == |actions|
    ensures forall i :: 0 <= i < |r| ==> r[i] == actions[i].key
  {
    seq(|actions|, i requires 0 <= i < |actions| => actions[i].key)
  }

  lemma KeysHead(actions: seq<Action>)
    requires actions != []
    ensures Keys(actions) == [actions[0].key] + Keys(actions[1..])
    ensures NoDup(Keys(actions)) ==> NoDup(Keys(actions[1..])) && forall a <- actions[1..] :: a.key != actions[0].key
  {
    assert Keys(actions) == [actions[0].key] + Keys(actions[1..]);
    NoDupConcat([actions[0].key], Keys(actions[1..]));
    if NoDup(Keys(actions)) {
      forall a | a in actions[1..] ensures a.key != actions[0].key {
        var i :| 0 <= i < |actions[1..]| && actions[1..][i] == a;
        assert Keys(actions[1..])[i] == a.key;
        assert actions[0].key in [actions[0].key];
      }
    }
  }

  /** The fetched values are current for these actions. */
  ghost predicate Current(s: Store, kv: Store, actions: seq<Action>, all: bool) {
    forall a <- actions :: all || RequiresPrevious(a) ==> Lookup(kv, a.key) == Lookup(s, a.key)
  }

  lemma FetchCurrent(s: Store, actions: seq<Action>, all: bool)
    ensures Current(s, Fetch(s, actions, all), actions, all)
  {
    var kv := Fetch(s, actions, all);
    forall a | a in actions && (all || RequiresPrevious(a)) ensures Lookup(kv, a.key) == Lookup(s, a.key) {
      if a.key in s {
        assert a.key in kv;
      }
    }
  }

  /** Value of a key after the action on it. */
  function Outcome(e: Effect, prev: Option<Value>): Option<Value>
    requires !e.Panics?
  {
    match e
    case Nothing => prev
    case Put(v) => Some(v)
    case Remove => None
  }

  /** `t` is `s` with every action's effect on its own key. */
  ghost predicate Pointwise(s: Store, t: Store, actions: seq<Action>, plain: bool) {
    && (forall a <- actions ::
          var e := if plain then PlainEffect(a, Lookup(s, a.key)) else InverseEffect(a, Lookup(s, a.key));
          !e.Panics? && Lookup(t, a.key) == Outcome(e, Lookup(s, a.key)))
    && (forall k :: k !in Keys(actions) ==> Lookup(t, k) == Lookup(s, k))
  }

  // ----- exact undo -----

  function Reverse<T>(s: seq<T>): (r: seq<T>)
    ensures |r| == |s|
    ensures forall i :: 0 <= i < |s| ==> r[i] == s[|s| - 1 - i]
  {
    if s == [] then [] else Reverse(s[1..]) + [s[0]]
  }

  lemma ReversePush<T>(l: seq<T>, x: T)
    ensures Reverse(l + [x]) == [x] + Reverse(l)
  {
  }

  lemma ReverseCut<T>(l: seq<T>, d: nat)
    requires d <= |l|
    ensures Reverse(l[d..]) == Reverse(l)[..|l| - d]
    ensures Reverse(l[..d]) == Reverse(l)[|l| - d..]
  {
    SplitAt(l, d);
    ReverseConcat(l[..d], l[d..]);
    hide Reverse;
    assert Reverse(l) == Reverse(l[d..]) + Reverse(l[..d]);
  }

  lemma {:induction false} ReverseConcat<T>(a: seq<T>, b: seq<T>)
    ensures Reverse(a + b) == Reverse(b) + Reverse(a)
  {
    if a == [] {
      assert a + b == b;
    } else {
      assert (a + b)[1..] == a[1..] + b;
      ReverseConcat(a[1..], b);
    }
  }

  /** Actions that write a fixed result: what rollbacks consist of. */
  ghost predicate Absolute(actions: seq<Action>) {
    forall a <- actions :: a.Set? || a.Delete?
  }

  /** Absolute actions always succeed and need nothing fetched. */
  function WriteAll(s: Store, actions: seq<Action>): Store
    decreases |actions|
  {
    if actions == [] then s else WriteAll(Written(s, actions[0]), actions[1..])
  }

  function Written(s: Store, a: Action): Store {
    if a.Set? then s[a.key := a.value] else s - {a.key}
  }

  lemma {:induction false} AbsoluteExecutes(s: Store, kv: Store, actions: seq<Action>)
    requires Absolute(actions)
    ensures ExecuteAll(s, kv, actions) == Some(WriteAll(s, actions))
    decreases |actions|
  {
    if actions != [] {
      assert actions[0] in actions;
      var e := PlainEffect(actions[0], Lookup(kv, actions[0].key));
      AbsoluteExecutes(Perform(s, actions[0].key, e), Used(kv, actions[0]), actions[1..]);
    }
  }

  lemma {:induction false} WriteAllConcat(s: Store, a: seq<Action>, b: seq<Action>)
    ensures WriteAll(s, a + b) == WriteAll(WriteAll(s, a), b)
    decreases |a|
  {
    if a == [] {
      assert a + b == b;
    } else {
      assert (a + b)[1..] == a[1..] + b;
      WriteAllConcat(Written(s, a[0]), a[1..], b);
    }
  }

  lemma InverseUndoes(s: Store, a: Action)
    requires var e := InverseEffect(a, Lookup(s, a.key)); !e.Panics?
    ensures var e := InverseEffect(a, Lookup(s, a.key));
      var i := Inverse(a, Lookup(s, a.key));
      WriteAll(Perform(s, a.key, e), if i.Some? then [i.value] else []) == s
    ensures var i := Inverse(a, Lookup(s, a.key)); i.Some? ==> i.value.Set? || i.value.Delete?
  {
    var e := InverseEffect(a, Lookup(s, a.key));
    var i := Inverse(a, Lookup(s, a.key));
    if i.Some? {
      assert [i.value][1..] == [];
      if a.key in s {
        assert Perform(s, a.key, e)[a.key := s[a.key]] == s;
      } else {
        assert Perform(s, a.key, e) - {a.key} == s;
      }
    }
  }

  /** Applying the inverses in reverse order restores the store byte for byte. */
  lemma {:induction false} InversesUndo(s: Store, kv: Store, actions: seq<Action>)
    requires NoDup(Keys(actions)) && Current(s, kv, actions, true)
    requires ExecuteInverse(s, kv, actions).Some?
    ensures var u := ExecuteInverse(s, kv, actions).value;
      Absolute(u.inverses) && Absolute(Reverse(u.inverses)) && WriteAll(u.store, Reverse(u.inverses)) == s
    decreases |actions|
  {
    hide InverseEffect, Inverse, Keys, Perform;
    if actions != [] {
      var a := actions[0];
      var prev := Lookup(kv, a.key);
      StepFetched(s, kv, actions);
      var s1 := Perform(s, a.key, InverseEffect(a, prev));
      InversesUndo(s1, kv - {a.key}, actions[1..]);
      InverseUndoes(s, a);
      var u := ExecuteInverse(s, kv, actions).value;
      var rest := ExecuteInverse(s1, kv - {a.key}, actions[1..]).value.inverses;
      if Inverse(a, prev).Some? {
        var i := Inverse(a, prev).value;
        assert u.inverses[1..] == rest;
        WriteAllConcat(u.store, Reverse(rest), [i]);
      }
    }
  }

  /** A batch on distinct keys is undone exactly by one plain transaction of its
      inverses in reverse order. */
  lemma BatchUndone(s: Store, actions: seq<Action>)
    requires NoDup(Keys(actions)) && BatchInverse(s, actions).Some?
    ensures var u := BatchInverse(s, actions).value;
      Absolute(u.inverses) && Batch(u.store, Reverse(u.inverses)) == Some(s)
  {
    var u := BatchInverse(s, actions).value;
    FetchCurrent(s, actions, true);
    InversesUndo(s, Fetch(s, actions, true), actions);
    AbsoluteExecutes(u.store, Fetch(u.store, Reverse(u.inverses), false), Reverse(u.inverses));
  }

  // ----- the meaning of a batch on distinct keys -----

  lemma EffectFetched(s: Store, kv: Store, a: Action)
    requires RequiresPrevious(a) ==> Lookup(kv, a.key) == Lookup(s, a.key)
    ensures PlainEffect(a, Lookup(kv, a.key)) == PlainEffect(a, Lookup(s, a.key))
  {
  }

  /** The first action of a batch does not touch what the others need. */
  lemma StepCurrent(s: Store, kv: Store, actions: seq<Action>)
    requires actions != [] && NoDup(Keys(actions)) && Current(s, kv, actions, false)
    ensures PlainEffect(actions[0], Lookup(kv, actions[0].key)) == PlainEffect(actions[0], Lookup(s, actions[0].key))
    ensures NoDup(Keys(actions[1..]))
    ensures var e := PlainEffect(actions[0], Lookup(kv, actions[0].key));
      !e.Panics? ==>
        && Current(Perform(s, actions[0].key, e), Used(kv, actions[0]), actions[1..], false)
        && forall b <- actions[1..] :: Lookup(Perform(s, actions[0].key, e), b.key) == Lookup(s, b.key)
  {
    var a := actions[0];
    assert a in actions;
    EffectFetched(s, kv, a);
    KeysHead(actions);
    hide PlainEffect;
  }

  lemma {:induction false} ExecutePointwise(s: Store, kv: Store, actions: seq<Action>)
    requires NoDup(Keys(actions)) && Current(s, kv, actions, false)
    requires ExecuteAll(s, kv, actions).Some?
    ensures Pointwise(s, ExecuteAll(s, kv, actions).value, actions, true)
    decreases |actions|
  {
    hide PlainEffect;
    if actions != [] {
      var a := actions[0];
      var s1 := Perform(s, a.key, PlainEffect(a, Lookup(kv, a.key)));
      StepCurrent(s, kv, actions);
      ExecutePointwise(s1, Used(kv, a), actions[1..]);
      PointwiseHead(s, s1, ExecuteAll(s, kv, actions).value, actions, true);
    }
  }

  lemma PointwiseHead(s: Store, s1: Store, t: Store, actions: seq<Action>, plain: bool)
    requires actions != [] && NoDup(Keys(actions))
    requires var a := actions[0];
      var e := if plain then PlainEffect(a, Lookup(s, a.key)) else InverseEffect(a, Lookup(s, a.key));
      !e.Panics? && s1 == Perform(s, a.key, e)
    requires Pointwise(s1, t, actions[1..], plain)
    ensures Pointwise(s, t, actions, plain)
  {
    KeysHead(actions);
    var k := actions[0].key;
    assert forall j :: j != k ==> Lookup(s1, j) == Lookup(s, j);
    forall a | a in actions
      ensures var e := if plain then PlainEffect(a, Lookup(s, a.key)) else InverseEffect(a, Lookup(s, a.key));
        !e.Panics? && Lookup(t, a.key) == Outcome(e, Lookup(s, a.key))
    {
      if a != actions[0] {
        assert a in actions[1..];
      } else {
        KeyNotIn(actions[1..], k);
      }
    }
  }

  lemma KeyNotIn(actions: seq<Action>, k: Key)
    requires forall a <- actions :: a.key != k
    ensures k !in Keys(actions)
  {
  }

  lemma StepFetched(s: Store, kv: Store, actions: seq<Action>)
    requires actions != [] && NoDup(Keys(actions)) && Current(s, kv, actions, true)
    ensures Lookup(kv, actions[0].key) == Lookup(s, actions[0].key) && NoDup(Keys(actions[1..]))
    ensures var e := InverseEffect(actions[0], Lookup(kv, actions[0].key));
      !e.Panics? ==> Current(Perform(s, actions[0].key, e), kv - {actions[0].key}, actions[1..], true)
  {
    hide InverseEffect, Keys;
    assert actions[0] in actions;
    KeysHead(actions);
    var k, e := actions[0].key, InverseEffect(actions[0], Lookup(kv, actions[0].key));
    if !e.Panics? {
      forall b | b in actions[1..] ensures Lookup(kv - {k}, b.key) == Lookup(Perform(s, k, e), b.key) {
        assert b in actions;
        PerformElsewhere(s, k, e, b.key);
      }
    }
  }

  lemma PerformElsewhere(s: Store, k: Key, e: Effect, j: Key)
    requires !e.Panics? && j != k
    ensures Lookup(Perform(s, k, e), j) == Lookup(s, j)
  {
  }

  lemma {:induction false} InversePointwise(s: Store, kv: Store, actions: seq<Action>)
    requires NoDup(Keys(actions)) && Current(s, kv, actions, true)
    requires ExecuteInverse(s, kv, actions).Some?
    ensures Pointwise(s, ExecuteInverse(s, kv, actions).value.store, actions, false)
    decreases |actions|
  {
    hide InverseEffect, Inverse;
    if actions != [] {
      var a := actions[0];
      var s1 := Perform(s, a.key, InverseEffect(a, Lookup(kv, a.key)));
      StepFetched(s, kv, actions);
      InversePointwise(s1, kv - {a.key}, actions[1..]);
      PointwiseHead(s, s1, ExecuteInverse(s, kv, actions).value.store, actions, false);
    }
  }

  /** The store a batch leaves depends on the set of its actions only. */
  lemma PointwiseUnique(s: Store, t: Store, u: Store, a: seq<Action>, b: seq<Action>, plain: bool)
    requires Pointwise(s, t, a, plain) && Pointwise(s, u, b, plain)
    requires multiset(a) == multiset(b)
    ensures t == u
  {
    forall k ensures Lookup(t, k) == Lookup(u, k) {
      if k in Keys(a) {
        var i :| 0 <= i < |a| && Keys(a)[i] == k;
        assert a[i] in multiset(a);
        assert a[i] in b;
      } else {
        KeysOfPermutation(a, b, k);
      }
    }
    forall k ensures (k in t <==> k in u) && (k in t ==> t[k] == u[k]) {
      assert Lookup(t, k) == Lookup(u, k);
    }
  }

  lemma KeysOfPermutation(a: seq<Action>, b: seq<Action>, k: Key)
    requires multiset(a) == multiset(b) && k !in Keys(a)
    ensures k !in Keys(b)
  {
    forall i | 0 <= i < |b| ensures Keys(b)[i] != k {
      assert b[i] in multiset(b);
      assert b[i] in a;
      var j :| 0 <= j < |a| && a[j] == b[i];
      assert Keys(a)[j] == b[i].key;
    }
  }
}
