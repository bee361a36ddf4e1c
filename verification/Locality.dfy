/** Running operations on a keyed collection, and why only the operations about a key matter for
    what ends up under it.  Reordering operations about different keys therefore changes nothing. */
module Locality {
  import opened Catalog
  import opened Operations
  import opened Lists

  datatype Outcome<+T> = Fail | Ok(value: T)

  /** What an operation does to the object under its key, which may be absent before and after. */
  type Effect<!V> = (Op, Option<V>) -> Outcome<Option<V>>

  function Get<V>(m: map<string, V>, k: string): Option<V> {
    if k in m then Some(m[k]) else None
  }

  function Put<V>(m: map<string, V>, k: string, v: Option<V>): map<string, V> {
    if v.Some? then m[k := v.value] else m - {k}
  }

  /** One operation: on the object under its key or, if it is for `all`, on every object. */
  ghost function Step<V>(op: Op, m: map<string, V>, at: Op -> string, all: Op -> bool, effect: Effect<V>):
    Outcome<map<string, V>>
  {
    if all(op) then
      Ok(map k | k in m && effect(op, Some(m[k])).Ok? && effect(op, Some(m[k])).value.Some? ::
           effect(op, Some(m[k])).value.value)
    else
      match effect(op, Get(m, at(op)))
      case Fail => Fail
      case Ok(v) => Ok(Put(m, at(op), v))
  }

  ghost function Run<V>(ops: seq<Op>, m: map<string, V>, at: Op -> string, all: Op -> bool, effect: Effect<V>):
    Outcome<map<string, V>>
  {
    if ops == [] then Ok(m) else
    match Run(ops[..|ops| - 1], m, at, all, effect)
    case Fail => Fail
    case Ok(r) => Step(ops[|ops| - 1], r, at, all, effect)
  }

  /** The same on a single object. */
  ghost function RunOne<V>(ops: seq<Op>, v: Option<V>, effect: Effect<V>): Outcome<Option<V>> {
    if ops == [] then Ok(v) else
    match RunOne(ops[..|ops| - 1], v, effect)
    case Fail => Fail
    case Ok(r) => effect(ops[|ops| - 1], r)
  }

  /** Operations for `all` objects cannot fail, create or remove. */
  ghost predicate Tame<V(!new)>(all: Op -> bool, effect: Effect<V>) {
    forall op, v :: all(op) ==>
      && effect(op, v).Ok?
      && (effect(op, v).value.Some? <==> v.Some?)
  }

  function About(at: Op -> string, all: Op -> bool, k: string): Op -> bool {
    (op: Op) => all(op) || at(op) == k
  }

  lemma StepIsLocal<V(!new)>(op: Op, m: map<string, V>, at: Op -> string, all: Op -> bool, effect: Effect<V>, k: string)
    requires Tame(all, effect)
    ensures Step(op, m, at, all, effect).Ok? ==>
      Ok(Get(Step(op, m, at, all, effect).value, k)) ==
        if About(at, all, k)(op) then effect(op, Get(m, k)) else Ok(Get(m, k))
    ensures Step(op, m, at, all, effect).Fail? ==> !all(op) && effect(op, Get(m, at(op))).Fail?
  {
  }

  lemma RunOneSnoc<V>(ops: seq<Op>, op: Op, v: Option<V>, effect: Effect<V>)
    ensures RunOne(ops + [op], v, effect) ==
      if RunOne(ops, v, effect).Fail? then Fail else effect(op, RunOne(ops, v, effect).value)
  {
    assert (ops + [op])[..|ops|] == ops;
  }

  /** If the run succeeds, every object is what the operations about its key make of it. */
  lemma {:induction false} RunIsLocal<V(!new)>(ops: seq<Op>, m: map<string, V>, at: Op -> string, all: Op -> bool,
                                         effect: Effect<V>, k: string)
    requires Tame(all, effect) && Run(ops, m, at, all, effect).Ok?
    ensures RunOne(Filter(ops, About(at, all, k)), Get(m, k), effect) ==
      Ok(Get(Run(ops, m, at, all, effect).value, k))
  {
    if ops != [] {
      var init, op := ops[..|ops| - 1], ops[|ops| - 1];
      RunIsLocal(init, m, at, all, effect, k);
      StepIsLocal(op, Run(init, m, at, all, effect).value, at, all, effect, k);
      RunOneSnoc(Filter(init, About(at, all, k)), op, Get(m, k), effect);
    }
  }

  /** If the operations about each key succeed on their object, the run succeeds. */
  lemma {:induction false} RunSucceeds<V(!new)>(ops: seq<Op>, m: map<string, V>, at: Op -> string, all: Op -> bool,
                                          effect: Effect<V>)
    requires Tame(all, effect)
    requires forall k :: RunOne(Filter(ops, About(at, all, k)), Get(m, k), effect).Ok?
    ensures Run(ops, m, at, all, effect).Ok?
  {
    if ops != [] {
      var init, op := ops[..|ops| - 1], ops[|ops| - 1];
      forall k ensures RunOne(Filter(init, About(at, all, k)), Get(m, k), effect).Ok? {
        RunOneSnoc(Filter(init, About(at, all, k)), op, Get(m, k), effect);
        assert RunOne(Filter(ops, About(at, all, k)), Get(m, k), effect).Ok?;
      }
      RunSucceeds(init, m, at, all, effect);
      var k := at(op);
      RunIsLocal(init, m, at, all, effect, k);
      RunOneSnoc(Filter(init, About(at, all, k)), op, Get(m, k), effect);
      assert RunOne(Filter(ops, About(at, all, k)), Get(m, k), effect).Ok?;
      StepIsLocal(op, Run(init, m, at, all, effect).value, at, all, effect, k);
    }
  }

  lemma SameEntries<V>(x: map<string, V>, y: map<string, V>)
    requires forall k :: Get(x, k) == Get(y, k)
    ensures x == y
  {
    forall k ensures k in x <==> k in y { assert Get(x, k) == Get(y, k); }
    forall k | k in x ensures x[k] == y[k] { assert Get(x, k) == Get(y, k); }
  }

  // ----- lists of operations and single objects

  lemma {:induction false} RunOneConcat<V>(a: seq<Op>, b: seq<Op>, v: Option<V>, effect: Effect<V>)
    ensures RunOne(a + b, v, effect) ==
      if RunOne(a, v, effect).Fail? then Fail else RunOne(b, RunOne(a, v, effect).value, effect)
  {
    if b == [] {
      assert a + b == a;
    } else {
      var init := b[..|b| - 1];
      assert (a + b)[..|a + b| - 1] == a + init;
      RunOneConcat(a, init, v, effect);
    }
  }

  lemma RunOneSingle<V>(op: Op, v: Option<V>, effect: Effect<V>)
    ensures RunOne([op], v, effect) == effect(op, v)
  {
    assert [op][..0] == [];
  }

  lemma RunOneTwo<V>(a: Op, b: Op, v: Option<V>, effect: Effect<V>)
    ensures RunOne([a, b], v, effect) ==
      if effect(a, v).Fail? then Fail else effect(b, effect(a, v).value)
  {
    RunOneSingle(a, v, effect);
    assert [a, b][..1] == [a];
  }
}
