/**
 The `Configurable<T>` wrapper and the postfix `/` that builds it.

 Every operation copies the wrapped value, changes the copy and returns it.
 For a type with value semantics throughout (every stored property is itself
 a value type, as in the tests' `Starship`) that makes each one a pure
 function of the wrapped value and its input, which is what this module
 models. A class, or a struct holding a class reference, is copied by
 reference, and the copy shares state with the wrapped value. Swift's
 two `dynamicMember` subscripts return closures `(V) -> T` and
 `((V) -> V) -> T`; here they are the uncurried `Setter` and `Mapper`,
 whose last argument is the closure's argument.
 */
module SlashConfig {
  import opened Lenses

  /** The wrapper: it holds exactly one value, a `let`, which for a type with
      value semantics throughout no operation can change. */
  datatype Configurable<T> = Configurable(value: T)

  /** The postfix `/`: wraps a value as it is. */
  function Wrap<T(!new)>(x: T): (c: Configurable<T>)
    ensures c.value == x
  {
    Configurable(x)
  }

  /** The setter subscript: a copy of the wrapped value with the field that
      `l` designates set to `v`. */
  function Setter<T(!new), V(!new)>(c: Configurable<T>, l: Lens<T, V>, v: V): (r: T)
    ensures Lawful(l) ==> l.get(r) == v
    ensures Lawful(l) ==> l.put(r, l.get(c.value)) == c.value
  {
    l.put(c.value, v)
  }

  /** The mapper subscript: a copy of the wrapped value whose designated field
      holds `f` applied to that field's value before the write. */
  function Mapper<T(!new), V(!new)>(c: Configurable<T>, l: Lens<T, V>, f: V -> V): (r: T)
    ensures Lawful(l) ==> l.get(r) == f(l.get(c.value))
    ensures Lawful(l) ==> l.put(r, l.get(c.value)) == c.value
  {
    Modify(l, c.value, f)
  }

  /** `callAsFunction`: runs the in-place transform on a copy of the wrapped
      value and returns the copy. An `inout T` closure returning nothing is
      the function from the copy before the call to the copy after it. */
  function CallAsFunction<T(!new)>(c: Configurable<T>, transform: T -> T): (r: T)
    ensures r == transform(c.value)
  {
    transform(c.value)
  }

  /** `configure`: the same operation under a name that reads well in a chain. */
  function Configure<T(!new)>(c: Configurable<T>, transform: T -> T): (r: T)
    ensures r == transform(c.value)
  {
    CallAsFunction(c, transform)
  }

  /** The two spellings of the whole-value transform agree on every transform. */
  lemma CallAsFunctionIsConfigure<T(!new)>(c: Configurable<T>, transform: T -> T)
    ensures CallAsFunction(c, transform) == Configure(c, transform)
  {
  }

  /** The setter leaves every field designated by an independent lens as it was. */
  lemma SetterIsolation<T(!new), V(!new), W(!new)>(c: Configurable<T>, l: Lens<T, V>, m: Lens<T, W>, v: V)
    requires Independent(l, m)
    ensures m.get(Setter(c, l, v)) == m.get(c.value)
  {
  }

  /** The mapper leaves every field designated by an independent lens as it was. */
  lemma MapperIsolation<T(!new), V(!new), W(!new)>(c: Configurable<T>, l: Lens<T, V>, m: Lens<T, W>, f: V -> V)
    requires Independent(l, m)
    ensures m.get(Mapper(c, l, f)) == m.get(c.value)
  {
  }

  /** The mapper with the identity gives back the wrapped value. */
  lemma MapperIdentity<T(!new), V(!new)>(c: Configurable<T>, l: Lens<T, V>)
    requires Lawful(l)
    ensures Mapper(c, l, v => v) == c.value
  {
  }

  /** The mapper with a constant function is the setter with that constant. */
  lemma MapperConstantIsSetter<T(!new), V(!new)>(c: Configurable<T>, l: Lens<T, V>, v: V)
    ensures Mapper(c, l, _ => v) == Setter(c, l, v)
  {
  }

  /** Two mappers on the same field, re-wrapping in between, are one mapper
      with the composed function. */
  lemma MapperComposes<T(!new), V(!new)>(c: Configurable<T>, l: Lens<T, V>, f: V -> V, g: V -> V)
    requires Lawful(l)
    ensures Mapper(Wrap(Mapper(c, l, f)), l, g) == Mapper(c, l, v => g(f(v)))
  {
  }

  /** A second setter on the same field, after re-wrapping, overwrites the first. */
  lemma SetterOverwrites<T(!new), V(!new)>(c: Configurable<T>, l: Lens<T, V>, v: V, w: V)
    requires Lawful(l)
    ensures Setter(Wrap(Setter(c, l, v)), l, w) == Setter(c, l, w)
  {
  }

  /** Setters on independent fields, re-wrapping in between, give the same value
      in either order, and the same value as one transform assigning both fields. */
  lemma SettersCommute<T(!new), V(!new), W(!new)>(c: Configurable<T>, l: Lens<T, V>, m: Lens<T, W>, v: V, w: W)
    requires Independent(l, m)
    ensures Setter(Wrap(Setter(c, l, v)), m, w) == Setter(Wrap(Setter(c, m, w)), l, v)
    ensures Setter(Wrap(Setter(c, l, v)), m, w) == Configure(c, x => m.put(l.put(x, v), w))
  {
  }

  /** The whole-value transform subsumes both subscripts: a transform that
      assigns one field does what the setter does, and one that assigns the
      field from its old value does what the mapper does. */
  lemma ConfigureSubsumesSubscripts<T(!new), V(!new)>(c: Configurable<T>, l: Lens<T, V>, v: V, f: V -> V)
    ensures Configure(c, x => l.put(x, v)) == Setter(c, l, v)
    ensures Configure(c, x => Modify(l, x, f)) == Mapper(c, l, f)
  {
  }

  // ----- Chains: `x/ .a(...)/ .b(...)/ ...` -----

  /** One link of a chain as the update it makes to the value it is given. */
  function SetterStep<T(!new), V(!new)>(l: Lens<T, V>, v: V): (step: T -> T)
    ensures Lawful(l) ==> forall x :: l.get(step(x)) == v
  {
    x => Setter(Wrap(x), l, v)
  }

  function MapperStep<T(!new), V(!new)>(l: Lens<T, V>, f: V -> V): (step: T -> T)
    ensures Lawful(l) ==> forall x :: l.get(step(x)) == f(l.get(x))
  {
    x => Mapper(Wrap(x), l, f)
  }

  /** A chain: each link is applied to the previous link's result, which the
      link re-wraps with `/` before it updates it. */
  function Run<T(!new)>(x: T, steps: seq<T -> T>): (r: T)
    ensures |steps| == 0 ==> r == x
    ensures |steps| == 1 ==> r == steps[0](x)
    decreases |steps|
  {
    if |steps| == 0 then x else Run(steps[0](x), steps[1..])
  }

  /** A chain split in two is the second part run on the first part's result. */
  lemma {:induction false} RunAppend<T(!new)>(x: T, a: seq<T -> T>, b: seq<T -> T>)
    ensures Run(x, a + b) == Run(Run(x, a), b)
    decreases |a|
  {
    if |a| == 0 {
      assert a + b == b;
    } else {
      assert (a + b)[1..] == a[1..] + b;
      RunAppend(a[0](x), a[1..], b);
    }
  }

  /** A chain ending in `step` is that step applied to the rest of the chain's result. */
  lemma RunSnoc<T(!new)>(x: T, steps: seq<T -> T>, step: T -> T)
    ensures Run(x, steps + [step]) == step(Run(x, steps))
  {
    RunAppend(x, steps, [step]);
  }

  /** A field that no link of a chain touches reads the same at the end. */
  lemma {:induction false} RunPreservesField<T(!new), W(!new)>(x: T, steps: seq<T -> T>, m: Lens<T, W>)
    requires forall i, y :: 0 <= i < |steps| ==> m.get(steps[i](y)) == m.get(y)
    ensures m.get(Run(x, steps)) == m.get(x)
    decreases |steps|
  {
    if |steps| > 0 {
      RunPreservesField(steps[0](x), steps[1..], m);
    }
  }

  /** The last setter of a chain on a lawful field decides that field's value. */
  lemma LastSetterWins<T(!new), V(!new)>(x: T, steps: seq<T -> T>, l: Lens<T, V>, v: V)
    requires Lawful(l)
    ensures l.get(Run(x, steps + [SetterStep(l, v)])) == v
  {
    RunSnoc(x, steps, SetterStep(l, v));
  }

  /** A setter link leaves fields of independent lenses alone, so it may sit in a
      chain that must preserve them. */
  lemma SetterStepPreserves<T(!new), V(!new), W(!new)>(l: Lens<T, V>, v: V, m: Lens<T, W>, y: T)
    requires Independent(l, m)
    ensures m.get(SetterStep(l, v)(y)) == m.get(y)
  {
  }
}
