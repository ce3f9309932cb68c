/**
 This module gives a first-class designator of one field of a value type:
 a lens, that is, a getter paired with a copy-producing setter. It stands for
 Swift's `WritableKeyPath<T, V>`, which reads a field with `x[keyPath: k]`
 and writes it in place on a `var` copy with `x[keyPath: k] = v`.
 */
module Lenses {

  /** `get` reads the field; `put(x, v)` is a copy of `x` with the field set to `v`. */
  datatype Lens<!T, !V> = Lens(get: T -> V, put: (T, V) -> T)

  /** Reading the field right after writing it yields the value written. */
  ghost predicate GetAfterSet<T(!new), V(!new)>(l: Lens<T, V>) {
    forall x, v :: l.get(l.put(x, v)) == v
  }

  /** Writing back the value just read changes nothing. */
  ghost predicate SetAfterGet<T(!new), V(!new)>(l: Lens<T, V>) {
    forall x :: l.put(x, l.get(x)) == x
  }

  /** A second write overwrites the first. */
  ghost predicate SetAfterSet<T(!new), V(!new)>(l: Lens<T, V>) {
    forall x, v, w :: l.put(l.put(x, v), w) == l.put(x, w)
  }

  /** The three lens laws. A key path to a plain stored property obeys them;
      a computed property or a property observer (`didSet`) can break them,
      which is why the contracts that rely on them are stated under `Lawful`. */
  ghost predicate Lawful<T(!new), V(!new)>(l: Lens<T, V>) {
    GetAfterSet(l) && SetAfterGet(l) && SetAfterSet(l)
  }

  /** Two lenses designate different fields: a write through either one
      is invisible to the other, and writes through both commute. */
  ghost predicate Independent<T(!new), V(!new), W(!new)>(l: Lens<T, V>, m: Lens<T, W>) {
    && (forall x, v :: m.get(l.put(x, v)) == m.get(x))
    && (forall x, w :: l.get(m.put(x, w)) == l.get(x))
    && (forall x, v, w :: l.put(m.put(x, w), v) == m.put(l.put(x, v), w))
  }

  /** The write `x[keyPath: l] = f(x[keyPath: l])` as one update of the whole value. */
  function Modify<T(!new), V(!new)>(l: Lens<T, V>, x: T, f: V -> V): (r: T)
    ensures Lawful(l) ==> l.get(r) == f(l.get(x))
  {
    l.put(x, f(l.get(x)))
  }

  /** A write through a lawful lens is undone by writing back the old field value:
      the write changed nothing but the designated field. */
  lemma RestoreUndoesSet<T(!new), V(!new)>(l: Lens<T, V>, x: T, v: V)
    requires Lawful(l)
    ensures l.put(l.put(x, v), l.get(x)) == x
  {
    assert l.put(l.put(x, v), l.get(x)) == l.put(x, l.get(x));
  }

  /** Two results of writes through a lawful lens that agree on the field
      agree everywhere when they started from the same value. */
  lemma SetInjective<T(!new), V(!new)>(l: Lens<T, V>, x: T, v: V, w: V)
    requires Lawful(l)
    ensures l.put(x, v) == l.put(x, w) <==> v == w
  {
    if l.put(x, v) == l.put(x, w) {
      assert v == l.get(l.put(x, v));
    }
  }
}
