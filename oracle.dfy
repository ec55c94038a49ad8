/**
 * The `random` module the engine draws from, replaced by an explicit oracle.
 *
 * Every call the source makes into `random` consumes one or more values of a
 * single stream of reals in [0, 1). For `random.random()` a value is the
 * number returned; for `random.choice`, `random.choices` and `random.sample`,
 * which CPython draws through `_randbelow` and `getrandbits`, it is an
 * abstract draw that the model maps to an index.
 * A function that draws takes the stream and the position of its next draw,
 * and returns its value together with the position after its last draw, so
 * the properties proved hold for every stream.
 */
module Oracle {

  /** One draw: a real in [0, 1). */
  type Unit = u: real | 0.0 <= u < 1.0 witness 0.0

  /** The stream of draws: `rng(k)` is the k-th value the program draws. */
  type Rng = nat -> Unit

  /** A value computed from the stream and the position of the next unused draw. */
  datatype Drawn<T> = Drawn(value: T, next: nat)

  /** The index in [0, n) that `random.choice` of an n-element list takes for draw u. */
  function Pick(u: Unit, n: nat): (i: nat)
    requires n > 0
    ensures i < n
    ensures i as real <= u * n as real < i as real + 1.0
  {
    assert 0.0 <= u * n as real < n as real by {
      assert u * n as real <= 1.0 * n as real;
    }
    (u * n as real).Floor as nat
  }

  /** Every index of an n-element list is chosen by some draw. */
  lemma PickReaches(i: nat, n: nat)
    requires i < n
    ensures exists u: Unit :: Pick(u, n) == i
  {
    var u: Unit := (i as real) / (n as real);
    assert u * n as real == i as real;
    assert Pick(u, n) == i;
  }
}
