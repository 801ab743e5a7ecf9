/** Small shared datatypes used by every module of the model. */
module Base {

  /** The C code's "pointer or NULL" for values that are not object references. */
  datatype Option<+T> = None | Some(value: T)

  /** The outcome of a C loop that may never end: it either finishes with a value,
      or (on the inputs where the C loop spins forever) `Diverges`. */
  datatype Run<+T> = Ends(value: T) | Diverges {
    predicate IsFailure() { Diverges? }
    function PropagateFailure<U>(): Run<U> requires Diverges? { Diverges }
    function Extract(): T requires Ends? { value }
  }

  /** Why an evaluation stopped without a value: a fatal error reported by
      `proc_fatal` or another `exit(1)` (with its message), behaviour the C
      language leaves undefined (a NULL or wrong-variant dereference, signed
      overflow, division by zero), a C loop that never ends, the evaluation
      budget running out, or a builtin outside the model. */
  datatype Fault =
    | Fatal(msg: string)
    | Undefined
    | Spins
    | OutOfFuel
    | Unmodelled(what: string)

  datatype Res<+T> = Ok(value: T) | Err(fault: Fault) {
    predicate IsFailure() { Err? }
    function PropagateFailure<U>(): Res<U> requires Err? { Err(fault) }
    function Extract(): T requires Ok? { value }
  }

  /** The range of the C `int` the interpreter computes with; a result
      outside it is signed overflow. */
  const INT_MIN: int := -0x8000_0000
  const INT_MAX: int := 0x7fff_ffff

  predicate IsInt(x: int)
  {
    INT_MIN <= x <= INT_MAX
  }

  // Arithmetic facts the probe loops need: a probe index advances as
  // `(idx + 1) % cap`, and every slot is reached from every start.

  lemma MulAtLeast(d: int, n: int)
    requires d >= 1 && n > 0
    ensures d * n >= n
  {
    assert d * n == (d - 1) * n + n;
    assert (d - 1) * n >= 0;
  }

  lemma ModUnique(x: int, n: int, q: int, s: int)
    requires n > 0 && 0 <= s < n && x == q * n + s
    ensures x % n == s
  {
    var q1, s1 := x / n, x % n;
    assert x == q1 * n + s1;
    var d := q - q1;
    assert d * n == q * n - q1 * n;
    assert d * n == s1 - s;
    if d >= 1 {
      MulAtLeast(d, n);
    } else if d <= -1 {
      MulAtLeast(-d, n);
    }
  }

  lemma DivMod(a: nat, n: nat) returns (q: int, r: int)
    requires n > 0
    ensures a == q * n + r && r == a % n && 0 <= r < n
  {
    q, r := a / n, a % n;
  }

  lemma ModStep(a: nat, n: nat)
    requires n > 0
    ensures (a % n + 1) % n == (a + 1) % n
  {
    var q, r := DivMod(a, n);
    if r + 1 < n {
      ModUnique(a + 1, n, q, r + 1);
      ModUnique(r + 1, n, 0, r + 1);
    } else {
      assert (q + 1) * n == q * n + n;
      ModUnique(a + 1, n, q + 1, 0);
      ModUnique(r + 1, n, 1, 0);
    }
  }

  /** From any start slot, some number of steps below `n` lands on slot `e`. */
  lemma Cover(start: nat, e: nat, n: nat) returns (k: nat)
    requires start < n && e < n
    ensures k < n && (start + k) % n == e
  {
    if e >= start {
      k := e - start;
    } else {
      k := e + n - start;
      ModUnique(start + k, n, 1, e);
    }
  }
}
