/**
 * The escape-time loop `mandel`: iterate z := z*z + c from z = c and report the
 * first iteration at which |z|^2 exceeds 4.
 *
 * The source computes in double precision; here the components are Dafny
 * `real`s, exact arithmetic. The facts proved about the loop's control flow do
 * not depend on the arithmetic; the concrete examples at the end do.
 */
module Escape {
  import opened Wrappers

  /** A point of the complex plane, and an iterate of the recurrence. */
  datatype Complex = Complex(re: real, im: real)

  /** `mandel` called with `maxiter <= 0` runs no iteration and returns the never-bound loop variable. */
  datatype MandelError = UnboundLoopVariable

  /** The escape test: squared magnitude above 4. */
  predicate Escaped(z: Complex)
  {
    z.re * z.re + z.im * z.im > 4.0
  }

  /** One step of the recurrence, with the imaginary part updated from the old real part. */
  function Step(z: Complex, c: Complex): Complex
  {
    var real2, imag2 := z.re * z.re, z.im * z.im;
    Complex(real2 - imag2 + c.re, 2.0 * z.re * z.im + c.im)
  }

  /** The iterate the loop tests in iteration n: z_0 = c and z_{n+1} = Step(z_n, c). */
  function Orbit(c: Complex, n: nat): Complex
  {
    if n == 0 then c else Step(Orbit(c, n - 1), c)
  }

  /**
   * The loop's answer when it starts looking at iteration n, for a given
   * escape outcome per iteration: the first escape, or the last iteration.
   */
  function FirstEscape(escapes: nat -> bool, n: nat, maxiter: nat): (r: nat)
    requires n < maxiter
    ensures n <= r < maxiter
    ensures forall j :: n <= j < r ==> !escapes(j)
    ensures escapes(r) || r == maxiter - 1
    decreases maxiter - n
  {
    if escapes(n) then n
    else if n + 1 == maxiter then n
    else FirstEscape(escapes, n + 1, maxiter)
  }

  /** Whether the iterate tested in iteration k escapes, for each k. */
  function EscapesAt(c: Complex): nat -> bool
  {
    (k: nat) => Escaped(Orbit(c, k))
  }

  /** The value `mandel(c.re, c.im, maxiter)` returns, or the error it raises. */
  function EscapeTime(c: Complex, maxiter: int): (r: Result<nat, MandelError>)
    ensures r.Ok? <==> maxiter >= 1
  {
    if maxiter <= 0 then Err(UnboundLoopVariable) else Ok(FirstEscape(EscapesAt(c), 0, maxiter))
  }

  /** The first-escape search is determined by its contract: any n meeting it is the answer. */
  lemma FirstEscapeUnique(escapes: nat -> bool, maxiter: nat, n: nat)
    requires n < maxiter
    requires forall j :: 0 <= j < n ==> !escapes(j)
    requires escapes(n) || n == maxiter - 1
    ensures FirstEscape(escapes, 0, maxiter) == n
  {
  }

  /**
   * The result of `mandel` is the first iteration whose iterate escapes, when
   * one below `maxiter` does, and `maxiter - 1` otherwise; both directions.
   */
  lemma EscapeTimeCharacterized(c: Complex, maxiter: int, n: int)
    ensures EscapeTime(c, maxiter) == Ok(n) <==>
      0 <= n < maxiter
      && (forall j :: 0 <= j < n ==> !EscapesAt(c)(j))
      && (EscapesAt(c)(n) || n == maxiter - 1)
  {
    if 0 <= n < maxiter
      && (forall j :: 0 <= j < n ==> !EscapesAt(c)(j))
      && (EscapesAt(c)(n) || n == maxiter - 1)
    {
      FirstEscapeUnique(EscapesAt(c), maxiter, n);
    }
  }

  /** A point that never escapes gets `maxiter - 1`, never `maxiter`: the result always lies in [0, maxiter - 1]. */
  lemma NeverEscapingGetsLastIteration(c: Complex, maxiter: int)
    requires maxiter >= 1
    requires forall j :: 0 <= j < maxiter ==> !EscapesAt(c)(j)
    ensures EscapeTime(c, maxiter) == Ok(maxiter - 1)
  {
    EscapeTimeCharacterized(c, maxiter, maxiter - 1);
  }

  /** `mandel`, line by line: Python's `for n in range(maxiter)` binds `n` only when the loop runs. */
  method Mandel(creal: real, cimag: real, maxiter: int) returns (r: Result<nat, MandelError>)
    ensures r == EscapeTime(Complex(creal, cimag), maxiter)
  {
    var c := Complex(creal, cimag);
    var z := c;
    var bound := false;
    var n := 0;
    var k := 0;
    while k < maxiter
      invariant 0 <= k && (k == 0 || k <= maxiter)
      invariant z == Orbit(c, k)
      invariant forall j :: 0 <= j < k ==> !EscapesAt(c)(j)
      invariant bound <==> k > 0
      invariant bound ==> n == k - 1
    {
      n, bound := k, true;
      if Escaped(z) {
        EscapeTimeCharacterized(c, maxiter, n);
        return Ok(n);
      }
      z := Step(z, c);
      k := k + 1;
    }
    if !bound {
      return Err(UnboundLoopVariable);
    }
    EscapeTimeCharacterized(c, maxiter, n);
    return Ok(n);
  }

  // ---------------------------------------------------------------------------
  // Examples

  /** The origin is a fixed point of the recurrence: its orbit stays at 0. */
  lemma {:induction false} OriginIsFixed(n: nat)
    ensures Orbit(Complex(0.0, 0.0), n) == Complex(0.0, 0.0)
  {
    if n > 0 {
      OriginIsFixed(n - 1);
    }
  }

  /** The origin lies in the set: with 100 iterations `mandel` returns 99. */
  lemma OriginNeverEscapes()
    ensures EscapeTime(Complex(0.0, 0.0), 100) == Ok(99)
  {
    forall j | 0 <= j < 100
      ensures !Escaped(Orbit(Complex(0.0, 0.0), j))
    {
      OriginIsFixed(j);
    }
    NeverEscapingGetsLastIteration(Complex(0.0, 0.0), 100);
  }

  /** 2 + 2i escapes before the first step. */
  lemma FarPointEscapesAtOnce(maxiter: int)
    requires maxiter >= 1
    ensures EscapeTime(Complex(2.0, 2.0), maxiter) == Ok(0)
  {
    EscapeTimeCharacterized(Complex(2.0, 2.0), maxiter, 0);
  }

  // The orbit of the point 1, one step per lemma: each step's real arithmetic is proved on its own.

  lemma OneAfterOneStep()
    ensures Orbit(Complex(1.0, 0.0), 1) == Complex(2.0, 0.0)
  {
  }

  lemma StepFromTwo()
    ensures Step(Complex(2.0, 0.0), Complex(1.0, 0.0)) == Complex(5.0, 0.0)
  {
  }

  lemma OneAfterTwoSteps()
    ensures Orbit(Complex(1.0, 0.0), 2) == Complex(5.0, 0.0)
  {
    OneAfterOneStep();
    StepFromTwo();
  }

  /** The point 1 stays within radius 2 for two iterations (at 1, then 2) and escapes in the third (at 5). */
  lemma OneEscapesAtIterationTwo()
    ensures !Escaped(Orbit(Complex(1.0, 0.0), 0))
    ensures !Escaped(Orbit(Complex(1.0, 0.0), 1))
    ensures Escaped(Orbit(Complex(1.0, 0.0), 2))
  {
    OneAfterOneStep();
    OneAfterTwoSteps();
    assert !Escaped(Complex(1.0, 0.0)) && !Escaped(Complex(2.0, 0.0)) && Escaped(Complex(5.0, 0.0));
  }

  /**
   * Because a point that never escapes gets `maxiter - 1`, it cannot be told
   * apart from one that escapes in the last iteration: with 3 iterations the
   * point 1 escapes at iteration 2 and the origin never escapes, and both get 2.
   */
  lemma LastIterationIsAmbiguous()
    ensures Escaped(Orbit(Complex(1.0, 0.0), 2))
    ensures forall j :: 0 <= j < 3 ==> !Escaped(Orbit(Complex(0.0, 0.0), j))
    ensures EscapeTime(Complex(1.0, 0.0), 3) == EscapeTime(Complex(0.0, 0.0), 3) == Ok(2)
  {
    OneEscapesAtIterationTwo();
    EscapeTimeCharacterized(Complex(1.0, 0.0), 3, 2);
    forall j | 0 <= j < 3
      ensures !EscapesAt(Complex(0.0, 0.0))(j)
    {
      OriginIsFixed(j);
    }
    NeverEscapingGetsLastIteration(Complex(0.0, 0.0), 3);
  }
}
