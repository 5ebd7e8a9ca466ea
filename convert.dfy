/**
 * Conversion of a whole second-order, autonomous problem record into a first-order one,
 * splitting the state at the record's `dimension`.
 */
module Convert {
  import opened Wrappers
  import Transform

  const NoArrays := "need at least one array to concatenate"
  const NoneTimesTwo := "unsupported operand type(s) for *: 'NoneType' and 'int'"
  const NoneNotCallable := "'NoneType' object is not callable"

  /** odezoo's problem record, including the `dimension` field that conversion reads and writes. */
  datatype InitialValueProblem<F, I, J, S, A> = InitialValueProblem(
    vectorField: F,
    initialValues: I,
    timeSpan: (real, real),
    vectorFieldArgs: A,
    jacobian: Option<J>,
    solution: Option<S>,
    isAutonomous: Option<bool>,
    hasPeriodicSolution: Option<bool>,
    order: Option<int>,
    dimension: Option<int>)

  /** A second-order record: field and Jacobian take position, velocity and the extra arguments. */
  type SecondOrderIvp<!T, !V, !M, !S, !A> =
    InitialValueProblem<(seq<T>, seq<T>, A) -> V, seq<seq<T>>, (seq<T>, seq<T>, A) -> M, S, A>

  /** A converted record: field and Jacobian take the stacked state; calling the Jacobian can fail. */
  type FirstOrderIvp<!T, !V, !M, !S, !A> =
    InitialValueProblem<(seq<T>, A) -> V, seq<seq<T>>, (seq<T>, A) -> Result<M>, S, A>

  /** Where Python's `y[:d]` stops: a negative `d` counts from the end, and both ends are clamped. */
  function SliceStop(n: nat, d: int): (k: nat)
    ensures k <= n
    ensures 0 <= d <= n ==> k == d
    ensures n + d < 0 ==> k == 0
    ensures d < 0 <= n + d ==> k == n + d
    ensures n < d ==> k == n
  {
    if d >= 0 then (if d <= n then d else n)
    else if n + d >= 0 then n + d
    else 0
  }

  /** `y[:d]` */
  function Take<T>(y: seq<T>, d: int): (t: seq<T>)
    ensures |t| == SliceStop(|y|, d) && t == y[..|t|]
  {
    y[..SliceStop(|y|, d)]
  }

  /** `y[d:]` */
  function Drop<T>(y: seq<T>, d: int): (t: seq<T>)
    ensures Take(y, d) + t == y
  {
    y[SliceStop(|y|, d)..]
  }

  /** `numpy.concatenate(arrays, axis=0)` for one-dimensional arrays: all elements, array after array. */
  function Concatenation<T>(arrays: seq<seq<T>>): (r: seq<T>)
    ensures |r| == TotalLength(arrays)
    ensures arrays != [] ==> r[..|arrays[0]|] == arrays[0]
    ensures |arrays| == 1 ==> r == arrays[0]
  {
    if arrays == [] then [] else arrays[0] + Concatenation(arrays[1..])
  }

  /** The sum of the arrays' lengths. */
  function TotalLength<T>(arrays: seq<seq<T>>): (total: nat) {
    if arrays == [] then 0 else |arrays[0]| + TotalLength(arrays[1..])
  }

  /** Concatenation keeps the arrays in order: joining two lists of arrays joins their concatenations. */
  lemma {:induction false} ConcatenationOfAppend<T>(a: seq<seq<T>>, b: seq<seq<T>>)
    ensures Concatenation(a + b) == Concatenation(a) + Concatenation(b)
    decreases |a|
  {
    if a == [] {
      assert a + b == b;
    } else {
      assert (a + b)[1..] == a[1..] + b;
      ConcatenationOfAppend(a[1..], b);
    }
  }

  /** The total length of the concatenated arrays, and the case of a pair (u0, du0). */
  lemma {:induction false} ConcatenationOfPair<T>(u0: seq<T>, du0: seq<T>)
    ensures Concatenation([u0, du0]) == u0 + du0
  {
    assert [u0, du0][1..] == [du0];
    assert [du0][1..] == [];
    assert Concatenation([du0]) == du0 + Concatenation([]);
  }

  /** `second_to_first_order_autonomous`, as written. */
  function SecondToFirstOrderAutonomous<T, V, M, S, A>(ivp: SecondOrderIvp<T, V, M, S, A>): (r: Result<FirstOrderIvp<T, V, M, S, A>>)
    ensures r.Failure? <==> ivp.initialValues == [] || ivp.dimension.None?
    ensures ivp.initialValues == [] ==> r == Failure(ValueError(NoArrays))
    ensures ivp.initialValues != [] && ivp.dimension.None? ==> r == Failure(TypeError(NoneTimesTwo))
    ensures r.Success? ==> |r.value.initialValues| == 1 && r.value.initialValues[0] == Concatenation(ivp.initialValues)
    ensures r.Success? ==> r.value.order == if ivp.order.Some? then Some(1) else None
    ensures r.Success? ==> var d := ivp.dimension.value;
                           (r.value.dimension.None? <==> d == 0) &&
                           (r.value.dimension.Some? ==> r.value.dimension.value == 2 * d)
    ensures r.Success? ==> r.value.vectorFieldArgs == ivp.vectorFieldArgs && r.value.timeSpan == ivp.timeSpan
    ensures r.Success? ==> r.value.hasPeriodicSolution == ivp.hasPeriodicSolution
    ensures r.Success? ==> r.value.isAutonomous == Some(true) && r.value.solution.None? && r.value.jacobian.Some?
  {
    if ivp.initialValues == [] then Failure(ValueError(NoArrays))
    else if ivp.dimension.None? then Failure(TypeError(NoneTimesTwo))
    else
      var d := ivp.dimension.value;
      var f := (y: seq<T>, args: A) => ivp.vectorField(Take(y, d), Drop(y, d), args);
      var df := (y: seq<T>, args: A) =>
        match ivp.jacobian
        case None => Failure(TypeError(NoneNotCallable))
        case Some(j) => Success(j(Take(y, d), Drop(y, d), args));
      var inits := [Concatenation(ivp.initialValues)];
      var order := if ivp.order.Some? then Some(1) else None;
      var dimension := if d * 2 == 0 then None else Some(d * 2);
      Success(InitialValueProblem(f, inits, ivp.timeSpan, ivp.vectorFieldArgs, Some(df), None, Some(true),
                                  ivp.hasPeriodicSolution, order, dimension))
  }

  /**
   * The converted field and Jacobian evaluate the originals on the state split at `dimension`;
   * on a state of length 2 * dimension that is the position half and the velocity half.
   */
  lemma ConvertedFieldSplitsAtDimension<T, V, M, S, A>(ivp: SecondOrderIvp<T, V, M, S, A>, y: seq<T>, args: A)
    requires ivp.initialValues != [] && ivp.dimension.Some?
    ensures var q, d := SecondToFirstOrderAutonomous(ivp).value, ivp.dimension.value;
            q.vectorField(y, args) == ivp.vectorField(Take(y, d), Drop(y, d), args) &&
            Take(y, d) + Drop(y, d) == y &&
            (0 <= d && |y| == 2 * d ==> Take(y, d) == y[..d] && Drop(y, d) == y[d..] && |Take(y, d)| == |Drop(y, d)|) &&
            q.jacobian.value(y, args) ==
              if ivp.jacobian.Some? then Success(ivp.jacobian.value(Take(y, d), Drop(y, d), args))
              else Failure(TypeError(NoneNotCallable))
  {
    var d := ivp.dimension.value;
    assert Take(y, d) + Drop(y, d) == y;
  }

  /** A pair (u0, du0) of initial values becomes the single array u0 ++ du0. */
  lemma ConvertedInitialValuesOfPair<T, V, M, S, A>(ivp: SecondOrderIvp<T, V, M, S, A>, u0: seq<T>, du0: seq<T>)
    requires ivp.initialValues == [u0, du0] && ivp.dimension.Some?
    ensures SecondToFirstOrderAutonomous(ivp).value.initialValues == [u0 + du0]
  {
    ConcatenationOfPair(u0, du0);
  }

  /** A non-zero dimension doubles, so halving the new one gives back the old. */
  lemma ConvertedDimensionHalves<T, V, M, S, A>(ivp: SecondOrderIvp<T, V, M, S, A>)
    requires ivp.initialValues != [] && ivp.dimension.Some? && ivp.dimension.value != 0
    ensures SecondToFirstOrderAutonomous(ivp).value.dimension.Some?
    ensures SecondToFirstOrderAutonomous(ivp).value.dimension.value / 2 == ivp.dimension.value
  {
  }

  // ---------------------------------------------------------------------------
  // The converted field returns only the acceleration.

  /**
   * As written, a position-one, velocity-one state [3, 4] with f(u, du) = u is mapped to [3]:
   * one number for a state of two, where a first-order field gives [4, 3] (du ++ f(u, du)).
   */
  lemma ConvertedFieldDropsVelocity()
    ensures var ivp: SecondOrderIvp<int, seq<int>, int, int, ()> :=
              InitialValueProblem((u: seq<int>, du: seq<int>, a: ()) => u, [[3], [4]], (0.0, 1.0), (),
                                  None, None, Some(true), None, Some(2), Some(1));
            var q := SecondToFirstOrderAutonomous(ivp).value;
            q.vectorField([3, 4], ()) == [3] &&
            |q.vectorField([3, 4], ())| != |[3, 4]| &&
            Transform.FirstOrderStep(ivp.vectorField, [3, 4], ()) == Success([4, 3])
  {
    var y := [3, 4];
    assert Take(y, 1) == [3] && Drop(y, 1) == [4];
    Transform.TransformedFieldRoundTrip((u: seq<int>, du: seq<int>, a: ()) => u, [3], [4], ());
    assert [3] + [4] == y && [4] + [3] == [4, 3];
  }

  /** The conversion with the first-order field evidently intended: the velocity, then the acceleration. */
  function SecondToFirstOrderAutonomousCorrected<T, M, S, A>(ivp: SecondOrderIvp<T, seq<T>, M, S, A>): (r: Result<FirstOrderIvp<T, seq<T>, M, S, A>>)
    ensures r.Success? <==> SecondToFirstOrderAutonomous(ivp).Success?
    ensures r.Success? ==> r.value.(vectorField := SecondToFirstOrderAutonomous(ivp).value.vectorField) ==
                           SecondToFirstOrderAutonomous(ivp).value
  {
    match SecondToFirstOrderAutonomous(ivp)
    case Failure(e) => Failure(e)
    case Success(q) =>
      var d := ivp.dimension.value;
      Success(q.(vectorField := (y: seq<T>, args: A) => Drop(y, d) + ivp.vectorField(Take(y, d), Drop(y, d), args)))
  }

  /** The corrected field prepends the velocity part of the state to what the as-written field returns. */
  lemma CorrectedFieldPrependsVelocity<T, M, S, A>(ivp: SecondOrderIvp<T, seq<T>, M, S, A>, y: seq<T>, args: A)
    requires ivp.initialValues != [] && ivp.dimension.Some?
    ensures SecondToFirstOrderAutonomousCorrected(ivp).value.vectorField(y, args) ==
            Drop(y, ivp.dimension.value) + SecondToFirstOrderAutonomous(ivp).value.vectorField(y, args)
  {
  }

  /**
   * On a state of length 2 * dimension the corrected field agrees with the order-reduction
   * transform, and when the original field returns `dimension` numbers it keeps the state's length.
   */
  lemma CorrectedFieldMatchesTransform<T, M, S, A>(ivp: SecondOrderIvp<T, seq<T>, M, S, A>, y: seq<T>, args: A)
    requires ivp.initialValues != [] && ivp.dimension.Some?
    requires 0 <= ivp.dimension.value && |y| == 2 * ivp.dimension.value
    ensures var q := SecondToFirstOrderAutonomousCorrected(ivp).value;
            Transform.FirstOrderStep(ivp.vectorField, y, args) == Success(q.vectorField(y, args))
    ensures var d, q := ivp.dimension.value, SecondToFirstOrderAutonomousCorrected(ivp).value;
            |ivp.vectorField(y[..d], y[d..], args)| == d ==> |q.vectorField(y, args)| == |y|
  {
    var d := ivp.dimension.value;
    ConvertedFieldSplitsAtDimension(ivp, y, args);
    Transform.TransformedFieldRoundTrip(ivp.vectorField, y[..d], y[d..], args);
    assert y[..d] + y[d..] == y;
  }
}
