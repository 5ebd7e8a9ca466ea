/**
 * Order reduction: turn a second-order, autonomous vector field f(u, du, *args)
 * and its problem factory into first-order ones over the stacked state (u, du).
 */
module Transform {
  import opened Wrappers
  import opened DocstringUtils

  /** A Python function object: what calling it does, its `__module__` and its `__doc__`. */
  datatype PyFunction<F> = PyFunction(code: F, moduleName: string, doc: Option<string>)

  /** A second-order field: position, velocity and the extra arguments give the acceleration. */
  type SecondOrderField<!T, !A> = (seq<T>, seq<T>, A) -> seq<T>

  /** A first-order field over the stacked state; it fails when the state cannot be halved. */
  type FirstOrderField<!T, !A> = (seq<T>, A) -> Result<seq<T>>

  /** A problem record: vector field, initial values, time span and the field's extra arguments. */
  datatype Problem<F, I, A> = Problem(vectorField: F, initialValues: I, timeSpan: (real, real), vectorFieldArgs: A)

  type SecondOrderProblem<!T, !A> = Problem<PyFunction<SecondOrderField<T, A>>, (seq<T>, seq<T>), A>
  type FirstOrderProblem<!T, !A> = Problem<PyFunction<FirstOrderField<T, A>>, seq<T>, A>

  /** A problem factory: the `initial_values` keyword (None when omitted) and the other keywords. */
  type SecondOrderFactory<!T, !A, !K> = (Option<(seq<T>, seq<T>)>, K) -> SecondOrderProblem<T, A>
  type FirstOrderFactory<!T, !A, !K> = (Option<seq<T>>, K) -> Result<FirstOrderProblem<T, A>>

  /** The `__module__` of a function freshly defined in this module. */
  const TransformModule := "odezoo.transform"
  const VfBuilderName := "second_to_first_order_vf_auto"
  const FactoryBuilderName := "second_to_first_order_auto"
  const SplitMessage := "array split does not result in an equal division"

  /** The disclaimer's text after its opening newline, up to the function name. */
  const DisclaimerHead := "\n\n    Warning\n    -------\n    This problem is not originally of first order.\n    It has been transformed to one by the\n    function :func:`"
  const DisclaimerTail := "`.\n    If you have access to solvers for second-order problems, it might\n    be more efficient to solve the original problem.\n\n\n    "

  /** `_disclaimer`: a warning paragraph naming the transforming function; it starts a new line. */
  function Disclaimer(funName: string): (r: string)
    ensures |r| == 1 + |DisclaimerHead| + |funName| + |DisclaimerTail|
    ensures r[0] == '\n'
    ensures r[1 + |DisclaimerHead|..1 + |DisclaimerHead| + |funName|] == funName
  {
    "\n" + DisclaimerHead + funName + DisclaimerTail
  }

  /** The docstring both builders give the new function: add the disclaimer, then replace the summary if one is given. */
  function TransformedDoc(doc: Option<string>, builderName: string, shortSummary: Option<string>): (d: string)
    ensures shortSummary.None? && doc.None? ==> d == Disclaimer(builderName)
  {
    var withDisclaimer := AddLongDescription(doc, Disclaimer(builderName));
    if shortSummary.Some? then ReplaceShortSummary(Some(withDisclaimer), shortSummary.value)
    else withDisclaimer
  }

  /**
   * The new docstring is the summary line (the given one, or the original's first line),
   * then the disclaimer, then the rest of the original docstring.
   */
  lemma TransformedDocShape(doc: Option<string>, builderName: string, shortSummary: Option<string>)
    ensures var first := if doc.Some? then FirstLine(doc.value) else [];
            var summary := if shortSummary.Some? then shortSummary.value else first;
            TransformedDoc(doc, builderName, shortSummary) == summary + Disclaimer(builderName) + Rest(doc)
  {
    var disclaimer := Disclaimer(builderName);
    if shortSummary.Some? {
      AddThenReplace(doc, disclaimer, shortSummary.value);
    }
  }

  // ---------------------------------------------------------------------------
  // The transformed vector field.

  /** `numpy.split(y, 2)`: two halves of equal length, or the error numpy raises for an odd length. */
  function SplitInHalves<T>(y: seq<T>): (r: Result<(seq<T>, seq<T>)>)
    ensures r.Success? <==> |y| % 2 == 0
    ensures r.Success? ==> |r.value.0| == |r.value.1| && r.value.0 + r.value.1 == y
    ensures r.Failure? ==> r.error == ValueError(SplitMessage)
  {
    if |y| % 2 != 0 then Failure(ValueError(SplitMessage))
    else Success((y[..|y| / 2], y[|y| / 2..]))
  }

  /** Splitting a concatenation of two equal-length halves gives back the halves. */
  lemma SplitInHalvesOfConcat<T>(u: seq<T>, du: seq<T>)
    requires |u| == |du|
    ensures SplitInHalves(u + du) == Success((u, du))
  {
    var y := u + du;
    assert y[..|y| / 2] == u;
    assert y[|y| / 2..] == du;
  }

  /** `fn_transformed`: split the state into position and velocity, return the velocity then the acceleration. */
  function FirstOrderStep<T, A>(f: SecondOrderField<T, A>, y: seq<T>, args: A): (r: Result<seq<T>>)
    ensures r.Success? <==> |y| % 2 == 0
    ensures r.Failure? ==> r.error == ValueError(SplitMessage)
    ensures r.Success? ==>
              var h := |y| / 2;
              |r.value| >= h && r.value[..h] == y[h..] && r.value[h..] == f(y[..h], y[h..], args)
  {
    match SplitInHalves(y)
    case Failure(e) => Failure(e)
    case Success((u, du)) =>
      assert u == y[..|y| / 2] && du == y[|y| / 2..];
      Success(du + f(u, du, args))
  }

  function TransformVectorField<T, A>(f: SecondOrderField<T, A>): (g: FirstOrderField<T, A>) {
    (y, args) => FirstOrderStep(f, y, args)
  }

  /**
   * On a stacked state u ++ du the transformed field returns du ++ f(u, du, args), and
   * halving that output gives back the velocity and the acceleration.
   */
  lemma TransformedFieldRoundTrip<T, A>(f: SecondOrderField<T, A>, u: seq<T>, du: seq<T>, args: A)
    requires |u| == |du|
    ensures TransformVectorField(f)(u + du, args) == Success(du + f(u, du, args))
    ensures |f(u, du, args)| == |du| ==> SplitInHalves(du + f(u, du, args)) == Success((du, f(u, du, args)))
  {
    SplitInHalvesOfConcat(u, du);
    if |f(u, du, args)| == |du| {
      SplitInHalvesOfConcat(du, f(u, du, args));
    }
  }

  /** When f returns a vector as long as the position, the transformed field keeps the state's length. */
  lemma TransformedFieldKeepsLength<T, A>(f: SecondOrderField<T, A>, y: seq<T>, args: A)
    requires |y| % 2 == 0
    requires |f(y[..|y| / 2], y[|y| / 2..], args)| == |y| / 2
    ensures TransformVectorField(f)(y, args).Success?
    ensures |TransformVectorField(f)(y, args).value| == |y|
  {
    var r := FirstOrderStep(f, y, args).value;
    assert |r| == |r[..|y| / 2]| + |r[|y| / 2..]|;
  }

  /** One-dimensional position and velocity stack into a state of length two, which the field maps to length two. */
  lemma ScalarState<T, A>(f: SecondOrderField<T, A>, u0: T, du0: T, args: A)
    requires |f([u0], [du0], args)| == 1
    ensures TransformVectorField(f)([u0, du0], args) == Success([du0] + f([u0], [du0], args))
    ensures |TransformVectorField(f)([u0, du0], args).value| == 2
  {
    TransformedFieldRoundTrip(f, [u0], [du0], args);
    assert [u0] + [du0] == [u0, du0];
  }

  /** `second_to_first_order_vf_auto`: define the wrapper, then set its module and its docstring in turn. */
  method SecondToFirstOrderVfAuto<T, A>(fn: PyFunction<SecondOrderField<T, A>>, shortSummary: Option<string>)
    returns (g: PyFunction<FirstOrderField<T, A>>)
    ensures g.code == TransformVectorField(fn.code)
    ensures g.moduleName == fn.moduleName
    ensures g.doc == Some(TransformedDoc(fn.doc, VfBuilderName, shortSummary))
  {
    g := PyFunction(TransformVectorField(fn.code), TransformModule, None);
    g := g.(moduleName := fn.moduleName);
    g := g.(doc := Some(AddLongDescription(fn.doc, Disclaimer(VfBuilderName))));
    if shortSummary.Some? {
      g := g.(doc := Some(ReplaceShortSummary(g.doc, shortSummary.value)));
    }
  }

  // ---------------------------------------------------------------------------
  // The transformed factory.

  /** The record the transformed factory builds from the wrapped factory's record `p`. */
  function FirstOrderRecord<T, A>(p: SecondOrderProblem<T, A>, shortSummary: Option<string>): (q: FirstOrderProblem<T, A>)
    ensures q.initialValues == p.initialValues.0 + p.initialValues.1
    ensures q.vectorField.code == TransformVectorField(p.vectorField.code)
    ensures q.vectorField.moduleName == p.vectorField.moduleName
    ensures q.vectorField.doc == Some(TransformedDoc(p.vectorField.doc, VfBuilderName, shortSummary))
    ensures q.timeSpan == p.timeSpan && q.vectorFieldArgs == p.vectorFieldArgs
  {
    var f := p.vectorField;
    var vectorField := PyFunction(TransformVectorField(f.code), f.moduleName, Some(TransformedDoc(f.doc, VfBuilderName, shortSummary)));
    Problem(vectorField, p.initialValues.0 + p.initialValues.1, p.timeSpan, p.vectorFieldArgs)
  }

  /**
   * The new record is consistent: its initial state halves back into the old (u0, du0),
   * and its field at that state is du0 ++ f(u0, du0, args).
   */
  lemma FirstOrderRecordConsistent<T, A>(p: SecondOrderProblem<T, A>, shortSummary: Option<string>)
    requires |p.initialValues.0| == |p.initialValues.1|
    ensures var q := FirstOrderRecord(p, shortSummary);
            var (u0, du0) := p.initialValues;
            SplitInHalves(q.initialValues) == Success((u0, du0)) &&
            q.vectorField.code(q.initialValues, q.vectorFieldArgs) == Success(du0 + p.vectorField.code(u0, du0, p.vectorFieldArgs))
  {
    var (u0, du0) := p.initialValues;
    SplitInHalvesOfConcat(u0, du0);
    TransformedFieldRoundTrip(p.vectorField.code, u0, du0, p.vectorFieldArgs);
  }

  /** `ivp_fn_transformed`: halve supplied initial values, call the wrapped factory, rebuild its record. */
  function TransformedFactoryCall<T, A, K>(ivpFn: SecondOrderFactory<T, A, K>, shortSummary: Option<string>,
                                           initialValues: Option<seq<T>>, kwargs: K): (r: Result<FirstOrderProblem<T, A>>)
    ensures r.Failure? <==> initialValues.Some? && |initialValues.value| % 2 != 0
    ensures initialValues.None? ==> r == Success(FirstOrderRecord(ivpFn(None, kwargs), shortSummary))
    ensures initialValues.Some? && r.Success? ==>
              var y := initialValues.value;
              r == Success(FirstOrderRecord(ivpFn(Some((y[..|y| / 2], y[|y| / 2..])), kwargs), shortSummary))
  {
    match initialValues
    case None => Success(FirstOrderRecord(ivpFn(None, kwargs), shortSummary))
    case Some(y) =>
      match SplitInHalves(y)
      case Failure(e) => Failure(e)
      case Success(halves) =>
        assert halves == (y[..|y| / 2], y[|y| / 2..]);
        Success(FirstOrderRecord(ivpFn(Some(halves), kwargs), shortSummary))
  }

  function TransformFactory<T, A, K>(ivpFn: SecondOrderFactory<T, A, K>, shortSummary: Option<string>): (g: FirstOrderFactory<T, A, K>) {
    (initialValues, kwargs) => TransformedFactoryCall(ivpFn, shortSummary, initialValues, kwargs)
  }

  /**
   * Supplying u0 ++ du0 to the transformed factory hands (u0, du0) to the wrapped one;
   * when that factory keeps the values it is given, they come back stacked.
   */
  lemma SuppliedInitialValuesRoundTrip<T, A, K>(ivpFn: SecondOrderFactory<T, A, K>, shortSummary: Option<string>,
                                                u0: seq<T>, du0: seq<T>, kwargs: K)
    requires |u0| == |du0|
    ensures TransformFactory(ivpFn, shortSummary)(Some(u0 + du0), kwargs) ==
            Success(FirstOrderRecord(ivpFn(Some((u0, du0)), kwargs), shortSummary))
    ensures ivpFn(Some((u0, du0)), kwargs).initialValues == (u0, du0) ==>
            TransformFactory(ivpFn, shortSummary)(Some(u0 + du0), kwargs).value.initialValues == u0 + du0
  {
    SplitInHalvesOfConcat(u0, du0);
  }

  /** `second_to_first_order_auto`: define the wrapping factory, then set its module and its docstring in turn. */
  method SecondToFirstOrderAuto<T, A, K>(ivpFn: PyFunction<SecondOrderFactory<T, A, K>>, shortSummary: Option<string>)
    returns (g: PyFunction<FirstOrderFactory<T, A, K>>)
    ensures g.code == TransformFactory(ivpFn.code, shortSummary)
    ensures g.moduleName == ivpFn.moduleName
    ensures g.doc == Some(TransformedDoc(ivpFn.doc, FactoryBuilderName, shortSummary))
  {
    g := PyFunction(TransformFactory(ivpFn.code, shortSummary), TransformModule, None);
    g := g.(moduleName := ivpFn.moduleName);
    g := g.(doc := Some(AddLongDescription(ivpFn.doc, Disclaimer(FactoryBuilderName))));
    if shortSummary.Some? {
      g := g.(doc := Some(ReplaceShortSummary(g.doc, shortSummary.value)));
    }
  }
}
