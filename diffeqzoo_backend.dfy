/**
 * The diffeqzoo backend registry: a singleton that binds the array library
 * once with `select` and revises that choice only through `change_to`.
 */
module DiffeqzooBackend {
  import opened Wrappers
  import opened BackendNames

  const AlreadySelected := "A backend has been selected already."
  const MustSelectFirst := "The first backend-selection must be via `backend.select()`."
  const NotKnown := "Backend implementation not known."
  const NotSelectedYet := "A backend implementation has not been selected yet."

  /** The registry's abstract state: nothing chosen yet, or the recorded (lower-case) name. */
  datatype Selection = Unselected | Selected(name: string)

  /** The name a library is recorded under. */
  function NameOf(lib: Library): (n: string)
    ensures IsKnownName(n)
  {
    match lib
    case NumPy => "numpy"
    case JaxNumpy => "jax"
  }

  predicate IsKnownName(lowered: string) {
    lowered == "jax" || lowered == "numpy"
  }

  /** The branching of `_select_backend` on an already lower-cased name. */
  function Bind(lowered: string): (r: Result<Library>)
    ensures r.Success? <==> IsKnownName(lowered)
    ensures r.Success? ==> NameOf(r.value) == lowered
    ensures r.Failure? ==> r.error == ValueError(NotKnown)
  {
    if lowered == "jax" then Success(JaxNumpy)
    else if lowered == "numpy" then Success(NumPy)
    else Failure(ValueError(NotKnown))
  }

  // ---------------------------------------------------------------------------
  // The state machine of the registry, as functions of the abstract state.

  function BindStep(s: Selection, lowered: string): (r: (Outcome, Selection))
    ensures r.0.Pass? <==> IsKnownName(lowered)
    ensures r.1 == if r.0.Pass? then Selected(lowered) else s
  {
    match Bind(lowered)
    case Success(lib) => (Pass, Selected(NameOf(lib)))
    case Failure(e) => (Fail(e), s)
  }

  function SelectStep(s: Selection, name: string): (r: (Outcome, Selection))
    ensures r.0.Fail? ==> r.1 == s
  {
    if s.Selected? then (Fail(RuntimeError(AlreadySelected)), s)
    else BindStep(s, Lower(name))
  }

  /** `change_to`: its outcome, whether it warned, and the new state. */
  function ChangeToStep(s: Selection, name: string): (r: (Outcome, bool, Selection))
    ensures r.0.Fail? ==> r.2 == s
  {
    if s.Unselected? then (Fail(RuntimeError(MustSelectFirst)), false, s)
    else
      var warned := s.name == Lower(name);
      var (o, s') := BindStep(s, Lower(name));
      (o, warned, s')
  }

  /** A call made on the registry. */
  datatype Call = SelectCall(name: string) | ChangeToCall(name: string)

  function Step(s: Selection, c: Call): (r: (Outcome, Selection))
    ensures r.0.Fail? ==> r.1 == s
  {
    match c
    case SelectCall(n) => SelectStep(s, n)
    case ChangeToCall(n) => var (o, _, s') := ChangeToStep(s, n); (o, s')
  }

  /** The outcomes of a sequence of calls, in order. */
  function Outcomes(s: Selection, calls: seq<Call>): (r: seq<Outcome>)
    ensures |r| == |calls|
    decreases |calls|
  {
    if calls == [] then []
    else
      var (o, s') := Step(s, calls[0]);
      [o] + Outcomes(s', calls[1..])
  }

  /** The state after a sequence of calls. */
  function After(s: Selection, calls: seq<Call>): (s': Selection)
    ensures s.Selected? ==> s'.Selected?
    decreases |calls|
  {
    if calls == [] then s else After(Step(s, calls[0]).1, calls[1..])
  }

  // ---------------------------------------------------------------------------
  // The registry object.

  class Backend {
    var backendName: Option<string>
    var numpyBackend: Option<Library>
    var npImportCache: Option<Library>
    var jnpImportCache: Option<Library>

    /** Name and handle are set together and agree; each cache holds only its own module. */
    ghost predicate Valid()
      reads this
    {
      (backendName.None? <==> numpyBackend.None?) &&
      (numpyBackend.Some? ==> backendName == Some(NameOf(numpyBackend.value))) &&
      (npImportCache.Some? ==> npImportCache == Some(NumPy)) &&
      (jnpImportCache.Some? ==> jnpImportCache == Some(JaxNumpy)) &&
      (numpyBackend == Some(NumPy) ==> npImportCache == Some(NumPy)) &&
      (numpyBackend == Some(JaxNumpy) ==> jnpImportCache == Some(JaxNumpy))
    }

    function State(): (s: Selection)
      reads this
    {
      if backendName.Some? then Selected(backendName.value) else Unselected
    }

    constructor ()
      ensures Valid() && State() == Unselected && !HasBeenSelected()
      ensures npImportCache.None? && jnpImportCache.None?
    {
      backendName := None;
      numpyBackend := None;
      npImportCache := None;
      jnpImportCache := None;
    }

    /** `has_been_selected`: whether a handle is bound. */
    function HasBeenSelected(): (b: bool)
      reads this
      requires Valid()
      ensures b <==> State().Selected?
      ensures b ==> IsKnownName(State().name)
    {
      numpyBackend.Some?
    }

    /** The `numpy` property: the bound handle, or an error before any selection. */
    function Numpy(): (r: Result<Library>)
      reads this
      requires Valid()
      ensures r.Success? <==> State().Selected?
      ensures r.Success? ==> NameOf(r.value) == State().name
      ensures r.Failure? ==> r.error == Exception(NotSelectedYet)
    {
      if !HasBeenSelected() then Failure(Exception(NotSelectedYet)) else Success(numpyBackend.value)
    }

    /** `_select_backend`: import and bind a library by its lower-case name. */
    method SelectBackend(lowered: string) returns (r: Outcome)
      requires Valid()
      modifies this
      ensures Valid()
      ensures (r, State()) == BindStep(old(State()), lowered)
      ensures r.Fail? ==> unchanged(this)
      ensures npImportCache == if r.Pass? && lowered == "numpy" then Some(NumPy) else old(npImportCache)
      ensures jnpImportCache == if r.Pass? && lowered == "jax" then Some(JaxNumpy) else old(jnpImportCache)
    {
      if lowered == "jax" {
        jnpImportCache := Some(JaxNumpy);
        numpyBackend := Some(JaxNumpy);
        backendName := Some(lowered);
        r := Pass;
      } else if lowered == "numpy" {
        npImportCache := Some(NumPy);
        numpyBackend := Some(NumPy);
        backendName := Some(lowered);
        r := Pass;
      } else {
        r := Fail(ValueError(NotKnown));
      }
    }

    /** `select`: the first choice of a backend; refused once one is chosen. */
    method Select(name: string) returns (r: Outcome)
      requires Valid()
      modifies this
      ensures Valid()
      ensures (r, State()) == SelectStep(old(State()), name)
      ensures r.Fail? ==> unchanged(this)
      ensures npImportCache == if r.Pass? && Lower(name) == "numpy" then Some(NumPy) else old(npImportCache)
      ensures jnpImportCache == if r.Pass? && Lower(name) == "jax" then Some(JaxNumpy) else old(jnpImportCache)
    {
      if HasBeenSelected() {
        return Fail(RuntimeError(AlreadySelected));
      }
      r := SelectBackend(Lower(name));
    }

    /** `change_to`: revise an existing choice, warning when it names the current one. */
    method ChangeTo(name: string) returns (r: Outcome, warned: bool)
      requires Valid()
      modifies this
      ensures Valid()
      ensures (r, warned, State()) == ChangeToStep(old(State()), name)
      ensures r.Fail? ==> unchanged(this)
      ensures npImportCache == if r.Pass? && Lower(name) == "numpy" then Some(NumPy) else old(npImportCache)
      ensures jnpImportCache == if r.Pass? && Lower(name) == "jax" then Some(JaxNumpy) else old(jnpImportCache)
    {
      if !HasBeenSelected() {
        return Fail(RuntimeError(MustSelectFirst)), false;
      }
      warned := backendName == Some(Lower(name));
      r := SelectBackend(Lower(name));
    }
  }

  // ---------------------------------------------------------------------------
  // Properties of the state machine.

  /** A second `select` fails with a state error and changes nothing, whatever the name. */
  lemma SelectIsOneShot(s: Selection, n1: string, n2: string)
    requires SelectStep(s, n1).0.Pass?
    ensures SelectStep(SelectStep(s, n1).1, n2) == (Fail(RuntimeError(AlreadySelected)), SelectStep(s, n1).1)
  {
  }

  /** `select` succeeds exactly on an unselected registry and a known name, recording it lower-cased. */
  lemma SelectSucceedsExactly(s: Selection, name: string)
    ensures SelectStep(s, name).0.Pass? <==> s.Unselected? && IsKnownName(Lower(name))
    ensures SelectStep(s, name).0.Pass? ==> SelectStep(s, name).1 == Selected(Lower(name))
    ensures SelectStep(s, name).0.Fail? ==> SelectStep(s, name).1 == s
  {
  }

  /** An unknown name is a value error on a fresh registry, which stays unselected. */
  lemma UnknownNameRejected(name: string)
    requires !IsKnownName(Lower(name))
    ensures SelectStep(Unselected, name) == (Fail(ValueError(NotKnown)), Unselected)
    ensures forall s: Selection | s.Selected? && IsKnownName(s.name) :: ChangeToStep(s, name) == (Fail(ValueError(NotKnown)), false, s)
  {
  }

  /** `change_to` on a fresh registry is a state error: the first choice must go through `select`. */
  lemma ChangeToNeedsSelection(name: string)
    ensures ChangeToStep(Unselected, name) == (Fail(RuntimeError(MustSelectFirst)), false, Unselected)
  {
  }

  /** Re-choosing the current backend warns and still succeeds, leaving the choice as it was. */
  lemma RedundantChangeWarns(current: string, name: string)
    requires IsKnownName(current) && Lower(name) == current
    ensures ChangeToStep(Selected(current), name) == (Pass, true, Selected(current))
  {
  }

  /** A warning is given only for a redundant change, and such a change always succeeds. */
  lemma WarningMeansNoChange(s: Selection, name: string)
    requires s.Selected? ==> IsKnownName(s.name)
    ensures ChangeToStep(s, name).1 <==> s.Selected? && s.name == Lower(name)
    ensures ChangeToStep(s, name).1 ==> ChangeToStep(s, name).0.Pass? && ChangeToStep(s, name).2 == s
  {
  }

  /** Matching is case-insensitive: a name and its lower-case form behave the same. */
  lemma {:induction false} CaseInsensitive(s: Selection, name: string)
    ensures SelectStep(s, name) == SelectStep(s, Lower(name))
    ensures ChangeToStep(s, name) == ChangeToStep(s, Lower(name))
  {
    LowerIdempotent(name);
  }

  /** Once selected, the registry stays selected and every later `select` fails. */
  lemma {:induction false} SelectionIsPermanent(s: Selection, calls: seq<Call>)
    requires s.Selected?
    ensures After(s, calls).Selected?
    ensures forall i :: 0 <= i < |calls| && calls[i].SelectCall? ==> Outcomes(s, calls)[i].Fail?
    decreases |calls|
  {
    if calls != [] {
      var s' := Step(s, calls[0]).1;
      SelectionIsPermanent(s', calls[1..]);
      forall i | 1 <= i < |calls| && calls[i].SelectCall?
        ensures Outcomes(s, calls)[i].Fail?
      {
        assert calls[1..][i - 1] == calls[i];
      }
    }
  }

  /**
   * From a fresh registry, at most one `select` in any sequence of calls succeeds,
   * and every successful `change_to` comes after a successful `select`.
   */
  lemma {:induction false} SelectSucceedsAtMostOnce(s: Selection, calls: seq<Call>)
    requires s.Unselected?
    ensures forall i, j ::
              0 <= i < j < |calls| && calls[i].SelectCall? && calls[j].SelectCall? && Outcomes(s, calls)[i].Pass?
              ==> Outcomes(s, calls)[j].Fail?
    ensures forall j :: 0 <= j < |calls| && calls[j].ChangeToCall? && Outcomes(s, calls)[j].Pass? ==>
                          exists i :: 0 <= i < j && calls[i].SelectCall? && Outcomes(s, calls)[i].Pass?
    decreases |calls|
  {
    if calls != [] {
      var (o, s') := Step(s, calls[0]);
      var outs := Outcomes(s, calls);
      assert outs == [o] + Outcomes(s', calls[1..]);
      if s'.Selected? {
        // Only a successful `select` leaves the fresh state.
        assert calls[0].SelectCall? && o.Pass?;
        SelectionIsPermanent(s', calls[1..]);
        forall j | 1 <= j < |calls| && calls[j].SelectCall?
          ensures outs[j].Fail?
        {
          assert calls[1..][j - 1] == calls[j];
        }
      } else {
        assert o.Fail? && s' == s;
        SelectSucceedsAtMostOnce(s, calls[1..]);
        forall i, j | 0 <= i < j < |calls| && calls[i].SelectCall? && calls[j].SelectCall? && outs[i].Pass?
          ensures outs[j].Fail?
        {
          assert calls[1..][i - 1] == calls[i] && calls[1..][j - 1] == calls[j];
        }
        forall j | 0 <= j < |calls| && calls[j].ChangeToCall? && outs[j].Pass?
          ensures exists i :: 0 <= i < j && calls[i].SelectCall? && outs[i].Pass?
        {
          assert j > 0;
          assert calls[1..][j - 1] == calls[j];
          var i :| 0 <= i < j - 1 && calls[1..][i].SelectCall? && Outcomes(s, calls[1..])[i].Pass?;
          assert calls[i + 1] == calls[1..][i];
        }
      }
    }
  }
}
