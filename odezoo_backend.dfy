/**
 * The older odezoo backend switch: two module globals that `set_backend`
 * assigns exactly once; nothing resets them afterwards.
 */
module OdezooBackend {
  import opened Wrappers
  import opened BackendNames

  const AlreadySet := "Backend has been set already. Can't change it anymore."

  /** The `numpy_like` global: the placeholder string "None" until a module is bound. */
  datatype NumpyLike = NoneString | Module(lib: Library)

  function UnknownMessage(name: string): (m: string)
    ensures |m| == |name| + 20 && m[..8] == "Backend " && m[8..8 + |name|] == name
  {
    "Backend " + name + " is unknown."
  }

  /** The library a known name selects: "jax" picks jax.numpy, every other known name numpy. */
  function Chosen(name: string): (lib: Library)
    ensures lib == JaxNumpy <==> Lower(name) == "jax"
  {
    if Lower(name) == "jax" then JaxNumpy else NumPy
  }

  /** `set_backend` on the flag's value: the outcome and the new flag. */
  function SetBackendStep(isSet: bool, name: string): (r: (Outcome, bool))
    ensures r.1 <==> isSet || r.0.Pass?
  {
    if isSet then (Fail(RuntimeError(AlreadySet)), isSet)
    else if Lower(name) != "jax" && Lower(name) != "numpy" then (Fail(ValueError(UnknownMessage(name))), isSet)
    else (Pass, true)
  }

  /** The outcomes of a sequence of `set_backend` calls. */
  function Outcomes(isSet: bool, names: seq<string>): (r: seq<Outcome>)
    ensures |r| == |names|
    decreases |names|
  {
    if names == [] then []
    else
      var (o, isSet') := SetBackendStep(isSet, names[0]);
      [o] + Outcomes(isSet', names[1..])
  }

  /** The module globals of the package. */
  class Globals {
    var backendHasBeenSet: bool
    var numpyLike: NumpyLike

    /** The flag is raised exactly when a module is bound. */
    ghost predicate Valid()
      reads this
    {
      backendHasBeenSet <==> numpyLike.Module?
    }

    /** The state at import time. */
    constructor ()
      ensures Valid() && !backendHasBeenSet && numpyLike == NoneString
    {
      backendHasBeenSet := false;
      numpyLike := NoneString;
    }

    /** `set_backend`: bind jax.numpy or numpy, once. */
    method SetBackend(name: string) returns (r: Outcome)
      requires Valid()
      modifies this
      ensures Valid()
      ensures (r, backendHasBeenSet) == SetBackendStep(old(backendHasBeenSet), name)
      ensures r.Pass? ==> numpyLike == Module(Chosen(name))
      ensures r.Fail? ==> unchanged(this)
    {
      if backendHasBeenSet {
        return Fail(RuntimeError(AlreadySet));
      }
      if Lower(name) != "jax" && Lower(name) != "numpy" {
        return Fail(ValueError(UnknownMessage(name)));
      }
      if Lower(name) == "jax" {
        numpyLike := Module(JaxNumpy);
      } else {
        numpyLike := Module(NumPy);
      }
      backendHasBeenSet := true;
      r := Pass;
    }
  }

  /** The "already set" check comes first: once set, every call is a state error, even for a bogus name. */
  lemma AlreadySetWins(name: string)
    ensures SetBackendStep(true, name) == (Fail(RuntimeError(AlreadySet)), true)
  {
  }

  /** On an unset flag, a call succeeds exactly for a known name; an unknown one leaves the flag down. */
  lemma SetBackendSucceedsExactly(name: string)
    ensures SetBackendStep(false, name).0.Pass? <==> Lower(name) == "jax" || Lower(name) == "numpy"
    ensures SetBackendStep(false, name).1 <==> SetBackendStep(false, name).0.Pass?
  {
  }

  /** The choice is case-insensitive. */
  lemma {:induction false} ChoiceCaseInsensitive(name: string)
    ensures Chosen(name) == Chosen(Lower(name))
    ensures SetBackendStep(false, name).0.Pass? == SetBackendStep(false, Lower(name)).0.Pass?
  {
    LowerIdempotent(name);
  }

  /** Once raised, the flag makes every later call fail. */
  lemma {:induction false} SetIsFinal(names: seq<string>)
    ensures forall i :: 0 <= i < |names| ==> Outcomes(true, names)[i].Fail?
    decreases |names|
  {
    if names != [] {
      SetIsFinal(names[1..]);
      assert Outcomes(true, names) == [Fail(RuntimeError(AlreadySet))] + Outcomes(true, names[1..]);
    }
  }

  /** At most one call of any sequence of `set_backend` calls ever succeeds. */
  lemma {:induction false} SetBackendSucceedsAtMostOnce(isSet: bool, names: seq<string>)
    ensures forall i, j ::
              0 <= i < |names| && 0 <= j < |names| && Outcomes(isSet, names)[i].Pass? && Outcomes(isSet, names)[j].Pass?
              ==> i == j
    ensures isSet ==> forall i :: 0 <= i < |names| ==> Outcomes(isSet, names)[i].Fail?
    decreases |names|
  {
    if names != [] {
      var (o, isSet') := SetBackendStep(isSet, names[0]);
      var outs := Outcomes(isSet, names);
      assert outs == [o] + Outcomes(isSet', names[1..]);
      SetBackendSucceedsAtMostOnce(isSet', names[1..]);
      if o.Pass? {
        SetIsFinal(names[1..]);
      }
    }
  }
}
