/** Backend identifiers shared by the two registries: `str.lower()` and the library handle. */
module BackendNames {

  /** The imported array module, as an opaque handle: `numpy` or `jax.numpy`. */
  datatype Library = NumPy | JaxNumpy

  predicate IsUpper(c: char) {
    'A' <= c <= 'Z'
  }

  /** Lower-casing of one character (ASCII letters only). */
  function LowerChar(c: char): (r: char)
    ensures IsUpper(c) ==> r as int == c as int + 32
    ensures !IsUpper(c) ==> r == c
    ensures !IsUpper(r)
  {
    if IsUpper(c) then (c as int + 32) as char else c
  }

  /** `s.lower()`: every upper-case letter is replaced by its lower-case form. */
  function Lower(s: string): (r: string)
    ensures |r| == |s|
    ensures forall i :: 0 <= i < |s| ==> r[i] == LowerChar(s[i])
    ensures forall i :: 0 <= i < |r| ==> !IsUpper(r[i])
  {
    if s == [] then [] else [LowerChar(s[0])] + Lower(s[1..])
  }

  /** Lower-casing twice is lower-casing once. */
  lemma LowerIdempotent(s: string)
    ensures Lower(Lower(s)) == Lower(s)
  {
    var l := Lower(s);
    assert forall i :: 0 <= i < |l| ==> Lower(l)[i] == l[i];
  }

  /** Names in any mix of cases resolve to the same lower-case identifiers. */
  lemma LowerExamples()
    ensures Lower("NumPy") == "numpy" && Lower("NUMPY") == "numpy"
    ensures Lower("JAX") == "jax" && Lower("Jax") == "jax"
  {
  }
}
