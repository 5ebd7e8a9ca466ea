# diffeqzoo core in Dafny

A model of the parts of diffeqzoo (a catalogue of ODE and BVP benchmark problems) that carry real logic:

- **The diffeqzoo backend registry** (`diffeqzoo/__init__.py`). This is a singleton object. Its states are
  *Unselected* and *Selected(name)*, and the name is `"jax"` or `"numpy"`, matched case-insensitively.
  `select` makes the first choice and is refused once a choice exists. `change_to` revises a choice: it is
  refused before any choice and warns when it names the current one. The `numpy` property returns the bound
  array module, or raises before any selection. It is the class `DiffeqzooBackend.Backend`. Its methods are
  proved against a pure state machine (`SelectStep`, `ChangeToStep`), and lemmas about that machine state
  the one-shot and must-select-first disciplines over any sequence of calls.
- **The older odezoo backend switch** (`odezoo/__init__.py`). Two module globals are set once by
  `set_backend` and never reset. It is the class `OdezooBackend.Globals`, with a trace lemma showing that
  at most one call ever succeeds.
- **Docstring surgery** (`odezoo/_docstring_utils.py`). `add_long_description` inserts text right after
  the first line. `replace_short_summary` swaps the first line. Both are pure functions over `string`,
  specified through the first line / rest decomposition of a docstring.
- **Order reduction** (`odezoo/transform.py`). It turns a second-order field `f(u, du, *args)` into the
  first-order field `y ↦ du ++ f(u, du, *args)` over `y = u ++ du`. It wraps a problem factory so that it
  accepts and returns stacked initial values. It rewrites the new functions' docstrings with a disclaimer
  and an optional new summary line. Vector fields are function values over a generic element type `T`, and
  the extra arguments are a generic `A`. Python function objects are values `PyFunction(code, moduleName,
  doc)`. The two builders are methods that create such a value and then set its module and its docstring
  in turn.
- **Record conversion** (`odezoo/convert.py`). It converts a whole second-order record by splitting the
  state at `dimension`. It concatenates the initial values into a one-element tuple, maps `order` to 1 and
  doubles `dimension`.

Errors the code raises (`RuntimeError`, `ValueError`, `TypeError`, `Exception`, each with its message)
are `Failure`/`Fail` values. The library handle is the enum `Library = NumPy | JaxNumpy`.
diffeqzoo/ivps.py:1137-1152 reads `backend.random`, which the class at diffeqzoo/__init__.py:5-117 does not
define, so the model has no `random` accessor. odezoo/transform.py:21,63 concatenate with `axis=None`, which
flattens, so the model treats every state as a flat sequence, and a scalar is a sequence of length one.

## Model

| member | source | states |
|---|---|---|
| `BackendNames.Lower` | diffeqzoo/__init__.py:59 | `str.lower()`: same length, every upper-case letter replaced by its lower-case form, no upper-case letter left |
| `BackendNames.LowerExamples` | diffeqzoo/__init__.py:59 | "NumPy", "NUMPY" lower to "numpy" and "JAX", "Jax" to "jax" |
| `DiffeqzooBackend.Bind` | diffeqzoo/__init__.py:86-110 | a lower-case name binds a library iff it is "jax" or "numpy", the library is recorded under exactly that name, any other name is `ValueError("Backend implementation not known.")` |
| `DiffeqzooBackend.Backend.constructor` | diffeqzoo/__init__.py:32-36 | a fresh registry is valid, unselected, `has_been_selected` is false, both import caches empty |
| `DiffeqzooBackend.Backend.HasBeenSelected` | diffeqzoo/__init__.py:38-48 | true exactly when a name is recorded, and then the name is "jax" or "numpy" (handle and name are set together) |
| `DiffeqzooBackend.Backend.Numpy` | diffeqzoo/__init__.py:112-117 | fails with `Exception` iff unselected; otherwise returns exactly the library recorded under the selected name |
| `DiffeqzooBackend.Backend.SelectBackend` | diffeqzoo/__init__.py:79-110 | binds name and handle together for a known name and fills that library's import cache; an unknown name raises `ValueError` and changes nothing |
| `DiffeqzooBackend.Backend.Select` | diffeqzoo/__init__.py:50-59 | follows `SelectStep`: refused with `RuntimeError` once selected, else binds the lower-cased name and fills only that library's import cache; a failure changes nothing |
| `DiffeqzooBackend.Backend.ChangeTo` | diffeqzoo/__init__.py:62-77 | follows `ChangeToStep`: refused with `RuntimeError` before a selection, warns iff the lower-cased name is the current one, then re-binds and fills only the new library's import cache; a failure changes nothing |
| `DiffeqzooBackend.SelectIsOneShot` | diffeqzoo/__init__.py:57-58 | after a successful `select`, a second `select` with any name raises `RuntimeError` and keeps the state |
| `DiffeqzooBackend.SelectSucceedsExactly` | diffeqzoo/__init__.py:50-59 | `select` succeeds iff unselected and the lower-cased name is known, then records the lower-cased name; a failure keeps the state |
| `DiffeqzooBackend.UnknownNameRejected` | diffeqzoo/__init__.py:109-110 | an unknown name is a `ValueError`: a fresh registry stays unselected, and `change_to` on any selected registry fails without warning and keeps its choice |
| `DiffeqzooBackend.ChangeToNeedsSelection` | diffeqzoo/__init__.py:64-67 | `change_to` on a fresh registry raises `RuntimeError`, does not warn and stays unselected |
| `DiffeqzooBackend.RedundantChangeWarns` | diffeqzoo/__init__.py:71-77 | changing to the current name (any case) warns, succeeds and stays on that name |
| `DiffeqzooBackend.WarningMeansNoChange` | diffeqzoo/__init__.py:69-77 | `change_to` warns iff selected and the lower-cased name equals the current one; a warned call always succeeds and keeps the state |
| `DiffeqzooBackend.CaseInsensitive` | diffeqzoo/__init__.py:59-77 | `select` and `change_to` behave identically on a name and on its lower-cased form |
| `DiffeqzooBackend.SelectionIsPermanent` | diffeqzoo/__init__.py:50-77 | once selected, no sequence of calls returns the registry to unselected, and every later `select` fails |
| `DiffeqzooBackend.SelectSucceedsAtMostOnce` | diffeqzoo/__init__.py:50-77 | from a fresh registry, after a successful `select` every later `select` fails, and every successful `change_to` follows a successful `select` |
| `OdezooBackend.Chosen` | odezoo/__init__.py:22-25 | jax.numpy is bound iff the lower-cased name is "jax" |
| `OdezooBackend.Globals.constructor` | odezoo/__init__.py:3-7 | at import time the flag is false and `numpy_like` holds the placeholder "None" |
| `OdezooBackend.Globals.SetBackend` | odezoo/__init__.py:9-26 | follows `SetBackendStep`; on success raises the flag and binds the chosen module; a failure changes nothing |
| `OdezooBackend.AlreadySetWins` | odezoo/__init__.py:14-19 | once set, every call raises `RuntimeError`, even with an unknown name (the flag is checked before the name) |
| `OdezooBackend.SetBackendSucceedsExactly` | odezoo/__init__.py:14-26 | on an unset flag a call succeeds iff the lower-cased name is "jax" or "numpy", and the flag is raised iff it succeeds |
| `OdezooBackend.ChoiceCaseInsensitive` | odezoo/__init__.py:18-25 | the chosen module and the validity of a name do not depend on letter case |
| `OdezooBackend.SetIsFinal` | odezoo/__init__.py:14-15 | with the flag raised, every call in any sequence fails |
| `OdezooBackend.SetBackendSucceedsAtMostOnce` | odezoo/__init__.py:9-26 | in any sequence of calls at most one succeeds, and none does once the flag is raised |
| `DocstringUtils.Find` | odezoo/_docstring_utils.py:13 | `str.find`: -1 iff the character is absent, else the index of its first occurrence |
| `DocstringUtils.FirstLineEnd` | odezoo/_docstring_utils.py:13-17 | the end of the first line: the first newline, or the end when there is none |
| `DocstringUtils.AddLongDescription` | odezoo/_docstring_utils.py:4-17 | a missing docstring becomes the long description; otherwise the result is the first line, the long description, then the rest from the first newline on |
| `DocstringUtils.AddLongDescriptionIsInsertion` | odezoo/_docstring_utils.py:13-17 | the result is `|d| + |L|` long, holds L at the first line's end, and deleting that slice gives back d |
| `DocstringUtils.AddLongDescriptionOneLine` | odezoo/_docstring_utils.py:13-16 | a docstring without a newline gets the long description appended |
| `DocstringUtils.ReplaceShortSummary` | odezoo/_docstring_utils.py:20-27 | the summary followed by everything from the first newline on; just the summary for a missing or one-line docstring |
| `DocstringUtils.ReplaceShortSummaryReplacesFirstLine` | odezoo/_docstring_utils.py:20-27 | with a one-line summary, the new first line is the summary and the rest is unchanged |
| `DocstringUtils.ReplaceShortSummaryIdempotent` | odezoo/_docstring_utils.py:20-27 | replacing again with the same one-line summary changes nothing |
| `DocstringUtils.RestAfterAdding` | odezoo/_docstring_utils.py:4-27 | once a description that starts a new line is added, everything from the first newline on is that description followed by the old rest |
| `DocstringUtils.AddThenReplace` | odezoo/transform.py:43-51 | adding a description that starts a new line and then replacing the summary gives the summary, the description, then the rest of the original |
| `Transform.Disclaimer` | odezoo/transform.py:91-104 | the disclaimer starts with a newline and contains the function name at a fixed position |
| `Transform.TransformedDocShape` | odezoo/transform.py:78-86 | the new docstring is the summary line (the given one, or the original first line), then the disclaimer, then the rest of the original |
| `Transform.SplitInHalves` | odezoo/transform.py:61 | `numpy.split(y, 2)` succeeds iff the length is even, giving two equal-length halves that concatenate back to y; odd lengths raise `ValueError` |
| `Transform.SplitInHalvesOfConcat` | odezoo/transform.py:61-63 | splitting `u ++ du` with equal lengths gives back `(u, du)` |
| `Transform.FirstOrderStep` | odezoo/transform.py:60-63 | defined iff the state has even length; the output's first half is the state's second half, and the rest is `f(first half, second half, args)` with args passed unchanged |
| `Transform.TransformedFieldRoundTrip` | odezoo/transform.py:60-63 | the transformed field maps `u ++ du` to `du ++ f(u, du, args)`, and halving that output gives back `(du, f(u, du, args))` |
| `Transform.TransformedFieldKeepsLength` | odezoo/transform.py:61-63 | if f returns as many numbers as the position has, the output is as long as the state |
| `Transform.ScalarState` | odezoo/transform.py:60-63 | scalar position and velocity stack into a length-two state that the field maps to a length-two result |
| `Transform.SecondToFirstOrderVfAuto` | odezoo/transform.py:56-88 | the new function computes the transformed field, takes the original's module, and gets the disclaimer docstring (with the summary replaced when one is given) |
| `Transform.FirstOrderRecord` | odezoo/transform.py:18-28 | the new record stacks `(u0, du0)` into `u0 ++ du0`, carries the transformed field object, and keeps time span and field arguments |
| `Transform.FirstOrderRecordConsistent` | odezoo/transform.py:18-28 | the new initial state halves back into `(u0, du0)`, and the new field there returns `du0 ++ f(u0, du0, args)` |
| `Transform.TransformedFactoryCall` | odezoo/transform.py:12-28 | fails iff supplied initial values have odd length; omitted values are forwarded as None; supplied ones reach the wrapped factory as their two halves |
| `Transform.SuppliedInitialValuesRoundTrip` | odezoo/transform.py:14-21 | supplying `u0 ++ du0` hands `(u0, du0)` to the wrapped factory; a factory that keeps its input yields `u0 ++ du0` back |
| `Transform.SecondToFirstOrderAuto` | odezoo/transform.py:8-53 | the new factory runs the transformed call, takes the original's module, and gets the disclaimer docstring (with the summary replaced when one is given) |
| `Convert.SliceStop` | odezoo/convert.py:9 | where Python's `y[:d]` stops: d within bounds, counted from the end when negative, clamped to `[0, len]` |
| `Convert.Take` | odezoo/convert.py:9 | `y[:d]` is the first `SliceStop(len(y), d)` elements of `y` |
| `Convert.Drop` | odezoo/convert.py:9 | `y[d:]` is what follows `y[:d]`, so the two slices put together give back `y` |
| `Convert.Concatenation` | odezoo/convert.py:16 | `numpy.concatenate` along axis 0: the length is the sum of the lengths, the first array comes first, and a single array comes back unchanged |
| `Convert.ConcatenationOfAppend` | odezoo/convert.py:16 | every array appears in order: concatenating `a ++ b` is concatenating `a` followed by concatenating `b` |
| `Convert.ConcatenationOfPair` | odezoo/convert.py:16 | concatenating `(u0, du0)` gives `u0 ++ du0` |
| `Convert.SecondToFirstOrderAutonomous` | odezoo/convert.py:5-35 | no initial values give `ValueError`, a missing dimension `TypeError`; otherwise one concatenated initial array, `order` 1 iff it was set, `dimension` doubled or None when 0, arguments, time span and periodicity kept, autonomous, no solution, a Jacobian always present |
| `Convert.ConvertedFieldSplitsAtDimension` | odezoo/convert.py:8-14 | the converted field and Jacobian evaluate the originals on `y[:d]` and `y[d:]`; on a state of length 2d these are equal halves; a missing Jacobian fails when called |
| `Convert.ConvertedInitialValuesOfPair` | odezoo/convert.py:16 | initial values `(u0, du0)` become the one-element tuple `(u0 ++ du0,)` |
| `Convert.ConvertedDimensionHalves` | odezoo/convert.py:23 | a non-zero dimension doubles, so half of the new dimension is the old one |
| `Convert.ConvertedFieldDropsVelocity` | odezoo/convert.py:8-10 | as written, dimension 1, `f(u, du) = u` and state [3, 4] give [3]: one number for a two-number state, where order reduction gives [4, 3] |
| `Convert.SecondToFirstOrderAutonomousCorrected` | odezoo/convert.py:8-10 | the corrected conversion succeeds exactly when the as-written one does and differs from it only in the vector field |
| `Convert.CorrectedFieldPrependsVelocity` | odezoo/convert.py:8-10 | the corrected field returns `y[d:]` followed by what the as-written field returns |
| `Convert.CorrectedFieldMatchesTransform` | odezoo/convert.py:8-10 | on a state of length 2d the corrected field equals the order-reduction field of odezoo/transform.py, and it keeps the state's length when f returns d numbers |

## Findings

| source | as written | input that shows it | evidently intended | confidence | as-written member | corrected member |
|---|---|---|---|---|---|---|
| odezoo/convert.py:8-10 | the converted first-order field returns only `ivp.vector_field(u, du, *args)`, the acceleration | dimension 1, `f(u, du) = u`, state `[3, 4]`: the result is `[3]`, one number for a two-number state | return `du` followed by `f(u, du, *args)`, as odezoo/transform.py:63 does | high; not executed | `Convert.ConvertedFieldDropsVelocity` | `Convert.SecondToFirstOrderAutonomousCorrected` |

## Left out

- The real imports of `numpy` and `jax.numpy` (diffeqzoo/__init__.py:89,101; odezoo/__init__.py:23-25) are not modelled. A bound module is the opaque handle `Library`. The import caches hold the same handle.
- A failing import (diffeqzoo/__init__.py:89,101; odezoo/__init__.py:23,25) raises `ImportError` before anything is assigned when the library is not installed. The model assumes both libraries import, so `Bind` and `SetBackendStep` always succeed on a known name, and `SelectSucceedsExactly` and `SetBackendSucceedsExactly` hold only under that assumption.
- The record shape: odezoo/transform.py:18 unpacks the factory's result into exactly four values, which fits the four-field diffeqzoo record (diffeqzoo/ivps/_ivp.py:6-12). The model's `Transform.Problem` has those four fields. The nine-field records of odezoo/ivps.py:19-33 would make that line raise `ValueError`; this failure is not modelled.
- `warnings.warn` (diffeqzoo/__init__.py:72) is not modelled as I/O. `ChangeTo` returns a `warned` flag instead.
- The module-level singleton instance and its `__doc__` copy (diffeqzoo/__init__.py:120-123) are left out. The model constructs a `Backend` object explicitly.
- `BackendNames.Lower`: does not model Unicode lower-casing beyond ASCII. No other character lowers to any letter of "jax" or "numpy", so every comparison in the model decides as the code does.
- Reflection is left out: `inspect.currentframe().f_code.co_name` becomes the constant builder names, which are passed to `Disclaimer`.
- Transform: the calls to `backend.numpy.split` and `backend.numpy.concatenate` assume a selected backend. The accessor's failure before selection is modelled only in the registry, not propagated through the transformed functions.
- Arrays are flat sequences. Multi-dimensional shapes, 0-dimensional arrays and `axis` handling are not modelled beyond that flattening. The floating-point values themselves are opaque (`T`).
- Wrapped problem factories and original vector fields are total function values. Exceptions raised inside them are not modelled.
- In odezoo, `odezoo/ivps.py` declares no `dimension` field. The conversion record includes one, as conversion reads and writes it.
- `Convert.SecondToFirstOrderAutonomousCorrected`: corrects only the vector field. Its Jacobian is kept as written, because the block Jacobian of the first-order system needs matrix structure the model does not have.
- Concurrency: the registry and the globals have no locking; the model is single-threaded.
- The vector-field formulas, the problem factories, neural-ODE parameter initialisation, the documentation configuration and the notebook are catalogue data, floating-point numerics or tooling, and are not part of this model.
