/** String surgery on docstrings: insert a long description, replace the short summary. */
module DocstringUtils {
  import opened Wrappers

  /** `s.find(c)`: the index of the first occurrence of `c`, or -1 when there is none. */
  function Find(s: string, c: char): (n: int)
    ensures -1 <= n < |s|
    ensures n == -1 <==> c !in s
    ensures n >= 0 ==> s[n] == c && c !in s[..n]
  {
    if s == [] then -1
    else if s[0] == c then 0
    else
      var k := Find(s[1..], c);
      assert s == [s[0]] + s[1..];
      if k == -1 then -1
      else
        assert s[..k + 1] == [s[0]] + s[1..][..k];
        k + 1
  }

  /** Where the first line of `d` ends: its first newline, or the end of `d`. */
  function FirstLineEnd(d: string): (k: nat)
    ensures k <= |d|
    ensures '\n' !in d[..k]
    ensures k < |d| ==> d[k] == '\n'
  {
    var n := Find(d, '\n');
    if n == -1 then |d| else n
  }

  /** The short summary: the text before the first newline. */
  function FirstLine(d: string): (line: string)
    ensures '\n' !in line
  {
    d[..FirstLineEnd(d)]
  }

  /** Everything from the first newline on; empty for a missing or one-line docstring. */
  function Rest(docstring: Option<string>): (t: string)
    ensures t == [] || t[0] == '\n'
  {
    match docstring
    case None => []
    case Some(d) => d[FirstLineEnd(d)..]
  }

  /** A docstring is its first line followed by the rest. */
  lemma FirstLineThenRest(d: string)
    ensures FirstLine(d) + Rest(Some(d)) == d
  {
  }

  /** Searching past a prefix that does not hold `c` shifts the index by the prefix's length. */
  lemma {:induction false} FindPastPrefix(a: string, b: string, c: char)
    requires c !in a
    ensures Find(a + b, c) == if Find(b, c) == -1 then -1 else |a| + Find(b, c)
    decreases |a|
  {
    if a != [] {
      assert (a + b)[0] == a[0];
      assert (a + b)[1..] == a[1..] + b;
      FindPastPrefix(a[1..], b, c);
    } else {
      assert a + b == b;
    }
  }

  /** When `a` holds no newline and `b` is empty or starts a new line, the first line of `a + b` is `a`. */
  lemma FirstLineOfConcat(a: string, b: string)
    requires '\n' !in a
    requires b == [] || b[0] == '\n'
    ensures FirstLineEnd(a + b) == |a|
    ensures FirstLine(a + b) == a && Rest(Some(a + b)) == b
  {
    FindPastPrefix(a, b, '\n');
    if b != [] {
      assert Find(b, '\n') == 0;
    }
  }

  /**
   * `add_long_description`: a missing docstring becomes the long description;
   * otherwise the long description goes right after the first line.
   */
  function AddLongDescription(docstring: Option<string>, longDescription: string): (r: string)
    ensures docstring.None? ==> r == longDescription
    ensures docstring.Some? ==> r == FirstLine(docstring.value) + longDescription + Rest(docstring)
  {
    if docstring.None? then longDescription
    else
      var d := docstring.value;
      var n := Find(d, '\n');
      if n == -1 then d + longDescription
      else d[..n] + longDescription + d[n..]
  }

  /** Removing the inserted text gives back the original docstring; nothing else was touched. */
  lemma AddLongDescriptionIsInsertion(d: string, longDescription: string)
    ensures var r, k := AddLongDescription(Some(d), longDescription), FirstLineEnd(d);
            |r| == |d| + |longDescription| &&
            r[k..k + |longDescription|] == longDescription &&
            r[..k] + r[k + |longDescription|..] == d
  {
    var first, rest := FirstLine(d), Rest(Some(d));
    var r, k := AddLongDescription(Some(d), longDescription), FirstLineEnd(d);
    assert |first| == k;
    assert r == (first + longDescription) + rest;
    assert r[..k] == first;
    assert r[k..k + |longDescription|] == longDescription;
    assert r[k + |longDescription|..] == rest;
    FirstLineThenRest(d);
  }

  /** A one-line docstring simply has the long description appended. */
  lemma AddLongDescriptionOneLine(d: string, longDescription: string)
    requires '\n' !in d
    ensures AddLongDescription(Some(d), longDescription) == d + longDescription
  {
    assert FirstLineEnd(d) == |d|;
  }

  /**
   * `replace_short_summary`: the new summary followed by everything from the first
   * newline on; a missing or one-line docstring is replaced outright.
   */
  function ReplaceShortSummary(docstring: Option<string>, shortSummary: string): (r: string)
    ensures r == shortSummary + Rest(docstring)
    ensures docstring.None? || '\n' !in docstring.value ==> r == shortSummary
  {
    if docstring.None? then shortSummary
    else
      var d := docstring.value;
      var n := Find(d, '\n');
      if n == -1 then shortSummary
      else shortSummary + d[n..]
  }

  /** A one-line summary becomes the first line, and the rest of the docstring is kept. */
  lemma ReplaceShortSummaryReplacesFirstLine(docstring: Option<string>, shortSummary: string)
    requires '\n' !in shortSummary
    ensures FirstLine(ReplaceShortSummary(docstring, shortSummary)) == shortSummary
    ensures Rest(Some(ReplaceShortSummary(docstring, shortSummary))) == Rest(docstring)
  {
    FirstLineOfConcat(shortSummary, Rest(docstring));
  }

  /** Replacing the summary again with the same one-line summary changes nothing. */
  lemma ReplaceShortSummaryIdempotent(docstring: Option<string>, shortSummary: string)
    requires '\n' !in shortSummary
    ensures var r := ReplaceShortSummary(docstring, shortSummary);
            ReplaceShortSummary(Some(r), shortSummary) == r
  {
    ReplaceShortSummaryReplacesFirstLine(docstring, shortSummary);
  }

  /** After adding a long description that starts a new line, the rest is that description followed by the old rest. */
  lemma RestAfterAdding(docstring: Option<string>, longDescription: string)
    requires |longDescription| > 0 && longDescription[0] == '\n'
    ensures Rest(Some(AddLongDescription(docstring, longDescription))) == longDescription + Rest(docstring)
  {
    var first: string := if docstring.Some? then FirstLine(docstring.value) else [];
    var tail := longDescription + Rest(docstring);
    assert AddLongDescription(docstring, longDescription) == first + tail;
    FirstLineOfConcat(first, tail);
  }

  /**
   * Adding a long description that starts a new line and then replacing the summary
   * keeps the long description right after the summary line, followed by the old rest.
   */
  lemma AddThenReplace(docstring: Option<string>, longDescription: string, shortSummary: string)
    requires |longDescription| > 0 && longDescription[0] == '\n'
    ensures ReplaceShortSummary(Some(AddLongDescription(docstring, longDescription)), shortSummary)
            == shortSummary + longDescription + Rest(docstring)
  {
    RestAfterAdding(docstring, longDescription);
  }
}
