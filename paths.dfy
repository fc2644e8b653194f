/**
 * The parts of Go's `path/filepath` the tool uses. The host's path separator
 * is a parameter `sep`: '/' on Unix builds, '\\' on Windows builds, where '/'
 * is accepted as a separator too.
 */
module Paths {
  import opened Text

  predicate IsPathSeparator(c: char, sep: char) { c == '/' || c == sep }

  /** `filepath.ToSlash`: every host separator becomes '/'. */
  function ToSlash(path: string, sep: char): (r: string)
    ensures |r| == |path|
    ensures sep != '/' ==> sep !in r
  {
    if sep == '/' then path else ReplaceChar(path, sep, '/')
  }

  /**
   * `filepath.Ext`: the suffix that starts at the last '.' of the final path
   * element, or "" when that element has no '.'.
   */
  function Ext(path: string, sep: char): (e: string)
    ensures HasSuffix(path, e)
    ensures e != [] ==> e[0] == '.'
    ensures forall i :: 1 <= i < |e| ==> e[i] != '.' && !IsPathSeparator(e[i], sep)
  {
    if |path| == 0 then ""
    else
      var last := path[|path| - 1];
      if IsPathSeparator(last, sep) then ""
      else if last == '.' then "."
      else
        var e := Ext(path[..|path| - 1], sep);
        if e == "" then "" else e + [last]
  }

  /** An extension the tool appends (".docx", ".pdf", ...): one '.', then no '.' and no separator. */
  predicate IsPlainExtension(e: string, sep: char)
  {
    sep != '.' && |e| > 0 && e[0] == '.' && forall i :: 1 <= i < |e| ==> e[i] != '.' && !IsPathSeparator(e[i], sep)
  }

  /** Whatever the stem, `filepath.Ext` of `stem + e` is exactly the appended extension. */
  lemma {:induction false} ExtOfAppended(stem: string, e: string, sep: char)
    requires IsPlainExtension(e, sep)
    ensures Ext(stem + e, sep) == e
    decreases |e|
  {
    var p := stem + e;
    if |e| > 1 {
      var shorter := e[..|e| - 1];
      assert p[..|p| - 1] == stem + shorter;
      ExtOfAppended(stem, shorter, sep);
      assert p[|p| - 1] == e[|e| - 1];
      assert e[|e| - 1] != '.' && !IsPathSeparator(e[|e| - 1], sep);
      assert shorter + [e[|e| - 1]] == e;
    } else {
      assert p[|p| - 1] == e[0];
    }
  }
}
