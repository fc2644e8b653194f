/**
 * Turning a destination path into the path segment of a Microsoft Graph
 * `root:/<path>:` URL (sharepoint/upload.go). `url.PathEscape` is taken as an
 * uninterpreted per-segment function `esc`.
 */
module SharePointPaths {
  import opened Text

  /** `url.PathEscape` applied to every segment, in order. */
  function EscapeAll(parts: seq<string>, esc: string -> string): (r: seq<string>)
    ensures |r| == |parts|
    ensures forall k :: 0 <= k < |parts| ==> r[k] == esc(parts[k])
  {
    seq(|parts|, k requires 0 <= k < |parts| => esc(parts[k]))
  }

  /**
   * `escapeSharePointPath`: split on '/', escape each segment in place in the
   * slice of parts, join again with '/'.
   */
  method EscapeSharePointPath(path: string, esc: string -> string) returns (r: string)
    ensures r == Join(EscapeAll(Split(path, '/'), esc), '/')
  {
    var parts := Split(path, '/');
    var a := new string[|parts|](k requires 0 <= k < |parts| => parts[k]);
    var i := 0;
    while i < a.Length
      invariant 0 <= i <= a.Length == |parts|
      invariant forall k :: 0 <= k < i ==> a[k] == esc(parts[k])
      invariant forall k :: i <= k < a.Length ==> a[k] == parts[k]
    {
      a[i] := esc(a[i]);
      i := i + 1;
    }
    assert a[..] == EscapeAll(parts, esc);
    r := Join(a[..], '/');
  }

  /**
   * As long as escaping never produces a '/', the escaped path has exactly the
   * segments of the original, each escaped, in the same order: one more
   * segment than the original has separators.
   */
  lemma SegmentsPreserved(path: string, esc: string -> string)
    requires forall s :: '/' !in esc(s)
    ensures Split(Join(EscapeAll(Split(path, '/'), esc), '/'), '/') == EscapeAll(Split(path, '/'), esc)
    ensures |Split(Join(EscapeAll(Split(path, '/'), esc), '/'), '/')| == Count(path, '/') + 1
  {
    var escaped := EscapeAll(Split(path, '/'), esc);
    SplitJoin(escaped, '/');
    SplitCount(path, '/');
  }

  /** `strings.ReplaceAll(s, "//", "/")`: non-overlapping, scanning left to right. */
  function ReplaceDoubleSlash(s: string): (r: string)
    ensures |r| <= |s|
    ensures '\\' !in s ==> '\\' !in r
  {
    if |s| >= 2 && s[0] == '/' && s[1] == '/' then "/" + ReplaceDoubleSlash(s[2..])
    else if |s| == 0 then ""
    else [s[0]] + ReplaceDoubleSlash(s[1..])
  }

  /** A path with no "//" in it. */
  predicate SingleSlashed(s: string)
  {
    forall i :: 0 <= i < |s| - 1 ==> !(s[i] == '/' && s[i + 1] == '/')
  }

  lemma {:induction false} ReplaceDoubleSlashKeeps(s: string)
    requires SingleSlashed(s)
    ensures ReplaceDoubleSlash(s) == s
  {
    if |s| > 0 {
      assert SingleSlashed(s[1..]) by {
        forall i | 0 <= i < |s[1..]| - 1 ensures !(s[1..][i] == '/' && s[1..][i + 1] == '/') {
          assert s[1..][i] == s[i + 1] && s[1..][i + 1] == s[i + 2];
        }
      }
      ReplaceDoubleSlashKeeps(s[1..]);
    }
  }

  /**
   * The clean-up `UploadFileChunkedResumeV2` applies before escaping:
   * backslashes become '/', one leading '/' is dropped, "//" becomes "/".
   */
  function CleanSharePointPath(path: string): (r: string)
    ensures '\\' !in r
    ensures |r| <= |path|
  {
    var slashed := ReplaceChar(path, '\\', '/');
    ReplaceDoubleSlash(TrimPrefix(slashed, "/"))
  }

  /** Either separator a Windows-style or a '/'-style destination path may use. */
  predicate IsSeparator(c: char) { c == '/' || c == '\\' }

  /** Two separators in a row at `i`. */
  predicate SeparatorPair(path: string, i: nat)
    requires i < |path| - 1
  {
    IsSeparator(path[i]) && IsSeparator(path[i + 1])
  }

  /** 1 when the path starts with a separator, else 0. */
  function LeadingSeparator(path: string): nat
  {
    if |path| > 0 && IsSeparator(path[0]) then 1 else 0
  }

  /**
   * For a path in which no two separators are adjacent, the clean-up turns
   * every backslash into '/', drops one leading separator, and keeps every
   * other rune where it was.
   */
  lemma CleanNormalisesSeparators(path: string)
    requires forall i :: 0 <= i < |path| - 1 ==> !SeparatorPair(path, i)
    ensures |CleanSharePointPath(path)| == |path| - LeadingSeparator(path)
    ensures forall i :: 0 <= i < |CleanSharePointPath(path)| ==>
              CleanSharePointPath(path)[i] == (if IsSeparator(path[i + LeadingSeparator(path)]) then '/' else path[i + LeadingSeparator(path)])
  {
    var slashed := ReplaceChar(path, '\\', '/');
    var d := LeadingSeparator(path);
    var trimmed := TrimPrefix(slashed, "/");
    if d == 1 {
      assert HasPrefix(slashed, "/") by { assert slashed[..1] == "/"; }
    } else if |path| > 0 {
      assert slashed[0] != '/';
    }
    assert trimmed == slashed[d..];
    assert SingleSlashed(trimmed) by {
      forall i | 0 <= i < |trimmed| - 1 ensures !(trimmed[i] == '/' && trimmed[i + 1] == '/') {
        assert trimmed[i] == slashed[i + d] && trimmed[i + 1] == slashed[i + d + 1];
        assert !SeparatorPair(path, i + d);
      }
    }
    ReplaceDoubleSlashKeeps(trimmed);
    var r := CleanSharePointPath(path);
    assert r == trimmed;
    forall i | 0 <= i < |r| ensures r[i] == (if IsSeparator(path[i + d]) then '/' else path[i + d]) {
      assert r[i] == slashed[i + d];
    }
  }

  /** A path that is already clean is left exactly as it is. */
  lemma CleanKeepsCleanPath(path: string)
    requires '\\' !in path
    requires !HasPrefix(path, "/")
    requires SingleSlashed(path)
    ensures CleanSharePointPath(path) == path
  {
    assert ReplaceChar(path, '\\', '/') == path;
    ReplaceDoubleSlashKeeps(path);
  }
}
