/**
 * The export validator (validate/validate_exports.go): walk the export folder
 * and check each file's first bytes against what its (case-sensitive)
 * extension promises, counting the files checked and the bad ones.
 */
module ExportCheck {
  import opened Wrappers
  import opened Files
  import opened Paths
  import opened FileTypes

  /** "%PDF" and "PK" as bytes. */
  const PdfText: seq<byte> := [0x25, 0x50, 0x44, 0x46]
  const PkText: seq<byte> := [0x50, 0x4B]

  /**
   * `data[:4]`: Go bounds a re-slice by the slice's capacity, not its length,
   * and the buffer `os.ReadFile` returns has room for at least 512 bytes,
   * zero past the end of the file. A file shorter than four bytes therefore
   * gives its own bytes followed by zeros.
   */
  function Magic(data: seq<byte>): (m: seq<byte>)
    ensures |m| == 4
    ensures forall i :: 0 <= i < |data| && i < 4 ==> m[i] == data[i]
    ensures forall i :: |data| <= i < 4 ==> m[i] == 0
  {
    if |data| >= 4 then data[..4] else data + seq(4 - |data|, _ => 0 as byte)
  }

  /** The extension switch on the four magic bytes; ".zip" and the Office formats compare only `magic[:2]`. */
  function MagicValid(ext: string, magic: seq<byte>): bool
    requires |magic| == 4
  {
    if ext == ".pdf" then magic == PdfText
    else if ext == ".docx" || ext == ".xlsx" || ext == ".pptx" || ext == ".zip" then magic[..2] == PkText
    else if ext == ".doc" then magic == OleMagic
    else ext == ".txt"
  }

  /**
   * Comparing a prefix of the padded magic with a pattern free of zero bytes
   * is the same as asking whether the file itself starts with the pattern.
   */
  lemma PaddingAgrees(data: seq<byte>, pattern: seq<byte>)
    requires |pattern| <= 4
    requires forall i :: 0 <= i < |pattern| ==> pattern[i] != 0
    ensures Magic(data)[..|pattern|] == pattern <==> HasMagic(data, pattern)
  {
    var m := Magic(data);
    if |pattern| <= |data| {
      assert m[..|pattern|] == data[..|pattern|];
    } else {
      assert m[|data|] == 0;
      assert m[..|pattern|][|data|] != pattern[|data|];
    }
  }

  /**
   * The judgement of a file with content: ".pdf" wants "%PDF", the Office Open
   * XML formats and ".zip" want "PK", ".doc" wants the OLE2 magic, ".txt" is
   * always accepted, any other extension never. Thanks to the zero padding
   * this is a test of the file's own first bytes.
   */
  function IsValidExport(ext: string, data: seq<byte>): (ok: bool)
    ensures ext == ".txt" ==> ok
    ensures ext == ".pdf" ==> (ok <==> HasMagic(data, PdfText))
    ensures ext in {".docx", ".xlsx", ".pptx", ".zip"} ==> (ok <==> HasMagic(data, PkText))
    ensures ext == ".doc" ==> (ok <==> HasMagic(data, OleMagic))
    ensures ext !in {".pdf", ".docx", ".xlsx", ".pptx", ".zip", ".doc", ".txt"} ==> !ok
  {
    var m := Magic(data);
    assert m[..4] == m;
    PaddingAgrees(data, PdfText);
    PaddingAgrees(data, PkText);
    PaddingAgrees(data, OleMagic);
    MagicValid(ext, m)
  }

  /** The case of the extension matters: an upper-case ".PDF" is never valid. */
  lemma ExtensionCaseSensitive(data: seq<byte>)
    ensures !IsValidExport(".PDF", data) && !IsValidExport(".DOCX", data)
  {
  }

  /** A file the exporter would name ".pdf", ".docx" or ".doc" by magic passes the export validator. */
  lemma DetectedNamePasses(data: seq<byte>)
    ensures HasMagic(data, PdfMagic) ==> IsValidExport(".pdf", data)
    ensures HasMagic(data, PkMagic) ==> IsValidExport(DetectFileType(ExportSignatures, data).0, data)
    ensures HasMagic(data, OleMagic) ==> IsValidExport(".doc", data)
  {
    if HasMagic(data, PkMagic) {
      ExportPkIsDocx(data);
      PrefixMagic(data, PkText, PkMagic);
    }
  }

  /** Files with content: reachable, not a directory, readable and not empty. */
  predicate HasContent(e: WalkEntry)
  {
    !e.accessError && !e.isDir && e.contents.Some? && |e.contents.value| > 0
  }

  /** Files that could not be read or were empty. */
  predicate Unusable(e: WalkEntry)
  {
    !e.accessError && !e.isDir && (e.contents.None? || |e.contents.value| == 0)
  }

  /** What the walk callback does with one entry. */
  datatype Judgement = Ignored | Unreadable | Empty | Checked(valid: bool)

  /** The walk callback: every file with content, however short, is checked. */
  function Judge(e: WalkEntry, sep: char): (j: Judgement)
    ensures j.Checked? <==> HasContent(e)
    ensures j == Unreadable || j == Empty <==> Unusable(e)
    ensures j.Checked? ==> (j.valid <==> IsValidExport(Ext(e.path, sep), e.contents.value))
  {
    if e.accessError || e.isDir then Ignored
    else if e.contents.None? then Unreadable
    else if |e.contents.value| == 0 then Empty
    else Checked(IsValidExport(Ext(e.path, sep), e.contents.value))
  }

  /** How one judgement changes (`count`, `badFiles`). */
  function Bump(t: (nat, nat), j: Judgement): (nat, nat)
  {
    match j
    case Unreadable => (t.0, t.1 + 1)
    case Empty => (t.0, t.1 + 1)
    case Checked(valid) => (t.0 + 1, if valid then t.1 else t.1 + 1)
    case Ignored => t
  }

  /** `count` and `badFiles` after the callback has seen `entries`. */
  function Tally(entries: seq<WalkEntry>, sep: char): (nat, nat)
  {
    if |entries| == 0 then (0, 0)
    else Bump(Tally(entries[..|entries| - 1], sep), Judge(entries[|entries| - 1], sep))
  }

  function CountContent(entries: seq<WalkEntry>): nat
  {
    if |entries| == 0 then 0
    else CountContent(entries[..|entries| - 1]) + (if HasContent(entries[|entries| - 1]) then 1 else 0)
  }

  function CountUnusable(entries: seq<WalkEntry>): nat
  {
    if |entries| == 0 then 0
    else CountUnusable(entries[..|entries| - 1]) + (if Unusable(entries[|entries| - 1]) then 1 else 0)
  }

  /** Files with content whose first bytes do not fit their extension. */
  function CountInvalid(entries: seq<WalkEntry>, sep: char): nat
  {
    if |entries| == 0 then 0
    else
      var e := entries[|entries| - 1];
      CountInvalid(entries[..|entries| - 1], sep)
      + (if HasContent(e) && !IsValidExport(Ext(e.path, sep), e.contents.value) then 1 else 0)
  }

  /**
   * The total is the number of files with content, and the bad files are the
   * unreadable or empty ones plus the files that fail their check; unreadable
   * and empty files are bad but not part of the total.
   */
  lemma {:induction false} TallyMeaning(entries: seq<WalkEntry>, sep: char)
    ensures Tally(entries, sep) == (CountContent(entries), CountUnusable(entries) + CountInvalid(entries, sep))
  {
    if |entries| > 0 {
      TallyMeaning(entries[..|entries| - 1], sep);
      BumpMeaning(Tally(entries[..|entries| - 1], sep), entries[|entries| - 1], sep);
    }
  }

  /** One entry adds one to the total if it has content, and one to the bad files if it is unusable or fails. */
  lemma BumpMeaning(t: (nat, nat), e: WalkEntry, sep: char)
    ensures Bump(t, Judge(e, sep))
            == (t.0 + (if HasContent(e) then 1 else 0),
                t.1 + (if Unusable(e) then 1 else 0)
                    + (if HasContent(e) && !IsValidExport(Ext(e.path, sep), e.contents.value) then 1 else 0))
  {
    var j := Judge(e, sep);
    if HasContent(e) {
      assert j == Checked(IsValidExport(Ext(e.path, sep), e.contents.value));
    } else if Unusable(e) {
      assert j == Unreadable || j == Empty;
    } else {
      assert j == Ignored;
    }
  }

  /** No more files fail their check than are checked. */
  lemma {:induction false} InvalidAmongChecked(entries: seq<WalkEntry>, sep: char)
    ensures CountInvalid(entries, sep) <= CountContent(entries)
  {
    if |entries| > 0 {
      InvalidAmongChecked(entries[..|entries| - 1], sep);
    }
  }

  /**
   * The validator's `main`: one pass over the walk. The callback never returns
   * an error, so the walk always ends with the summary of the two counters.
   */
  method CheckExports(entries: seq<WalkEntry>, sep: char) returns (count: nat, badFiles: nat)
    ensures (count, badFiles) == Tally(entries, sep)
    ensures count == CountContent(entries)
    ensures badFiles == CountUnusable(entries) + CountInvalid(entries, sep)
  {
    count, badFiles := 0, 0;
    var i := 0;
    while i < |entries|
      invariant 0 <= i <= |entries|
      invariant (count, badFiles) == Tally(entries[..i], sep)
    {
      assert entries[..i + 1][..i] == entries[..i];
      var e := entries[i];
      assert Tally(entries[..i + 1], sep) == Bump(Tally(entries[..i], sep), Judge(e, sep));
      if e.accessError {
      } else if e.isDir {
      } else if e.contents.None? {
        badFiles := badFiles + 1;
      } else if |e.contents.value| == 0 {
        badFiles := badFiles + 1;
      } else {
        var magic := Magic(e.contents.value);
        var valid := MagicValid(Ext(e.path, sep), magic);
        if !valid {
          badFiles := badFiles + 1;
        }
        count := count + 1;
      }
      i := i + 1;
    }
    assert entries[..i] == entries;
    TallyMeaning(entries, sep);
  }
}
