/**
 * Magic-number detection (`detectFileType` with a `knownSignatures` table):
 * the first signature, in table order, whose magic bytes begin the data.
 * The exporter (main.go) and the detection validator
 * (validate_detect/main.go) each carry their own table.
 */
module FileTypes {
  import opened Wrappers
  import opened Files

  /** `FileSignature`: magic bytes, the extension they indicate and its MIME type. */
  datatype Signature = Signature(magic: seq<byte>, ext: string, mime: string)

  /** `data` is at least as long as `magic` and starts with it. */
  predicate HasMagic(data: seq<byte>, magic: seq<byte>)
  {
    |magic| <= |data| && data[..|magic|] == magic
  }

  /** The index of the first signature at or after `from` that matches, scanning in table order. */
  function FirstMatch(table: seq<Signature>, data: seq<byte>, from: nat): (c: Option<nat>)
    ensures c.Some? ==> from <= c.value < |table| && HasMagic(data, table[c.value].magic)
    ensures c.Some? ==> forall j :: from <= j < c.value ==> !HasMagic(data, table[j].magic)
    ensures c.None? ==> forall j :: from <= j < |table| ==> !HasMagic(data, table[j].magic)
    decreases |table| - from
  {
    if from >= |table| then None
    else if HasMagic(data, table[from].magic) then Some(from)
    else FirstMatch(table, data, from + 1)
  }

  const Unknown: (string, string) := ("unknown", "unknown")

  /** `detectFileType`: extension and MIME type of the first matching signature, else ("unknown", "unknown"). */
  function DetectFileType(table: seq<Signature>, data: seq<byte>): (r: (string, string))
    ensures FirstMatch(table, data, 0).None? ==> r == Unknown
    ensures FirstMatch(table, data, 0).Some? ==>
              r == (table[FirstMatch(table, data, 0).value].ext, table[FirstMatch(table, data, 0).value].mime)
  {
    match FirstMatch(table, data, 0)
    case None => Unknown
    case Some(i) => (table[i].ext, table[i].mime)
  }

  /** The choice is exactly "the first match": any matching entry with no match before it is the one chosen. */
  lemma FirstMatchIsLeast(table: seq<Signature>, data: seq<byte>, i: nat)
    requires i < |table| && HasMagic(data, table[i].magic)
    requires forall j :: 0 <= j < i ==> !HasMagic(data, table[j].magic)
    ensures FirstMatch(table, data, 0) == Some(i)
  {
  }

  lemma PrefixMagic(data: seq<byte>, m1: seq<byte>, m2: seq<byte>)
    requires HasMagic(m2, m1) && HasMagic(data, m2)
    ensures HasMagic(data, m1)
  {
    assert data[..|m1|] == data[..|m2|][..|m1|];
  }

  /**
   * An entry whose magic begins with the magic of an earlier entry is never
   * chosen: whatever it would match, the earlier one matches first.
   */
  lemma {:induction false} ShadowedNeverChosen(table: seq<Signature>, data: seq<byte>, earlier: nat, later: nat)
    requires earlier < later < |table|
    requires HasMagic(table[later].magic, table[earlier].magic)
    ensures FirstMatch(table, data, 0) != Some(later)
  {
    if FirstMatch(table, data, 0) == Some(later) {
      PrefixMagic(data, table[earlier].magic, table[later].magic);
      assert false;
    }
  }

  // ---------------------------------------------------------------------------
  // The exporter's table (main.go)
  // ---------------------------------------------------------------------------

  const PkMagic: seq<byte> := [0x50, 0x4B, 0x03, 0x04]
  const OleMagic: seq<byte> := [0xD0, 0xCF, 0x11, 0xE0]
  const PdfMagic: seq<byte> := [0x25, 0x50, 0x44, 0x46]
  const DocxMime := "application/vnd.openxmlformats-officedocument.wordprocessingml.document"

  const ExportSignatures: seq<Signature> := [
    Signature(PdfMagic, ".pdf", "application/pdf"),
    Signature(PkMagic, ".docx", DocxMime),
    Signature(PkMagic, ".xlsx", "application/vnd.openxmlformats-officedocument.spreadsheetml.sheet"),
    Signature(PkMagic, ".pptx", "application/vnd.openxmlformats-officedocument.presentationml.presentation"),
    Signature(OleMagic, ".doc", "application/msword"),
    Signature(OleMagic, ".msi", "application/x-msi"),
    Signature([0x4D, 0x5A], ".exe", "application/vnd.microsoft.portable-executable"),
    Signature([0x52, 0x61, 0x72, 0x21, 0x1A, 0x07, 0x00], ".rar", "application/x-rar-compressed"),
    Signature([0x1F, 0x8B, 0x08], ".gz", "application/gzip"),
    Signature([0x42, 0x4D], ".bmp", "image/bmp"),
    Signature([0x49, 0x49, 0x2A, 0x00], ".tif", "image/tiff"),
    Signature([0x4D, 0x4D, 0x00, 0x2A], ".tif", "image/tiff"),
    Signature([0x89, 0x50, 0x4E, 0x47], ".png", "image/png"),
    Signature([0xFF, 0xD8, 0xFF], ".jpg", "image/jpeg"),
    Signature([0x47, 0x49, 0x46, 0x38, 0x37, 0x61], ".gif", "image/gif"),
    Signature([0x47, 0x49, 0x46, 0x38, 0x39, 0x61], ".gif", "image/gif"),
    Signature([0x25, 0x21], ".ps", "application/postscript"),
    Signature([0x7B, 0x5C, 0x72, 0x74, 0x66], ".rtf", "application/rtf"),
    Signature([0x3C, 0x3F, 0x78, 0x6D, 0x6C], ".xml", "application/xml"),
    Signature([0x7B], ".json", "application/json"),
    Signature([0xFF, 0xFB], ".mp3", "audio/mpeg"),
    Signature([0x49, 0x44, 0x33], ".mp3", "audio/mpeg"),
    Signature([0x00, 0x00, 0x01, 0xBA], ".mpg", "video/mpeg"),
    Signature([0x00, 0x00, 0x01, 0xB3], ".mpg", "video/mpeg"),
    Signature([0x66, 0x74, 0x79, 0x70], ".mp4", "video/mp4"),
    Signature([0x52, 0x49, 0x46, 0x46], ".avi", "video/x-msvideo"),
    Signature([0x00, 0x61, 0x73, 0x6D], ".wasm", "application/wasm"),
    Signature(PkMagic, ".zip", "application/zip")
  ]

  /** Anything that starts with `PK\x03\x04` is reported as a Word document. */
  lemma ExportPkIsDocx(data: seq<byte>)
    requires HasMagic(data, PkMagic)
    ensures DetectFileType(ExportSignatures, data) == (".docx", DocxMime)
  {
    FirstMatchIsLeast(ExportSignatures, data, 1);
  }

  /**
   * The ".xlsx", ".pptx" and ".zip" entries sit behind the ".docx" entry and the
   * ".msi" entry behind the ".doc" entry, with the same magic: none of them is
   * ever chosen.
   */
  lemma ExportShadowedEntries(data: seq<byte>)
    ensures FirstMatch(ExportSignatures, data, 0) != Some(2)
    ensures FirstMatch(ExportSignatures, data, 0) != Some(3)
    ensures FirstMatch(ExportSignatures, data, 0) != Some(5)
    ensures FirstMatch(ExportSignatures, data, 0) != Some(27)
  {
    var t := ExportSignatures;
    assert t[1].magic == PkMagic;
    assert t[2].magic == PkMagic;
    assert t[3].magic == PkMagic;
    assert t[27].magic == PkMagic;
    assert t[4].magic == OleMagic;
    assert t[5].magic == OleMagic;
    ShadowedNeverChosen(t, data, 1, 2);
    ShadowedNeverChosen(t, data, 1, 3);
    ShadowedNeverChosen(t, data, 4, 5);
    ShadowedNeverChosen(t, data, 1, 27);
  }

  /** Hence the exporter never reports ".xlsx", ".pptx", ".msi" or ".zip". */
  lemma ExportNeverReports(data: seq<byte>)
    ensures DetectFileType(ExportSignatures, data).0 !in {".xlsx", ".pptx", ".msi", ".zip"}
  {
    ExportShadowedEntries(data);
    var c := FirstMatch(ExportSignatures, data, 0);
    if c.Some? {
      var i := c.value;
      assert i != 2 && i != 3 && i != 5 && i != 27;
      assert ExportSignatures[i].ext !in {".xlsx", ".pptx", ".msi", ".zip"};
    }
  }

  // ---------------------------------------------------------------------------
  // The validator's table (validate_detect/main.go)
  // ---------------------------------------------------------------------------

  const ValidatorSignatures: seq<Signature> := [
    Signature(PdfMagic, ".pdf", "application/pdf"),
    Signature(PkMagic, ".docx", DocxMime),
    Signature(OleMagic, ".doc", "application/msword"),
    Signature(PkMagic, ".xlsx", "application/vnd.openxmlformats-officedocument.spreadsheetml.sheet"),
    Signature(PkMagic, ".pptx", "application/vnd.openxmlformats-officedocument.presentationml.presentation"),
    Signature([0x89, 0x50, 0x4E, 0x47], ".png", "image/png"),
    Signature([0xFF, 0xD8, 0xFF], ".jpg", "image/jpeg")
  ]

  /** The validator too reports every `PK\x03\x04` file as ".docx" ... */
  lemma ValidatorPkIsDocx(data: seq<byte>)
    requires HasMagic(data, PkMagic)
    ensures DetectFileType(ValidatorSignatures, data) == (".docx", DocxMime)
  {
    FirstMatchIsLeast(ValidatorSignatures, data, 1);
  }

  /** ... so it never reports ".xlsx" or ".pptx". */
  lemma ValidatorShadowedEntries(data: seq<byte>)
    ensures DetectFileType(ValidatorSignatures, data).0 !in {".xlsx", ".pptx"}
  {
    var t := ValidatorSignatures;
    ShadowedNeverChosen(t, data, 1, 3);
    ShadowedNeverChosen(t, data, 1, 4);
  }

  // ---------------------------------------------------------------------------
  // Detection that keeps a matching extension (corrected)
  // ---------------------------------------------------------------------------

  /** The index of the first signature at or after `from` that matches and carries extension `ext`. */
  function FirstMatchWithExt(table: seq<Signature>, data: seq<byte>, ext: string, from: nat): (c: Option<nat>)
    ensures c.Some? ==> from <= c.value < |table| && HasMagic(data, table[c.value].magic) && table[c.value].ext == ext
    ensures c.None? ==> forall j :: from <= j < |table| && table[j].ext == ext ==> !HasMagic(data, table[j].magic)
    decreases |table| - from
  {
    if from >= |table| then None
    else if HasMagic(data, table[from].magic) && table[from].ext == ext then Some(from)
    else FirstMatchWithExt(table, data, ext, from + 1)
  }

  /**
   * Detection as the tables evidently intend it: when some signature with the
   * file's current extension matches the data, that extension is kept;
   * otherwise the first match decides, as in `detectFileType`.
   */
  function DetectFor(table: seq<Signature>, data: seq<byte>, current: string): (r: (string, string))
    ensures FirstMatchWithExt(table, data, current, 0).Some? ==> r.0 == current
    ensures FirstMatchWithExt(table, data, current, 0).None? ==> r == DetectFileType(table, data)
  {
    match FirstMatchWithExt(table, data, current, 0)
    case Some(i) => (table[i].ext, table[i].mime)
    case None => DetectFileType(table, data)
  }

  /**
   * The corrected detection only departs from `detectFileType` to confirm the
   * current extension, and it confirms it exactly when a signature with that
   * extension matches.
   */
  lemma DetectForConfirms(table: seq<Signature>, data: seq<byte>, current: string)
    ensures DetectFileType(table, data).0 == current ==> DetectFor(table, data, current).0 == current
    ensures DetectFor(table, data, current).0 != DetectFileType(table, data).0 ==> DetectFor(table, data, current).0 == current
    ensures (exists i :: 0 <= i < |table| && table[i].ext == current && HasMagic(data, table[i].magic))
            ==> DetectFor(table, data, current).0 == current
  {
    if exists i :: 0 <= i < |table| && table[i].ext == current && HasMagic(data, table[i].magic) {
      assert FirstMatchWithExt(table, data, current, 0).Some?;
    }
  }

  /** The exporter's table also lists ".zip" with the same magic; the corrected detection keeps it too. */
  lemma ExportPkKeepsOwnExtension(data: seq<byte>, current: string)
    requires HasMagic(data, PkMagic)
    requires current in {".docx", ".xlsx", ".pptx", ".zip"}
    ensures DetectFor(ExportSignatures, data, current).0 == current
  {
    var k := if current == ".docx" then 1 else if current == ".xlsx" then 2 else if current == ".pptx" then 3 else 27;
    assert ExportSignatures[k].ext == current && ExportSignatures[k].magic == PkMagic;
    DetectForConfirms(ExportSignatures, data, current);
  }

  /** With the corrected detection, an Office Open XML file keeps its own extension under both tables. */
  lemma PkKeepsOwnExtension(data: seq<byte>, current: string)
    requires HasMagic(data, PkMagic)
    requires current in {".docx", ".xlsx", ".pptx"}
    ensures DetectFor(ExportSignatures, data, current).0 == current
    ensures DetectFor(ValidatorSignatures, data, current).0 == current
  {
    var k := if current == ".docx" then 1 else if current == ".xlsx" then 2 else 3;
    assert ExportSignatures[k].ext == current && ExportSignatures[k].magic == PkMagic;
    DetectForConfirms(ExportSignatures, data, current);
    var v := if current == ".docx" then 1 else if current == ".xlsx" then 3 else 4;
    assert ValidatorSignatures[v].ext == current && ValidatorSignatures[v].magic == PkMagic;
    DetectForConfirms(ValidatorSignatures, data, current);
  }
}
