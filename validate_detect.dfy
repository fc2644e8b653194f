/**
 * The detection validator (validate_detect/main.go): walk the export folder,
 * detect each file's type by magic number and compare it with the file's
 * lower-cased extension, counting the files examined, those with the wrong
 * extension and those not recognised.
 */
module DetectReport {
  import opened Wrappers
  import opened Files
  import opened Text
  import opened Paths
  import opened FileTypes

  /** What the validator makes of one walk entry. */
  datatype Verdict = Skipped | TooSmall | Unrecognised | WrongExtension | Valid

  /** The file's current extension as the validator compares it. */
  function CurrentExt(e: WalkEntry, sep: char): string
  {
    ToLower(Ext(e.path, sep))
  }

  /**
   * The detected extension: first match as written (`keepMatching` false), or
   * the corrected detection that keeps a matching current extension.
   */
  function Detected(data: seq<byte>, current: string, keepMatching: bool): string
  {
    if keepMatching then DetectFor(ValidatorSignatures, data, current).0
    else DetectFileType(ValidatorSignatures, data).0
  }

  /** Entries that the validator counts in its total: reachable files, readable, of at least four bytes. */
  predicate Examined(e: WalkEntry)
  {
    !e.accessError && !e.isDir && e.contents.Some? && |e.contents.value| >= 4
  }

  /** The walk callback's decision for one entry. */
  function Classify(e: WalkEntry, sep: char, keepMatching: bool): (v: Verdict)
    ensures v in {Unrecognised, WrongExtension, Valid} <==> Examined(e)
    ensures v == Valid ==> Detected(e.contents.value, CurrentExt(e, sep), keepMatching) == CurrentExt(e, sep)
    ensures v == WrongExtension ==> Detected(e.contents.value, CurrentExt(e, sep), keepMatching) != CurrentExt(e, sep)
    ensures v == WrongExtension ==> Detected(e.contents.value, CurrentExt(e, sep), keepMatching) != "unknown"
    ensures Examined(e) ==> (v == Unrecognised <==> Detected(e.contents.value, CurrentExt(e, sep), keepMatching) == "unknown")
  {
    if e.accessError || e.isDir || e.contents.None? then Skipped
    else if |e.contents.value| < 4 then TooSmall
    else
      var current := CurrentExt(e, sep);
      var actual := Detected(e.contents.value, current, keepMatching);
      if actual == "unknown" then Unrecognised
      else if actual != current then WrongExtension
      else Valid
  }

  function CountVerdict(entries: seq<WalkEntry>, v: Verdict, sep: char, keepMatching: bool): nat
  {
    if |entries| == 0 then 0
    else CountVerdict(entries[..|entries| - 1], v, sep, keepMatching)
         + (if Classify(entries[|entries| - 1], sep, keepMatching) == v then 1 else 0)
  }

  function CountExamined(entries: seq<WalkEntry>): nat
  {
    if |entries| == 0 then 0
    else CountExamined(entries[..|entries| - 1]) + (if Examined(entries[|entries| - 1]) then 1 else 0)
  }

  /** The total the tool prints is the number of valid, wrongly named and unrecognised files together. */
  lemma {:induction false} TotalPartition(entries: seq<WalkEntry>, sep: char, keepMatching: bool)
    ensures CountExamined(entries)
            == CountVerdict(entries, Valid, sep, keepMatching)
               + CountVerdict(entries, WrongExtension, sep, keepMatching)
               + CountVerdict(entries, Unrecognised, sep, keepMatching)
  {
    if |entries| > 0 {
      TotalPartition(entries[..|entries| - 1], sep, keepMatching);
    }
  }

  /** How the counts over the first `i + 1` entries extend those over the first `i`. */
  lemma CountsSnoc(entries: seq<WalkEntry>, i: nat, sep: char, keepMatching: bool)
    requires i < |entries|
    ensures CountExamined(entries[..i + 1]) == CountExamined(entries[..i]) + (if Examined(entries[i]) then 1 else 0)
    ensures forall v :: CountVerdict(entries[..i + 1], v, sep, keepMatching)
                        == CountVerdict(entries[..i], v, sep, keepMatching) + (if Classify(entries[i], sep, keepMatching) == v then 1 else 0)
  {
    assert entries[..i + 1][..i] == entries[..i];
  }

  /** The validator's `main`: one pass over the walk, counting as it goes. */
  method Report(entries: seq<WalkEntry>, sep: char, keepMatching: bool) returns (total: nat, mismatch: nat, unknown: nat)
    ensures total == CountExamined(entries)
    ensures mismatch == CountVerdict(entries, WrongExtension, sep, keepMatching)
    ensures unknown == CountVerdict(entries, Unrecognised, sep, keepMatching)
  {
    total, mismatch, unknown := 0, 0, 0;
    var i := 0;
    while i < |entries|
      invariant 0 <= i <= |entries|
      invariant total == CountExamined(entries[..i])
      invariant mismatch == CountVerdict(entries[..i], WrongExtension, sep, keepMatching)
      invariant unknown == CountVerdict(entries[..i], Unrecognised, sep, keepMatching)
    {
      CountsSnoc(entries, i, sep, keepMatching);
      var e := entries[i];
      if e.accessError || e.isDir {
      } else if e.contents.None? {
      } else if |e.contents.value| < 4 {
      } else {
        total := total + 1;
        var current := ToLower(Ext(e.path, sep));
        var actual := Detected(e.contents.value, current, keepMatching);
        if actual == "unknown" {
          unknown := unknown + 1;
        } else if actual != current {
          mismatch := mismatch + 1;
        }
      }
      i := i + 1;
    }
    assert entries[..i] == entries;
  }

  /** As written, every genuine spreadsheet or presentation is reported as having the wrong extension. */
  lemma OfficeFileFlagged(e: WalkEntry, sep: char)
    requires Examined(e) && HasMagic(e.contents.value, PkMagic)
    requires CurrentExt(e, sep) in {".xlsx", ".pptx"}
    ensures Classify(e, sep, false) == WrongExtension
  {
    ValidatorPkIsDocx(e.contents.value);
  }

  /** With the corrected detection the same files are valid. */
  lemma OfficeFileAccepted(e: WalkEntry, sep: char)
    requires Examined(e) && HasMagic(e.contents.value, PkMagic)
    requires CurrentExt(e, sep) in {".docx", ".xlsx", ".pptx"}
    ensures Classify(e, sep, true) == Valid
  {
    PkKeepsOwnExtension(e.contents.value, CurrentExt(e, sep));
  }

  /** Hence the corrected report never counts more mismatches than the one as written. */
  lemma {:induction false} CorrectionReducesMismatches(entries: seq<WalkEntry>, sep: char)
    ensures CountVerdict(entries, WrongExtension, sep, true) <= CountVerdict(entries, WrongExtension, sep, false)
    ensures CountVerdict(entries, Unrecognised, sep, true) == CountVerdict(entries, Unrecognised, sep, false)
  {
    if |entries| > 0 {
      var last := entries[|entries| - 1];
      CorrectionReducesMismatches(entries[..|entries| - 1], sep);
      CorrectionOnlyConfirms(last, sep);
    }
  }

  /**
   * The correction only turns reports into "valid": a file it reports as
   * wrongly named was reported so as written, and it reports a file as
   * unrecognised exactly when the validator as written does.
   */
  lemma CorrectionOnlyConfirms(e: WalkEntry, sep: char)
    ensures Classify(e, sep, true) == WrongExtension ==> Classify(e, sep, false) == WrongExtension
    ensures Classify(e, sep, true) == Unrecognised <==> Classify(e, sep, false) == Unrecognised
  {
    if Examined(e) {
      DetectForConfirms(ValidatorSignatures, e.contents.value, CurrentExt(e, sep));
    }
  }
}
