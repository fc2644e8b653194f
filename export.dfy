/**
 * The document exporter (main.go): how an exported file is named, typed and
 * renamed, how the row window of the export query is normalised, and how
 * folder access records are merged into the users file by `SaveUser`.
 */
module Export {
  import opened Wrappers
  import opened Files
  import opened Text
  import opened Paths
  import opened FileTypes

  // ---------------------------------------------------------------------------
  // sanitizeFileName
  // ---------------------------------------------------------------------------

  /** The characters Windows and SharePoint refuse in a file name. */
  predicate Reserved(c: char)
  {
    c == '/' || c == '\\' || c == ':' || c == '*' || c == '?' || c == '"' || c == '<' || c == '>' || c == '|'
  }

  /** `sanitizeFileName`: every reserved character becomes '_', every other rune stays. */
  function SanitizeFileName(name: string): (r: string)
    ensures |r| == |name|
    ensures forall i :: 0 <= i < |name| ==> !Reserved(r[i])
    ensures forall i :: 0 <= i < |name| ==> (Reserved(name[i]) <==> r[i] != name[i])
  {
    seq(|name|, i requires 0 <= i < |name| => if Reserved(name[i]) then '_' else name[i])
  }

  /** A name without reserved characters is kept exactly as it is. */
  lemma SanitizeKeepsSafeName(name: string)
    requires forall i :: 0 <= i < |name| ==> !Reserved(name[i])
    ensures SanitizeFileName(name) == name
  {
  }

  /** Sanitising twice gives what sanitising once gives. */
  lemma SanitizeIdempotent(name: string)
    ensures SanitizeFileName(SanitizeFileName(name)) == SanitizeFileName(name)
  {
    SanitizeKeepsSafeName(SanitizeFileName(name));
  }

  // ---------------------------------------------------------------------------
  // getExtensionFromMime
  // ---------------------------------------------------------------------------

  /** The key the MIME switch looks up: trimmed and lower-cased. */
  function NormalizeMime(mime: string): string
  {
    ToLower(TrimSpace(mime))
  }

  predicate NoOuterSpace(s: string)
  {
    s == [] || (!IsSpace(s[0]) && !IsSpace(s[|s| - 1]))
  }

  lemma TrimSpaceResult(s: string)
    ensures NoOuterSpace(TrimSpace(s))
  {
    var l := TrimLeftSpace(s);
    var r := TrimRightSpace(l);
    if r != [] {
      assert r[0] == l[0];
    }
  }

  lemma TrimSpaceKeeps(s: string)
    requires NoOuterSpace(s)
    ensures TrimSpace(s) == s
  {
  }

  lemma LowerCharKeepsSpace(c: char)
    ensures IsSpace(LowerChar(c)) <==> IsSpace(c)
    ensures LowerChar(LowerChar(c)) == LowerChar(c)
  {
  }

  /** Normalising a normalised MIME type changes nothing. */
  lemma NormalizeMimeIdempotent(mime: string)
    ensures NormalizeMime(NormalizeMime(mime)) == NormalizeMime(mime)
  {
    var t := TrimSpace(mime);
    var u := ToLower(t);
    TrimSpaceResult(mime);
    if u != [] {
      LowerCharKeepsSpace(t[0]);
      LowerCharKeepsSpace(t[|t| - 1]);
    }
    TrimSpaceKeeps(u);
    forall i | 0 <= i < |u| ensures LowerChar(u[i]) == u[i] {
      LowerCharKeepsSpace(t[i]);
    }
  }

  const MimeExtensions: map<string, string> := map[
    "application/pdf" := ".pdf",
    "application/msword" := ".doc",
    "application/vnd.openxmlformats-officedocument.wordprocessingml.document" := ".docx",
    "application/vnd.ms-excel" := ".xls",
    "application/vnd.openxmlformats-officedocument.spreadsheetml.sheet" := ".xlsx",
    "image/jpeg" := ".jpg",
    "image/png" := ".png",
    "application/zip" := ".zip",
    "text/plain" := ".txt",
    "text/csv" := ".csv",
    "application/json" := ".json"
  ]

  /** `getExtensionFromMime`: the listed extension of the normalised type, ".bin" for anything unlisted. */
  function ExtensionFromMime(mime: string): (e: string)
    ensures NormalizeMime(mime) !in MimeExtensions ==> e == ".bin"
    ensures NormalizeMime(mime) in MimeExtensions ==> e == MimeExtensions[NormalizeMime(mime)]
  {
    var key := NormalizeMime(mime);
    if key in MimeExtensions then MimeExtensions[key] else ".bin"
  }

  /** Surrounding white space and letter case never change the answer. */
  lemma ExtensionFromMimeNormalized(mime: string)
    ensures ExtensionFromMime(NormalizeMime(mime)) == ExtensionFromMime(mime)
  {
    NormalizeMimeIdempotent(mime);
  }

  // ---------------------------------------------------------------------------
  // GetFolderRolePermission and the access records
  // ---------------------------------------------------------------------------

  /** `types.FolderRoleAccess`. */
  datatype FolderRoleAccess = FolderRoleAccess(folderRole: string, rolePermission: string)

  /** `types.EmailAccess`; the SharePoint role may be nil. */
  datatype EmailAccess = EmailAccess(email: string, folderRole: string, sharepointRole: Option<FolderRoleAccess>)

  /** A record of the users file: one folder and who may access it. */
  datatype User = User(folderId: string, folderPath: string, emailAccess: seq<EmailAccess>)

  predicate KnownRole(role: string)
  {
    role == "FOLDER_VIEWER" || role == "FOLDER_CONTRIBUTOR" || role == "FOLDER_ADMIN"
  }

  /**
   * `GetFolderRolePermission`: viewers read, contributors write, admins own,
   * and any other role may view; the role itself is echoed.
   */
  function FolderRolePermission(role: string): (r: FolderRoleAccess)
    ensures r.folderRole == role
    ensures r.rolePermission == "view" <==> !KnownRole(role)
    ensures r.rolePermission in {"read", "write", "owner", "view"}
  {
    var permission :=
      if role == "FOLDER_VIEWER" then "read"
      else if role == "FOLDER_CONTRIBUTOR" then "write"
      else if role == "FOLDER_ADMIN" then "owner"
      else "view";
    FolderRoleAccess(role, permission)
  }

  /** Different known roles get different permissions, so a permission names its role. */
  lemma KnownRolePermissionsDistinct(a: string, b: string)
    requires KnownRole(a) && KnownRole(b) && a != b
    ensures FolderRolePermission(a).rolePermission != FolderRolePermission(b).rolePermission
  {
  }

  // ---------------------------------------------------------------------------
  // SaveUser
  // ---------------------------------------------------------------------------

  predicate HasEmail(accesses: seq<EmailAccess>, email: string)
  {
    exists k :: 0 <= k < |accesses| && accesses[k].email == email
  }

  /** The index of the first record at or after `from` for the folder. */
  function FindFolder(users: seq<User>, folderId: string, from: nat): (r: Option<nat>)
    ensures r.Some? ==> from <= r.value < |users| && users[r.value].folderId == folderId
    ensures r.Some? ==> forall j :: from <= j < r.value ==> users[j].folderId != folderId
    ensures r.None? ==> forall j :: from <= j < |users| ==> users[j].folderId != folderId
    decreases |users| - from
  {
    if from >= |users| then None
    else if users[from].folderId == folderId then Some(from)
    else FindFolder(users, folderId, from + 1)
  }

  /** The second entry a new folder record gets: the same address as a viewer. */
  function ViewerCopy(email: EmailAccess): EmailAccess
  {
    EmailAccess(email.email, "FOLDER_VIEWER", Some(FolderRolePermission("FOLDER_VIEWER")))
  }

  /** The access list of a record after `SaveUser`: the address is appended unless it is already there. */
  function AddAccess(accesses: seq<EmailAccess>, email: EmailAccess): (r: seq<EmailAccess>)
    ensures HasEmail(r, email.email)
    ensures HasEmail(accesses, email.email) ==> r == accesses
    ensures !HasEmail(accesses, email.email) ==> r == accesses + [email]
  {
    if HasEmail(accesses, email.email) then accesses
    else
      assert (accesses + [email])[|accesses|].email == email.email;
      accesses + [email]
  }

  /**
   * The users list after `SaveUser(folderId, folderPath, email)`: the first
   * record of the folder gets the new path and the address, or a new record
   * is appended holding the address and its viewer copy.
   */
  function Upsert(users: seq<User>, folderId: string, folderPath: string, email: EmailAccess): seq<User>
  {
    match FindFolder(users, folderId, 0)
    case Some(i) =>
      users[i := User(folderId, folderPath, AddAccess(users[i].emailAccess, email))]
    case None =>
      users + [User(folderId, folderPath, [email, ViewerCopy(email)])]
  }

  /**
   * After the upsert some record for the folder carries the new path and the
   * address; the list grows only when the folder was new; no other record changes.
   */
  lemma UpsertEffect(users: seq<User>, folderId: string, folderPath: string, email: EmailAccess)
    ensures var r := Upsert(users, folderId, folderPath, email);
            && |r| == |users| + (if FindFolder(users, folderId, 0).None? then 1 else 0)
            && (exists i :: 0 <= i < |r| && r[i].folderId == folderId && r[i].folderPath == folderPath
                                         && HasEmail(r[i].emailAccess, email.email))
            && (forall j :: 0 <= j < |users| && users[j].folderId != folderId ==> r[j] == users[j])
    ensures FindFolder(users, folderId, 0).Some? ==>
              var i := FindFolder(users, folderId, 0).value;
              var r := Upsert(users, folderId, folderPath, email);
              && (forall j :: 0 <= j < |users| && j != i ==> r[j] == users[j])
              && r[i].folderPath == folderPath
              && r[i].emailAccess == AddAccess(users[i].emailAccess, email)
    ensures FindFolder(users, folderId, 0).None? ==>
              var r := Upsert(users, folderId, folderPath, email);
              && r[..|users|] == users
              && r[|users|] == User(folderId, folderPath, [email, ViewerCopy(email)])
  {
    var r := Upsert(users, folderId, folderPath, email);
    match FindFolder(users, folderId, 0)
    case Some(i) =>
      assert r[i].folderId == folderId && r[i].folderPath == folderPath;
    case None =>
      var n := |users|;
      assert r[n].emailAccess[0].email == email.email;
      assert r[n].folderId == folderId && r[n].folderPath == folderPath;
      assert r[..n] == users;
  }

  /** The existing entries of the folder's record are kept, in order; only an append can follow. */
  lemma UpsertKeepsAccesses(users: seq<User>, folderId: string, folderPath: string, email: EmailAccess)
    requires FindFolder(users, folderId, 0).Some?
    ensures var i := FindFolder(users, folderId, 0).value;
            var after := Upsert(users, folderId, folderPath, email)[i].emailAccess;
            |users[i].emailAccess| <= |after| <= |users[i].emailAccess| + 1
            && after[..|users[i].emailAccess|] == users[i].emailAccess
  {
  }

  /** Saving the same access twice leaves the file as saving it once. */
  lemma UpsertIdempotent(users: seq<User>, folderId: string, folderPath: string, email: EmailAccess)
    ensures var once := Upsert(users, folderId, folderPath, email);
            Upsert(once, folderId, folderPath, email) == once
  {
    var once := Upsert(users, folderId, folderPath, email);
    match FindFolder(users, folderId, 0)
    case Some(i) =>
      FirstFolderUnchanged(users, once, folderId, i);
      assert AddAccess(once[i].emailAccess, email) == once[i].emailAccess;
      assert once[i := once[i]] == once;
    case None =>
      var n := |users|;
      FirstFolderUnchanged(users, once, folderId, n);
      assert once[n].emailAccess[0].email == email.email;
      assert AddAccess(once[n].emailAccess, email) == once[n].emailAccess;
      assert once[n := once[n]] == once;
  }

  /** If records before `i` keep their folder ids and `i` is the folder, the first match stays at `i`. */
  lemma FirstFolderUnchanged(users: seq<User>, after: seq<User>, folderId: string, i: nat)
    requires i < |after| && after[i].folderId == folderId && i <= |users|
    requires forall j :: 0 <= j < i ==> users[j].folderId != folderId && after[j] == users[j]
    ensures FindFolder(after, folderId, 0) == Some(i)
  {
  }

  predicate UniqueFolders(users: seq<User>)
  {
    forall a, b :: 0 <= a < b < |users| ==> users[a].folderId != users[b].folderId
  }

  /** A users file with one record per folder keeps one record per folder. */
  lemma UpsertKeepsFoldersUnique(users: seq<User>, folderId: string, folderPath: string, email: EmailAccess)
    requires UniqueFolders(users)
    ensures UniqueFolders(Upsert(users, folderId, folderPath, email))
  {
    var r := Upsert(users, folderId, folderPath, email);
    match FindFolder(users, folderId, 0)
    case Some(i) =>
      forall a, b | 0 <= a < b < |r| ensures r[a].folderId != r[b].folderId {
        assert r[a].folderId == users[a].folderId && r[b].folderId == users[b].folderId;
      }
    case None =>
      forall a, b | 0 <= a < b < |r| ensures r[a].folderId != r[b].folderId {
        if b == |users| {
          assert users[a].folderId != folderId;
        } else {
          assert r[a] == users[a] && r[b] == users[b];
        }
      }
  }

  /** The users file (`users.json`) as the list `SaveUser` decodes, updates in place and writes back. */
  class UserStore {
    var users: seq<User>

    constructor(users: seq<User>)
      ensures this.users == users
    {
      this.users := users;
    }

    /**
     * `SaveUser`: find the first record of the folder; if found, overwrite its
     * path and append the address unless an entry already has it; otherwise
     * append a new record.
     */
    method SaveUser(folderId: string, folderPath: string, email: EmailAccess)
      modifies this
      ensures users == Upsert(old(users), folderId, folderPath, email)
    {
      var found := false;
      var i := 0;
      while i < |users|
        invariant 0 <= i <= |users| == |old(users)|
        invariant !found && users == old(users)
        invariant forall j :: 0 <= j < i ==> users[j].folderId != folderId
      {
        if users[i].folderId == folderId {
          assert FindFolder(old(users), folderId, 0) == Some(i) by {
            FirstFolderUnchanged(old(users), old(users), folderId, i);
          }
          users := users[i := users[i].(folderPath := folderPath)];
          var emailExists := false;
          var k := 0;
          var accesses := users[i].emailAccess;
          while k < |accesses|
            invariant 0 <= k <= |accesses|
            invariant emailExists <==> exists j :: 0 <= j < k && accesses[j].email == email.email
          {
            if accesses[k].email == email.email {
              emailExists := true;
              break;
            }
            k := k + 1;
          }
          if !emailExists {
            users := users[i := users[i].(emailAccess := accesses + [email])];
          }
          found := true;
          break;
        } else {
          i := i + 1;
        }
      }
      if !found {
        users := users + [User(folderId, folderPath, [email, ViewerCopy(email)])];
      }
    }
  }

  // ---------------------------------------------------------------------------
  // Fragments of extractAllFiles
  // ---------------------------------------------------------------------------

  /**
   * The row window: when either bound is set, `start` is clamped to 0 and an
   * `end` not past `start` becomes `start + 100`; a window is then queried as
   * LIMIT `end - start + 1` OFFSET `start`. None means no LIMIT clause.
   */
  method PaginationWindow(start: int, end: int) returns (window: Option<(int, int)>)
    ensures window.None? <==> start == 0 && end == 0
    ensures window.Some? ==> window.value.1 == (if start < 0 then 0 else start)
    ensures window.Some? ==> window.value.0 == (if end <= window.value.1 then 101 else end - window.value.1 + 1)
    ensures window.Some? ==> window.value.0 >= 2 && window.value.1 >= 0
  {
    var s, e := start, end;
    if s != 0 || e != 0 {
      if s < 0 {
        s := 0;
      }
      if e <= s {
        e := s + 100;
      }
    }
    if e != 0 {
      window := Some((e - s + 1, s));
    } else {
      window := None;
    }
  }

  /**
   * The rename after saving: when the detected extension is known and differs
   * from the file's, the old extension is replaced by it, provided the rename
   * succeeds (`renamed`).
   */
  function FixExtension(outputPath: string, detected: string, renamed: bool, sep: char): (r: string)
    ensures detected == "unknown" || detected == Ext(outputPath, sep) || !renamed ==> r == outputPath
    ensures detected != "unknown" && detected != Ext(outputPath, sep) && renamed ==>
              r == TrimSuffix(outputPath, Ext(outputPath, sep)) + detected
  {
    var current := Ext(outputPath, sep);
    if detected != current && detected != "unknown" && renamed then TrimSuffix(outputPath, current) + detected
    else outputPath
  }

  /** After a successful rename the file carries the detected extension, and fixing it again changes nothing. */
  lemma FixExtensionSettles(outputPath: string, detected: string, renamed: bool, sep: char)
    requires IsPlainExtension(detected, sep)
    ensures renamed ==> Ext(FixExtension(outputPath, detected, renamed, sep), sep) == detected
    ensures renamed ==> FixExtension(FixExtension(outputPath, detected, renamed, sep), detected, renamed, sep)
                        == FixExtension(outputPath, detected, renamed, sep)
  {
    var current := Ext(outputPath, sep);
    if detected != current && renamed {
      ExtOfAppended(TrimSuffix(outputPath, current), detected, sep);
    }
  }

  /** The rename step with the first-match detection the exporter uses. */
  function RenameByMagic(outputPath: string, data: seq<byte>, renamed: bool, sep: char): string
  {
    FixExtension(outputPath, DetectFileType(ExportSignatures, data).0, renamed, sep)
  }

  /** The rename step with the corrected detection, which keeps a matching extension. */
  function RenameByMagicKeeping(outputPath: string, data: seq<byte>, renamed: bool, sep: char): string
  {
    FixExtension(outputPath, DetectFor(ExportSignatures, data, Ext(outputPath, sep)).0, renamed, sep)
  }

  lemma TrimAppended(stem: string, e: string)
    ensures TrimSuffix(stem + e, e) == stem
  {
    assert (stem + e)[|stem|..] == e;
  }

  /**
   * As written, a genuine spreadsheet, presentation or zip archive (all start
   * with `PK\x03\x04`) is renamed to ".docx" once the rename succeeds.
   */
  lemma OfficeFileRenamedToDocx(stem: string, ext: string, data: seq<byte>, sep: char)
    requires HasMagic(data, PkMagic)
    requires ext in {".xlsx", ".pptx", ".zip"}
    requires sep == '/' || sep == '\\'
    ensures RenameByMagic(stem + ext, data, true, sep) == stem + ".docx"
  {
    ExportPkIsDocx(data);
    ExtOfAppended(stem, ext, sep);
    FixAppended(stem, ext, ".docx", sep);
  }

  /** Fixing the extension of `stem + ext` replaces exactly `ext`. */
  lemma FixAppended(stem: string, ext: string, detected: string, sep: char)
    requires Ext(stem + ext, sep) == ext && detected != ext && detected != "unknown"
    ensures FixExtension(stem + ext, detected, true, sep) == stem + detected
  {
    TrimAppended(stem, ext);
  }

  /** With the corrected detection the same files keep their names. */
  lemma OfficeFileKeepsName(stem: string, ext: string, data: seq<byte>, renamed: bool, sep: char)
    requires HasMagic(data, PkMagic)
    requires ext in {".docx", ".xlsx", ".pptx", ".zip"}
    requires sep == '/' || sep == '\\'
    ensures RenameByMagicKeeping(stem + ext, data, renamed, sep) == stem + ext
  {
    ExtOfAppended(stem, ext, sep);
    ExportPkKeepsOwnExtension(data, ext);
  }
}
