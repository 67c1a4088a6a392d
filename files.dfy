/**
  The file service (Services/FileService.cs): the ordered acceptance chain for an uploaded
  file, the human-readable size rendering, and the document-table effects of uploading and
  deleting. Writing and deleting the file on disk is not part of this model; the stored
  name's random stem (a GUID in the source) and the clock are parameters.
*/
module Files {
  import opened Wrappers
  import opened Seqs
  import opened Lookup
  import opened Text
  import opened ClaimModel
  import opened CmcsDb
  import Approval

  /** An uploaded form file: its client-side name and its length in bytes. */
  datatype FormFile = FormFile(fileName: string, length: nat)

  datatype FileUploadResult = FileUploadResult(
    success: bool,
    message: Option<string>,
    document: Option<SupportingDocument>,
    storedFileName: Option<string>)

  /** The accepted extensions, each a lower-case dotted extension. */
  function GetSupportedFileTypes(): (types: seq<string>)
    ensures |types| == 3
    ensures forall i :: 0 <= i < |types| ==> ExtensionAt(types[i], 0) && ToLowerInvariant(types[i]) == types[i]
  {
    [".pdf", ".docx", ".xlsx"]
  }

  /** Five mebibytes. */
  function GetMaxFileSize(): (limit: int)
    ensures limit == 5 * 1024 * 1024
  {
    5242880
  }

  /** The public URL of a stored file. */
  function GetFilePreviewUrl(storedFileName: string): (url: string)
    ensures |url| == |storedFileName| + 9
    ensures url[..9] == "/uploads/" && url[9..] == storedFileName
  {
    "/uploads/" + storedFileName
  }

  const SizeUnits: seq<string> := ["B", "KB", "MB", "GB"]

  /** Divide by 1024 while the value is at least 1024 and a larger unit remains. */
  function Scale(bytes: int, order: nat): (r: (int, nat))
    requires order < |SizeUnits|
    ensures order <= r.1 < |SizeUnits|
    ensures r.1 < |SizeUnits| - 1 ==> r.0 < 1024
    decreases |SizeUnits| - order
  {
    if bytes >= 1024 && order < |SizeUnits| - 1 then Scale(bytes / 1024, order + 1) else (bytes, order)
  }

  /** The size text `FormatFileSize` produces: the scaled whole number, a space, the unit. */
  function FileSizeText(bytes: int): string {
    var (value, order) := Scale(bytes, 0);
    IntToString(value) + " " + SizeUnits[order]
  }

  function Pow1024(k: nat): (p: nat)
    ensures p >= 1
  {
    if k == 0 then 1 else 1024 * Pow1024(k - 1)
  }

  lemma MulMono(x: int, y: int, d: int)
    requires x <= y && d >= 0
    ensures x * d <= y * d
  {
    assert y * d - x * d == (y - x) * d;
  }

  /** The quotient is the unique `q` with `q * d <= a < (q + 1) * d`. */
  lemma DivUnique(a: int, d: int, q: int)
    requires d > 0 && q * d <= a < q * d + d
    ensures a / d == q
  {
    var q' := a / d;
    var r' := a % d;
    assert a == q' * d + r' && 0 <= r' < d;
    if q' < q {
      MulMono(q' + 1, q, d);
    } else if q' > q {
      MulMono(q + 1, q', d);
    }
  }

  lemma MulCancel(x: int, y: int, d: int)
    requires d > 0 && x * d < y * d
    ensures x < y
  {
    if y <= x {
      MulMono(y, x, d);
    }
  }

  /** Euclidean division brackets the dividend between two consecutive multiples of the divisor. */
  lemma DivBounds(a: int, d: int)
    requires d > 0
    ensures (a / d) * d <= a < (a / d) * d + d
  {
    assert a == (a / d) * d + a % d;
  }

  /** Dividing by `b` and then by `c` is dividing by `b * c`. */
  lemma DivDiv(a: int, b: int, c: int)
    requires a >= 0 && b > 0 && c > 0
    ensures a / b / c == a / (b * c)
  {
    var m := b * c;
    var q := a / m;
    var ab := a / b;
    assert q * m <= a < q * m + m by { DivBounds(a, m); }
    assert ab * b <= a < ab * b + b by { DivBounds(a, b); }
    assert q * c <= ab by {
      assert (q * c) * b == q * m;
      assert (ab + 1) * b == ab * b + b;
      MulCancel(q * c, ab + 1, b);
    }
    assert ab < q * c + c by {
      assert (q * c + c) * b == q * m + m;
      MulCancel(ab, q * c + c, b);
    }
    DivUnique(ab, c, q);
  }

  /** For a non-negative size, the scaled value is the size divided by 1024 once per unit step, rounded down. */
  lemma {:induction false} ScaleIsFloor(bytes: int, order: nat)
    requires bytes >= 0 && order < |SizeUnits|
    ensures Scale(bytes, order).0 == bytes / Pow1024(Scale(bytes, order).1 - order)
    decreases |SizeUnits| - order
  {
    if bytes >= 1024 && order < |SizeUnits| - 1 {
      ScaleIsFloor(bytes / 1024, order + 1);
      var k := Scale(bytes, order).1 - order - 1;
      DivDiv(bytes, 1024, Pow1024(k));
    }
  }

  /** The limit renders as "5 MB". */
  lemma MaxFileSizeText()
    ensures FileSizeText(GetMaxFileSize()) == "5 MB"
  {
    assert Scale(5, 2) == (5, 2);
    assert Scale(5120, 1) == (5, 2);
    assert Scale(5242880, 0) == (5, 2);
  }

  /** `FormatFileSize`. */
  method FormatFileSize(bytes: int) returns (text: string)
    ensures text == FileSizeText(bytes)
  {
    var value := bytes;
    var order := 0;
    while value >= 1024 && order < |SizeUnits| - 1
      invariant 0 <= order < |SizeUnits|
      invariant Scale(value, order) == Scale(bytes, 0)
      decreases |SizeUnits| - order
    {
      order := order + 1;
      value := value / 1024;
    }
    text := IntToString(value) + " " + SizeUnits[order];
  }

  /** The unit `FormatFileSize` picks for each range of sizes, and the whole number it shows. */
  lemma FileSizeTextUnits(bytes: int)
    ensures bytes < 1024 ==> FileSizeText(bytes) == IntToString(bytes) + " B"
    ensures 1024 <= bytes < 1048576 ==> FileSizeText(bytes) == IntToString(bytes / 1024) + " KB"
    ensures 1048576 <= bytes < 1073741824 ==> FileSizeText(bytes) == IntToString(bytes / 1048576) + " MB"
    ensures 1073741824 <= bytes ==> FileSizeText(bytes) == IntToString(bytes / 1073741824) + " GB"
  {
    if bytes >= 1024 {
      var k1 := bytes / 1024;
      assert Scale(bytes, 0) == Scale(k1, 1);
      if k1 < 1024 {
        assert Scale(k1, 1) == (k1, 1);
      } else {
        var k2 := k1 / 1024;
        DivDiv(bytes, 1024, 1024);
        assert Scale(k1, 1) == Scale(k2, 2);
        if k2 < 1024 {
          assert Scale(k2, 2) == (k2, 2);
        } else {
          var k3 := k2 / 1024;
          DivDiv(bytes, 1048576, 1024);
          assert Scale(k2, 2) == Scale(k3, 3) == (k3, 3);
        }
      }
    }
  }

  const NoFileMessage := "No file provided"
  const InvalidNameMessage := "Invalid file name"

  function SizeMessage(): string {
    "File size exceeds maximum limit of " + FileSizeText(GetMaxFileSize())
  }

  function TypeMessage(): string {
    "File type not supported. Allowed types: " + Join(GetSupportedFileTypes(), ", ")
  }

  /** The lower-cased extension of the client-side name. */
  function FileExtension(file: FormFile): string {
    ToLowerInvariant(GetExtension(file.fileName))
  }

  /** A name with no parent-directory step and no separator. */
  predicate SafeFileName(name: string) {
    !Contains(name, "..") && !Contains(name, "/") && !Contains(name, "\\")
  }

  /** The name check refuses exactly the names with a separator or two adjacent dots. */
  lemma SafeFileNameExactly(name: string)
    ensures SafeFileName(name) <==>
      && (forall i :: 0 <= i < |name| ==> name[i] != '/' && name[i] != '\\')
      && (forall i :: 0 <= i < |name| - 1 ==> name[i] != '.' || name[i + 1] != '.')
  {
    if forall i :: 0 <= i < |name| ==> name[i] != '/' && name[i] != '\\' {
      AbsentChar(name, '/');
      AbsentChar(name, '\\');
    }
    if forall i :: 0 <= i < |name| - 1 ==> name[i] != '.' || name[i + 1] != '.' {
      AbsentDoubleDot(name);
    }
    forall i | 0 <= i < |name| && (name[i] == '/' || name[i] == '\\') ensures !SafeFileName(name) {
      assert name[i..i + 1] == [name[i]];
      assert OccursAt(name, [name[i]], i);
    }
    forall i | 0 <= i < |name| - 1 && name[i] == '.' && name[i + 1] == '.' ensures !SafeFileName(name) {
      assert name[i..i + 2] == "..";
      assert OccursAt(name, "..", i);
    }
  }

  /** `ValidateFile`: presence, then size, then type, then name; the first failure decides the message. */
  function ValidateFile(file: Option<FormFile>): (r: FileUploadResult)
    ensures r.document.None? && r.storedFileName.None?
    ensures r.success <==>
      && file.Some?
      && 0 < file.value.length <= GetMaxFileSize()
      && FileExtension(file.value) in GetSupportedFileTypes()
      && SafeFileName(file.value.fileName)
    ensures r.success ==> r.message.None?
    ensures file.None? || file.value.length == 0 ==> r.message == Some(NoFileMessage)
    ensures file.Some? && file.value.length > GetMaxFileSize() ==> r.message == Some(SizeMessage())
    ensures (file.Some? && 0 < file.value.length <= GetMaxFileSize()
             && FileExtension(file.value) !in GetSupportedFileTypes()) ==> r.message == Some(TypeMessage())
    ensures (file.Some? && 0 < file.value.length <= GetMaxFileSize()
             && FileExtension(file.value) in GetSupportedFileTypes()
             && !SafeFileName(file.value.fileName)) ==> r.message == Some(InvalidNameMessage)
  {
    if file.None? || file.value.length == 0 then FileUploadResult(false, Some(NoFileMessage), None, None)
    else if file.value.length > GetMaxFileSize() then FileUploadResult(false, Some(SizeMessage()), None, None)
    else if FileExtension(file.value) !in GetSupportedFileTypes() then
      FileUploadResult(false, Some(TypeMessage()), None, None)
    else if !SafeFileName(file.value.fileName) then FileUploadResult(false, Some(InvalidNameMessage), None, None)
    else FileUploadResult(true, None, None, None)
  }

  /** The supported types, joined for the type message. */
  lemma SupportedTypesText()
    ensures Join(GetSupportedFileTypes(), ", ") == ".pdf" + ", " + ".docx" + ", " + ".xlsx"
  {
    var last := [".xlsx"];
    var tail := [".docx", ".xlsx"];
    assert Join(last, ", ") == ".xlsx";
    assert tail[1..] == last;
    assert Join(tail, ", ") == ".docx" + ", " + ".xlsx";
    assert GetSupportedFileTypes()[1..] == tail;
  }

  /** The size message names the limit as "5 MB", and the type message lists the three extensions. */
  lemma ValidationMessages()
    ensures SizeMessage() == "File size exceeds maximum limit of " + "5 MB"
    ensures TypeMessage() == "File type not supported. Allowed types: " + ".pdf" + ", " + ".docx" + ", " + ".xlsx"
  {
    MaxFileSizeText();
    SupportedTypesText();
  }

  /** An accepted file's stored type is one of the supported extensions. */
  lemma AcceptedTypeIsSupported(file: FormFile)
    requires ValidateFile(Some(file)).success
    ensures FileExtension(file) in {".pdf", ".docx", ".xlsx"}
    ensures GetExtension(file.fileName) != []
  {
  }

  /** A name without the character `c` does not contain the one-character string `[c]`. */
  lemma AbsentChar(name: string, c: char)
    requires forall i :: 0 <= i < |name| ==> name[i] != c
    ensures !Contains(name, [c])
  {
    forall i | 0 <= i ensures !OccursAt(name, [c], i) {
      if i + 1 <= |name| {
        assert name[i..i + 1][0] == name[i];
      }
    }
  }

  /** A name without two adjacent dots does not contain "..". */
  lemma AbsentDoubleDot(name: string)
    requires forall i :: 0 <= i < |name| - 1 ==> name[i] != '.' || name[i + 1] != '.'
    ensures !Contains(name, "..")
  {
    forall i | 0 <= i ensures !OccursAt(name, "..", i) {
      if i + 2 <= |name| {
        assert name[i..i + 2][0] == name[i] && name[i..i + 2][1] == name[i + 1];
      }
    }
  }

  /** The extension of a lower-case stem followed by ".PDF" lower-cases to ".pdf". */
  lemma CapitalisedExtension(stem: string, length: nat)
    requires forall i :: 0 <= i < |stem| ==> 'a' <= stem[i] <= 'z'
    ensures FileExtension(FormFile(stem + ".PDF", length)) == ".pdf"
  {
    var name := stem + ".PDF";
    assert forall i :: |stem| <= i < |name| ==> name[i] == ".PDF"[i - |stem|];
    assert ExtensionAt(name, |stem|);
    var ext := GetExtension(name);
    assert |name| - |ext| == |stem|;
    assert ext == ".PDF";
    assert ToLowerInvariant(".PDF") == ".pdf";
  }

  lemma LowerCaseStemIsSafe(stem: string)
    requires forall i :: 0 <= i < |stem| ==> 'a' <= stem[i] <= 'z'
    ensures SafeFileName(stem + ".PDF")
  {
    var name := stem + ".PDF";
    assert forall i :: |stem| <= i < |name| ==> name[i] == ".PDF"[i - |stem|];
    AbsentDoubleDot(name);
    AbsentChar(name, '/');
    AbsentChar(name, '\\');
  }

  /** A file of exactly the limit is accepted, and a capitalised extension is accepted. */
  lemma LimitSizeAndCapitalisedExtensionAccepted(stem: string)
    requires forall i :: 0 <= i < |stem| ==> 'a' <= stem[i] <= 'z'
    ensures ValidateFile(Some(FormFile(stem + ".PDF", 5242880))).success
  {
    CapitalisedExtension(stem, 5242880);
    LowerCaseStemIsSafe(stem);
  }

  /** One byte over the limit is rejected, on size. */
  lemma OverLimitRejected(name: string)
    ensures ValidateFile(Some(FormFile(name, 5242881))).message == Some("File size exceeds maximum limit of " + "5 MB")
  {
    ValidationMessages();
  }

  /** The document row a successful upload records. */
  function UploadedDocument(file: FormFile, claimId: int, storedStem: string, now: Instant): SupportingDocument {
    var extension := FileExtension(file);
    SupportingDocument(file.fileName, storedStem + extension, file.length, extension, now,
                       Some("Uploaded for claim #" + IntToString(claimId)), claimId)
  }

  /**
    The row of an accepted file records the claim, the client name, the size and the
    lower-cased extension, and its stored name ends in that same supported extension.
  */
  lemma UploadedDocumentOfAcceptedFile(file: FormFile, claimId: int, storedStem: string, now: Instant)
    requires ValidateFile(Some(file)).success
    ensures var d := UploadedDocument(file, claimId, storedStem, now);
      && d.claimId == claimId && d.fileName == file.fileName && d.fileSize == file.length
      && d.fileType in GetSupportedFileTypes()
      && GetExtension(d.storedFileName) == d.fileType
  {
    assert FileExtension(file) != "";
    LowerExtensionOfSuffix(storedStem, file.fileName);
  }

  /** `UploadFileAsync`: a rejected file leaves the table alone; an accepted one adds exactly one row. */
  method UploadFile(db: Database, file: Option<FormFile>, claimId: int, storedStem: string, now: Instant)
    returns (result: FileUploadResult)
    modifies db`documents
    ensures !ValidateFile(file).success ==>
      result == FileUploadResult(false, ValidateFile(file).message, None, None) && db.documents == old(db.documents)
    ensures ValidateFile(file).success ==>
      var document := UploadedDocument(file.value, claimId, storedStem, now);
      && db.documents == old(db.documents) + [document]
      && result == FileUploadResult(true, Some("File uploaded successfully"), Some(document),
                                    Some(document.storedFileName))
  {
    var validation := ValidateFile(file);
    if !validation.success {
      return FileUploadResult(false, validation.message, None, None);
    }
    var extension := ToLowerInvariant(GetExtension(file.value.fileName));
    var storedFileName := storedStem + extension;
    var document := SupportingDocument(file.value.fileName, storedFileName, file.value.length, extension, now,
                                       Some("Uploaded for claim #" + IntToString(claimId)), claimId);
    db.documents := db.documents + [document];
    result := FileUploadResult(true, Some("File uploaded successfully"), Some(document), Some(storedFileName));
  }

  /**
    After an upload for a claim, that claim's loaded documents gain exactly the new row, and
    the SupportingDocuments approval criterion passes for it whatever its amount.
  */
  lemma UploadSatisfiesDocumentsCriterion(documents: seq<SupportingDocument>, file: FormFile, claim: Claim,
                                          storedStem: string, now: Instant)
    ensures var document := UploadedDocument(file, claim.id, storedStem, now);
      && DocumentsOf(documents + [document], claim.id) == DocumentsOf(documents, claim.id) + [document]
      && Approval.CheckSupportingDocuments(documents + [document], claim)
  {
    var document := UploadedDocument(file, claim.id, storedStem, now);
    FilterAppend(documents, [document], BelongsTo(claim.id));
    assert [document][..0] == [];
    assert document in documents + [document];
  }

  /** The position of the first row stored under `storedFileName`. */
  function StoredIndex(documents: seq<SupportingDocument>, storedFileName: string): Option<nat> {
    FirstIndex(documents, StoredNameKey(), storedFileName)
  }

  function StoredNameKey(): SupportingDocument -> string {
    (d: SupportingDocument) => d.storedFileName
  }

  /** The table after deleting `storedFileName`: its first row removed, if there is one. */
  function RemoveStored(documents: seq<SupportingDocument>, storedFileName: string): (r: seq<SupportingDocument>)
    ensures StoredIndex(documents, storedFileName).None? ==> r == documents
    ensures StoredIndex(documents, storedFileName).Some? ==>
      |r| == |documents| - 1
      && multiset(r) == multiset(documents) - multiset{documents[StoredIndex(documents, storedFileName).value]}
  {
    match StoredIndex(documents, storedFileName)
    case None => documents
    case Some(k) =>
      assert documents == documents[..k] + [documents[k]] + documents[k + 1..];
      documents[..k] + documents[k + 1..]
  }

  /** `DeleteFileAsync`: removes the first matching row, if any, and reports success either way. */
  method DeleteFile(db: Database, storedFileName: string) returns (deleted: bool)
    modifies db`documents
    ensures deleted
    ensures db.documents == RemoveStored(old(db.documents), storedFileName)
  {
    var index := StoredIndex(db.documents, storedFileName);
    if index.Some? {
      var k := index.value;
      db.documents := db.documents[..k] + db.documents[k + 1..];
    }
    deleted := true;
  }

  /** Deleting a freshly uploaded file's stored name restores the table as it was. */
  lemma UploadThenDelete(documents: seq<SupportingDocument>, file: FormFile, claimId: int,
                         storedStem: string, now: Instant)
    requires StoredIndex(documents, storedStem + FileExtension(file)).None?
    ensures var document := UploadedDocument(file, claimId, storedStem, now);
      RemoveStored(documents + [document], document.storedFileName) == documents
  {
    var document := UploadedDocument(file, claimId, storedStem, now);
    var table := documents + [document];
    var name := document.storedFileName;
    assert forall j :: 0 <= j < |documents| ==> StoredNameKey()(documents[j]) != name;
    assert forall j :: 0 <= j < |documents| ==> StoredNameKey()(table[j]) != name;
    assert StoredNameKey()(table[|documents|]) == name;
    assert StoredIndex(table, name) == Some(|documents|);
    assert table[..|documents|] == documents;
  }
}
