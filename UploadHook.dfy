// hooks/use-file-upload.ts: the `useFileUpload` hook. Its validator is a pure
// rule (type, then size, then file name); its drag/drop/select/clear handlers
// are transitions of the hook's state record. Toasts are left out; the
// verdict says which toast the validator shows.

module UploadHook {
  import opened Types

  /** Default `maxSize`: 50 MiB in bytes. */
  const DefaultMaxSize: nat := 50 * 1024 * 1024
  /** Default `acceptedTypes`. */
  const DefaultAcceptedTypes: seq<string> := ["application/pdf"]

  /** Which check of `validateFile` decided, in the order they run. */
  datatype Verdict = Accepted | WrongType | TooLarge | BadName

  predicate IsHangulSyllable(c: char) {
    '\U{AC00}' <= c <= '\U{D7A3}'
  }

  /** `\s` of a JavaScript regular expression: the WhiteSpace and
      LineTerminator characters. */
  predicate IsRegexSpace(c: char) {
    || c == '\t' || c == '\n' || c == '\U{000B}' || c == '\U{000C}' || c == '\r' || c == ' '
    || c == '\U{00A0}' || c == '\U{1680}' || ('\U{2000}' <= c <= '\U{200A}')
    || c == '\U{2028}' || c == '\U{2029}' || c == '\U{202F}' || c == '\U{205F}'
    || c == '\U{3000}' || c == '\U{FEFF}'
  }

  /** The character class `[가-힣a-zA-Z0-9\s\-_().]`. */
  predicate IsNameChar(c: char) {
    || IsHangulSyllable(c)
    || ('a' <= c <= 'z') || ('A' <= c <= 'Z') || ('0' <= c <= '9')
    || IsRegexSpace(c)
    || c == '-' || c == '_' || c == '(' || c == ')' || c == '.'
  }

  /** `\.pdf` under the `i` flag. */
  predicate IsPdfExtension(ext: string) {
    |ext| == 4 && ext[0] == '.'
    && (ext[1] == 'p' || ext[1] == 'P')
    && (ext[2] == 'd' || ext[2] == 'D')
    && (ext[3] == 'f' || ext[3] == 'F')
  }

  /** The language of `/^[가-힣a-zA-Z0-9\s\-_().]+\.pdf$/i`: one or more
      characters of the class followed by the extension. */
  ghost predicate MatchesNamePattern(name: string) {
    exists stem: string, ext: string {:trigger stem + ext} ::
      && name == stem + ext
      && |stem| >= 1
      && (forall i | 0 <= i < |stem| :: IsNameChar(stem[i]))
      && IsPdfExtension(ext)
  }

  /** The direct reading of the pattern: the last four characters are the
      extension and everything before them, at least one character, is in
      the class. */
  predicate HasValidNameShape(name: string) {
    |name| >= 5 && IsPdfExtension(name[|name| - 4..])
    && forall i | 0 <= i < |name| - 4 :: IsNameChar(name[i])
  }

  /** The split the pattern asks for exists exactly when the name has that
      shape: the extension has a fixed length, so the stem is determined. */
  lemma NameShapeMatchesPattern(name: string)
    ensures HasValidNameShape(name) <==> MatchesNamePattern(name)
  {
    if HasValidNameShape(name) {
      var stem, ext := name[..|name| - 4], name[|name| - 4..];
      assert name == stem + ext;
    }
    if MatchesNamePattern(name) {
      var stem, ext :| name == stem + ext && |stem| >= 1
                       && (forall i | 0 <= i < |stem| :: IsNameChar(stem[i]))
                       && IsPdfExtension(ext);
      assert stem == name[..|name| - 4] && ext == name[|name| - 4..];
    }
  }

  /** `validNamePattern.test(name)`. */
  function ValidName(name: string): (ok: bool)
    ensures ok <==> MatchesNamePattern(name)
  {
    NameShapeMatchesPattern(name);
    HasValidNameShape(name)
  }

  /** `validateFile`: type, size and name are checked in that order, and the
      first failing check decides. */
  function Validate(acceptedTypes: seq<string>, maxSize: nat, f: File): (v: Verdict)
    ensures v == Accepted <==> f.mime in acceptedTypes && f.size <= maxSize && MatchesNamePattern(f.name)
    ensures v == WrongType <==> f.mime !in acceptedTypes
    ensures v == TooLarge <==> f.mime in acceptedTypes && f.size > maxSize
    ensures v == BadName <==> f.mime in acceptedTypes && f.size <= maxSize && !MatchesNamePattern(f.name)
  {
    if f.mime !in acceptedTypes then WrongType
    else if f.size > maxSize then TooLarge
    else if !ValidName(f.name) then BadName
    else Accepted
  }

  /** The state the hook keeps, with its options fixed at creation. */
  class FileUploadHook {
    const maxSize: nat
    const acceptedTypes: seq<string>
    var isDragOver: bool
    var selectedFile: Option<File>
    var uploadProgress: real
    var isUploading: bool

    /** A selected file always passed validation. */
    ghost predicate Valid()
      reads this
    {
      selectedFile.Some? ==> Validate(acceptedTypes, maxSize, selectedFile.value) == Accepted
    }

    /** `useFileUpload(options)`: absent options take their defaults. */
    constructor (maxSizeOption: Option<nat>, acceptedTypesOption: Option<seq<string>>)
      ensures Valid()
      ensures maxSize == if maxSizeOption.Some? then maxSizeOption.value else DefaultMaxSize
      ensures acceptedTypes == if acceptedTypesOption.Some? then acceptedTypesOption.value else DefaultAcceptedTypes
      ensures !isDragOver && selectedFile == None && uploadProgress == 0.0 && !isUploading
    {
      maxSize := if maxSizeOption.Some? then maxSizeOption.value else DefaultMaxSize;
      acceptedTypes := if acceptedTypesOption.Some? then acceptedTypesOption.value else DefaultAcceptedTypes;
      isDragOver := false;
      selectedFile := None;
      uploadProgress := 0.0;
      isUploading := false;
    }

    /** `handleFileSelect`: select the file, and pass it to `onFileSelect`,
        exactly when it passes validation. */
    method HandleFileSelect(file: File) returns (notified: Option<File>)
      requires Valid()
      modifies this
      ensures Valid()
      ensures Validate(acceptedTypes, maxSize, file) == Accepted ==> selectedFile == Some(file) && notified == Some(file)
      ensures Validate(acceptedTypes, maxSize, file) != Accepted ==> selectedFile == old(selectedFile) && notified == None
      ensures isDragOver == old(isDragOver) && uploadProgress == old(uploadProgress) && isUploading == old(isUploading)
    {
      if Validate(acceptedTypes, maxSize, file) != Accepted {
        return None;
      }
      selectedFile := Some(file);
      notified := Some(file);
    }

    method HandleDragOver()
      requires Valid()
      modifies this
      ensures Valid()
      ensures isDragOver
      ensures selectedFile == old(selectedFile) && uploadProgress == old(uploadProgress) && isUploading == old(isUploading)
    {
      isDragOver := true;
    }

    method HandleDragLeave()
      requires Valid()
      modifies this
      ensures Valid()
      ensures !isDragOver
      ensures selectedFile == old(selectedFile) && uploadProgress == old(uploadProgress) && isUploading == old(isUploading)
    {
      isDragOver := false;
    }

    /** `handleDrop`: the drag ends; no file changes nothing, several files
        are refused, a single file goes through `handleFileSelect`. */
    method HandleDrop(files: seq<File>) returns (notified: Option<File>)
      requires Valid()
      modifies this
      ensures Valid()
      ensures !isDragOver
      ensures |files| != 1 ==> selectedFile == old(selectedFile) && notified == None
      ensures |files| == 1 && Validate(acceptedTypes, maxSize, files[0]) == Accepted ==>
                selectedFile == Some(files[0]) && notified == Some(files[0])
      ensures |files| == 1 && Validate(acceptedTypes, maxSize, files[0]) != Accepted ==>
                selectedFile == old(selectedFile) && notified == None
      ensures uploadProgress == old(uploadProgress) && isUploading == old(isUploading)
    {
      isDragOver := false;
      if |files| == 0 {
        return None;
      }
      if |files| > 1 {
        return None;
      }
      notified := HandleFileSelect(files[0]);
    }

    /** `handleInputChange`: the first file of a non-empty list goes through
        `handleFileSelect`, however many there are. */
    method HandleInputChange(files: Option<seq<File>>) returns (notified: Option<File>)
      requires Valid()
      modifies this
      ensures Valid()
      ensures (files.None? || |files.value| == 0) ==> selectedFile == old(selectedFile) && notified == None
      ensures files.Some? && |files.value| > 0 && Validate(acceptedTypes, maxSize, files.value[0]) == Accepted ==>
                selectedFile == Some(files.value[0]) && notified == Some(files.value[0])
      ensures files.Some? && |files.value| > 0 && Validate(acceptedTypes, maxSize, files.value[0]) != Accepted ==>
                selectedFile == old(selectedFile) && notified == None
      ensures isDragOver == old(isDragOver) && uploadProgress == old(uploadProgress) && isUploading == old(isUploading)
    {
      if files.None? || |files.value| == 0 {
        return None;
      }
      notified := HandleFileSelect(files.value[0]);
    }

    /** `clearFile`: drop the selection and reset the upload figures. */
    method ClearFile()
      requires Valid()
      modifies this
      ensures Valid()
      ensures selectedFile == None && uploadProgress == 0.0 && !isUploading
      ensures isDragOver == old(isDragOver)
    {
      selectedFile := None;
      uploadProgress := 0.0;
      isUploading := false;
    }
  }
}
