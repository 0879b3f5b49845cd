// components/file-upload.tsx: the `FileUpload` drop zone. Its validator both
// answers and writes the `error` text; every handler updates the
// `isDragOver`/`selectedFile`/`error` state. The props are fixed for the
// component's lifetime.

module UploadComponent {
  import opened Types

  /** Default `maxSize` prop, in MB. */
  const DefaultMaxSizeMb: nat := 10
  const BytesPerMb: nat := 1024 * 1024
  const NotPdfMessage: string := "PDF 파일만 업로드 가능합니다."
  /** Where the component navigates when no `onFileSelect` prop is given. */
  const ProcessPath: string := "/process"

  /** `s.includes(sub)`: `sub` occurs in `s` at some position. */
  predicate Contains(s: string, sub: string)
    decreases |s|
  {
    sub <= s || (|s| > 0 && Contains(s[1..], sub))
  }

  /** `sub` occurs in `s` starting at index `i`. */
  predicate OccursAt(s: string, sub: string, i: int) {
    0 <= i && i + |sub| <= |s| && s[i..i + |sub|] == sub
  }

  /** When the scan of `Contains` succeeds, it has found an occurrence. */
  lemma {:induction false} ContainsWitness(s: string, sub: string) returns (i: int)
    requires Contains(s, sub)
    ensures OccursAt(s, sub, i)
    decreases |s|
  {
    if sub <= s {
      i := 0;
      assert s[..|sub|] == sub;
    } else {
      var j := ContainsWitness(s[1..], sub);
      assert s[1..][j..j + |sub|] == s[j + 1..j + 1 + |sub|];
      i := j + 1;
    }
  }

  /** An occurrence at index `i` is found by the scan of `Contains`. */
  lemma {:induction false} OccursContains(s: string, sub: string, i: int)
    requires OccursAt(s, sub, i)
    ensures Contains(s, sub)
    decreases i
  {
    if i == 0 {
      assert s[..|sub|] == sub;
    } else {
      assert s[1..][i - 1..i - 1 + |sub|] == s[i..i + |sub|];
      OccursContains(s[1..], sub, i - 1);
    }
  }

  /** The scan of `Contains` finds an occurrence exactly when one exists. */
  lemma ContainsIffOccurs(s: string, sub: string)
    ensures Contains(s, sub) <==> exists i :: OccursAt(s, sub, i)
  {
    if Contains(s, sub) {
      var i := ContainsWitness(s, sub);
    }
    if exists i :: OccursAt(s, sub, i) {
      var i :| OccursAt(s, sub, i);
      OccursContains(s, sub, i);
    }
  }

  function DigitChar(d: nat): (c: char)
    requires d < 10
    ensures '0' <= c <= '9'
    ensures c as int - '0' as int == d
  {
    ['0', '1', '2', '3', '4', '5', '6', '7', '8', '9'][d]
  }

  /** The number a string of decimal digits denotes, read left to right. */
  function DecimalValue(s: string): (v: nat)
    requires forall i | 0 <= i < |s| :: '0' <= s[i] <= '9'
  {
    if s == [] then 0 else DecimalValue(s[..|s| - 1]) * 10 + (s[|s| - 1] as int - '0' as int)
  }

  /** The decimal text of a number, as a template literal renders it: digits
      without a leading zero that denote the number itself. */
  function DecimalText(n: nat): (s: string)
    ensures |s| >= 1
    ensures forall i | 0 <= i < |s| :: '0' <= s[i] <= '9'
    ensures n >= 10 ==> s[0] != '0'
    ensures DecimalValue(s) == n
    decreases n
  {
    if n < 10 then
      [DigitChar(n)]
    else
      var front := DecimalText(n / 10);
      var s := front + [DigitChar(n % 10)];
      assert s[..|s| - 1] == front;
      s
  }

  function TooLargeMessage(maxSizeMb: nat): (m: string) {
    "파일 크기는 " + DecimalText(maxSizeMb) + "MB 이하여야 합니다."
  }

  /** Which check of `validateFile` decided: the type check runs first. */
  datatype Verdict = Accepted | NotPdf | TooLarge

  /** The component's `validateFile` rule. */
  function Validate(maxSizeMb: nat, f: File): (v: Verdict)
    ensures v == Accepted <==> Contains(f.mime, "pdf") && f.size <= maxSizeMb * BytesPerMb
    ensures v == NotPdf <==> !Contains(f.mime, "pdf")
  {
    if !Contains(f.mime, "pdf") then NotPdf
    else if f.size > maxSizeMb * BytesPerMb then TooLarge
    else Accepted
  }

  /** The `error` text `validateFile` leaves behind. */
  function ErrorText(v: Verdict, maxSizeMb: nat): (e: string)
    ensures e == "" <==> v == Accepted
  {
    match v
    case Accepted => ""
    case NotPdf => NotPdfMessage
    case TooLarge => TooLargeMessage(maxSizeMb)
  }

  /** What `handleFileSelect` does besides updating state. */
  datatype Effect = NoEffect | Notified(file: File) | Navigated(path: string)

  class FileUpload {
    const maxSizeMb: nat
    const disabled: bool
    /** Whether an `onFileSelect` prop was given. */
    const hasOnFileSelect: bool
    var isDragOver: bool
    var selectedFile: Option<File>
    var error: string

    /** A selected file passed validation, and a disabled drop zone is never
        highlighted. */
    ghost predicate Valid()
      reads this
    {
      && (selectedFile.Some? ==> Validate(maxSizeMb, selectedFile.value) == Accepted)
      && (disabled ==> !isDragOver)
    }

    /** `FileUpload(props)`: absent props take their defaults. */
    constructor (maxSizeOption: Option<nat>, disabledOption: Option<bool>, onFileSelectGiven: bool)
      ensures Valid()
      ensures maxSizeMb == if maxSizeOption.Some? then maxSizeOption.value else DefaultMaxSizeMb
      ensures disabled == (disabledOption == Some(true))
      ensures hasOnFileSelect == onFileSelectGiven
      ensures !isDragOver && selectedFile == None && error == ""
    {
      maxSizeMb := if maxSizeOption.Some? then maxSizeOption.value else DefaultMaxSizeMb;
      disabled := disabledOption == Some(true);
      hasOnFileSelect := onFileSelectGiven;
      isDragOver := false;
      selectedFile := None;
      error := "";
    }

    /** `validateFile`: answers the rule and records its message. */
    method ValidateFile(file: File) returns (ok: bool)
      requires Valid()
      modifies this
      ensures Valid()
      ensures ok <==> Validate(maxSizeMb, file) == Accepted
      ensures error == ErrorText(Validate(maxSizeMb, file), maxSizeMb)
      ensures ok <==> error == ""
      ensures isDragOver == old(isDragOver) && selectedFile == old(selectedFile)
    {
      if !Contains(file.mime, "pdf") {
        error := NotPdfMessage;
        return false;
      }
      if file.size > maxSizeMb * BytesPerMb {
        error := TooLargeMessage(maxSizeMb);
        return false;
      }
      error := "";
      ok := true;
    }

    /** `handleFileSelect`: a valid file is selected and handed to
        `onFileSelect`, or, without that prop, the page moves on. */
    method HandleFileSelect(file: File) returns (effect: Effect)
      requires Valid()
      modifies this
      ensures Valid()
      ensures error == ErrorText(Validate(maxSizeMb, file), maxSizeMb)
      ensures Validate(maxSizeMb, file) == Accepted ==>
                && selectedFile == Some(file)
                && effect == if hasOnFileSelect then Notified(file) else Navigated(ProcessPath)
      ensures Validate(maxSizeMb, file) != Accepted ==> selectedFile == old(selectedFile) && effect == NoEffect
      ensures isDragOver == old(isDragOver)
    {
      var ok := ValidateFile(file);
      effect := NoEffect;
      if ok {
        selectedFile := Some(file);
        effect := if hasOnFileSelect then Notified(file) else Navigated(ProcessPath);
      }
    }

    /** `handleDrop`: the highlight goes; unless disabled, the first dropped
        file is handled. */
    method HandleDrop(files: seq<File>) returns (effect: Effect)
      requires Valid()
      modifies this
      ensures Valid()
      ensures !isDragOver
      ensures (disabled || |files| == 0) ==>
                selectedFile == old(selectedFile) && error == old(error) && effect == NoEffect
      ensures !disabled && |files| > 0 ==> error == ErrorText(Validate(maxSizeMb, files[0]), maxSizeMb)
      ensures !disabled && |files| > 0 && Validate(maxSizeMb, files[0]) == Accepted ==>
                && selectedFile == Some(files[0])
                && effect == if hasOnFileSelect then Notified(files[0]) else Navigated(ProcessPath)
      ensures !disabled && |files| > 0 && Validate(maxSizeMb, files[0]) != Accepted ==>
                selectedFile == old(selectedFile) && effect == NoEffect
    {
      isDragOver := false;
      effect := NoEffect;
      if disabled {
        return;
      }
      if |files| > 0 {
        effect := HandleFileSelect(files[0]);
      }
    }

    /** `handleDragOver`: highlight only an enabled drop zone. */
    method HandleDragOver()
      requires Valid()
      modifies this
      ensures Valid()
      ensures isDragOver == !disabled
      ensures selectedFile == old(selectedFile) && error == old(error)
    {
      if !disabled {
        isDragOver := true;
      } else {
        assert !isDragOver;
      }
    }

    method HandleDragLeave()
      requires Valid()
      modifies this
      ensures Valid()
      ensures !isDragOver
      ensures selectedFile == old(selectedFile) && error == old(error)
    {
      isDragOver := false;
    }

    /** `handleInputChange`: the first file of a non-empty list is handled;
        a missing or empty list changes nothing. */
    method HandleInputChange(files: Option<seq<File>>) returns (effect: Effect)
      requires Valid()
      modifies this
      ensures Valid()
      ensures (files.None? || |files.value| == 0) ==>
                selectedFile == old(selectedFile) && error == old(error) && effect == NoEffect
      ensures files.Some? && |files.value| > 0 ==>
                error == ErrorText(Validate(maxSizeMb, files.value[0]), maxSizeMb)
      ensures files.Some? && |files.value| > 0 && Validate(maxSizeMb, files.value[0]) == Accepted ==>
                && selectedFile == Some(files.value[0])
                && effect == if hasOnFileSelect then Notified(files.value[0]) else Navigated(ProcessPath)
      ensures files.Some? && |files.value| > 0 && Validate(maxSizeMb, files.value[0]) != Accepted ==>
                selectedFile == old(selectedFile) && effect == NoEffect
      ensures isDragOver == old(isDragOver)
    {
      effect := NoEffect;
      if files.Some? && |files.value| > 0 {
        effect := HandleFileSelect(files.value[0]);
      }
    }

    /** `removeFile`: forget the selection and the message. */
    method RemoveFile()
      requires Valid()
      modifies this
      ensures Valid()
      ensures selectedFile == None && error == ""
      ensures isDragOver == old(isDragOver)
    {
      selectedFile := None;
      error := "";
    }
  }
}
