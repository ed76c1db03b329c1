/**
 * The validator: a pure classifier of a candidate file by its MIME type and
 * its size in bytes.  Both front ends (script.js and src/App.js) define the
 * same constants and the same `validateFile`.
 */
module Validation {
  import opened Wrappers

  /** Largest accepted size: 10 MiB. */
  const MaxSize: nat := 10 * 1024 * 1024

  /** The fixed allow-list of MIME types, in the source's order. */
  const AllowedTypes: seq<string> := [
    "image/jpeg", "image/png", "image/gif", "image/webp", "image/svg+xml",
    "application/pdf", "application/msword",
    "application/vnd.openxmlformats-officedocument.wordprocessingml.document",
    "text/plain", "application/vnd.ms-excel",
    "application/vnd.openxmlformats-officedocument.spreadsheetml.sheet"
  ]

  /** A raw file as the browser hands it over; its byte content is not modelled. */
  datatype File = File(name: string, mimeType: string, size: nat)

  /** Why a file failed validation. */
  datatype FileError = TypeNotAllowed | TooLarge

  /** The `{ valid, error }` record `validateFile` returns. */
  datatype Verdict = Verdict(valid: bool, error: Option<FileError>)

  /** The text shown for each error reason. */
  function Message(e: FileError): (m: string)
    ensures e == TypeNotAllowed ==> m == "File type not allowed"
    ensures e == TooLarge ==> m == "Too large (>10MB)"
  {
    match e
    case TypeNotAllowed => "File type not allowed"
    case TooLarge => "Too large (>10MB)"
  }

  /** The two reasons show different texts, so the text shown identifies the reason. */
  lemma MessageIdentifiesReason(a: FileError, b: FileError)
    ensures Message(a) == Message(b) <==> a == b
  {
    if a != b {
      assert Message(a)[0] != Message(b)[0];
    }
  }

  /** `list.includes(t)`: a linear scan for `t`. */
  function Includes(list: seq<string>, t: string): (b: bool)
    ensures b <==> t in list
  {
    if list == [] then false
    else list[0] == t || Includes(list[1..], t)
  }

  /**
   * `validateFile`: the type check runs first, then the size check.
   * A file is valid exactly when it carries no error reason, and exactly
   * when its type is allowed and its size is at most MaxSize.
   */
  function ValidateFile(f: File): (v: Verdict)
    ensures v.valid <==> v.error == None
    ensures v.valid <==> f.mimeType in AllowedTypes && f.size <= MaxSize
    ensures v.error == Some(TypeNotAllowed) <==> f.mimeType !in AllowedTypes
    ensures v.error == Some(TooLarge) <==> f.mimeType in AllowedTypes && f.size > MaxSize
  {
    if !Includes(AllowedTypes, f.mimeType) then Verdict(false, Some(TypeNotAllowed))
    else if f.size > MaxSize then Verdict(false, Some(TooLarge))
    else Verdict(true, None)
  }

  /** A type off the allow-list is rejected as such whatever the size. */
  lemma TypeCheckedFirst(f: File)
    requires f.mimeType !in AllowedTypes
    ensures ValidateFile(f) == Verdict(false, Some(TypeNotAllowed))
    ensures forall n: nat :: ValidateFile(f.(size := n)) == ValidateFile(f)
    ensures Message(ValidateFile(f).error.value) == "File type not allowed"
  {
  }

  /** The size limit is inclusive: MaxSize bytes pass, one byte more does not. */
  lemma SizeLimitInclusive(name: string, t: string)
    requires t in AllowedTypes
    ensures ValidateFile(File(name, t, MaxSize)) == Verdict(true, None)
    ensures ValidateFile(File(name, t, MaxSize + 1)) == Verdict(false, Some(TooLarge))
    ensures Message(TooLarge) == "Too large (>10MB)"
  {
  }

  /** Two worked cases: an 11 MiB PNG and an empty text file. */
  lemma ValidationExamples()
    ensures ValidateFile(File("b.png", "image/png", 11 * 1024 * 1024)) == Verdict(false, Some(TooLarge))
    ensures ValidateFile(File("c.txt", "text/plain", 0)) == Verdict(true, None)
  {
    assert AllowedTypes[1] == "image/png";
    assert AllowedTypes[8] == "text/plain";
  }

  /** A zip archive is not on the allow-list. */
  lemma ZipNotAllowed(size: nat)
    ensures ValidateFile(File("a.zip", "application/zip", size)) == Verdict(false, Some(TypeNotAllowed))
  {
    var z := "application/zip";
    assert AllowedTypes[5][12] != z[12];
    forall k | 0 <= k < |AllowedTypes| ensures AllowedTypes[k] != z {
      if k != 5 {
        assert |AllowedTypes[k]| != |z|;
      }
    }
  }
}
