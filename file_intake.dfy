/** The decision `handleFiles` takes on the first selected file: the MIME type
    is checked first, then the size. */
module FileIntake {
  import opened Wrappers

  const PdfMimeType: string := "application/pdf"

  /** 25 MiB. */
  const MaxUploadBytes: nat := 25 * 1024 * 1024

  const WrongTypeAlert: string := "Por favor, selecione um arquivo PDF"
  const TooLargeAlert: string := "O arquivo é muito grande (máximo 25MB)"

  /** What the page knows of a chosen file. */
  datatype FileInfo = FileInfo(name: string, size: nat, mimeType: string)

  datatype Verdict = Accepted | RejectedWrongType | RejectedTooLarge

  /** Accepted exactly when the type is the PDF type and the size is at most
      25 MiB; a file of another type is "wrong type" whatever its size, so
      "too large" is reported only for PDFs. */
  function Validate(f: FileInfo): (v: Verdict)
    ensures v == Accepted <==> f.mimeType == PdfMimeType && f.size <= MaxUploadBytes
    ensures v == RejectedWrongType <==> f.mimeType != PdfMimeType
    ensures v == RejectedTooLarge <==> f.mimeType == PdfMimeType && f.size > MaxUploadBytes
  {
    if f.mimeType == PdfMimeType then
      if f.size <= MaxUploadBytes then Accepted else RejectedTooLarge
    else
      RejectedWrongType
  }

  /** The alert shown for a verdict: none on acceptance, and a distinct message
      for each of the two rejections. */
  function AlertFor(v: Verdict): (a: Option<string>)
    ensures a.None? <==> v == Accepted
    ensures v == RejectedWrongType ==> a == Some(WrongTypeAlert)
    ensures v == RejectedTooLarge ==> a == Some(TooLargeAlert)
  {
    match v
    case Accepted => None
    case RejectedWrongType => Some(WrongTypeAlert)
    case RejectedTooLarge => Some(TooLargeAlert)
  }

  /** The type check comes first: the size cannot change the verdict on a
      file that is not a PDF. */
  lemma WrongTypeWhateverSize(f: FileInfo, size: nat)
    requires f.mimeType != PdfMimeType
    ensures Validate(f.(size := size)) == Validate(f) == RejectedWrongType
  {
  }

  /** A file's name plays no part in the verdict. */
  lemma NameIrrelevant(f: FileInfo, name: string)
    ensures Validate(f.(name := name)) == Validate(f)
  {
  }
}
