/** The page's event handlers over the state the script's closure keeps: the
    selected files, the file-name label, the analyze button, the result
    area, the two checkboxes, the narration flag and what has been asked of
    the speech engine. */
module Orchestrator {
  import opened Wrappers
  import opened Text
  import opened FileIntake
  import opened Extraction
  import opened Gemini
  import opened Narration

  const AnalyzeLabel: string := "Analisar Documento"
  const BusyLabel: string := "Analisando..."
  // The two longer texts below are written as two literals each so that
  // proofs can index their first characters without unfolding the whole
  // long literal.
  const ExtractingStatus: string := "Extraindo texto do PDF " + "e preparando para análise..."
  const AnalyzingStatus: string := "Analisando com a IA..."
  const EmptyPdfMessage: string := "Não foi possível extrair " + "texto do PDF ou o PDF está vazio."
  const ProcessFailurePrefix: string := "Erro no processo: "
  const ProcessFailureDefault: string := "O documento pode estar corrompido ou houve um problema na comunicação."

  /** What reading the file and the PDF library produce: the text items of
      each page, or the message of the error they threw. */
  type ExtractionOutcome = Result<seq<seq<string>>, string>

  /** The message shown when extraction throws: the error's message after the
      prefix, or the default explanation when the message is empty. */
  function ProcessFailureMessage(e: string): (m: string)
    ensures StartsWith(m, ProcessFailurePrefix)
    ensures e != "" ==> m[|ProcessFailurePrefix|..] == e
    ensures e == "" ==> m[|ProcessFailurePrefix|..] == ProcessFailureDefault
  {
    ProcessFailurePrefix + (if e != "" then e else ProcessFailureDefault)
  }

  /** The text a run sends to the service, or None when no request is made:
      a request is made exactly when extraction succeeded with text that is
      not all whitespace, and what is sent is the prefix of that text of
      length min(|text|, 30000). */
  function Submitted(x: ExtractionOutcome): (s: Option<string>)
    ensures s.Some? <==> x.Success? && !IsBlank(ExtractedText(x.value))
    ensures s.Some? ==>
      |s.value| == Min(|ExtractedText(x.value)|, MaxSubmittedChars) &&
      StartsWith(ExtractedText(x.value), s.value)
  {
    match x
    case Failure(_) => None
    case Success(pages) =>
      var text := ExtractedText(pages);
      if IsBlank(text) then None else Some(Truncate(text))
  }

  /** What the result area shows when a run is over. */
  function FinalDisplay(x: ExtractionOutcome, reply: Reply): string
  {
    match x
    case Failure(e) => ProcessFailureMessage(e)
    case Success(pages) =>
      if Submitted(x).None? then EmptyPdfMessage else Interpret(reply)
  }

  /** A document whose pages carry only whitespace makes no request. */
  lemma BlankDocumentNotSubmitted(pages: seq<seq<string>>)
    requires Trim(ExtractedText(pages)) == ""
    ensures Submitted(Success(pages)) == None
    ensures forall reply :: FinalDisplay(Success(pages), reply) == EmptyPdfMessage
  {
    TrimEmptyIff(ExtractedText(pages));
  }

  /** The status shown while the service is working starts with
      "Analisando", so switching audio on then does not narrate it. */
  lemma AnalyzingStatusNotNarratable()
    ensures !Narratable(AnalyzingStatus)
  {
    StartsWithChars(AnalyzingStatus, "Analisando");
    PlaceholderNotNarratable(AnalyzingStatus, "Analisando");
  }

  /** A failed extraction's message starts with "Erro" and is not narrated
      either. */
  lemma ProcessFailureNotNarratable(e: string)
    ensures !Narratable(ProcessFailureMessage(e))
  {
    var m := ProcessFailureMessage(e);
    assert m[..|ProcessFailurePrefix|] == ProcessFailurePrefix;
    StartsWithChars(m, "Erro");
    PlaceholderNotNarratable(m, "Erro");
  }

  /** The same holds of the service outcomes the page reports as errors: a
      caught exception, the generic message and the top-level API error. */
  lemma ErrorResultsNotNarratable(a: Analysis)
    requires a.Failed? || a == Unexpected || a.ApiFailure?
    ensures !Narratable(Render(a))
  {
    var r := Render(a);
    match a {
      case Failed(m) =>
        assert r == FailedPrefix + (if m != "" then m else FailedDefault);
      case Unexpected =>
      case ApiFailure(m) =>
        assert r == ApiFailurePrefix + m;
    }
    StartsWithChars(r, "Erro");
    PlaceholderNotNarratable(r, "Erro");
  }

  /** As written, the test lets through the status shown while the PDF is
      being read, which is not a result. */
  lemma ExtractingStatusNarratable()
    ensures Narratable(ExtractingStatus)
  {
    var s := ExtractingStatus;
    NotStartsWithAt(s, "Aguardando", 0);
    NotStartsWithAt(s, "Analisando", 0);
    NotStartsWithAt(s, "Erro", 1);
    PlainTextNarratable(s);
  }

  /** Nor does it hold back the empty-document message. */
  lemma EmptyPdfMessageNarratable()
    ensures Narratable(EmptyPdfMessage)
  {
    var t := EmptyPdfMessage;
    NotStartsWithAt(t, "Aguardando", 0);
    NotStartsWithAt(t, "Analisando", 0);
    NotStartsWithAt(t, "Erro", 0);
    PlainTextNarratable(t);
  }

  class Page {
    /** `inputPdf.files` */
    var files: seq<FileInfo>
    /** `nomeArquivo.textContent` */
    var fileName: string
    var buttonDisabled: bool
    var buttonLabel: string
    /** `textoAnalise.textContent` */
    var display: string
    /** `alternarAudio.checked` */
    var audioOn: bool
    /** `alternarLeitura.checked` */
    var readAloudOn: bool
    /** `vozAtiva` */
    var speaking: bool
    /** Every command sent to the speech engine, oldest first. */
    var speech: seq<SpeechCommand>
    /** Texts whose utterances wait for the voice list to be populated. */
    var awaitingVoices: seq<string>

    /** A selected file is always one that passed validation. */
    predicate SelectionValid()
      reads this
    {
      |files| > 0 ==> Validate(files[0]) == Accepted
    }

    /** The flag is only ever set after an utterance was dispatched. */
    predicate NarrationValid()
      reads this
    {
      speaking ==> AnySpeak(speech)
    }

    predicate Valid()
      reads this
    {
      SelectionValid() && NarrationValid()
    }

    /** The page as the script finds it once loaded with a complete
        configuration; the controls hold what the markup gave them. */
    constructor (fileName0: string, display0: string, buttonDisabled0: bool, buttonLabel0: string, audio0: bool, readAloud0: bool)
      ensures Valid()
      ensures files == [] && fileName == fileName0
      ensures buttonDisabled == buttonDisabled0 && buttonLabel == buttonLabel0 && display == display0
      ensures audioOn == audio0 && readAloudOn == readAloud0
      ensures !speaking && speech == [] && awaitingVoices == []
    {
      files, fileName := [], fileName0;
      buttonDisabled, buttonLabel, display := buttonDisabled0, buttonLabel0, display0;
      audioOn, readAloudOn := audio0, readAloud0;
      speaking, speech, awaitingVoices := false, [], [];
    }

    /** `resetUpload`: clear the selection and the name, disable the button. */
    method ResetUpload()
      modifies this`files, this`fileName, this`buttonDisabled
      ensures files == [] && fileName == "" && buttonDisabled
      ensures SelectionValid()
    {
      files := [];
      fileName := "";
      buttonDisabled := true;
    }

    /** `handleFiles`: validate the first selected file; on acceptance show its
        name and enable the button, otherwise alert and reset. */
    method HandleFiles() returns (alert: Option<string>)
      requires |files| > 0
      modifies this`files, this`fileName, this`buttonDisabled
      ensures alert == AlertFor(Validate(old(files)[0]))
      ensures Validate(old(files)[0]) == Accepted ==>
        files == old(files) && fileName == old(files)[0].name && !buttonDisabled
      ensures Validate(old(files)[0]) != Accepted ==>
        files == [] && fileName == "" && buttonDisabled
      ensures SelectionValid()
    {
      var verdict := Validate(files[0]);
      alert := AlertFor(verdict);
      if verdict == Accepted {
        fileName := files[0].name;
        buttonDisabled := false;
      } else {
        ResetUpload();
      }
    }

    /** The drop handler: a non-empty drop becomes the selection and is
        validated; an empty one changes nothing. */
    method OnDrop(dropped: seq<FileInfo>) returns (alert: Option<string>)
      requires Valid()
      modifies this`files, this`fileName, this`buttonDisabled
      ensures Valid()
      ensures dropped == [] ==>
        alert == None && files == old(files) && fileName == old(fileName) &&
        buttonDisabled == old(buttonDisabled)
      ensures dropped != [] ==> alert == AlertFor(Validate(dropped[0]))
      ensures dropped != [] && Validate(dropped[0]) == Accepted ==>
        files == dropped && fileName == dropped[0].name && !buttonDisabled
      ensures dropped != [] && Validate(dropped[0]) != Accepted ==>
        files == [] && fileName == "" && buttonDisabled
    {
      alert := None;
      if |dropped| > 0 {
        files := dropped;
        alert := HandleFiles();
      }
    }

    /** The file input's change handler: the browser has replaced the
        selection; a non-empty one is validated. */
    method OnInputChange(chosen: seq<FileInfo>) returns (alert: Option<string>)
      requires Valid()
      modifies this`files, this`fileName, this`buttonDisabled
      ensures Valid()
      ensures chosen == [] ==>
        alert == None && files == [] && fileName == old(fileName) &&
        buttonDisabled == old(buttonDisabled)
      ensures chosen != [] ==> alert == AlertFor(Validate(chosen[0]))
      ensures chosen != [] && Validate(chosen[0]) == Accepted ==>
        files == chosen && fileName == chosen[0].name && !buttonDisabled
      ensures chosen != [] && Validate(chosen[0]) != Accepted ==>
        files == [] && fileName == "" && buttonDisabled
    {
      files := chosen;
      alert := None;
      if |chosen| > 0 {
        alert := HandleFiles();
      }
    }

    /** `lerTexto(text)` with the engine's voice list `voices`: cancel first if
        the flag is set; with audio off, nothing more. With audio on, the
        utterance is dispatched and the flag set at once when the voice list
        is populated, and queued for the voice list otherwise. */
    method ReadAloud(text: string, voices: seq<Voice>)
      requires NarrationValid()
      modifies this`speech, this`speaking, this`awaitingVoices
      ensures speech == old(speech) + ReadAloudCommands(old(speaking), audioOn, text, voices)
      ensures awaitingVoices == old(awaitingVoices) + (if audioOn && voices == [] then [text] else [])
      ensures speaking == ((audioOn && voices != []) || old(speaking))
      ensures NarrationValid()
    {
      ghost var before := speech;
      if speaking {
        speech := speech + [Cancel];
      }
      if audioOn {
        if voices == [] {
          awaitingVoices := awaitingVoices + [text];
        } else {
          var cmd := Speak(UtteranceFor(text, voices));
          assert [cmd][0].Speak?;
          AnySpeakAppend(speech, [cmd]);
          speech := speech + [cmd];
          speaking := true;
        }
      }
      if speaking {
        assert speech == before + (speech[|before|..]);
        AnySpeakAppend(before, speech[|before|..]);
      }
    }

    /** The engine's "voiceschanged" event: every queued utterance is
        dispatched, in order, with a voice chosen from the new list, and the
        flag is set if any was. */
    method OnVoicesChanged(voices: seq<Voice>)
      requires NarrationValid()
      modifies this`speech, this`speaking, this`awaitingVoices
      ensures speech == old(speech) + SpeakAll(old(awaitingVoices), voices)
      ensures speaking == (old(speaking) || old(awaitingVoices) != [])
      ensures awaitingVoices == []
      ensures NarrationValid()
    {
      var dispatched := SpeakAll(awaitingVoices, voices);
      if awaitingVoices != [] {
        assert dispatched[0].Speak?;
        speaking := true;
      }
      if speaking {
        AnySpeakAppend(speech, dispatched);
      }
      speech := speech + dispatched;
      awaitingVoices := [];
    }

    /** An utterance's `onend` or `onerror`: the flag is cleared. */
    method OnUtteranceDone()
      modifies this`speaking
      ensures !speaking
    {
      speaking := false;
    }

    /** The user ticks or unticks "read aloud"; the script has no handler. */
    method SetReadAloud(on: bool)
      modifies this`readAloudOn
      ensures readAloudOn == on
    {
      readAloudOn := on;
    }

    /** The audio checkbox's change handler. Audio now on, read-aloud on and
        a narratable display: the trimmed display is read aloud. Otherwise,
        with the flag set: cancel and clear the flag. Otherwise nothing. */
    method OnAudioChange(checked: bool, voices: seq<Voice>)
      requires NarrationValid()
      modifies this`audioOn, this`speech, this`speaking, this`awaitingVoices
      ensures audioOn == checked
      ensures NarrationValid()
      ensures checked && readAloudOn && Narratable(display) ==>
        speech == old(speech) + ReadAloudCommands(old(speaking), true, Trim(display), voices) &&
        awaitingVoices == old(awaitingVoices) + (if voices == [] then [Trim(display)] else []) &&
        speaking == (voices != [] || old(speaking))
      ensures !(checked && readAloudOn && Narratable(display)) ==>
        awaitingVoices == old(awaitingVoices) && !speaking &&
        speech == old(speech) + (if old(speaking) then [Cancel] else [])
    {
      audioOn := checked;
      var current := Trim(display);
      if checked && readAloudOn && Narratable(display) {
        ReadAloud(current, voices);
      } else if speaking {
        speech := speech + [Cancel];
        speaking := false;
      }
    }

    /** The end of a run that made a request: `reply` is interpreted and
        shown, and read aloud when both checkboxes are ticked. */
    method ShowResult(reply: Reply, voices: seq<Voice>)
      requires NarrationValid()
      modifies this`display, this`speech, this`speaking, this`awaitingVoices
      ensures NarrationValid()
      ensures display == Interpret(reply)
      ensures audioOn && readAloudOn ==>
        speech == old(speech) + ReadAloudCommands(old(speaking), true, Interpret(reply), voices) &&
        awaitingVoices == old(awaitingVoices) + (if voices == [] then [Interpret(reply)] else []) &&
        speaking == (voices != [] || old(speaking))
      ensures !(audioOn && readAloudOn) ==>
        speech == old(speech) && speaking == old(speaking) && awaitingVoices == old(awaitingVoices)
    {
      var result := Interpret(reply);
      display := result;
      if audioOn && readAloudOn {
        ReadAloud(result, voices);
      }
    }

    /** The analyze button's click handler, run to completion. Without a
        selection nothing happens. Otherwise the button is disabled while the
        text is extracted from the selected file (`x`); blank text ends the
        run with the empty-document message and no request; otherwise the
        first 30000 characters are sent, `reply` is interpreted and shown,
        and read aloud when both checkboxes are ticked. A failed extraction
        shows the process-failure message. In every case the button ends
        enabled with its default label. `sent` is the text sent, if any. */
    method OnAnalyzeClick(x: ExtractionOutcome, reply: Reply, voices: seq<Voice>) returns (sent: Option<string>)
      requires Valid()
      modifies this
      ensures Valid()
      ensures files == old(files) && fileName == old(fileName)
      ensures audioOn == old(audioOn) && readAloudOn == old(readAloudOn)
      ensures old(files) == [] ==>
        sent == None && buttonDisabled == old(buttonDisabled) && buttonLabel == old(buttonLabel) &&
        display == old(display)
      ensures old(files) != [] ==>
        sent == Submitted(x) && !buttonDisabled && buttonLabel == AnalyzeLabel &&
        display == FinalDisplay(x, reply)
      ensures sent.Some? ==> |files| > 0 && Validate(files[0]) == Accepted
      ensures sent.Some? && audioOn && readAloudOn ==>
        speech == old(speech) + ReadAloudCommands(old(speaking), true, Interpret(reply), voices) &&
        awaitingVoices == old(awaitingVoices) + (if voices == [] then [Interpret(reply)] else []) &&
        speaking == (voices != [] || old(speaking))
      ensures !(sent.Some? && audioOn && readAloudOn) ==>
        speech == old(speech) && speaking == old(speaking) && awaitingVoices == old(awaitingVoices)
    {
      sent := None;
      if |files| == 0 {
        return;
      }
      buttonDisabled := true;
      buttonLabel := BusyLabel;
      display := ExtractingStatus;
      match x {
        case Failure(e) =>
          display := ProcessFailureMessage(e);
        case Success(pages) =>
          var text := ExtractText(pages);
          // `trim().length === 0`, in the form of TrimEmptyIff
          if IsBlank(text) {
            display := EmptyPdfMessage;
          } else {
            display := AnalyzingStatus;
            sent := Some(Truncate(text));
            ShowResult(reply, voices);
          }
      }
      buttonDisabled := false;
      buttonLabel := AnalyzeLabel;
    }
  }
}
