/** The pure parts of narration: the voice `lerTexto` picks, the utterances
    and commands the page sends to the speech engine, and the test the audio
    toggle applies to the displayed text. */
module Narration {
  import opened Wrappers
  import opened Text

  /** The language prefix a voice must have to be chosen. */
  const VoicePrefix: string := "pt"

  /** The language every utterance is tagged with. */
  const UtteranceLang: string := "pt-BR"

  datatype Voice = Voice(name: string, lang: string)

  /** An utterance as dispatched: its text, its language tag and the voice set
      on it (None leaves the platform's default voice). */
  datatype Utterance = Utterance(text: string, lang: string, voice: Option<Voice>)

  /** What the page asks of the speech engine. */
  datatype SpeechCommand = Cancel | Speak(utterance: Utterance)

  /** Some utterance was dispatched among `cmds`. */
  predicate AnySpeak(cmds: seq<SpeechCommand>)
  {
    exists i :: 0 <= i < |cmds| && cmds[i].Speak?
  }

  /** Appending commands keeps an earlier dispatch, and a dispatch among the
      appended ones counts too. */
  lemma AnySpeakAppend(a: seq<SpeechCommand>, b: seq<SpeechCommand>)
    requires AnySpeak(a) || AnySpeak(b)
    ensures AnySpeak(a + b)
  {
    if AnySpeak(a) {
      var i :| 0 <= i < |a| && a[i].Speak?;
      assert (a + b)[i] == a[i];
    } else {
      var i :| 0 <= i < |b| && b[i].Speak?;
      assert (a + b)[|a| + i] == b[i];
    }
  }

  predicate IsPortuguese(v: Voice)
  {
    StartsWith(v.lang, VoicePrefix)
  }

  /** `voices.find(voice => voice.lang.startsWith('pt'))`: the first voice
      whose language starts with "pt", or None when there is no such voice. */
  function FindPortugueseVoice(voices: seq<Voice>): (r: Option<Voice>)
    ensures r.None? <==> forall i :: 0 <= i < |voices| ==> !IsPortuguese(voices[i])
    ensures r.Some? ==>
      exists i :: 0 <= i < |voices| && voices[i] == r.value && IsPortuguese(voices[i]) &&
        forall j :: 0 <= j < i ==> !IsPortuguese(voices[j])
  {
    if voices == [] then None
    else if IsPortuguese(voices[0]) then Some(voices[0])
    else
      var r := FindPortugueseVoice(voices[1..]);
      assert forall i :: 1 <= i < |voices| ==> voices[i] == voices[1..][i - 1];
      r
  }

  /** The utterance `lerTexto` dispatches for `text` once the voice list is
      `voices`. */
  function UtteranceFor(text: string, voices: seq<Voice>): Utterance
  {
    Utterance(text, UtteranceLang, FindPortugueseVoice(voices))
  }

  /** What `lerTexto(text)` sends to the engine at once: a cancel first
      exactly when the narration flag is set, then the utterance itself only
      when audio is on and the voice list is already populated, and nothing
      else. */
  function ReadAloudCommands(speaking: bool, audioOn: bool, text: string, voices: seq<Voice>): (cmds: seq<SpeechCommand>)
    ensures |cmds| <= 2
    ensures |cmds| == (if speaking then 1 else 0) + (if audioOn && voices != [] then 1 else 0)
    ensures (|cmds| > 0 && cmds[0] == Cancel) <==> speaking
    ensures Cancel in cmds <==> speaking
    ensures Speak(UtteranceFor(text, voices)) in cmds <==> audioOn && voices != []
    ensures forall i :: 0 <= i < |cmds| ==> cmds[i] == Cancel || cmds[i] == Speak(UtteranceFor(text, voices))
    ensures !audioOn ==> forall i :: 0 <= i < |cmds| ==> cmds[i] == Cancel
  {
    (if speaking then [Cancel] else []) +
    (if audioOn && voices != [] then [Speak(UtteranceFor(text, voices))] else [])
  }

  /** The utterances whose one-shot "voiceschanged" listeners fire together,
      dispatched in the order they were queued with the new voice list. */
  function SpeakAll(texts: seq<string>, voices: seq<Voice>): (cmds: seq<SpeechCommand>)
    ensures |cmds| == |texts|
    ensures forall i :: 0 <= i < |texts| ==> cmds[i] == Speak(UtteranceFor(texts[i], voices))
  {
    seq(|texts|, i requires 0 <= i < |texts| => Speak(UtteranceFor(texts[i], voices)))
  }

  /** The audio toggle's test at the time it is switched: the trimmed
      displayed text is non-empty and starts with none of the three
      placeholder words. */
  predicate Narratable(displayed: string)
  {
    var t := Trim(displayed);
    t != "" && !StartsWith(t, "Aguardando") && !StartsWith(t, "Analisando") && !StartsWith(t, "Erro")
  }

  /** Text made only of whitespace is never narrated. */
  lemma WhitespaceNotNarratable(displayed: string)
    requires IsBlank(displayed)
    ensures !Narratable(displayed)
  {
    TrimEmptyIff(displayed);
  }

  /** A displayed text that starts with one of the placeholder words is never
      narrated. */
  lemma PlaceholderNotNarratable(displayed: string, word: string)
    requires word in {"Aguardando", "Analisando", "Erro"}
    requires StartsWith(displayed, word)
    ensures !Narratable(displayed)
  {
    TrimKeepsPrefix(displayed, word);
  }

  /** Text with no whitespace at either end and none of the placeholder words
      at its start is narrated as it is. */
  lemma PlainTextNarratable(displayed: string)
    requires displayed != [] && !IsJsWhitespace(displayed[0]) && !IsJsWhitespace(displayed[|displayed| - 1])
    requires !StartsWith(displayed, "Aguardando") && !StartsWith(displayed, "Analisando") && !StartsWith(displayed, "Erro")
    ensures Trim(displayed) == displayed && Narratable(displayed)
  {
    TrimKeepsPrefix(displayed, displayed);
  }
}
