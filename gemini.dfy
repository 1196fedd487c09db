/** How `analisarComGemini` turns the outcome of its one request into the
    string the page shows. The network call and JSON parsing are not modelled:
    their outcomes are the input, a `Reply`. */
module Gemini {
  import opened Wrappers
  import opened Text

  /** One generated part; only its `text` is read. */
  datatype Part = Part(text: string)

  /** `candidate.content`; `parts` is None when the field is absent. */
  datatype Content = Content(parts: Option<seq<Part>>)

  /** One candidate: its `content` and its `finishReason`, each possibly absent. */
  datatype Candidate = Candidate(content: Option<Content>, finishReason: Option<string>)

  /** A top-level `error` object; only its `message` is read. */
  datatype ApiError = ApiError(message: Option<string>)

  /** A parsed JSON value as the code inspects it. `Falsy` stands for JSON
      `null`, `false`, `0` and `""`; every other value is an `Object`, whose
      `candidates` and `error` are None when absent (as they are on a number,
      a non-empty string or an array). */
  datatype Payload = Falsy | Object(candidates: Option<seq<Candidate>>, error: Option<ApiError>)

  /** The outcome of parsing a response body: a syntax error carrying the
      exception's message, or a value. */
  datatype Parsed = NotJson(message: string) | Json(value: Payload)

  /** The outcome of `fetch`: the promise is rejected with an error message,
      or a response arrives with a status, a body and the parse of that body. */
  datatype Reply =
    | FetchFailed(message: string)
    | Http(status: nat, body: string, parsed: Parsed)

  /** What the reply means; each kind has its own message. */
  datatype Analysis =
    | Summary(text: string)          // the first part of the first candidate
    | SafetyBlocked                  // finishReason "SAFETY"
    | TokenLimit                     // finishReason "MAX_TOKENS"
    | Incomplete(reason: string)     // finishReason "OTHER", "UNSPECIFIED" or "RECITATION"
    | Unexpected                     // unusable body and nothing better to say
    | ApiFailure(message: string)    // the body's top-level error message
    | Failed(error: string)          // an exception, caught, with its message

  const HttpExcerptChars: nat := 200
  const FailedPrefix: string := "Erro ao analisar: "
  const FailedDefault: string := "Verifique a conexão e tente novamente."
  const HttpFailurePrefix: string := "Falha na requisição API (status "
  // Written as two literals so that proofs can index the leading "Erro"
  // without unfolding the whole long literal.
  const UnexpectedMessage: string := "Erro: " + "A API retornou uma resposta com estrutura inesperada ou vazia."
  const SafetyMessage: string := "A resposta foi bloqueada por filtros de segurança. O documento pode conter conteúdo sensível ou o prompt precisa ser ajustado."
  const TokenLimitMessage: string := "A resposta foi truncada porque excedeu o limite máximo de tokens. O documento pode ser muito longo para o modelo atual."
  const ApiFailurePrefix: string := "Erro da API: "

  /** `response.ok`: a status in the range 200-299. */
  predicate IsOk(status: nat)
  {
    200 <= status <= 299
  }

  /** A JavaScript condition on an optional string holds when the string is
      present and not empty. */
  predicate Truthy(s: Option<string>)
  {
    s.Some? && s.value != ""
  }

  /** `v.error.message` when the conjunction `v && v.error && v.error.message`
      holds. */
  function ErrorMessage(v: Payload): (m: Option<string>)
    ensures m.Some? <==> v.Object? && v.error.Some? && Truthy(v.error.value.message)
    ensures m.Some? ==> m.value != "" && m == v.error.value.message
  {
    if v.Object? && v.error.Some? && Truthy(v.error.value.message)
    then v.error.value.message else None
  }

  /** `candidates[0]`, when `v.candidates` is present and non-empty. */
  function FirstCandidate(v: Payload): (c: Option<Candidate>)
    ensures c.Some? <==> v.Object? && v.candidates.Some? && |v.candidates.value| > 0
    ensures c.Some? ==> c.value == v.candidates.value[0]
  {
    if v.Object? && v.candidates.Some? && |v.candidates.value| > 0
    then Some(v.candidates.value[0]) else None
  }

  /** `candidates[0].content.parts[0].text`, when the first candidate has
      content whose parts are present and non-empty. */
  function SummaryText(v: Payload): (t: Option<string>)
    ensures t.Some? <==>
      FirstCandidate(v).Some? && FirstCandidate(v).value.content.Some? &&
      FirstCandidate(v).value.content.value.parts.Some? &&
      |FirstCandidate(v).value.content.value.parts.value| > 0
    ensures t.Some? ==> t.value == FirstCandidate(v).value.content.value.parts.value[0].text
  {
    match FirstCandidate(v)
    case Some(Candidate(Some(Content(Some(parts))), _)) =>
      if |parts| > 0 then Some(parts[0].text) else None
    case _ => None
  }

  /** `candidates[0].finishReason`, when it is present and not empty. */
  function FinishReason(v: Payload): (r: Option<string>)
    ensures r.Some? <==> FirstCandidate(v).Some? && Truthy(FirstCandidate(v).value.finishReason)
    ensures r.Some? ==> r == FirstCandidate(v).value.finishReason && r.value != ""
  {
    match FirstCandidate(v)
    case Some(c) => if Truthy(c.finishReason) then c.finishReason else None
    case None => None
  }

  /** What a finish reason means; a reason the code does not know of leaves
      the generic message in place. */
  function ReasonAnalysis(reason: string): (a: Analysis)
    ensures a == SafetyBlocked <==> reason == "SAFETY"
    ensures a == TokenLimit <==> reason == "MAX_TOKENS"
    ensures a.Incomplete? <==> reason in {"OTHER", "UNSPECIFIED", "RECITATION"}
    ensures a.Incomplete? ==> a.reason == reason
    ensures a.SafetyBlocked? || a.TokenLimit? || a.Incomplete? || a == Unexpected
  {
    if reason == "SAFETY" then SafetyBlocked
    else if reason == "MAX_TOKENS" then TokenLimit
    else if reason == "OTHER" || reason == "UNSPECIFIED" || reason == "RECITATION" then Incomplete(reason)
    else Unexpected
  }

  /** A successful response's body, read as the code reads it. */
  function SuccessAnalysis(v: Payload): (a: Analysis)
    ensures !a.Failed?
    ensures a.Summary? <==> SummaryText(v).Some?
    ensures a.Summary? ==> a.text == SummaryText(v).value
    ensures SummaryText(v).None? && FinishReason(v).Some? ==> a == ReasonAnalysis(FinishReason(v).value)
    ensures a.ApiFailure? <==> SummaryText(v).None? && FinishReason(v).None? && ErrorMessage(v).Some?
    ensures a.ApiFailure? ==> a.message == ErrorMessage(v).value
    ensures SummaryText(v).None? && FinishReason(v).None? && ErrorMessage(v).None? ==> a == Unexpected
  {
    if SummaryText(v).Some? then Summary(SummaryText(v).value)
    else if FinishReason(v).Some? then ReasonAnalysis(FinishReason(v).value)
    else if ErrorMessage(v).Some? then ApiFailure(ErrorMessage(v).value)
    else Unexpected
  }

  /** `body.substring(0, 200)`, followed by "..." when the body is longer than
      200 characters. */
  function Excerpt(body: string): (r: string)
    ensures |r| <= HttpExcerptChars + 3
    ensures StartsWith(r, body[..Min(|body|, HttpExcerptChars)])
    ensures |body| <= HttpExcerptChars ==> r == body
    ensures |body| > HttpExcerptChars ==> |r| == HttpExcerptChars + 3 && r[HttpExcerptChars..] == "..."
  {
    if |body| <= HttpExcerptChars then body else body[..HttpExcerptChars] + "..."
  }

  /** What follows the status in the message of a failed request: the parsed
      error message when the body is JSON carrying one, and the body excerpt
      otherwise (including when the body is not JSON). */
  function HttpFailureTail(body: string, parsed: Parsed): string
  {
    if parsed.Json? && ErrorMessage(parsed.value).Some?
    then " Detalhes: " + ErrorMessage(parsed.value).value
    else " Resposta do servidor: " + Excerpt(body)
  }

  /** The message of the error thrown on a non-OK status. */
  function HttpFailureMessage(status: nat, body: string, parsed: Parsed): string
  {
    HttpFailurePrefix + Decimal(status) + ")." + HttpFailureTail(body, parsed)
  }

  /** The whole of `analisarComGemini` after the request: which kind of result
      a reply yields. */
  function Classify(reply: Reply): (a: Analysis)
    ensures a.Failed? <==> reply.FetchFailed? || !IsOk(reply.status) || reply.parsed.NotJson?
    ensures !a.Failed? ==> reply.Http? && reply.parsed.Json? && a == SuccessAnalysis(reply.parsed.value)
  {
    match reply
    case FetchFailed(m) => Failed(m)
    case Http(status, body, parsed) =>
      if !IsOk(status) then Failed(HttpFailureMessage(status, body, parsed))
      else match parsed
        case NotJson(m) => Failed(m)
        case Json(v) => SuccessAnalysis(v)
  }

  /** The string shown for each kind of result. */
  function Render(a: Analysis): (r: string)
    ensures a.Summary? ==> r == a.text
    ensures a.Failed? ==> StartsWith(r, FailedPrefix)
    ensures a == Unexpected ==> r == UnexpectedMessage
    ensures a.ApiFailure? ==> StartsWith(r, ApiFailurePrefix) && r[|ApiFailurePrefix|..] == a.message
  {
    match a
    case Summary(t) => t
    case SafetyBlocked => SafetyMessage
    case TokenLimit => TokenLimitMessage
    case Incomplete(reason) =>
      "A API respondeu, mas a geração não foi totalmente bem-sucedida (motivo: " + reason +
      "). Tente novamente ou com um texto diferente."
    case Unexpected => UnexpectedMessage
    case ApiFailure(m) => ApiFailurePrefix + m
    case Failed(e) => FailedPrefix + (if e != "" then e else FailedDefault)
  }

  /** The string `analisarComGemini` resolves to. */
  function Interpret(reply: Reply): string
  {
    Render(Classify(reply))
  }

  // ---------------------------------------------------------------------
  // Properties of the mapping

  /** On a non-OK status the result names the status, and the rest is the
      parsed error message or the body excerpt. */
  lemma HttpFailureShape(status: nat, body: string, parsed: Parsed)
    requires !IsOk(status)
    ensures var r := Interpret(Http(status, body, parsed));
      var head := FailedPrefix + HttpFailurePrefix + Decimal(status) + ").";
      StartsWith(r, head) &&
      (parsed.Json? && ErrorMessage(parsed.value).Some? ==>
        r[|head|..] == " Detalhes: " + ErrorMessage(parsed.value).value) &&
      (!(parsed.Json? && ErrorMessage(parsed.value).Some?) ==>
        r[|head|..] == " Resposta do servidor: " + Excerpt(body))
  {
    var r := Interpret(Http(status, body, parsed));
    HttpFailureRendered(status, body, parsed);
    var head := FailedPrefix + HttpFailurePrefix + Decimal(status) + ").";
    var tail := HttpFailureTail(body, parsed);
    assert r == head + tail;
    assert r[..|head|] == head && r[|head|..] == tail;
  }

  /** The digits of `Decimal(n)`, placed after `p` and followed by `)`, can be
      located and read back. */
  lemma DigitsReadable(p: string, n: nat, rest: string)
    requires rest != [] && rest[0] == ')'
    ensures var r := p + Decimal(n) + rest;
      exists end :: |p| < end < |r| && r[end] == ')' &&
        (forall k :: |p| <= k < end ==> IsDigit(r[k])) &&
        ParseDecimal(r[|p|..end]) == n
  {
    var d := Decimal(n);
    var r := p + d + rest;
    var end := |p| + |d|;
    assert r[|p|..end] == d;
    assert r[end] == rest[0];
    ParseDecimalOfDecimal(n);
  }

  /** The status can be read back from the message of a failed request: the
      digits that follow the fixed prefix, up to the closing parenthesis,
      are those of the status. */
  lemma HttpStatusReadable(status: nat, body: string, parsed: Parsed)
    requires !IsOk(status)
    ensures var r := Interpret(Http(status, body, parsed));
      var start := |FailedPrefix + HttpFailurePrefix|;
      exists end :: start < end < |r| && r[end] == ')' &&
        (forall k :: start <= k < end ==> IsDigit(r[k])) &&
        ParseDecimal(r[start..end]) == status
  {
    var tail := HttpFailureTail(body, parsed);
    HttpFailureRendered(status, body, parsed);
    assert FailedPrefix + (HttpFailurePrefix + Decimal(status) + ")." + tail)
      == (FailedPrefix + HttpFailurePrefix) + Decimal(status) + (")." + tail);
    DigitsReadable(FailedPrefix + HttpFailurePrefix, status, ")." + tail);
  }

  /** The caught error's message is the whole failure message. */
  lemma HttpFailureRendered(status: nat, body: string, parsed: Parsed)
    requires !IsOk(status)
    ensures Interpret(Http(status, body, parsed))
      == FailedPrefix + (HttpFailurePrefix + Decimal(status) + ")." + HttpFailureTail(body, parsed))
  {
    assert HttpFailureMessage(status, body, parsed)[0] == 'F';
  }

  /** A non-JSON error body is reported by its excerpt, exactly as a JSON body
      without an error message is. */
  lemma UnparsableBodyLikeMessageless(status: nat, body: string, syntax: string, v: Payload)
    requires !IsOk(status) && ErrorMessage(v).None?
    ensures Interpret(Http(status, body, NotJson(syntax))) == Interpret(Http(status, body, Json(v)))
  {
  }

  /** Usable parts win: their first text is the result verbatim, whatever the
      finish reason and the top-level error say. */
  lemma SummaryVerbatim(status: nat, body: string, v: Payload)
    requires IsOk(status) && SummaryText(v).Some?
    ensures Interpret(Http(status, body, Json(v))) == SummaryText(v).value
  {
  }

  /** A finish reason, when present, decides the result: the top-level error
      has no influence, and the known reasons give their own messages. */
  lemma ReasonBeatsTopLevelError(status: nat, body: string, v: Payload, e: Option<ApiError>)
    requires IsOk(status) && v.Object? && SummaryText(v).None? && FinishReason(v).Some?
    ensures Classify(Http(status, body, Json(v))) == Classify(Http(status, body, Json(v.(error := e))))
    ensures !Classify(Http(status, body, Json(v))).ApiFailure?
    ensures FinishReason(v) == Some("SAFETY") ==> Interpret(Http(status, body, Json(v))) == SafetyMessage
    ensures FinishReason(v) == Some("MAX_TOKENS") ==> Interpret(Http(status, body, Json(v))) == TokenLimitMessage
  {
    assert FirstCandidate(v.(error := e)) == FirstCandidate(v);
  }

  /** The top-level error is reported exactly when the request succeeded, the
      body is JSON, there are no usable parts and no finish reason, and the
      error carries a message. */
  lemma ApiFailureIff(reply: Reply, m: string)
    ensures Classify(reply) == ApiFailure(m) <==>
      reply.Http? && IsOk(reply.status) && reply.parsed.Json? &&
      SummaryText(reply.parsed.value).None? && FinishReason(reply.parsed.value).None? &&
      ErrorMessage(reply.parsed.value) == Some(m)
  {
  }

  /** A finish reason the code does not list keeps the generic message. */
  lemma UnknownReasonIsGeneric(status: nat, body: string, v: Payload)
    requires IsOk(status) && SummaryText(v).None? && FinishReason(v).Some?
    requires FinishReason(v).value !in {"SAFETY", "MAX_TOKENS", "OTHER", "UNSPECIFIED", "RECITATION"}
    ensures Interpret(Http(status, body, Json(v))) == UnexpectedMessage
  {
  }

  /** Only a summary is passed through verbatim. Every other result is text
      the page composes, which may still quote the service's error message,
      finish reason or body. */
  lemma OnlySummaryIsVerbatim(reply: Reply)
    ensures Classify(reply).Summary? <==>
      reply.Http? && IsOk(reply.status) && reply.parsed.Json? && SummaryText(reply.parsed.value).Some?
  {
  }

  /** An OK JSON body with no usable parts, no finish reason and no error
      message (such as `{}` or `null`) gives the generic message. */
  lemma NothingUsableIsGeneric(status: nat, body: string, v: Payload)
    requires IsOk(status) && SummaryText(v).None? && FinishReason(v).None? && ErrorMessage(v).None?
    ensures Interpret(Http(status, body, Json(v))) == UnexpectedMessage
  {
  }

  /** Which message each caught failure carries: the rejection's, the one
      thrown on a non-OK status, or the JSON syntax error's. */
  lemma FailureCarries(reply: Reply)
    ensures reply.FetchFailed? ==> Classify(reply) == Failed(reply.message)
    ensures reply.Http? && !IsOk(reply.status) ==>
      Classify(reply) == Failed(HttpFailureMessage(reply.status, reply.body, reply.parsed))
    ensures reply.Http? && IsOk(reply.status) && reply.parsed.NotJson? ==>
      Classify(reply) == Failed(reply.parsed.message)
  {
  }

  /** A rejected request and an OK body that is not JSON are caught and shown
      after the failure prefix with the exception's message, or with the
      connectivity suggestion when that message is empty. */
  lemma ExceptionShown(reply: Reply)
    requires reply.FetchFailed? || (IsOk(reply.status) && reply.parsed.NotJson?)
    ensures var m := if reply.FetchFailed? then reply.message else reply.parsed.message;
      Interpret(reply) == FailedPrefix + (if m != "" then m else FailedDefault)
  {
  }

  /** A reason among "OTHER", "UNSPECIFIED" and "RECITATION" gives the
      message that names it. */
  lemma IncompleteNamesReason(status: nat, body: string, v: Payload)
    requires IsOk(status) && SummaryText(v).None? && FinishReason(v).Some?
    requires FinishReason(v).value in {"OTHER", "UNSPECIFIED", "RECITATION"}
    ensures Interpret(Http(status, body, Json(v))) ==
      "A API respondeu, mas a geração não foi totalmente bem-sucedida (motivo: " + FinishReason(v).value +
      "). Tente novamente ou com um texto diferente."
  {
  }

  /** An exception's message is shown after the failure prefix, and an empty
      one is replaced by the connectivity suggestion. */
  lemma FailedMessage(e: string)
    ensures StartsWith(Render(Failed(e)), FailedPrefix)
    ensures e == "" ==> Render(Failed(e)) == FailedPrefix + FailedDefault
    ensures e != "" ==> Render(Failed(e))[|FailedPrefix|..] == e
  {
  }
}
