// The language-model fallback agent: choose a coaching persona from the requested
// level, build the two-message chat request, and turn the outcome of the call into
// the `{status, message, snackbar?}` envelope, logging the exchange once.
//
// The HTTP call itself is not modelled: its outcome is an input.

module LlmFallback {
  import opened Basics
  import opened Logger

  /** The three personas of `SDE_PERSONAS`, named by their keys (the prose is not modelled). */
  datatype Level = SDE1 | SDE2 | SDE3

  function LevelKey(level: Level): string
  {
    match level
    case SDE1 => "SDE1"
    case SDE2 => "SDE2"
    case SDE3 => "SDE3"
  }

  /** `SDE_PERSONAS`, keyed by the upper-case level name. */
  const Personas: map<string, Level> := map["SDE1" := SDE1, "SDE2" := SDE2, "SDE3" := SDE3]

  lemma PersonasKeys()
    ensures forall key :: key in Personas <==> exists l :: LevelKey(l) == key
  {
    assert LevelKey(SDE1) in Personas && LevelKey(SDE2) in Personas && LevelKey(SDE3) in Personas;
  }

  /** `get_persona_for_level`: a missing or empty level means SDE1; otherwise the
      upper-cased level is looked up, and an unknown key falls back to SDE1. */
  function PersonaForLevel(level: Option<string>): (r: Level)
    ensures level.None? || level.value == "" ==> r == SDE1
    ensures level.Some? && level.value != "" ==>
              forall l :: LevelKey(l) == Upper(level.value) ==> r == l
    ensures r != SDE1 ==> level.Some? && LevelKey(r) == Upper(level.value)
  {
    var key := if level.Some? && level.value != "" then Upper(level.value) else "SDE1";
    if key in Personas then Personas[key] else Personas["SDE1"]
  }

  /** Case does not matter: a level and its upper-case spelling pick the same persona. */
  lemma PersonaIgnoresCase(level: string)
    ensures PersonaForLevel(Some(Upper(level))) == PersonaForLevel(Some(level))
  {
    UpperIdempotent(level);
  }

  lemma LowerCaseLevel(level: string)
    requires level == "sde2"
    ensures PersonaForLevel(Some(level)) == SDE2
  {
    assert Upper(level) == "SDE2" by {
      assert Upper(level) == [UpperChar('s')] + Upper("de2");
      assert Upper("de2") == [UpperChar('d')] + Upper("e2");
      assert Upper("e2") == [UpperChar('e')] + Upper("2");
      assert Upper("2") == [UpperChar('2')] + Upper("");
    }
  }

  /** Any level whose upper-case form is not a key falls back to SDE1. */
  lemma UnknownLevelIsEntryLevel(level: string)
    requires Upper(level) !in Personas
    ensures PersonaForLevel(Some(level)) == SDE1
  {
  }

  /** The abstract result of the chat-completions call. */
  datatype CallOutcome =
    | Success(reply: string)
    | HttpError(code: int, body: string)
    | OtherError(detail: string)

  datatype Status = Ok | Error

  /** The returned dictionary; `snackbar` is `None` where the key is absent. */
  datatype Envelope = Envelope(status: Status, message: string, snackbar: Option<string>)

  /** The chat request: model name and the message list. */
  datatype ChatMessage = SystemMessage(persona: Level) | UserMessage(content: string)
  datatype Request = Request(model: string, messages: seq<ChatMessage>)

  const MissingKeyMessage: string := "❌" + " Missing GROQ_API_KEY" + " in environment variables."
  const MissingKeySnackbar: string := "Internal configuration error. Please check environment setup."
  const HttpFailedSnackbar: string := "LLM backend failed. Please try again later."
  const GenericErrorMessage: string := "❌" + " Something went wrong. Please try again."
  const GenericErrorSnackbar: string := "An unexpected error occurred."

  /** `f"❌ API call failed: {status_code}"`. */
  function HttpErrorMessage(code: int): (r: string)
    ensures |r| >= 20 && r[0] == '❌'
  {
    "❌" + " API call failed: " + IntToString(code)
  }

  /** Distinct status codes give distinct messages. */
  lemma HttpErrorMessageInjective(a: int, b: int)
    requires HttpErrorMessage(a) == HttpErrorMessage(b)
    ensures a == b
  {
    var prefix := "❌" + " API call failed: ";
    assert HttpErrorMessage(a) == prefix + IntToString(a);
    assert HttpErrorMessage(b) == prefix + IntToString(b);
    assert IntToString(a) == HttpErrorMessage(a)[|prefix|..];
    assert IntToString(b) == HttpErrorMessage(b)[|prefix|..];
    IntToStringInjective(a, b);
  }

  /** The messages list: the persona as system message, then the user's input. */
  function RequestFor(model: string, level: Option<string>, userInput: string): (r: Request)
    ensures r.model == model && |r.messages| == 2
    ensures r.messages[0] == SystemMessage(PersonaForLevel(level))
    ensures r.messages[1] == UserMessage(userInput)
  {
    Request(model, [SystemMessage(PersonaForLevel(level)), UserMessage(userInput)])
  }

  /** The envelope `simple_agent` returns for a key being present or not and the call's outcome. */
  function EnvelopeFor(hasApiKey: bool, outcome: CallOutcome): (r: Envelope)
    ensures r.status == Ok <==> hasApiKey && outcome.Success?
    ensures r.snackbar.Some? <==> r.status == Error
    ensures r.status == Ok ==> r.message == outcome.reply
    ensures r.status == Error ==> r.message != [] && r.message[0] == '❌'
  {
    if !hasApiKey then Envelope(Error, MissingKeyMessage, Some(MissingKeySnackbar))
    else match outcome
      case Success(reply) => Envelope(Ok, reply, None)
      case HttpError(code, _) => Envelope(Error, HttpErrorMessage(code), Some(HttpFailedSnackbar))
      case OtherError(_) => Envelope(Error, GenericErrorMessage, Some(GenericErrorSnackbar))
  }

  /** Without a key the outcome is never consulted. */
  lemma MissingKeyIgnoresOutcome(a: CallOutcome, b: CallOutcome)
    ensures EnvelopeFor(false, a) == EnvelopeFor(false, b)
    ensures EnvelopeFor(false, a) == Envelope(Error, MissingKeyMessage, Some(MissingKeySnackbar))
  {
  }

  /** The provider's error body never reaches the envelope; only the status code does. */
  lemma HttpBodyNeverShown(code: int, body1: string, body2: string)
    ensures EnvelopeFor(true, HttpError(code, body1)) == EnvelopeFor(true, HttpError(code, body2))
  {
  }

  /** The three failure kinds are told apart by their messages. */
  lemma FailureMessagesDistinct(code: int)
    ensures HttpErrorMessage(code) != MissingKeyMessage
    ensures HttpErrorMessage(code) != GenericErrorMessage
    ensures MissingKeyMessage != GenericErrorMessage
  {
    var m := HttpErrorMessage(code);
    assert m[2] == 'A';
    assert MissingKeyMessage[2] == 'M';
    assert GenericErrorMessage[2] == 'S';
  }

  /** A session id is logged under only when it is truthy. */
  predicate Truthy(sessionId: Option<string>)
  {
    sessionId.Some? && sessionId.value != ""
  }

  /** The session dictionary after one `simple_agent` call. */
  function LogAfter(memory: map<string, seq<LogEntry>>, sessionId: Option<string>, userInput: string,
                    env: Envelope, now: string): (r: map<string, seq<LogEntry>>)
    ensures Truthy(sessionId) ==>
              LogsOf(r, sessionId.value) == LogsOf(memory, sessionId.value) + [LogEntry(now, userInput, env.message)]
    ensures forall s :: !(Truthy(sessionId) && s == sessionId.value) ==> LogsOf(r, s) == LogsOf(memory, s)
  {
    if Truthy(sessionId) then Appended(memory, sessionId.value, LogEntry(now, userInput, env.message))
    else memory
  }

  /** Each call logs exactly once under a truthy session id, and the logged response is
      the returned message; no other session, and no falsy id, gains an entry. */
  lemma LogsExactlyOnce(memory: map<string, seq<LogEntry>>, sessionId: Option<string>, userInput: string,
                        env: Envelope, now: string, s: string)
    ensures var after := LogsOf(LogAfter(memory, sessionId, userInput, env, now), s);
            if Truthy(sessionId) && s == sessionId.value
            then |after| == |LogsOf(memory, s)| + 1 && after[..|after| - 1] == LogsOf(memory, s)
                 && after[|after| - 1] == LogEntry(now, userInput, env.message)
            else after == LogsOf(memory, s)
  {
  }

  /** `simple_agent`: check the key, build the request, map the outcome to the
      envelope, and log the exchange on every path when the session id is truthy. */
  method SimpleAgent(log: SessionStore, userInput: string, sessionId: Option<string>, model: string,
                     level: Option<string>, hasApiKey: bool, outcome: CallOutcome, now: string)
    returns (env: Envelope, request: Option<Request>)
    modifies log
    ensures env == EnvelopeFor(hasApiKey, outcome)
    ensures request.Some? <==> hasApiKey
    ensures hasApiKey ==> request == Some(RequestFor(model, level, userInput))
    ensures log.memory == LogAfter(old(log.memory), sessionId, userInput, env, now)
  {
    if !hasApiKey {
      var errorMessage := MissingKeyMessage;
      if Truthy(sessionId) {
        log.AppendSessionLog(sessionId.value, userInput, errorMessage, now);
      }
      return Envelope(Error, errorMessage, Some(MissingKeySnackbar)), None;
    }
    var persona := PersonaForLevel(level);
    var messages := [SystemMessage(persona), UserMessage(userInput)];
    request := Some(Request(model, messages));
    match outcome {
      case Success(reply) =>
        if Truthy(sessionId) {
          log.AppendSessionLog(sessionId.value, userInput, reply, now);
        }
        env := Envelope(Ok, reply, None);
      case HttpError(code, _) =>
        var errorMessage := HttpErrorMessage(code);
        if Truthy(sessionId) {
          log.AppendSessionLog(sessionId.value, userInput, errorMessage, now);
        }
        env := Envelope(Error, errorMessage, Some(HttpFailedSnackbar));
      case OtherError(_) =>
        var errorMessage := GenericErrorMessage;
        if Truthy(sessionId) {
          log.AppendSessionLog(sessionId.value, userInput, errorMessage, now);
        }
        env := Envelope(Error, errorMessage, Some(GenericErrorSnackbar));
    }
  }
}
