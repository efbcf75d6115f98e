/** The extension's background worker: it relays a voice command to the active tab's content
    script (injecting the script and retrying when no receiver exists), validates and forwards
    recorded audio to the Gemini API, and holds the API key in one mutable variable. */
module Background {
  import opened Wrappers
  import opened Strings

  // ---------------------------------------------------------------- replies and requests

  /** What `sendResponse` is given: the `{success, text?, error?, recording?}` record, or the
      `{status, message}` record of the unknown-action branch. */
  datatype Reply =
    | Ack(success: bool, text: Option<string>, error: Option<string>, recording: Option<bool>)
    | StatusReply(status: string, message: string)

  function Failed(message: string): Reply {
    Ack(false, None, Some(message), None)
  }

  /** The messages the worker's listener dispatches on; `Unknown` stands for any other
      `action` string. */
  datatype Request =
    | VoiceCommand(replaceMode: Option<bool>)
    | ProcessAudioWithGemini(audioData: string, selectedText: string, mimeType: string)
    | SetGeminiApiKey(apiKey: string)
    | Unknown(action: string)

  // ---------------------------------------------------------------- MIME mapping

  const WebmType := "audio/webm"
  const Mp4Type := "audio/mp4"
  const MpegType := "audio/mpeg"

  /** The MIME type sent to the API for the recorder's MIME type: the first of "webm", "mp4",
      "mpeg" that the recorder's type contains decides; anything else is sent as webm. */
  function GeminiMimeType(mimeType: string): (r: string)
    ensures r == WebmType || r == Mp4Type || r == MpegType
    ensures Contains(mimeType, "webm") ==> r == WebmType
    ensures !Contains(mimeType, "webm") && Contains(mimeType, "mp4") ==> r == Mp4Type
    ensures (!Contains(mimeType, "webm") && !Contains(mimeType, "mp4") && Contains(mimeType, "mpeg"))
              ==> r == MpegType
    ensures (!Contains(mimeType, "webm") && !Contains(mimeType, "mp4") && !Contains(mimeType, "mpeg"))
              ==> r == WebmType
  {
    if Contains(mimeType, "webm") then WebmType
    else if Contains(mimeType, "mp4") then Mp4Type
    else if Contains(mimeType, "mpeg") then MpegType
    else WebmType
  }

  // ---------------------------------------------------------------- prompt choice

  const TranscribePrompt :=
    "Please" + " listen to the audio and transcribe what was said. Return only the transcribed text "
    + "without any markdown formatting, code blocks, or backticks."

  const EditInstructions :=
    "\"\n\nPlease listen to the audio and modify the context text according to the voice command "
    + "in the audio. Return only the modified text without any markdown formatting, code blocks, "
    + "or backticks. Just return the plain text that should replace the selected text."

  const ContextLead := "Context text: \""

  /** The edit prompt: the selected text quoted inside fixed instructions. */
  function EditPrompt(selectedText: string): (p: string)
    ensures OccursAt(p, selectedText, |ContextLead|)
  {
    var p := ContextLead + selectedText + EditInstructions;
    assert p[|ContextLead|..|ContextLead| + |selectedText|] == selectedText;
    p
  }

  /** The prompt sent with the audio: the edit prompt when the selection has a non-space
      character, the transcription prompt otherwise. */
  function ChoosePrompt(selectedText: string): (p: string)
    ensures HasNonSpace(selectedText) ==> p == EditPrompt(selectedText)
    ensures !HasNonSpace(selectedText) ==> p == TranscribePrompt
  {
    if Trim(selectedText) != [] then EditPrompt(selectedText) else TranscribePrompt
  }

  /** The edit prompt, which embeds the selection, is chosen exactly when the selection is not
      blank; otherwise the transcription prompt is. */
  lemma PromptChoice(selectedText: string)
    ensures ChoosePrompt(selectedText) == EditPrompt(selectedText) <==> HasNonSpace(selectedText)
    ensures ChoosePrompt(selectedText) == TranscribePrompt <==> !HasNonSpace(selectedText)
    ensures HasNonSpace(selectedText) ==> Contains(ChoosePrompt(selectedText), selectedText)
  {
    var e := EditPrompt(selectedText);
    assert e[0] == 'C' && TranscribePrompt[0] == 'P';
    assert e != TranscribePrompt;
  }

  // ---------------------------------------------------------------- the Gemini call

  /** What `fetch` gave back: a rejected promise, or a response with its status, status text
      and, when the body has one, `candidates[0].content.parts[0].text`. */
  datatype HttpReply =
    | NetworkError(message: string)
    | HttpResponse(status: nat, statusText: string, candidateText: Option<string>)

  predicate IsOk(status: nat) { 200 <= status <= 299 }

  const NoKeyError := "Gemini API key not set. Please configure in extension settings."
  const NoAudioError := "No audio data received"
  const InvalidKeyError := "Gemini API key" + " is invalid or expired. Please check your API key in settings."
  const EmptyTextError := "No text received from Gemini API"
  /** Stands for the runtime's TypeError when the reply has no candidate text. */
  const MissingCandidateError := "Cannot read the candidate text of the Gemini response"

  function ApiFailedError(status: nat, statusText: string): string {
    "Gemini API failed: " + NatToString(status) + " " + statusText
  }

  /** The text extracted from the API's reply, or the error thrown for it. */
  function InterpretGeminiReply(reply: HttpReply): (r: Result<string, string>)
    ensures r.Success? <==> reply.HttpResponse? && IsOk(reply.status)
                            && reply.candidateText.Some? && HasNonSpace(reply.candidateText.value)
    ensures r.Success? ==> r.value == Trim(reply.candidateText.value) && r.value != [] && IsTrimmed(r.value)
    ensures (reply.HttpResponse? && (reply.status == 401 || reply.status == 403))
              ==> r == Failure(InvalidKeyError)
    ensures (reply.HttpResponse? && !IsOk(reply.status) && reply.status != 401 && reply.status != 403)
              ==> r == Failure(ApiFailedError(reply.status, reply.statusText))
    ensures (reply.HttpResponse? && IsOk(reply.status) && reply.candidateText.Some?
             && !HasNonSpace(reply.candidateText.value)) ==> r == Failure(EmptyTextError)
  {
    match reply
    case NetworkError(m) => Failure(m)
    case HttpResponse(status, statusText, text) =>
      if !IsOk(status) then
        if status == 401 || status == 403 then Failure(InvalidKeyError)
        else Failure(ApiFailedError(status, statusText))
      else if text.None? then Failure(MissingCandidateError)
      else if Trim(text.value) == [] then Failure(EmptyTextError)
      else Success(Trim(text.value))
  }

  /** An expired or invalid key is reported with a message no other status can produce. */
  lemma InvalidKeyDistinct(status: nat, statusText: string)
    ensures InvalidKeyError != ApiFailedError(status, statusText)
  {
    assert InvalidKeyError[11] == 'k';
    assert ApiFailedError(status, statusText)[11] == 'f';
  }

  /** The request the worker sends to the API. */
  datatype GeminiRequest = GeminiRequest(apiKey: string, mimeType: string, audioData: string, prompt: string)

  /** The reply to `processAudioWithGemini`, and the request sent to the API if one was. */
  datatype AudioOutcome = AudioOutcome(reply: Reply, request: Option<GeminiRequest>)

  /** The `processAudioWithGemini` branch: the key is checked first, then the audio; only
      then is a request built (mapped MIME type, chosen prompt) and sent, and the API's reply
      interpreted. */
  function ProcessAudio(apiKey: string, audioData: string, selectedText: string, mimeType: string,
                        gemini: HttpReply): (o: AudioOutcome)
    ensures apiKey == [] ==> o == AudioOutcome(Failed(NoKeyError), None)
    ensures apiKey != [] && audioData == [] ==> o == AudioOutcome(Failed(NoAudioError), None)
    ensures o.request.Some? <==> apiKey != [] && audioData != []
    ensures o.request.Some? ==> o.request.value.apiKey == apiKey && o.request.value.audioData == audioData
    ensures o.reply.Ack? && (o.reply.success <==> o.reply.text.Some?) && (o.reply.success <==> o.reply.error.None?)
    ensures o.reply.success ==> o.request.Some? && InterpretGeminiReply(gemini) == Success(o.reply.text.value)
    ensures o.request.Some? ==>
              o.request.value == GeminiRequest(apiKey, GeminiMimeType(mimeType), audioData, ChoosePrompt(selectedText))
    ensures apiKey != [] && audioData != [] ==>
              o.reply == match InterpretGeminiReply(gemini)
                         case Success(t) => Ack(true, Some(t), None, None)
                         case Failure(e) => Failed(e)
  {
    if apiKey == [] then AudioOutcome(Failed(NoKeyError), None)
    else if audioData == [] then AudioOutcome(Failed(NoAudioError), None)
    else
      var request := GeminiRequest(apiKey, GeminiMimeType(mimeType), audioData, ChoosePrompt(selectedText));
      match InterpretGeminiReply(gemini)
      case Success(text) => AudioOutcome(Ack(true, Some(text), None, None), Some(request))
      case Failure(e) => AudioOutcome(Failed(e), Some(request))
  }

  // ---------------------------------------------------------------- relay with retry

  /** One `chrome.tabs.sendMessage` attempt: the content script's reply (its `recording`
      field, when present) or the error the promise rejected with. */
  datatype SendResult = Delivered(recording: Option<bool>) | SendFailed(message: string)

  const NoReceiver := "Receiving end does not exist"
  const CouldNotInject := "Could" + " not inject content script. Please refresh the page and try again."
  const NotLoaded := "Content" + " script could not be loaded after multiple attempts. Please refresh the page."
  const MaxRetries: nat := 2

  /** `sendMessageWithRetry(retryCount)` as the source writes it, recursion included: `send(k)`
      is what attempt `k` gives, `inject(k)` whether the injection after it succeeds. The
      retried call sits inside the injection's `try`, so any error of a retried attempt is
      replaced by the injection error. */
  function Relay(send: nat -> SendResult, inject: nat -> bool, retryCount: nat): (r: Result<Option<bool>, string>)
    requires retryCount <= MaxRetries
    ensures send(retryCount).Delivered? ==> r == Success(send(retryCount).recording)
    ensures send(retryCount).SendFailed? && !Contains(send(retryCount).message, NoReceiver) ==>
              r == Failure(send(retryCount).message)
    ensures send(retryCount).SendFailed? && Contains(send(retryCount).message, NoReceiver) ==>
              r.Failure? ==> r.error == (if retryCount < MaxRetries then CouldNotInject else NotLoaded)
    decreases MaxRetries - retryCount
  {
    match send(retryCount)
    case Delivered(recording) => Success(recording)
    case SendFailed(message) =>
      if !Contains(message, NoReceiver) then Failure(message)
      else if retryCount < MaxRetries then
        if !inject(retryCount) then Failure(CouldNotInject)
        else Surface(1, Relay(send, inject, retryCount + 1))
      else Failure(NotLoaded)
  }

  /** How an outcome of the call at depth `depth` looks to the first caller: every enclosing
      injection `catch` turns an error into the injection error. */
  function Surface(depth: nat, r: Result<Option<bool>, string>): (s: Result<Option<bool>, string>)
    ensures s.Success? <==> r.Success?
    ensures s.Success? || depth == 0 ==> s == r
    ensures s.Failure? && depth > 0 ==> s.error == CouldNotInject
  {
    if depth == 0 || r.Success? then r else Failure(CouldNotInject)
  }

  /** The relay as a bounded loop. It sends at most three times and injects at most twice, and
      its answer is the recursive definition's. */
  method SendMessageWithRetry(send: nat -> SendResult, inject: nat -> bool)
    returns (r: Result<Option<bool>, string>, sends: nat, injections: nat)
    ensures r == Relay(send, inject, 0)
    ensures 1 <= sends <= MaxRetries + 1 && injections <= MaxRetries
    ensures injections <= sends <= injections + 1
  {
    var retryCount: nat := 0;
    sends, injections := 0, 0;
    while true
      invariant retryCount <= MaxRetries
      invariant sends == retryCount && injections == retryCount
      invariant Relay(send, inject, 0) == Surface(retryCount, Relay(send, inject, retryCount))
      decreases MaxRetries - retryCount
    {
      var attempt := send(retryCount);
      sends := sends + 1;
      match attempt {
        case Delivered(recording) =>
          r := Success(recording);
          return;
        case SendFailed(message) =>
          if !Contains(message, NoReceiver) {
            r := Surface(retryCount, Failure(message));
            return;
          }
          if retryCount >= MaxRetries {
            r := Surface(retryCount, Failure(NotLoaded));
            return;
          }
          var injected := inject(retryCount);
          injections := injections + 1;
          if !injected {
            r := Failure(CouldNotInject);
            return;
          }
          retryCount := retryCount + 1;
      }
    }
  }

  /** No fourth attempt and no third injection: the relay's answer depends on the first three
      sends and the first two injections only. */
  lemma {:induction false} RelayUsesThreeAttempts(send1: nat -> SendResult, inject1: nat -> bool,
                                                   send2: nat -> SendResult, inject2: nat -> bool, k: nat)
    requires k <= MaxRetries
    requires forall i :: k <= i <= MaxRetries ==> send1(i) == send2(i)
    requires forall i :: k <= i < MaxRetries ==> inject1(i) == inject2(i)
    ensures Relay(send1, inject1, k) == Relay(send2, inject2, k)
    decreases MaxRetries - k
  {
    if k < MaxRetries {
      RelayUsesThreeAttempts(send1, inject1, send2, inject2, k + 1);
    }
  }

  /** An error reaches the caller either as the first attempt's own error (one that is not a
      missing receiver) or as the injection error: "could not be loaded after multiple
      attempts" never does. */
  lemma {:induction false} RelayFailureOrigin(send: nat -> SendResult, inject: nat -> bool)
    ensures Relay(send, inject, 0).Failure? ==>
              || Relay(send, inject, 0).error == CouldNotInject
              || (send(0).SendFailed? && !Contains(send(0).message, NoReceiver)
                  && Relay(send, inject, 0).error == send(0).message)
    ensures (send(0).SendFailed? && Contains(send(0).message, NoReceiver) && Relay(send, inject, 0).Failure?)
              ==> Relay(send, inject, 0).error == CouldNotInject
  {
  }

  /** A success is the reply of one of the three attempts. */
  lemma {:induction false} RelaySuccessIsDelivered(send: nat -> SendResult, inject: nat -> bool, k: nat)
    requires k <= MaxRetries
    ensures Relay(send, inject, k).Success? ==>
              exists i :: k <= i <= MaxRetries && send(i) == Delivered(Relay(send, inject, k).value)
    decreases MaxRetries - k
  {
    if k < MaxRetries { RelaySuccessIsDelivered(send, inject, k + 1); }
  }

  /** When every attempt finds no receiver although both injections succeed, the caller is
      told that the injection failed, never that the script could not be loaded. */
  lemma {:induction false} RelayMasksExhaustion(send: nat -> SendResult, inject: nat -> bool, k: nat)
    requires 0 < k <= MaxRetries
    requires forall i :: k <= i <= MaxRetries ==> send(i).SendFailed? && Contains(send(i).message, NoReceiver)
    requires forall i :: k <= i < MaxRetries ==> inject(i)
    ensures Surface(k, Relay(send, inject, k)) == Failure(CouldNotInject)
    ensures CouldNotInject != NotLoaded
    decreases MaxRetries - k
  {
    assert CouldNotInject[2] == 'u' && NotLoaded[2] == 'n';
    if k < MaxRetries {
      RelayMasksExhaustion(send, inject, k + 1);
    }
  }

  /** The relay with the injection's `catch` around the injection only: a retried attempt's
      outcome reaches the caller unchanged. */
  function IntendedRelay(send: nat -> SendResult, inject: nat -> bool, retryCount: nat): (r: Result<Option<bool>, string>)
    requires retryCount <= MaxRetries
    ensures r.Success? ==> exists i :: retryCount <= i <= MaxRetries && send(i) == Delivered(r.value)
    ensures r.Failure? ==>
              || r.error == CouldNotInject || r.error == NotLoaded
              || exists i :: retryCount <= i <= MaxRetries && send(i) == SendFailed(r.error)
    decreases MaxRetries - retryCount
  {
    match send(retryCount)
    case Delivered(recording) => Success(recording)
    case SendFailed(message) =>
      if !Contains(message, NoReceiver) then Failure(message)
      else if retryCount < MaxRetries then
        if !inject(retryCount) then Failure(CouldNotInject)
        else IntendedRelay(send, inject, retryCount + 1)
      else Failure(NotLoaded)
  }

  /** With the intended relay, three attempts without a receiver after two good injections
      report that the script could not be loaded. */
  lemma {:induction false} IntendedRelayReportsExhaustion(send: nat -> SendResult, inject: nat -> bool, k: nat)
    requires k <= MaxRetries
    requires forall i :: k <= i <= MaxRetries ==> send(i).SendFailed? && Contains(send(i).message, NoReceiver)
    requires forall i :: k <= i < MaxRetries ==> inject(i)
    ensures IntendedRelay(send, inject, k) == Failure(NotLoaded)
    decreases MaxRetries - k
  {
    if k < MaxRetries {
      IntendedRelayReportsExhaustion(send, inject, k + 1);
    }
  }

  /** With the intended relay, an attempt's own error (one that is not a missing receiver)
      reaches the caller unchanged, after however many good injections. */
  lemma {:induction false} IntendedRelayKeepsOtherErrors(send: nat -> SendResult, inject: nat -> bool,
                                                         k: nat, j: nat)
    requires k <= j <= MaxRetries
    requires forall i :: k <= i < j ==> send(i).SendFailed? && Contains(send(i).message, NoReceiver) && inject(i)
    requires send(j).SendFailed? && !Contains(send(j).message, NoReceiver)
    ensures IntendedRelay(send, inject, k) == Failure(send(j).message)
    decreases j - k
  {
    if k < j {
      IntendedRelayKeepsOtherErrors(send, inject, k + 1, j);
    }
  }

  // ---------------------------------------------------------------- the two handlers

  /** The first tab `chrome.tabs.query` finds, if any, with its `id` (which may be absent). */
  datatype TabQuery = NoTabs | ActiveTab(id: Option<nat>)

  /** A tab the handlers relay to: one was found and its `id` is truthy (present and not 0). */
  predicate HasTabId(tab: TabQuery) {
    tab.ActiveTab? && tab.id.Some? && tab.id.value != 0
  }

  const NoActiveTabError := "No active tab found"
  /** Stands for the runtime's TypeError when no tab was found and its `id` is read. */
  const UndefinedTabError := "Cannot read properties of undefined (reading 'id')"

  /** The popup's `voiceCommand` branch: no tab at all throws on reading its `id`, a falsy
      `id` is "No active tab found"; otherwise the relay's outcome becomes
      `{success, recording}` or `{success: false, error}`. */
  method VoiceCommandFromPopup(activeTab: TabQuery, replaceMode: Option<bool>,
                               send: nat -> SendResult, inject: nat -> bool)
    returns (reply: Reply, sentReplaceMode: bool)
    ensures sentReplaceMode == replaceMode.GetOr(false)
    ensures activeTab.NoTabs? ==> reply == Failed(UndefinedTabError)
    ensures activeTab.ActiveTab? && !HasTabId(activeTab) ==> reply == Failed(NoActiveTabError)
    ensures HasTabId(activeTab) ==>
      reply == match Relay(send, inject, 0)
               case Success(recording) => Ack(true, None, None, Some(recording.GetOr(false)))
               case Failure(e) => Failed(e)
  {
    sentReplaceMode := replaceMode.GetOr(false);
    if activeTab.NoTabs? {
      reply := Failed(UndefinedTabError);
      return;
    }
    if activeTab.id.None? || activeTab.id.value == 0 {
      reply := Failed(NoActiveTabError);
      return;
    }
    var r, _, _ := SendMessageWithRetry(send, inject);
    match r {
      case Success(recording) => reply := Ack(true, None, None, Some(recording.GetOr(false)));
      case Failure(e) => reply := Failed(e);
    }
  }

  /** The keyboard-shortcut handler: only the "voice-command" command with a found tab whose
      `id` is truthy is relayed, with the stored replace-mode setting; with no tab at all the
      handler throws, and neither that nor the relay's outcome is reported to anyone. */
  method OnShortcut(command: string, activeTab: TabQuery, storedReplaceMode: Option<bool>,
                    send: nat -> SendResult, inject: nat -> bool)
    returns (outcome: Option<Result<Option<bool>, string>>, sentReplaceMode: bool)
    ensures outcome.Some? <==> command == "voice-command" && HasTabId(activeTab)
    ensures outcome.Some? ==> outcome.value == Relay(send, inject, 0)
    ensures sentReplaceMode == storedReplaceMode.GetOr(false)
  {
    sentReplaceMode := storedReplaceMode.GetOr(false);
    if command != "voice-command" || !HasTabId(activeTab) {
      outcome := None;
      return;
    }
    var r, _, _ := SendMessageWithRetry(send, inject);
    outcome := Some(r);
  }

  // ---------------------------------------------------------------- the worker's state

  /** What the listener needs from the outside world for one message. */
  datatype Environment = Environment(activeTab: TabQuery, send: nat -> SendResult,
                                     inject: nat -> bool, gemini: HttpReply)

  /** The worker's module-level state: `GEMINI_API_KEY` and its copy in synced storage. */
  class Coordinator {
    var apiKey: string
    var storedApiKey: string

    /** Start-up: the key baked in at build time (possibly empty) is used and stored. */
    constructor (buildKey: string)
      ensures apiKey == buildKey && storedApiKey == buildKey
    {
      apiKey := buildKey;
      storedApiKey := buildKey;
    }

    /** The message listener. `setGeminiApiKey` overwrites the key, unchecked, for every later
        request; no other message changes it. */
    method HandleMessage(request: Request, env: Environment) returns (reply: Reply)
      modifies this
      ensures request.SetGeminiApiKey? ==>
        apiKey == request.apiKey && storedApiKey == request.apiKey && reply == Ack(true, None, None, None)
      ensures !request.SetGeminiApiKey? ==> apiKey == old(apiKey) && storedApiKey == old(storedApiKey)
      ensures request.ProcessAudioWithGemini? ==>
        reply == ProcessAudio(old(apiKey), request.audioData, request.selectedText, request.mimeType, env.gemini).reply
      ensures request.Unknown? ==> reply == StatusReply("error", "Unknown action")
      ensures request.VoiceCommand? && env.activeTab.NoTabs? ==> reply == Failed(UndefinedTabError)
      ensures request.VoiceCommand? && env.activeTab.ActiveTab? && !HasTabId(env.activeTab) ==>
        reply == Failed(NoActiveTabError)
      ensures request.VoiceCommand? && HasTabId(env.activeTab) ==>
        reply == match Relay(env.send, env.inject, 0)
                 case Success(recording) => Ack(true, None, None, Some(recording.GetOr(false)))
                 case Failure(e) => Failed(e)
    {
      match request {
        case VoiceCommand(replaceMode) =>
          var sentReplaceMode;
          reply, sentReplaceMode := VoiceCommandFromPopup(env.activeTab, replaceMode, env.send, env.inject);
        case ProcessAudioWithGemini(audioData, selectedText, mimeType) =>
          reply := ProcessAudio(apiKey, audioData, selectedText, mimeType, env.gemini).reply;
        case SetGeminiApiKey(key) =>
          apiKey := key;
          storedApiKey := key;
          reply := Ack(true, None, None, None);
        case Unknown(_) =>
          reply := StatusReply("error", "Unknown action");
      }
    }
  }
}
