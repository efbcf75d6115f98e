/** The content script injected into every page: a per-tab voice-command session that captures
    the selection, records audio, sends it to the background worker and either replaces the
    selection with the answer or copies the answer to the clipboard.

    The handler is asynchronous; here each point where it resumes is an event method of
    `VoiceSession`: the command itself, a data chunk from the recorder, the recorder's stop or
    error, the 30-second auto-stop timer and the one-second "done" timer. Browser capabilities,
    the microphone permission, the recorder's data and the worker's answer are parameters. */
module ContentScript {
  import opened Wrappers
  import opened Strings
  import MarkdownCleanup
  import Background

  // ---------------------------------------------------------------- recording format

  const WebmType := "audio/webm"
  const OpusType := "audio/webm;codecs=opus"
  const Mp4Type := "audio/mp4"
  const MpegType := "audio/mpeg"

  /** The browser can record in at least one of the four containers the script asks about. */
  predicate CanRecord(isTypeSupported: string -> bool) {
    isTypeSupported(WebmType) || isTypeSupported(OpusType) || isTypeSupported(Mp4Type) || isTypeSupported(MpegType)
  }

  /** The recorder's MIME type: plain webm when supported, else the first supported of opus,
      mp4 and mpeg, else plain webm anyway. */
  function PickRecordingMimeType(isTypeSupported: string -> bool): (m: string)
    ensures m == WebmType || m == OpusType || m == Mp4Type || m == MpegType
    ensures isTypeSupported(WebmType) ==> m == WebmType
    ensures m != WebmType ==> isTypeSupported(m) && !isTypeSupported(WebmType)
    ensures m == Mp4Type ==> !isTypeSupported(OpusType)
    ensures m == MpegType ==> !isTypeSupported(OpusType) && !isTypeSupported(Mp4Type)
    ensures (!isTypeSupported(OpusType) && !isTypeSupported(Mp4Type) && !isTypeSupported(MpegType))
              ==> m == WebmType
    ensures !isTypeSupported(WebmType) && isTypeSupported(OpusType) ==> m == OpusType
    ensures !isTypeSupported(WebmType) && !isTypeSupported(OpusType) && isTypeSupported(Mp4Type) ==> m == Mp4Type
    ensures (!isTypeSupported(WebmType) && !isTypeSupported(OpusType) && !isTypeSupported(Mp4Type)
             && isTypeSupported(MpegType)) ==> m == MpegType
    ensures isTypeSupported(m) <==> CanRecord(isTypeSupported)
  {
    if isTypeSupported(WebmType) then WebmType
    else if isTypeSupported(OpusType) then OpusType
    else if isTypeSupported(Mp4Type) then Mp4Type
    else if isTypeSupported(MpegType) then MpegType
    else WebmType
  }

  /** A text lacking one of the needle's characters does not contain the needle. */
  lemma MissingCharNotContained(s: string, sub: string, k: nat)
    requires k < |sub| && forall i :: 0 <= i < |s| ==> s[i] != sub[k]
    ensures !Contains(s, sub)
  {
    forall i | 0 <= i <= |s| - |sub| ensures !OccursAt(s, sub, i) {
      assert s[i..i + |sub|][k] == s[i + k];
    }
  }

  /** Whatever the recorder uses, the worker sends the API the container it was recorded in. */
  lemma RecordingTypeSurvivesUpload(isTypeSupported: string -> bool)
    ensures var m := PickRecordingMimeType(isTypeSupported);
            Background.GeminiMimeType(m) == if m == Mp4Type then Mp4Type else if m == MpegType then MpegType else WebmType
  {
    var m := PickRecordingMimeType(isTypeSupported);
    var w := "webm";
    assert OccursAt(WebmType, w, 6) by { assert WebmType[6..10] == w; }
    assert OccursAt(OpusType, w, 6) by { assert OpusType[6..10] == w; }
    if m == Mp4Type {
      MissingCharNotContained(m, w, 0);
      assert OccursAt(m, "mp4", 6) by { assert m[6..9] == "mp4"; }
    } else if m == MpegType {
      MissingCharNotContained(m, w, 0);
      assert forall i :: 0 <= i < |m| ==> m[i] != '4';
      MissingCharNotContained(m, "mp4", 2);
      assert OccursAt(m, "mpeg", 6) by { assert m[6..10] == "mpeg"; }
    }
  }

  /** The sizes of the recorded chunks add up to the blob's size. */
  function TotalSize(chunks: seq<nat>): nat {
    if chunks == [] then 0 else chunks[0] + TotalSize(chunks[1..])
  }

  /** A blob is empty exactly when every chunk the recorder delivered is empty. */
  lemma {:induction false} TotalSizeZero(chunks: seq<nat>)
    ensures TotalSize(chunks) == 0 <==> forall i :: 0 <= i < |chunks| ==> chunks[i] == 0
  {
    if chunks != [] {
      TotalSizeZero(chunks[1..]);
      assert forall i :: 1 <= i < |chunks| ==> chunks[i] == chunks[1..][i - 1];
    }
  }

  // ---------------------------------------------------------------- messages and labels

  const NotSupportedError := "MediaRecorder not supported in this browser"
  const MicDeniedPrefix := "Microphone access denied: "
  const NoAudioError := "No audio data recorded"
  const RecorderError := "MediaRecorder error occurred"
  const AiFailedError := "AI audio processing failed"
  const ErrorMark := "\U{274C} "
  const ProcessFailedToast := ErrorMark + "Failed to process voice command"

  const InitializingLabel := "\U{1F3A4} Initializing..."
  const RecordingLabel := "\U{1F3A4} Recording..."
  const DoneLabel := "\U{2705} Done!"

  /** The worker's answer to the upload: its `{success, text?, error?}` reply, or a rejected
      `sendMessage`. */
  datatype UploadAnswer = Answered(success: bool, text: Option<string>, error: Option<string>) | NotDelivered

  /** `processAudioWithGemini` on the content side: the worker's text when it succeeded (it may
      be missing), and one fixed message for every failure. */
  function ReadAnswer(answer: UploadAnswer): (r: Result<Option<string>, string>)
    ensures r.Success? <==> answer.Answered? && answer.success
    ensures r.Success? ==> r.value == answer.text
    ensures r.Failure? ==> r.error == AiFailedError
  {
    if answer.Answered? && answer.success then Success(answer.text) else Failure(AiFailedError)
  }

  /** What the page shows or changes: the selection replaced, the clipboard written, or an
      error toast. */
  datatype Effect = ReplacedSelection(range: nat, text: string) | CopiedToClipboard(text: string) | ErrorToast(message: string)

  /** What the recorder uploads. */
  datatype Upload = Upload(audioSize: nat, selectedText: string, mimeType: string)

  datatype RecorderState = Recording | Inactive

  /** One `MediaRecorder` with the closure of the handler call that created it: the replace
      mode it was started with, its MIME type, its `chunks` array, its state, and whether its
      promise has been settled. */
  datatype Capture = Capture(replaceMode: bool, mimeType: string, chunks: seq<nat>,
                             state: RecorderState, settled: bool)

  /** `stopVoiceCommand`'s effect on the recorder: the current recorder, if it is recording, is
      stopped and forgotten; an inactive one stays referenced. */
  function StopRecorder(captures: seq<Capture>, current: Option<nat>): (r: (seq<Capture>, Option<nat>))
    requires current.Some? ==> current.value < |captures|
    ensures |r.0| == |captures|
    ensures current.Some? && captures[current.value].state == Recording ==>
              r == (captures[current.value := captures[current.value].(state := Inactive)], None)
    ensures !(current.Some? && captures[current.value].state == Recording) ==> r == (captures, current)
    ensures r.1.Some? ==> r.1 == current && captures[current.value].state != Recording
    ensures forall i :: 0 <= i < |captures| ==> r.0[i].state == Inactive || r.0[i] == captures[i]
    ensures forall i :: 0 <= i < |captures| && (current.None? || i != current.value) ==> r.0[i] == captures[i]
  {
    if current.Some? && captures[current.value].state == Recording then
      (captures[current.value := captures[current.value].(state := Inactive)], None)
    else (captures, current)
  }

  /** The module-level `state` of the content script, the recorders it created, the pending
      one-second timers and the page effects so far. */
  class VoiceSession {
    var isRecording: bool
    var selectedText: string
    var selectedRange: Option<nat>
    var indicator: Option<string>
    var current: Option<nat>
    var captures: seq<Capture>
    var doneTimers: nat
    var effects: seq<Effect>

    /** The indicator is on screen exactly while a command is recording; a range is held
        exactly when a non-blank selection was captured; a recorder still recording belongs to
        a command that is still recording. */
    ghost predicate Valid()
      reads this
    {
      && (isRecording <==> indicator.Some?)
      && (selectedRange.Some? <==> selectedText != [])
      && (selectedText != [] ==> HasNonSpace(selectedText))
      && (current.Some? ==> current.value < |captures|)
      && (current.Some? && captures[current.value].state == Recording ==> isRecording)
    }

    constructor ()
      ensures Valid()
      ensures !isRecording && selectedText == [] && selectedRange == None && indicator == None
      ensures current == None && captures == [] && doneTimers == 0 && effects == []
    {
      isRecording := false;
      selectedText := [];
      selectedRange := None;
      indicator := None;
      current := None;
      captures := [];
      doneTimers := 0;
      effects := [];
    }

    /** `updateRecordingIndicator`: only an indicator on screen changes its text. */
    method UpdateIndicator(message: string)
      modifies this
      ensures indicator == if old(indicator).Some? then Some(message) else None
      ensures isRecording == old(isRecording) && selectedText == old(selectedText)
      ensures selectedRange == old(selectedRange) && current == old(current) && captures == old(captures)
      ensures doneTimers == old(doneTimers) && effects == old(effects)
    {
      if indicator.Some? {
        indicator := Some(message);
      }
    }

    /** `stopVoiceCommand`: a recording recorder is stopped and dropped, the session is no
        longer recording and the indicator is removed; the selection is kept. */
    method StopVoiceCommand()
      requires Valid()
      modifies this
      ensures Valid()
      ensures !isRecording && indicator == None
      ensures (captures, current) == StopRecorder(old(captures), old(current))
      ensures selectedText == old(selectedText) && selectedRange == old(selectedRange)
      ensures doneTimers == old(doneTimers) && effects == old(effects)
    {
      if current.Some? && captures[current.value].state == Recording {
        captures := captures[current.value := captures[current.value].(state := Inactive)];
        current := None;
      }
      isRecording := false;
      indicator := None;
    }

    /** The cleaned answer replaces the captured range in replace mode when a range was
        captured, and is copied to the clipboard otherwise; the indicator says it is done and
        the one-second stop timer is started. */
    method ShowAnswer(replaceMode: bool, cleaned: string)
      requires Valid()
      modifies this
      ensures Valid()
      ensures effects == old(effects) + [
                if replaceMode && old(selectedRange).Some? then ReplacedSelection(old(selectedRange).value, cleaned)
                else CopiedToClipboard(cleaned)]
      ensures doneTimers == old(doneTimers) + 1
      ensures indicator == (if old(indicator).Some? then Some(DoneLabel) else None)
      ensures isRecording == old(isRecording) && captures == old(captures) && current == old(current)
      ensures selectedText == old(selectedText) && selectedRange == old(selectedRange)
    {
      if replaceMode && selectedRange.Some? {
        effects := effects + [ReplacedSelection(selectedRange.value, cleaned)];
      } else {
        effects := effects + [CopiedToClipboard(cleaned)];
      }
      UpdateIndicator(DoneLabel);
      doneTimers := doneTimers + 1;
    }

    /** A failed command shows its error toast and stops at once. */
    method ShowError(message: string)
      requires Valid()
      modifies this
      ensures Valid()
      ensures effects == old(effects) + [ErrorToast(message)]
      ensures !isRecording && indicator == None && doneTimers == old(doneTimers)
      ensures (captures, current) == StopRecorder(old(captures), old(current))
      ensures selectedText == old(selectedText) && selectedRange == old(selectedRange)
    {
      effects := effects + [ErrorToast(message)];
      StopVoiceCommand();
    }

    /** The tail of `handleVoiceCommand` once recording has given a result: a non-empty text is
        cleaned and replaces the captured range when the command was in replace mode and a range
        was captured, and is copied to the clipboard otherwise, with a stop one second later; an
        empty text or an error shows an error toast and stops at once. Every path forgets the
        selection. */
    method Finish(replaceMode: bool, result: Result<Option<string>, string>)
      requires Valid()
      modifies this
      ensures Valid()
      ensures selectedText == [] && selectedRange == None
      ensures result.Success? && result.value.Some? && result.value.value != [] ==>
        && effects == old(effects) + [
             if replaceMode && old(selectedRange).Some?
             then ReplacedSelection(old(selectedRange).value, MarkdownCleanup.CleanMarkdownFormatting(result.value.value))
             else CopiedToClipboard(MarkdownCleanup.CleanMarkdownFormatting(result.value.value))]
        && doneTimers == old(doneTimers) + 1
        && isRecording == old(isRecording)
        && indicator == (if old(indicator).Some? then Some(DoneLabel) else None)
        && captures == old(captures) && current == old(current)
      ensures result.Success? && (result.value.None? || result.value.value == []) ==>
        && effects == old(effects) + [ErrorToast(ProcessFailedToast)]
        && !isRecording && indicator == None && doneTimers == old(doneTimers)
        && (captures, current) == StopRecorder(old(captures), old(current))
      ensures result.Failure? ==>
        && effects == old(effects) + [ErrorToast(ErrorMark + result.error)]
        && !isRecording && indicator == None && doneTimers == old(doneTimers)
        && (captures, current) == StopRecorder(old(captures), old(current))
    {
      match result {
        case Success(text) =>
          if text.Some? && text.value != [] {
            ShowAnswer(replaceMode, MarkdownCleanup.CleanMarkdownFormatting(text.value));
          } else {
            ShowError(ProcessFailedToast);
          }
        case Failure(message) =>
          ShowError(ErrorMark + message);
      }
      selectedText := [];
      selectedRange := None;
    }

    /** The start of a command that is not a stop: a selection with a non-space character is
        captured with its range, any other is forgotten; the session is marked recording. */
    method Begin(selection: string, range: nat)
      requires Valid() && !isRecording
      modifies this
      ensures Valid()
      ensures isRecording && indicator == Some(InitializingLabel)
      ensures HasNonSpace(selection) ==> selectedText == selection && selectedRange == Some(range)
      ensures !HasNonSpace(selection) ==> selectedText == [] && selectedRange == None
      ensures captures == old(captures) && current == old(current)
      ensures effects == old(effects) && doneTimers == old(doneTimers)
    {
      if Trim(selection) != [] {
        selectedText := selection;
        selectedRange := Some(range);
      } else {
        selectedText := [];
        selectedRange := None;
      }
      isRecording := true;
      indicator := Some(InitializingLabel);
    }

    /** `handleVoiceCommand` up to the point where it waits for the recording. While recording,
        the command only stops. Otherwise it captures a non-blank selection (and its range),
        marks the session recording, and starts a recorder unless the browser lacks the APIs,
        the microphone is refused, or the browser supports none of the four containers (the
        recorder is then built for plain webm, which throws `typeError` inside the microphone
        promise, so it is reported as a refused microphone); those fail at once, before any
        recorder exists. The result is `Some(isRecording)` when the handler has finished,
        `None` while it waits for the recorder. */
    method HandleVoiceCommand(replaceMode: bool, selection: string, range: nat,
                              hasRecorderApis: bool, micGranted: bool, micError: string,
                              isTypeSupported: string -> bool, typeError: string)
      returns (finished: Option<bool>)
      requires Valid()
      modifies this
      ensures Valid()
      ensures old(isRecording) ==>
        && finished == Some(false) && !isRecording && indicator == None
        && (captures, current) == StopRecorder(old(captures), old(current))
        && selectedText == old(selectedText) && selectedRange == old(selectedRange)
        && effects == old(effects) && doneTimers == old(doneTimers)
      ensures !old(isRecording) && !hasRecorderApis ==>
        && finished == Some(false) && !isRecording && indicator == None
        && effects == old(effects) + [ErrorToast(ErrorMark + NotSupportedError)]
        && captures == old(captures) && current == old(current)
        && selectedText == [] && selectedRange == None && doneTimers == old(doneTimers)
      ensures !old(isRecording) && hasRecorderApis && !micGranted ==>
        && finished == Some(false) && !isRecording && indicator == None
        && effects == old(effects) + [ErrorToast(ErrorMark + (MicDeniedPrefix + micError))]
        && captures == old(captures) && current == old(current)
        && selectedText == [] && selectedRange == None && doneTimers == old(doneTimers)
      ensures !old(isRecording) && hasRecorderApis && micGranted && !CanRecord(isTypeSupported) ==>
        && finished == Some(false) && !isRecording && indicator == None
        && effects == old(effects) + [ErrorToast(ErrorMark + (MicDeniedPrefix + typeError))]
        && captures == old(captures) && current == old(current)
        && selectedText == [] && selectedRange == None && doneTimers == old(doneTimers)
      ensures !old(isRecording) && hasRecorderApis && micGranted && CanRecord(isTypeSupported) ==>
        && finished == None && isRecording && indicator == Some(RecordingLabel)
        && captures == old(captures) + [Capture(replaceMode, PickRecordingMimeType(isTypeSupported), [], Recording, false)]
        && current == Some(|old(captures)|)
        && (HasNonSpace(selection) ==> selectedText == selection && selectedRange == Some(range))
        && (!HasNonSpace(selection) ==> selectedText == [] && selectedRange == None)
        && effects == old(effects) && doneTimers == old(doneTimers)
    {
      if isRecording {
        StopVoiceCommand();
        return Some(false);
      }
      Begin(selection, range);
      if !hasRecorderApis {
        Finish(replaceMode, Failure(NotSupportedError));
        return Some(isRecording);
      }
      if !micGranted {
        Finish(replaceMode, Failure(MicDeniedPrefix + micError));
        return Some(isRecording);
      }
      UpdateIndicator(RecordingLabel);
      var mimeType := PickRecordingMimeType(isTypeSupported);
      if !isTypeSupported(mimeType) {
        Finish(replaceMode, Failure(MicDeniedPrefix + typeError));
        return Some(isRecording);
      }
      captures := captures + [Capture(replaceMode, mimeType, [], Recording, false)];
      current := Some(|captures| - 1);
      finished := None;
    }

    /** `ondataavailable`: the chunk joins its own recorder's `chunks`. */
    method OnDataAvailable(id: nat, size: nat)
      requires Valid() && id < |captures|
      modifies this
      ensures Valid()
      ensures captures == old(captures)[id := old(captures)[id].(chunks := old(captures)[id].chunks + [size])]
      ensures isRecording == old(isRecording) && indicator == old(indicator) && current == old(current)
      ensures selectedText == old(selectedText) && selectedRange == old(selectedRange)
      ensures effects == old(effects) && doneTimers == old(doneTimers)
    {
      captures := captures[id := captures[id].(chunks := captures[id].chunks + [size])];
    }

    /** The 30-second timer: it stops the current recorder only if that one is still
        recording; the session's flags are left alone. */
    method AutoStop()
      requires Valid()
      modifies this
      ensures Valid()
      ensures old(current).Some? && old(captures)[old(current).value].state == Recording ==>
        captures == old(captures)[old(current).value := old(captures)[old(current).value].(state := Inactive)]
      ensures !(old(current).Some? && old(captures)[old(current).value].state == Recording) ==> captures == old(captures)
      ensures current == old(current) && isRecording == old(isRecording) && indicator == old(indicator)
      ensures selectedText == old(selectedText) && selectedRange == old(selectedRange)
      ensures effects == old(effects) && doneTimers == old(doneTimers)
    {
      if current.Some? && captures[current.value].state == Recording {
        captures := captures[current.value := captures[current.value].(state := Inactive)];
      }
    }

    /** `onstop` of recorder `id`, then the rest of its handler. An empty blob fails with "No
        audio data recorded" and nothing is uploaded; otherwise the blob, the session's current
        selected text and the recorder's MIME type are uploaded and the worker's answer read.
        The recorder's promise is settled and the command finishes as `Finish` says. The
        result is the `recording` flag the listener replies with. */
    method OnRecorderStop(id: nat, answer: UploadAnswer) returns (upload: Option<Upload>, recording: bool)
      requires Valid() && id < |captures|
      requires captures[id].state == Inactive && !captures[id].settled
      modifies this
      ensures Valid()
      ensures recording == isRecording
      ensures selectedText == [] && selectedRange == None
      ensures TotalSize(old(captures)[id].chunks) == 0 <==> upload.None?
      ensures upload.Some? ==> upload.value == Upload(TotalSize(old(captures)[id].chunks), old(selectedText), old(captures)[id].mimeType)
      ensures var result := if upload.None? then Failure(NoAudioError) else ReadAnswer(answer);
              var settled := old(captures)[id := old(captures)[id].(settled := true)];
        && (result.Success? && result.value.Some? && result.value.value != [] ==>
              && effects == old(effects) + [
                   if old(captures)[id].replaceMode && old(selectedRange).Some?
                   then ReplacedSelection(old(selectedRange).value, MarkdownCleanup.CleanMarkdownFormatting(result.value.value))
                   else CopiedToClipboard(MarkdownCleanup.CleanMarkdownFormatting(result.value.value))]
              && captures == settled && current == old(current)
              && isRecording == old(isRecording) && doneTimers == old(doneTimers) + 1
              && indicator == (if old(indicator).Some? then Some(DoneLabel) else None))
        && (result.Success? && (result.value.None? || result.value.value == []) ==>
              && effects == old(effects) + [ErrorToast(ProcessFailedToast)]
              && (captures, current) == StopRecorder(settled, old(current))
              && !isRecording && indicator == None && doneTimers == old(doneTimers))
        && (result.Failure? ==>
              && effects == old(effects) + [ErrorToast(ErrorMark + result.error)]
              && (captures, current) == StopRecorder(settled, old(current))
              && !isRecording && indicator == None && doneTimers == old(doneTimers))
    {
      var capture := captures[id];
      captures := captures[id := capture.(settled := true)];
      var size := TotalSize(capture.chunks);
      var result;
      if size == 0 {
        upload := None;
        result := Failure(NoAudioError);
      } else {
        upload := Some(Upload(size, selectedText, capture.mimeType));
        result := ReadAnswer(answer);
      }
      Finish(capture.replaceMode, result);
      recording := isRecording;
    }

    /** `onerror` of recorder `id`: the recorder is inactive, its promise fails with
        "MediaRecorder error occurred", and the command stops with that toast. */
    method OnRecorderError(id: nat) returns (recording: bool)
      requires Valid() && id < |captures| && !captures[id].settled
      modifies this
      ensures Valid()
      ensures recording == isRecording && !isRecording && indicator == None
      ensures selectedText == [] && selectedRange == None
      ensures effects == old(effects) + [ErrorToast(ErrorMark + RecorderError)]
      ensures (captures, current) ==
                StopRecorder(old(captures)[id := old(captures)[id].(state := Inactive, settled := true)], old(current))
      ensures doneTimers == old(doneTimers)
    {
      captures := captures[id := captures[id].(state := Inactive, settled := true)];
      Finish(captures[id].replaceMode, Failure(RecorderError));
      recording := isRecording;
    }

    /** The one-second timer after a completed command: it stops the session. */
    method DoneTimer()
      requires Valid() && doneTimers > 0
      modifies this
      ensures Valid()
      ensures !isRecording && indicator == None && doneTimers == old(doneTimers) - 1
      ensures (captures, current) == StopRecorder(old(captures), old(current))
      ensures selectedText == old(selectedText) && selectedRange == old(selectedRange) && effects == old(effects)
    {
      doneTimers := doneTimers - 1;
      StopVoiceCommand();
    }

    /** The message listener: only "voiceCommand" is handled, with replace mode off unless the
        message sets it; anything else leaves the session as it was. */
    method OnMessage(action: string, replaceMode: Option<bool>, selection: string, range: nat,
                     hasRecorderApis: bool, micGranted: bool, micError: string,
                     isTypeSupported: string -> bool, typeError: string)
      returns (handled: bool, finished: Option<bool>)
      requires Valid()
      modifies this
      ensures Valid()
      ensures handled <==> action == "voiceCommand"
      ensures !handled ==>
        && finished == None && isRecording == old(isRecording) && indicator == old(indicator)
        && captures == old(captures) && current == old(current)
        && selectedText == old(selectedText) && selectedRange == old(selectedRange)
        && effects == old(effects) && doneTimers == old(doneTimers)
      ensures handled && old(isRecording) ==>
        && finished == Some(false) && !isRecording && indicator == None
        && (captures, current) == StopRecorder(old(captures), old(current))
        && selectedText == old(selectedText) && selectedRange == old(selectedRange)
        && effects == old(effects) && doneTimers == old(doneTimers)
      ensures handled && !old(isRecording) && !hasRecorderApis ==>
        && finished == Some(false) && !isRecording && indicator == None
        && effects == old(effects) + [ErrorToast(ErrorMark + NotSupportedError)]
        && captures == old(captures) && current == old(current)
        && selectedText == [] && selectedRange == None && doneTimers == old(doneTimers)
      ensures handled && !old(isRecording) && hasRecorderApis && !micGranted ==>
        && finished == Some(false) && !isRecording && indicator == None
        && effects == old(effects) + [ErrorToast(ErrorMark + (MicDeniedPrefix + micError))]
        && captures == old(captures) && current == old(current)
        && selectedText == [] && selectedRange == None && doneTimers == old(doneTimers)
      ensures handled && !old(isRecording) && hasRecorderApis && micGranted && !CanRecord(isTypeSupported) ==>
        && finished == Some(false) && !isRecording && indicator == None
        && effects == old(effects) + [ErrorToast(ErrorMark + (MicDeniedPrefix + typeError))]
        && captures == old(captures) && current == old(current)
        && selectedText == [] && selectedRange == None && doneTimers == old(doneTimers)
      ensures handled && !old(isRecording) && hasRecorderApis && micGranted && CanRecord(isTypeSupported) ==>
        && finished == None && isRecording && indicator == Some(RecordingLabel)
        && captures == old(captures) + [Capture(replaceMode.GetOr(false), PickRecordingMimeType(isTypeSupported), [], Recording, false)]
        && current == Some(|old(captures)|)
        && (HasNonSpace(selection) ==> selectedText == selection && selectedRange == Some(range))
        && (!HasNonSpace(selection) ==> selectedText == [] && selectedRange == None)
        && effects == old(effects) && doneTimers == old(doneTimers)
    {
      handled := action == "voiceCommand";
      finished := None;
      if handled {
        finished := HandleVoiceCommand(replaceMode.GetOr(false), selection, range, hasRecorderApis,
                                       micGranted, micError, isTypeSupported, typeError);
      }
    }
  }
}
