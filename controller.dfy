/**
 * The `SpeechToText` popup controller (popup.js): the text buffer with its
 * caret, the recording flag, the status line with its revert timers, and the
 * persisted text slot. Each browser callback, button click and timer firing is
 * one atomic method call; what the browser reports (permission state, the
 * outcome of the microphone request, recognition results and error codes,
 * clipboard failure, the stored value) arrives as a parameter.
 */
module Controller {
  import opened Wrappers
  import opened Text
  import opened Transcript
  import opened Messages

  /** The status element's style class: '' (and the bare revert class), 'recording', 'success', 'error'. */
  datatype Category = Neutral | Recording | Success | Error

  /** What the permission query reports; Unknown when the query is unavailable or throws. */
  datatype PermissionState = Granted | Denied | Prompt | Unknown

  /** The call a toggle click makes on the recognition session. */
  datatype SessionCall = NoCall | StartCall | StopCall

  // Longer messages are written as joined pieces: the text is the same, and
  // the verifier can then read individual characters of them cheaply.
  const ReadyMessage := "Ready to record"
  const UnsupportedMessage := "Speech recognition not supported " + "in this browser"
  const ListeningMessage := "Listening... Speak now!"
  const DeniedMessage := "Microphone permission denied. " + "Please enable it in browser settings."
  const RequestingMessage := "Requesting microphone permission..."
  const StartErrorPrefix := "Error starting recording: "
  const StoppedMessage := "Recording stopped"
  const ClearedMessage := "Text cleared"
  const NothingToCopyMessage := "No text to copy"
  const CopiedMessage := "Text copied to clipboard!"

  /** The status that shows the interim fragment of a result event. */
  function InterimStatus(interim: string): (m: string)
    ensures StartsWith(m, InterimMarker)
    ensures |m| == |InterimMarker| + |interim| + 3
    ensures m[|InterimMarker|] == ' ' && m[|InterimMarker| + 1] == '"' && m[|m| - 1] == '"'
    ensures m[|InterimMarker| + 2..|m| - 1] == interim
  {
    var m := InterimMarker + " \"" + interim + "\"";
    assert m[..|InterimMarker|] == InterimMarker;
    m
  }

  /**
   * The buffer a popup opens with, given what the store holds: the stored
   * text when there is any (an empty string is falsy and is skipped, which
   * yields the same empty buffer), otherwise the empty text area.
   */
  function Loaded(saved: Option<string>): (text: string)
    ensures saved.Some? ==> text == saved.value
    ensures saved.None? ==> text == ""
  {
    if saved.Some? && saved.value != "" then saved.value else ""
  }

  /**
   * Whether `startRecording` reaches `recognition.start()`: only with a
   * recognition object, never when permission is denied, and, unless it is
   * already granted, only when the microphone request succeeded.
   */
  function StartDecision(hasRecognition: bool, perm: PermissionState, request: Option<MicError>): (start: bool)
    ensures start ==> hasRecognition && perm != Denied
    ensures start && perm != Granted ==> request.None?
    ensures hasRecognition && perm == Granted ==> start
    ensures hasRecognition && perm != Denied && request.None? ==> start
  {
    hasRecognition &&
    match perm
    case Granted => true
    case Denied => false
    case Prompt => request.None?
    case Unknown => request.None?
  }

  /** Whether the start path shows the remediation help panel. */
  function StartShowsHelp(hasRecognition: bool, perm: PermissionState, request: Option<MicError>): (help: bool)
    ensures help ==> hasRecognition && perm != Granted
    ensures help && perm != Denied ==> request.Some? && request.value.name !in {"NotFoundError", "NotReadableError"}
    ensures hasRecognition && perm == Denied ==> help
    ensures (hasRecognition && (perm == Prompt || perm == Unknown) && request.Some? &&
             request.value.name !in {"NotFoundError", "NotReadableError"}) ==> help
  {
    hasRecognition &&
    match perm
    case Granted => false
    case Denied => true
    case Prompt => request.Some? && PermissionErrorReport(request.value).showHelp
    case Unknown => request.Some? && PermissionErrorReport(request.value).showHelp
  }

  class SpeechToText {
    /** Whether the browser offers speech recognition; decided once, at construction. */
    const hasRecognition: bool
    var isRecording: bool
    /** The text area's value. */
    var buffer: string
    /** The text area's selectionStart. */
    var caret: nat
    /** The status element's text and style class. */
    var statusMsg: string
    var statusCat: Category
    /** The messages of the revert timers scheduled and not yet fired, oldest first. */
    var pending: seq<string>
    /** The persisted slot under the key `speechText`. */
    var stored: Option<string>

    /**
     * The caret lies within the buffer, reopening the popup from the stored
     * slot gives back the buffer, and only a controller with recognition records.
     */
    ghost predicate Valid()
      reads this
    {
      && caret <= |buffer|
      && Loaded(stored) == buffer
      && (isRecording ==> hasRecognition)
    }

    /** The popup opening: detect recognition, then load the stored text. */
    constructor (hasRecognition: bool, saved: Option<string>)
      ensures Valid()
      ensures this.hasRecognition == hasRecognition && !isRecording
      ensures buffer == Loaded(saved) && caret == |buffer| && stored == saved
      ensures hasRecognition ==> statusMsg == ReadyMessage && statusCat == Neutral && pending == []
      ensures !hasRecognition ==>
        statusMsg == UnsupportedMessage && statusCat == Error && pending == [UnsupportedMessage]
    {
      this.hasRecognition := hasRecognition;
      isRecording := false;
      buffer, caret := "", 0;
      statusMsg, statusCat, pending := ReadyMessage, Neutral, [];
      stored := saved;
      new;
      if !hasRecognition {
        ShowStatus(UnsupportedMessage, Error);
      }
      LoadSavedText();
    }

    /** Sets the status; every category but `recording` also schedules a revert timer for this message. */
    method ShowStatus(message: string, cat: Category)
      modifies this`statusMsg, this`statusCat, this`pending
      ensures statusMsg == message && statusCat == cat
      ensures pending == if cat == Recording then old(pending) else old(pending) + [message]
    {
      statusMsg := message;
      statusCat := cat;
      if cat != Recording {
        pending := pending + [message];
      }
    }

    /**
     * The oldest revert timer fires (all share one delay, so they fire in the
     * order they were scheduled): it restores the ready status only if its
     * message is still the one shown.
     */
    method FireRevert()
      requires pending != []
      modifies this`statusMsg, this`statusCat, this`pending
      ensures pending == old(pending[1..])
      ensures old(statusMsg == pending[0]) ==> statusMsg == ReadyMessage && statusCat == Neutral
      ensures old(statusMsg != pending[0]) ==> statusMsg == old(statusMsg) && statusCat == old(statusCat)
    {
      var message := pending[0];
      pending := pending[1..];
      if statusMsg == message {
        statusMsg := ReadyMessage;
        statusCat := Neutral;
      }
    }

    /** Writes the whole buffer to the store. */
    method SaveText()
      modifies this`stored
      ensures stored == Some(buffer)
    {
      stored := Some(buffer);
    }

    /** Applies the stored text, if it is non-empty; the browser then puts the caret at its end. */
    method LoadSavedText()
      modifies this`buffer, this`caret
      ensures stored.Some? && stored.value != "" ==> buffer == stored.value && caret == |buffer|
      ensures !(stored.Some? && stored.value != "") ==> buffer == old(buffer) && caret == old(caret)
    {
      if stored.Some? && stored.value != "" {
        buffer := stored.value;
        caret := |buffer|;
      }
    }

    /** The user edits the text area directly; the `input` listener saves the new text. */
    method OnInput(text: string, selection: nat)
      requires Valid()
      requires selection <= |text|
      modifies this`buffer, this`caret, this`stored
      ensures Valid()
      ensures buffer == text && caret == selection && stored == Some(text)
    {
      buffer, caret := text, selection;
      SaveText();
    }

    /**
     * The user moves the caret or the selection without editing: no `input`
     * event fires, so nothing is saved; only the insertion point moves.
     */
    method Select(position: nat)
      requires Valid()
      requires position <= |buffer|
      modifies this`caret
      ensures Valid()
      ensures caret == position
    {
      caret := position;
    }

    /** The toggle button: stop when recording, otherwise try to start. */
    method ToggleRecording(perm: PermissionState, request: Option<MicError>, startError: Option<string>)
      returns (call: SessionCall, helpShown: bool)
      requires Valid()
      modifies this`statusMsg, this`statusCat, this`pending
      ensures Valid()
      ensures isRecording ==> call == StopCall && !helpShown
      ensures isRecording ==> statusMsg == old(statusMsg) && statusCat == old(statusCat) && pending == old(pending)
      ensures !isRecording ==> call != StopCall
      ensures !isRecording ==> (call == StartCall <==> StartDecision(hasRecognition, perm, request))
      ensures !isRecording ==> helpShown == StartShowsHelp(hasRecognition, perm, request)
      ensures !isRecording && !hasRecognition ==>
        statusMsg == old(statusMsg) && statusCat == old(statusCat) && pending == old(pending)
      ensures !isRecording && hasRecognition && perm == Denied ==>
        statusMsg == DeniedMessage && statusCat == Error && pending == old(pending) + [DeniedMessage]
      ensures !isRecording && hasRecognition && (perm == Prompt || perm == Unknown) && request.Some? ==>
        var failure := PermissionErrorReport(request.value).message;
        statusMsg == failure && statusCat == Error && pending == old(pending) + [RequestingMessage, failure]
      ensures !isRecording && call == StartCall && startError.Some? ==>
        statusMsg == StartErrorPrefix + startError.value && statusCat == Error &&
        pending == old(pending) + (if perm == Granted then [] else [RequestingMessage])
                                + [StartErrorPrefix + startError.value]
      ensures !isRecording && call == StartCall && startError.None? && perm == Granted ==>
        statusMsg == old(statusMsg) && statusCat == old(statusCat) && pending == old(pending)
      ensures !isRecording && call == StartCall && startError.None? && perm != Granted ==>
        statusMsg == RequestingMessage && statusCat == Neutral && pending == old(pending) + [RequestingMessage]
    {
      helpShown := false;
      if isRecording {
        var stopped := StopRecording();
        call := if stopped then StopCall else NoCall;
      } else {
        var started;
        started, helpShown := StartRecording(perm, request, startError);
        call := if started then StartCall else NoCall;
      }
    }

    /**
     * The start path: nothing without recognition; a denied permission shows an
     * error and the help panel; prompt or unknown first shows a request status
     * and asks for the microphone, stopping if that fails; then the session is
     * started, and a synchronous failure of that call is shown as an error.
     */
    method StartRecording(perm: PermissionState, request: Option<MicError>, startError: Option<string>)
      returns (started: bool, helpShown: bool)
      modifies this`statusMsg, this`statusCat, this`pending
      ensures started == StartDecision(hasRecognition, perm, request)
      ensures helpShown == StartShowsHelp(hasRecognition, perm, request)
      ensures !hasRecognition ==>
        statusMsg == old(statusMsg) && statusCat == old(statusCat) && pending == old(pending)
      ensures hasRecognition && perm == Denied ==>
        statusMsg == DeniedMessage && statusCat == Error && pending == old(pending) + [DeniedMessage]
      ensures hasRecognition && (perm == Prompt || perm == Unknown) && request.Some? ==>
        var failure := PermissionErrorReport(request.value).message;
        statusMsg == failure && statusCat == Error && pending == old(pending) + [RequestingMessage, failure]
      ensures started && startError.Some? ==>
        statusMsg == StartErrorPrefix + startError.value && statusCat == Error &&
        pending == old(pending) + (if perm == Granted then [] else [RequestingMessage])
                                + [StartErrorPrefix + startError.value]
      ensures started && startError.None? && perm == Granted ==>
        statusMsg == old(statusMsg) && statusCat == old(statusCat) && pending == old(pending)
      ensures started && startError.None? && perm != Granted ==>
        statusMsg == RequestingMessage && statusCat == Neutral && pending == old(pending) + [RequestingMessage]
    {
      started, helpShown := false, false;
      if hasRecognition {
        if perm == Denied {
          ShowStatus(DeniedMessage, Error);
          helpShown := true;
        } else {
          var granted := true;
          if perm != Granted {
            ShowStatus(RequestingMessage, Neutral);
            granted, helpShown := RequestMicrophonePermission(request);
          }
          if granted {
            started := true;
            if startError.Some? {
              ShowStatus(StartErrorPrefix + startError.value, Error);
            }
          }
        }
      }
    }

    /** The microphone request: success releases the stream at once; a failure is reported. */
    method RequestMicrophonePermission(request: Option<MicError>) returns (granted: bool, helpShown: bool)
      modifies this`statusMsg, this`statusCat, this`pending
      ensures granted <==> request.None?
      ensures request.None? ==>
        !helpShown && statusMsg == old(statusMsg) && statusCat == old(statusCat) && pending == old(pending)
      ensures request.Some? ==>
        var report := PermissionErrorReport(request.value);
        helpShown == report.showHelp && statusMsg == report.message && statusCat == Error &&
        pending == old(pending) + [report.message]
    {
      match request
      case None =>
        granted, helpShown := true, false;
      case Some(e) =>
        helpShown := HandlePermissionError(e);
        granted := false;
    }

    /** Reports a failed microphone request: its message as an error, and whether the help panel is shown. */
    method HandlePermissionError(e: MicError) returns (helpShown: bool)
      modifies this`statusMsg, this`statusCat, this`pending
      ensures helpShown == PermissionErrorReport(e).showHelp
      ensures statusMsg == PermissionErrorReport(e).message && statusCat == Error
      ensures pending == old(pending) + [PermissionErrorReport(e).message]
    {
      var report := PermissionErrorReport(e);
      helpShown := report.showHelp;
      ShowStatus(report.message, Error);
    }

    /** Asks the session to stop, only when there is one and it is recording. */
    method StopRecording() returns (stopCalled: bool)
      requires Valid()
      ensures stopCalled <==> isRecording
    {
      stopCalled := hasRecognition && isRecording;
    }

    /** The session has started: Listening. */
    method OnRecognitionStart()
      requires Valid() && hasRecognition
      modifies this`isRecording, this`statusMsg, this`statusCat, this`pending
      ensures Valid()
      ensures isRecording
      ensures statusMsg == ListeningMessage && statusCat == Recording && pending == old(pending)
    {
      isRecording := true;
      ShowStatus(ListeningMessage, Recording);
    }

    /**
     * A result event: the final fragment is spliced into the buffer at the
     * caret, the caret moves past it and the buffer is saved; the interim
     * fragment only replaces the status.
     */
    method OnRecognitionResult(results: seq<SpeechResult>, resultIndex: nat)
      requires Valid() && hasRecognition && WellFormed(results)
      modifies this`buffer, this`caret, this`stored, this`statusMsg, this`statusCat
      ensures Valid()
      ensures var final := FinalText(Window(results, resultIndex));
        if final != "" then
          && old(caret) <= |old(buffer)|
          && buffer == Splice(old(buffer), old(caret), final)
          && caret == old(caret) + |final|
          && stored == Some(buffer)
        else
          buffer == old(buffer) && caret == old(caret) && stored == old(stored)
      ensures var interim := InterimText(Window(results, resultIndex));
        if interim != "" then
          statusMsg == InterimStatus(interim) && statusCat == Recording
        else
          statusMsg == old(statusMsg) && statusCat == old(statusCat)
    {
      var final, interim := CollectFragments(results, resultIndex);
      if final != "" {
        buffer := Splice(buffer, caret, final);
        caret := caret + |final|;
        SaveText();
      }
      if interim != "" {
        statusMsg := InterimStatus(interim);
        statusCat := Recording;
      }
    }

    /** A recognition error: its message, as an error status. */
    method OnRecognitionError(code: string)
      requires hasRecognition
      modifies this`statusMsg, this`statusCat, this`pending
      ensures statusMsg == RecognitionErrorMessage(code) && statusCat == Error
      ensures pending == old(pending) + [RecognitionErrorMessage(code)]
    {
      ShowStatus(RecognitionErrorMessage(code), Error);
    }

    /**
     * The session has ended: Idle. "Recording stopped" replaces the status only
     * when it shows interim text or the recording style, so an error that ended
     * the session stays visible unless the error code itself contains "Interim:".
     */
    method OnRecognitionEnd()
      requires Valid() && hasRecognition
      modifies this`isRecording, this`statusMsg, this`statusCat, this`pending
      ensures Valid()
      ensures !isRecording
      ensures Contains(old(statusMsg), InterimMarker) || old(statusCat) == Recording ==>
        statusMsg == StoppedMessage && statusCat == Success && pending == old(pending) + [StoppedMessage]
      ensures !(Contains(old(statusMsg), InterimMarker) || old(statusCat) == Recording) ==>
        statusMsg == old(statusMsg) && statusCat == old(statusCat) && pending == old(pending)
    {
      isRecording := false;
      if Contains(statusMsg, InterimMarker) || statusCat == Recording {
        ShowStatus(StoppedMessage, Success);
      }
    }

    /** The clear button: empty buffer, saved, with a success status. */
    method ClearText()
      requires Valid()
      modifies this`buffer, this`caret, this`stored, this`statusMsg, this`statusCat, this`pending
      ensures Valid()
      ensures buffer == "" && caret == 0 && stored == Some("")
      ensures statusMsg == ClearedMessage && statusCat == Success && pending == old(pending) + [ClearedMessage]
    {
      buffer, caret := "", 0;
      SaveText();
      ShowStatus(ClearedMessage, Success);
    }

    /**
     * The copy button. A blank buffer is refused with an error and nothing is
     * written. Otherwise the buffer is written to the clipboard; when the
     * clipboard API rejects, the legacy path selects the whole text (moving the
     * caret to 0) and copies it. Both paths end in a success status.
     */
    method CopyToClipboard(clipboardRejects: bool) returns (copied: Option<string>)
      requires Valid()
      modifies this`caret, this`statusMsg, this`statusCat, this`pending
      ensures Valid()
      ensures Trim(buffer) == "" ==>
        copied == None && caret == old(caret) &&
        statusMsg == NothingToCopyMessage && statusCat == Error && pending == old(pending) + [NothingToCopyMessage]
      ensures Trim(buffer) != "" ==>
        copied == Some(buffer) && caret == (if clipboardRejects then 0 else old(caret)) &&
        statusMsg == CopiedMessage && statusCat == Success && pending == old(pending) + [CopiedMessage]
    {
      if Trim(buffer) == "" {
        ShowStatus(NothingToCopyMessage, Error);
        return None;
      }
      copied := Some(buffer);
      if clipboardRejects {
        caret := 0;
      }
      ShowStatus(CopiedMessage, Success);
    }
  }

  /** Closing and reopening the popup: the new controller starts idle with the text the old one had. */
  method Reopen(c: SpeechToText) returns (d: SpeechToText)
    requires c.Valid()
    ensures d.Valid() && !d.isRecording
    ensures d.buffer == c.buffer && d.caret == |c.buffer| && d.stored == c.stored
  {
    d := new SpeechToText(c.hasRecognition, c.stored);
  }
}
