/**
 * Sequences of events on a freshly opened popup, stated as client methods
 * that use only the controller's contracts.
 */
module Scenarios {
  import opened Wrappers
  import opened Text
  import opened Transcript
  import opened Messages
  import opened Controller

  /** The hello/wor event: one final result "hello " and one interim result "wor". */
  function HelloWorResults(): seq<SpeechResult> {
    [SpeechResult(["hello "], true), SpeechResult(["wor"], false)]
  }

  /** The fragments of the hello/wor event: the final transcript with the appended space, and the interim text. */
  lemma HelloWorFragments()
    ensures WellFormed(HelloWorResults())
    ensures FinalText(Window(HelloWorResults(), 0)) == "hello  "
    ensures InterimText(Window(HelloWorResults(), 0)) == "wor"
    ensures InterimStatus("wor") == "Interim: \"wor\""
  {
    var rs := HelloWorResults();
    assert Window(rs, 0) == rs;
    assert rs[..1] == [rs[0]] && rs[..1][..0] == [];
    assert FinalText(rs[..1]) == "hello  ";
    assert InterimText(rs[..1]) == "";
  }

  /**
   * Results [("hello ", final), ("wor", interim)] from index 0 on an empty
   * buffer: the final transcript is inserted with the space the handler
   * appends, the caret lands after it, the text is saved, and the interim
   * text is shown in the status.
   */
  method HelloWorScenario() returns (text: string, caret: nat, saved: Option<string>, status: string)
    ensures text == "hello  " && caret == 7 && saved == Some("hello  ")
    ensures status == "Interim: \"wor\""
  {
    var c := new SpeechToText(true, None);
    c.OnRecognitionStart();
    var rs := HelloWorResults();
    HelloWorFragments();
    c.OnRecognitionResult(rs, 0);
    assert c.buffer == Splice("", 0, "hello  ");
    text, caret, saved, status := c.buffer, c.caret, c.stored, c.statusMsg;
  }

  /**
   * A session that ends because no speech was heard: the error message stays
   * on screen after the end event, and the controller is idle again.
   */
  method NoSpeechScenario() returns (status: string, cat: Category, recording: bool)
    ensures status == "No speech detected. " + "Please try again." && cat == Error && !recording
  {
    var c := new SpeechToText(true, None);
    c.OnRecognitionStart();
    c.OnRecognitionError("no-speech");
    NoSpeechMessageUnmarked();
    c.OnRecognitionEnd();
    status, cat, recording := c.statusMsg, c.statusCat, c.isRecording;
  }

  /** The no-speech message does not mention the interim marker. */
  lemma NoSpeechMessageUnmarked()
    ensures RecognitionErrorMessage("no-speech") == "No speech detected. " + "Please try again."
    ensures !Contains(RecognitionErrorMessage("no-speech"), InterimMarker)
  {
    NotContainsWithoutHead("No speech detected. " + "Please try again.", InterimMarker);
  }

  /**
   * A stale revert timer: "Text cleared" schedules a revert, recording starts
   * before it fires, and the late firing leaves the listening status alone.
   */
  method StaleRevertScenario() returns (status: string, cat: Category)
    ensures status == ListeningMessage && cat == Recording
  {
    var c := new SpeechToText(true, None);
    c.ClearText();
    c.OnRecognitionStart();
    c.FireRevert();
    status, cat := c.statusMsg, c.statusCat;
  }

  /** A denied permission never starts a session, whatever the request and start outcomes would be. */
  method DeniedScenario(request: Option<MicError>, startError: Option<string>) returns (call: SessionCall, help: bool, status: string)
    ensures call == NoCall && help && status == DeniedMessage
  {
    var c := new SpeechToText(true, None);
    call, help := c.ToggleRecording(Denied, request, startError);
    status := c.statusMsg;
  }
}
