/**
 * The two error tables of the popup: recognition-session error codes
 * (`onRecognitionError`) and microphone-request failures
 * (`handlePermissionError`), each mapped to the status text it shows.
 */
module Messages {
  import opened Text

  const GenericRecognitionPrefix := "Recognition error: "

  /** The codes `onRecognitionError` has a dedicated message for. */
  const KnownRecognitionErrors: set<string> :=
    {"no-speech", "audio-capture", "not-allowed", "network", "service-not-allowed"}

  /** Marker the end-of-session handler looks for in the status text. */
  const InterimMarker := "Interim:"

  /**
   * Status text for a recognition error code. A dedicated message for the five
   * known codes; otherwise the generic prefix followed by the code itself, so
   * the generic form appears exactly for unknown codes, the code can be read
   * back from it, and it mentions the interim marker only if the code does.
   */
  function RecognitionErrorMessage(code: string): (m: string)
    ensures code in KnownRecognitionErrors <==> !StartsWith(m, GenericRecognitionPrefix)
    ensures code !in KnownRecognitionErrors ==> m[|GenericRecognitionPrefix|..] == code
    ensures code !in KnownRecognitionErrors ==> (Contains(m, InterimMarker) <==> Contains(code, InterimMarker))
    ensures code in KnownRecognitionErrors ==> 'I' !in m
  {
    // The messages are joined from short pieces (same text) so that the
    // verifier can read the characters the ensures compare cheaply.
    if code in KnownRecognitionErrors then
      var m :=
        if code == "no-speech" then "No speech detected. " + "Please try again."
        else if code == "audio-capture" then "No microphone found " + "or access denied."
        else if code == "not-allowed" then "Microphone permission denied."
        else if code == "network" then "Network error occurred."
        else "Speech service not allowed.";
      assert m[0] != GenericRecognitionPrefix[0];
      m
    else
      ContainsSkipsPrefix(GenericRecognitionPrefix, code, InterimMarker);
      GenericRecognitionPrefix + code
  }

  /**
   * An error status includes the interim marker exactly when the code is
   * outside the table and itself includes it; in particular none of the five
   * dedicated messages does.
   */
  lemma RecognitionErrorMessageMarked(code: string)
    ensures code in KnownRecognitionErrors ==> !Contains(RecognitionErrorMessage(code), InterimMarker)
    ensures code !in KnownRecognitionErrors ==>
              (Contains(RecognitionErrorMessage(code), InterimMarker) <==> Contains(code, InterimMarker))
  {
    if code in KnownRecognitionErrors {
      NotContainsWithoutHead(RecognitionErrorMessage(code), InterimMarker);
    }
  }

  /** Different codes never produce the same status text. */
  lemma RecognitionErrorMessageInjective(c1: string, c2: string)
    requires RecognitionErrorMessage(c1) == RecognitionErrorMessage(c2)
    ensures c1 == c2
  {
    var m := RecognitionErrorMessage(c1);
    var n := RecognitionErrorMessage(c2);
    if c1 !in KnownRecognitionErrors {
      assert c2 !in KnownRecognitionErrors;
    } else {
      assert c2 in KnownRecognitionErrors;
      // The dedicated messages differ in length, except the first two, which differ at index 3.
      assert |m| == (if c1 == "no-speech" || c1 == "audio-capture" then 37
                     else if c1 == "not-allowed" then 29 else if c1 == "network" then 23 else 27);
      assert |n| == (if c2 == "no-speech" || c2 == "audio-capture" then 37
                     else if c2 == "not-allowed" then 29 else if c2 == "network" then 23 else 27);
      if |m| == 37 {
        assert m[3] == (if c1 == "no-speech" then 's' else 'm');
        assert n[3] == (if c2 == "no-speech" then 's' else 'm');
      }
    }
  }

  /** A failed microphone request, as `getUserMedia` rejects it: a DOMException name and message. */
  datatype MicError = MicError(name: string, message: string)

  /** What `handlePermissionError` shows: the status text and whether the remediation help panel appears. */
  datatype PermissionReport = PermissionReport(message: string, showHelp: bool)

  const GenericMicPrefix := "Microphone error: "

  const KnownMicErrors: set<string> :=
    {"NotAllowedError", "NotFoundError", "NotReadableError", "SecurityError"}

  /**
   * The status and help flag for a failed microphone request. The help panel is
   * shown for every failure except a missing or busy device (unknown failures are
   * treated as permission problems). Unknown names get the generic prefix
   * followed by the exception's own message.
   */
  function PermissionErrorReport(e: MicError): (r: PermissionReport)
    ensures r.showHelp <==> e.name != "NotFoundError" && e.name != "NotReadableError"
    ensures e.name in KnownMicErrors <==> !StartsWith(r.message, GenericMicPrefix)
    ensures e.name !in KnownMicErrors ==> r.message[|GenericMicPrefix|..] == e.message
  {
    // Joined from short pieces, as above, so that single characters are cheap to read.
    if e.name == "NotAllowedError" then
      var m := "Microphone blocked " + "for this extension. " + "See instructions below.";
      assert m[11] != GenericMicPrefix[11];
      PermissionReport(m, true)
    else if e.name == "NotFoundError" then
      var m := "No microphone found. " + "Please connect a microphone " + "and try again.";
      assert m[0] != GenericMicPrefix[0];
      PermissionReport(m, false)
    else if e.name == "NotReadableError" then
      var m := "Microphone is being used " + "by another application.";
      assert m[11] != GenericMicPrefix[11];
      PermissionReport(m, false)
    else if e.name == "SecurityError" then
      var m := "Extension needs " + "microphone permission. " + "See instructions below.";
      assert m[0] != GenericMicPrefix[0];
      PermissionReport(m, true)
    else
      PermissionReport(GenericMicPrefix + e.message, true)
  }

  /** The status text of a known failure names its cause: no other failure shows the same text. */
  lemma PermissionMessageIdentifiesCause(e1: MicError, e2: MicError)
    requires e1.name in KnownMicErrors
    requires PermissionErrorReport(e1).message == PermissionErrorReport(e2).message
    ensures e2.name == e1.name
  {
    assert e2.name in KnownMicErrors;
    var a := "Microphone blocked " + "for this extension. " + "See instructions below.";
    var b := "No microphone found. " + "Please connect a microphone " + "and try again.";
    var c := "Microphone is being used " + "by another application.";
    var d := "Extension needs " + "microphone permission. " + "See instructions below.";
    assert a[0] != b[0] && a[11] != c[11] && a[0] != d[0];
    assert b[0] != c[0] && b[0] != d[0] && c[0] != d[0];
  }
}
