# Speech-to-text popup controller, modelled in Dafny

This project models the `SpeechToText` controller of a browser-extension popup
(`popup.js`). The popup transcribes microphone audio into an editable text
area through the browser's speech-recognition session, keeps the text in a
key-value store, and offers copy and clear buttons. The model covers the part
of the controller that is logic rather than browser plumbing:

- **Result merging.** A result event carries a list of results, each final or
  interim, and a `resultIndex`. The final transcripts from that index on
  (each followed by one space) are spliced into the buffer at the caret. The
  caret then moves past them and the buffer is saved. The interim transcripts
  only replace the status line.
- **Recording state machine.** The toggle button, the permission-guarded
  start path, the stop guard, and the session's start and end callbacks
  (Idle/Listening is the `isRecording` flag).
- **Error tables.** Recognition error codes map to status messages.
  Microphone-request failures map to a message and a flag saying whether the
  remediation help panel appears.
- **Status line.** It has a message and a category. Every non-`recording`
  status schedules a revert to "Ready to record". A revert timer only acts if
  its message is still the one shown.
- **Clear, copy guard and persistence.** One stored text slot, written on
  every buffer change and read when the popup opens.

Modules: `Wrappers` (Option), `Text` (JavaScript `trim` and `includes`),
`Transcript` (fragments of a result event and the splice), `Messages` (the two
error tables), `Controller` (the class `SpeechToText` and the start decision),
and `Scenarios` (event sequences on a fresh popup, proved from the contracts).

The browser's answers are method parameters: the permission state, the
outcome of the microphone request, the recognition results and error codes,
whether the start call throws, whether the clipboard API rejects, and the
stored value at startup. A timer firing is the method `FireRevert`. The
scheduled revert timers are the sequence `pending`, oldest first: they all use
the same 3-second delay, so they fire in the order they were scheduled.

The class invariant `Valid()` says three things. The caret lies within the
buffer. Reopening the popup from the stored slot gives back the current buffer.
Only a controller with recognition can be recording.

The result handler appends a space after every final transcript
(popup.js:101). So the hello/wor event, results `[("hello ", final), ("wor",
interim)]` on an empty buffer, gives `"hello  "` (two spaces) with the caret
at 7 (`Scenarios.HelloWorScenario`).

## Model

| member | source | states |
|---|---|---|
| `Text.IsWhitespace` | popup.js:267 | the ECMAScript WhiteSpace and LineTerminator characters that `trim()` removes; among ASCII exactly the space and tab to carriage return, never a printable character |
| `Text.ContainsIffOccurs` | popup.js:161 | `includes` (the recursive `Text.Contains`) holds exactly when the pattern occurs at some offset of the string |
| `Text.TrimStart` | popup.js:267 | the result is a suffix of the input, everything dropped is whitespace, and it does not start with whitespace |
| `Text.TrimEnd` | popup.js:267 | the result is a prefix of the input, everything dropped is whitespace, and it does not end with whitespace |
| `Text.Trim` | popup.js:267 | `trim()` is empty exactly when every character is JavaScript whitespace; otherwise it starts and ends with a non-blank character |
| `Text.ContainsSkipsPrefix` | popup.js:161 | a prefix lacking the first character of the pattern changes nothing about whether `includes` finds it |
| `Text.NotContainsWithoutHead` | popup.js:161 | a string lacking the first character of the pattern does not include it |
| `Transcript.Window` | popup.js:97 | the loop visits results `resultIndex` to the end, in order, and none when the index is past the end |
| `Transcript.FragmentsStep` | popup.js:97-104 | visiting one more result extends each fragment by exactly that result's piece |
| `Transcript.CollectFragments` | popup.js:94-105 | the loop builds exactly the final fragment and the interim fragment of the visited results |
| `Transcript.FinalTextAppend` | popup.js:97-102 | the final fragment of two runs of results is the first run's fragment followed by the second's (order is kept) |
| `Transcript.InterimTextAppend` | popup.js:97-104 | the interim fragment splits the same way |
| `Transcript.FinalTextNonEmptyIff` | popup.js:100-112 | the final fragment is non-empty, so the buffer changes, exactly when some visited result is final |
| `Transcript.InterimTextNonEmptyIff` | popup.js:103-127 | the interim fragment is non-empty, so the status changes, exactly when some visited interim result has text |
| `Transcript.FinalTextEndsWithSpace` | popup.js:101 | a non-empty final fragment ends with a space |
| `Transcript.Splice` | popup.js:107-115 | the text before the caret is kept, the fragment follows it, and the text after the caret follows the fragment |
| `Transcript.SpliceSequential` | popup.js:113-119 | inserting one fragment and then another at the advanced caret equals inserting both joined at the original caret |
| `Messages.RecognitionErrorMessage` | popup.js:130-151 | exactly the codes other than the five known ones get "Recognition error: " followed by the code, and that message contains "Interim:" exactly when the code does |
| `Messages.RecognitionErrorMessageMarked` | popup.js:130-161 | no dedicated message includes "Interim:", and a generic one includes it exactly when the code does: an error status survives the end event unless the code itself contains "Interim:" |
| `Messages.RecognitionErrorMessageInjective` | popup.js:133-151 | different error codes never show the same message |
| `Messages.PermissionErrorReport` | popup.js:198-220 | the help panel is shown for every failure except NotFoundError and NotReadableError; exactly the unknown names get "Microphone error: " followed by the exception message |
| `Messages.PermissionMessageIdentifiesCause` | popup.js:201-220 | the message of a known failure is shown for no other failure |
| `Controller.InterimStatus` | popup.js:125-127 | the interim status starts with "Interim:" and is followed by a space and the interim text between double quotes |
| `Controller.Loaded` | popup.js:307-320 | a stored value reads back as itself (an empty one yields the same empty buffer); no stored value gives an empty buffer |
| `Controller.StartDecision` | popup.js:55-78 | `start()` is reached only with a recognition object and never on denied; with granted it always is; with prompt or unknown exactly when the request succeeded |
| `Controller.StartShowsHelp` | popup.js:55-71 | the start path shows the help panel always on denied, never on granted, and otherwise exactly when the request failed with a help-worthy error |
| `Controller.SpeechToText.constructor` | popup.js:2-36 | the popup opens idle with the stored text (caret at its end), and with an error status when recognition is missing |
| `Controller.SpeechToText.ShowStatus` | popup.js:283-296 | the status becomes the message and category; a revert timer is scheduled for it unless the category is `recording` |
| `Controller.SpeechToText.FireRevert` | popup.js:289-294 | the oldest timer fires and is removed; it resets the status to "Ready to record" only if its message is still shown, otherwise the status is untouched |
| `Controller.SpeechToText.SaveText` | popup.js:298-305 | the stored slot holds the whole buffer |
| `Controller.SpeechToText.LoadSavedText` | popup.js:307-321 | a non-empty stored text replaces the buffer with the caret at its end; otherwise nothing changes |
| `Controller.SpeechToText.OnInput` | popup.js:43-44 | a direct edit sets the buffer and caret and saves the new text |
| `Controller.SpeechToText.Select` | popup.js:107 | moving the caret without editing saves nothing and only changes where the next final fragment is inserted |
| `Controller.SpeechToText.ToggleRecording` | popup.js:47-53 | while recording, the click only asks the session to stop; otherwise it never stops, starts exactly per `StartDecision`, and leaves the status as the start path does |
| `Controller.SpeechToText.StartRecording` | popup.js:55-78 | the session starts per `StartDecision`; the status after each branch (denied, failed request, start error, success) and the timers it schedules |
| `Controller.SpeechToText.RequestMicrophonePermission` | popup.js:186-196 | granted exactly when the request succeeds; a failure is reported through the permission error table |
| `Controller.SpeechToText.HandlePermissionError` | popup.js:198-223 | the status is the table's message as an error, and the help flag is the table's |
| `Controller.SpeechToText.StopRecording` | popup.js:80-84 | on a valid controller, `stop()` is called exactly when it is recording (the session check never fails then) |
| `Controller.SpeechToText.OnRecognitionStart` | popup.js:86-91 | Listening, with the listening status in the `recording` category and no timer |
| `Controller.SpeechToText.OnRecognitionResult` | popup.js:93-128 | a non-empty final fragment is spliced at the caret, the caret moves past it and the buffer is saved; otherwise buffer, caret and slot are unchanged; a non-empty interim fragment becomes the `recording` status, otherwise the status is unchanged |
| `Controller.SpeechToText.OnRecognitionError` | popup.js:130-154 | the status is the code's message as an error; buffer and recording flag are unchanged |
| `Controller.SpeechToText.OnRecognitionEnd` | popup.js:156-164 | Idle; "Recording stopped" replaces the status only if it includes "Interim:" or has the `recording` category |
| `Controller.SpeechToText.ClearText` | popup.js:166-171 | the buffer and the stored slot become empty, the caret is 0, and the status is "Text cleared" |
| `Controller.SpeechToText.CopyToClipboard` | popup.js:264-281 | a blank buffer is refused with "No text to copy" and nothing is written; otherwise the buffer is written and the status is a success; the legacy fallback leaves the caret at 0 |
| `Controller.Reopen` | popup.js:324-327 | a popup reopened from the stored slot is idle and holds the text the previous one had |
| `Scenarios.HelloWorFragments` | popup.js:97-105 | in the hello/wor event the final fragment is "hello  " (with the appended space) and the interim fragment "wor" |
| `Scenarios.HelloWorScenario` | popup.js:93-128 | the hello/wor event gives "hello  ", caret 7, the same text stored, and the status `Interim: "wor"` |
| `Scenarios.NoSpeechScenario` | popup.js:130-164 | a no-speech error followed by the end event leaves the error message shown and the controller idle |
| `Scenarios.NoSpeechMessageUnmarked` | popup.js:134-135 | the no-speech message does not include "Interim:", so the end event keeps it |
| `Scenarios.StaleRevertScenario` | popup.js:283-296 | a revert timer that fires after a newer status does not disturb it |
| `Scenarios.DeniedScenario` | popup.js:47-65 | a denied permission never starts a session, shows the help panel and the denied message |

## Left out

- Presentation: the button labels and gradients, the disabled start button, the help panel's HTML, its 15-second removal timer, and focusing the text area. The model only records whether the help panel is shown.
- The browser APIs are parameters, not code. This covers the permission query, `getUserMedia` and stopping its tracks, `navigator.clipboard.writeText` and `execCommand('copy')`, and `chrome.storage` with its `localStorage` fallback. Storage is one abstract slot: the primary/fallback choice is only exception routing, and a failure of the fallback store is not handled by the code either.
- `async`/`await` and `setTimeout` scheduling: each callback, click and timer firing is one atomic call. Events that arrive while `startRecording` awaits the permission query or the request are not modelled.
- The recognition configuration (continuous, interim results, language `cs-CZ`) and feature detection beyond the `hasRecognition` flag.
- The session's own refusal of a second `start()` while one is starting is not modelled. A start call that throws is the `startError` parameter.
- `console.log` in the permission query's error path.
- The caret is `selectionStart` only. The selection end is not modelled; the handler inserts at the start of a selection and keeps the selected text, as the model does.
- Strings are sequences of Unicode characters. JavaScript lengths and offsets count UTF-16 code units, so caret arithmetic differs for characters outside the Basic Multilingual Plane.
- The initial page markup is not part of this model. The text area is taken to start empty and the status to start as "Ready to record" in the neutral category.
- Every result must have an alternative `[0]` (`Transcript.WellFormed`). The handler reads it unguarded, so an empty alternatives list would throw.
