/**
 * Merging a recognition result event into the text buffer (popup.js,
 * `onRecognitionResult`). The specification functions say what the two
 * fragments of one event are; `CollectFragments` is the loop that builds
 * them; `Splice` is the insertion at the caret.
 */
module Transcript {

  /** One entry of an event's result list: its alternatives, best first, and whether the engine will revise it no more. */
  datatype SpeechResult = SpeechResult(alternatives: seq<string>, isFinal: bool)

  /** The handler reads alternative [0] of every result it visits, so every result must have one. */
  predicate HasBest(r: SpeechResult) {
    |r.alternatives| > 0
  }

  predicate WellFormed(rs: seq<SpeechResult>) {
    forall i :: 0 <= i < |rs| ==> HasBest(rs[i])
  }

  function Best(r: SpeechResult): string
    requires HasBest(r)
  {
    r.alternatives[0]
  }

  /** The results an event with this `resultIndex` makes the handler visit: from the index to the end, none when it is past the end. */
  function Window(rs: seq<SpeechResult>, from: nat): (w: seq<SpeechResult>)
    ensures |w| == if from < |rs| then |rs| - from else 0
    ensures forall k :: 0 <= k < |w| ==> w[k] == rs[from + k]
  {
    if from < |rs| then rs[from..] else []
  }

  /** What one result adds to the final fragment: its transcript and one space, if final. */
  function FinalPiece(r: SpeechResult): string
    requires HasBest(r)
  {
    if r.isFinal then Best(r) + " " else ""
  }

  /** What one result adds to the interim fragment: its transcript, if not final. */
  function InterimPiece(r: SpeechResult): string
    requires HasBest(r)
  {
    if r.isFinal then "" else Best(r)
  }

  /** The final fragment of a run of results, pieces joined in order. */
  function FinalText(rs: seq<SpeechResult>): string
    requires WellFormed(rs)
  {
    if rs == [] then "" else FinalText(rs[..|rs| - 1]) + FinalPiece(rs[|rs| - 1])
  }

  /** The interim fragment of a run of results, pieces joined in order with no separator. */
  function InterimText(rs: seq<SpeechResult>): string
    requires WellFormed(rs)
  {
    if rs == [] then "" else InterimText(rs[..|rs| - 1]) + InterimPiece(rs[|rs| - 1])
  }

  /** Extending a run by the next result extends both fragments by that result's pieces. */
  lemma FragmentsStep(rs: seq<SpeechResult>, lo: nat, i: nat)
    requires WellFormed(rs) && lo <= i < |rs|
    ensures FinalText(rs[lo..i + 1]) == FinalText(rs[lo..i]) + FinalPiece(rs[i])
    ensures InterimText(rs[lo..i + 1]) == InterimText(rs[lo..i]) + InterimPiece(rs[i])
  {
    assert rs[lo..i + 1][..i - lo] == rs[lo..i];
  }

  /**
   * The loop of `onRecognitionResult`: walk the results from `resultIndex`
   * to the end, appending each final transcript and a space to one string and
   * each interim transcript to the other.
   */
  method CollectFragments(results: seq<SpeechResult>, resultIndex: nat) returns (final: string, interim: string)
    requires WellFormed(results)
    ensures final == FinalText(Window(results, resultIndex))
    ensures interim == InterimText(Window(results, resultIndex))
  {
    final, interim := "", "";
    // The loop runs from resultIndex while below the length: an index past the end visits nothing.
    var lo := if resultIndex < |results| then resultIndex else |results|;
    for i := lo to |results|
      invariant final == FinalText(results[lo..i])
      invariant interim == InterimText(results[lo..i])
    {
      var transcript := results[i].alternatives[0];
      if results[i].isFinal {
        final := final + (transcript + " ");
      } else {
        interim := interim + transcript;
      }
      FragmentsStep(results, lo, i);
    }
    assert Window(results, resultIndex) == results[lo..|results|];
  }

  /** Text before the caret, then the fragment, then text after the caret. */
  function Splice(text: string, at: nat, fragment: string): (r: string)
    requires at <= |text|
    ensures |r| == |text| + |fragment|
    ensures r[..at] == text[..at]
    ensures r[at..at + |fragment|] == fragment
    ensures r[at + |fragment|..] == text[at..]
  {
    text[..at] + fragment + text[at..]
  }

  /**
   * Two insertions in a row, the second at the caret the first left behind,
   * give the same text as one insertion of both fragments joined.
   */
  lemma SpliceSequential(text: string, at: nat, f1: string, f2: string)
    requires at <= |text|
    ensures at + |f1| <= |Splice(text, at, f1)|
    ensures Splice(Splice(text, at, f1), at + |f1|, f2) == Splice(text, at, f1 + f2)
  {
    var once := Splice(text, at, f1);
    assert once[..at + |f1|] == text[..at] + f1;
    assert once[at + |f1|..] == text[at..];
  }

  /** The final fragment of a run is the final fragment of its first part followed by that of its second part. */
  lemma {:induction false} FinalTextAppend(a: seq<SpeechResult>, b: seq<SpeechResult>)
    requires WellFormed(a) && WellFormed(b)
    ensures WellFormed(a + b)
    ensures FinalText(a + b) == FinalText(a) + FinalText(b)
  {
    if b == [] {
      assert a + b == a;
    } else {
      var b' := b[..|b| - 1];
      assert (a + b)[..|a + b| - 1] == a + b';
      assert (a + b)[|a + b| - 1] == b[|b| - 1];
      FinalTextAppend(a, b');
    }
  }

  /** The interim fragment of a run splits the same way. */
  lemma {:induction false} InterimTextAppend(a: seq<SpeechResult>, b: seq<SpeechResult>)
    requires WellFormed(a) && WellFormed(b)
    ensures WellFormed(a + b)
    ensures InterimText(a + b) == InterimText(a) + InterimText(b)
  {
    if b == [] {
      assert a + b == a;
    } else {
      var b' := b[..|b| - 1];
      assert (a + b)[..|a + b| - 1] == a + b';
      assert (a + b)[|a + b| - 1] == b[|b| - 1];
      InterimTextAppend(a, b');
    }
  }

  /** The final fragment is non-empty exactly when some visited result is final. */
  lemma {:induction false} FinalTextNonEmptyIff(rs: seq<SpeechResult>)
    requires WellFormed(rs)
    ensures FinalText(rs) != "" <==> exists i :: 0 <= i < |rs| && rs[i].isFinal
  {
    if rs != [] {
      var init := rs[..|rs| - 1];
      FinalTextNonEmptyIff(init);
      if exists i :: 0 <= i < |init| && init[i].isFinal {
        var i :| 0 <= i < |init| && init[i].isFinal;
        assert rs[i].isFinal;
      }
      if exists i :: 0 <= i < |rs| && rs[i].isFinal {
        var i :| 0 <= i < |rs| && rs[i].isFinal;
        if i < |init| {
          assert init[i].isFinal;
        }
      }
    }
  }

  /** The interim fragment is non-empty exactly when some visited non-final result has a non-empty transcript. */
  lemma {:induction false} InterimTextNonEmptyIff(rs: seq<SpeechResult>)
    requires WellFormed(rs)
    ensures InterimText(rs) != "" <==> exists i :: 0 <= i < |rs| && !rs[i].isFinal && Best(rs[i]) != ""
  {
    if rs != [] {
      var init := rs[..|rs| - 1];
      InterimTextNonEmptyIff(init);
      if exists i :: 0 <= i < |init| && !init[i].isFinal && Best(init[i]) != "" {
        var i :| 0 <= i < |init| && !init[i].isFinal && Best(init[i]) != "";
        assert rs[i] == init[i];
      }
      if exists i :: 0 <= i < |rs| && !rs[i].isFinal && Best(rs[i]) != "" {
        var i :| 0 <= i < |rs| && !rs[i].isFinal && Best(rs[i]) != "";
        if i < |init| {
          assert init[i] == rs[i];
        }
      }
    }
  }

  /** A non-empty final fragment always ends in the space the handler appends. */
  lemma {:induction false} FinalTextEndsWithSpace(rs: seq<SpeechResult>)
    requires WellFormed(rs)
    ensures FinalText(rs) != "" ==> FinalText(rs)[|FinalText(rs)| - 1] == ' '
  {
    if rs != [] {
      FinalTextEndsWithSpace(rs[..|rs| - 1]);
    }
  }
}
