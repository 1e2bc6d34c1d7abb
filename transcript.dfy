/** What a recognizer result does to the displayed text: an interim result replaces the
    current transcript, a final one is appended to the history and clears the transcript. */
module Transcript {

  /** One result as onresult reads it: the top alternative's text at event.resultIndex,
      and whether the recognizer marked it final. */
  datatype RecognitionResult = RecognitionResult(text: string, isFinal: bool)

  /** The two state variables results change: the interim text and the finalized utterances. */
  datatype Screen = Screen(transcript: string, history: seq<string>)

  /** The copy-and-append update prevHistory => [...prevHistory, newTranscript]:
      earlier entries keep their places and the text, even an empty one, comes last. */
  function AppendFinal(history: seq<string>, text: string): (r: seq<string>)
    ensures |r| == |history| + 1
    ensures r[..|history|] == history
    ensures r[|history|] == text
  {
    history + [text]
  }

  /** The onresult handler on the screen state. */
  function ApplyResult(s: Screen, res: RecognitionResult): (r: Screen)
    ensures !res.isFinal ==> r.transcript == res.text && r.history == s.history
    ensures res.isFinal ==>
      r.transcript == "" && |r.history| == |s.history| + 1 &&
      r.history[..|s.history|] == s.history && r.history[|s.history|] == res.text
  {
    if res.isFinal then Screen("", AppendFinal(s.history, res.text))
    else Screen(res.text, s.history)
  }

  /** The screen after the results arrive one at a time, first one first. The history only
      grows, and only at its end. */
  function Replay(s: Screen, results: seq<RecognitionResult>): (r: Screen)
    ensures |s.history| <= |r.history| <= |s.history| + |results|
    ensures r.history[..|s.history|] == s.history
    decreases |results|
  {
    if results == [] then s else Replay(ApplyResult(s, results[0]), results[1..])
  }

  /** The texts of the final results, in the order they arrived. */
  function Finals(results: seq<RecognitionResult>): seq<string>
    decreases |results|
  {
    if results == [] then []
    else (if results[0].isFinal then [results[0].text] else []) + Finals(results[1..])
  }

  /** Results only ever append: the history after any run of results is the old history
      followed by the final texts in arrival order, and interim results leave no trace in it. */
  lemma {:induction false} ReplayHistory(s: Screen, results: seq<RecognitionResult>)
    ensures Replay(s, results).history == s.history + Finals(results)
    decreases |results|
  {
    if results != [] {
      var next := ApplyResult(s, results[0]);
      ReplayHistory(next, results[1..]);
      if results[0].isFinal {
        assert next.history == s.history + [results[0].text];
      } else {
        assert next.history == s.history;
      }
    }
  }

  /** Replaying one more result is applying it to the replayed screen. */
  lemma {:induction false} ReplaySnoc(s: Screen, results: seq<RecognitionResult>, last: RecognitionResult)
    ensures Replay(s, results + [last]) == ApplyResult(Replay(s, results), last)
    decreases |results|
  {
    if results == [] {
      assert results + [last] == [last];
      assert [last][1..] == [];
    } else {
      assert (results + [last])[0] == results[0];
      assert (results + [last])[1..] == results[1..] + [last];
      ReplaySnoc(ApplyResult(s, results[0]), results[1..], last);
    }
  }

  /** The current transcript is decided by the latest result alone: its text when it is
      interim, the empty string when it is final; with no results it is left as it was. */
  lemma {:induction false} ReplayTranscript(s: Screen, results: seq<RecognitionResult>)
    ensures Replay(s, results).transcript ==
      if results == [] then s.transcript
      else if results[|results| - 1].isFinal then ""
      else results[|results| - 1].text
  {
    if results != [] {
      var n := |results| - 1;
      assert results == results[..n] + [results[n]];
      ReplaySnoc(s, results[..n], results[n]);
    }
  }

  /** When every result is final, the new history entries are exactly their texts, in order. */
  lemma {:induction false} FinalsOfFinalResults(results: seq<RecognitionResult>)
    requires forall i :: 0 <= i < |results| ==> results[i].isFinal
    ensures |Finals(results)| == |results|
    ensures forall i :: 0 <= i < |results| ==> Finals(results)[i] == results[i].text
    decreases |results|
  {
    if results != [] {
      FinalsOfFinalResults(results[1..]);
      assert Finals(results) == [results[0].text] + Finals(results[1..]);
    }
  }
}
