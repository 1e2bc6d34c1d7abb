# Voice transcriber: transcript and listening state machine

A model of the `App` component of a small voice-transcription page. The component keeps
three state variables: the listening flag, the current interim transcript and the history of
finalized utterances. It mirrors the history into one browser storage slot under the key
`transcriptHistory`. It turns the browser's continuous speech recognizer on and off through
an effect that depends on the listening flag.

- `storage.dfy`, module `Storage`: the slot (`None` when the key is absent, `Some(h)` when it
  holds the JSON text of `h`), manual save, load and the guarded auto-save.
- `transcript.dfy`, module `Transcript`: what one recognizer result does to the screen state,
  and what a run of results does (`Replay`).
- `recognizer.dfy`, module `Recognizer`: a recognizer seen only through the log of `start` and
  `stop` calls the component makes. Sessions are numbered by creation. `Active(log, s)` holds
  when the last call on session `s` is a start.
- `app.dfy`, module `TranscriberApp`: class `App`. Its fields are `isListening`, `transcript`,
  `history` and `stored`. It also has `captured` (the flag value each run of the recognition
  effect saw, one entry per session), the call log `calls`, and `mounted`. Each event handler
  is a method that runs to completion together with the effects its state change triggers.

Every history change produces a new array, so the auto-save effect runs after each one. The
model therefore re-runs `AutoSave` after every assignment to `history`. `Valid()` records what
follows from this: a non-empty history is always the stored one. The `onend` closure of a
session reads the flag captured by the effect run that created it (dependency list at
src/App.js:86), not the live flag. The model keeps that value per session in `captured`.

The code applies a result that arrives after its session was stopped. The end handler reads
the captured flag, not the live one (see Findings). Malformed stored text makes `JSON.parse`
throw; that case is left out.

## Model

| member | source | states |
|---|---|---|
| `Storage.Save` | src/App.js:16-18 | whatever the slot held, it then loads back to exactly the saved history |
| `Storage.Load` | src/App.js:21-26 | an absent key gives the empty list; a present one gives exactly the stored history, an empty one included |
| `Storage.AutoSave` | src/App.js:35-40 | the slot is left as it was exactly when the history is empty or already stored; a non-empty history loads back afterwards |
| `Storage.LoadAbsent` | src/App.js:21-26 | loading an absent key yields the empty list |
| `Storage.SaveLoadRoundTrip` | src/App.js:16-26 | loading after a save of history h yields exactly h, the empty history included |
| `Storage.SaveIdempotent` | src/App.js:16-18 | saving the same history twice leaves the slot as saving once |
| `Storage.AutoSaveSkipsEmpty` | src/App.js:35-40 | the auto-save leaves the slot unchanged exactly when the history is empty or already stored |
| `Storage.AutoSaveRoundTrip` | src/App.js:35-40 | after the auto-save of a non-empty history the slot holds it and loads back to it |
| `Storage.AutoSaveIdempotent` | src/App.js:35-40 | running the auto-save twice on the same history equals running it once |
| `Storage.LoadThenAutoSave` | src/App.js:29-40 | loading the slot and auto-saving the loaded history leaves the slot as it was |
| `Transcript.AppendFinal` | src/App.js:59 | the new history is one longer, has the old history as prefix and the text (possibly empty) last |
| `Transcript.ApplyResult` | src/App.js:54-66 | an interim result sets the transcript to its text and keeps the history; a final one clears the transcript and appends its text after the unchanged old entries |
| `Transcript.Replay` | src/App.js:54-66 | over any run of results the history keeps its old entries as a prefix and grows by at most one entry per result |
| `Transcript.ReplayHistory` | src/App.js:54-66 | after any run of results the history is the old history followed by the final texts in arrival order |
| `Transcript.ReplaySnoc` | src/App.js:54-66 | replaying one more result equals applying it to the replayed screen |
| `Transcript.ReplayTranscript` | src/App.js:57-63 | after a run of results the transcript is the latest result's text if it is interim, empty if it is final, unchanged if there were none |
| `Transcript.FinalsOfFinalResults` | src/App.js:57-60 | when every result is final, the appended entries are exactly their texts in order |
| `Recognizer.Launch` | src/App.js:77-81 | the effect body's call is on the new session and is a start exactly when the flag is on |
| `Recognizer.EffectCalls` | src/App.js:77-85 | a re-run first stops the previous session and ends with a call on the new one that is a start exactly when the flag is on; it touches no other session |
| `Recognizer.RestartCalls` | src/App.js:68-75 | the end handler makes one start on its own session when its flag is on and no call otherwise |
| `Recognizer.ActiveIffLastCallIsStart` | src/App.js:73-84 | a session is wanted exactly when some start on it is followed by no later call on it |
| `Recognizer.ActiveAppend` | src/App.js:73-84 | a call on one session changes whether that session is wanted and no other |
| `Recognizer.EffectActivity` | src/App.js:77-86 | after the effect re-runs, the previous session is stopped, the new one is wanted exactly when the flag is on, others are untouched |
| `Recognizer.RestartActivity` | src/App.js:68-75 | a restart makes its session wanted and changes no other |
| `TranscriberApp.App.constructor` | src/App.js:5-86 | on mount the history is the loaded one, the slot is unchanged, the transcript is empty, the flag is off and session 0 receives stop |
| `TranscriberApp.App.ToggleListening` | src/App.js:77-91 | the flag flips; the previous session gets stop and a new session gets start if the flag is now on, stop otherwise; no stray session appears |
| `TranscriberApp.App.OnResult` | src/App.js:54-66 | the screen changes as `ApplyResult` says; a final result auto-saves the new history, an interim one leaves the slot alone |
| `TranscriberApp.App.OnEnd` | src/App.js:68-75 | exactly one start on its own session when its captured flag is on, none otherwise; transcript and history are unchanged |
| `TranscriberApp.App.OnEndGuarded` | src/App.js:68-86 | corrected end handler: restarts only the current session of a mounted, listening component, and keeps `NoStraySession` |
| `TranscriberApp.App.Unmount` | src/App.js:83-85 | teardown always stops the current session, which is then not wanted |
| `TranscriberApp.App.ClearScreen` | src/App.js:10-13 | transcript and history become empty and the stored slot is untouched |
| `TranscriberApp.App.SaveHistory` | src/App.js:94 | the slot holds the current history, even an empty one, and loads back to it |
| `TranscriberApp.App.LoadHistory` | src/App.js:95 | the history becomes the stored one (empty when absent) and the slot stays as it was |
| `TranscriberApp.StaleSessionRestart` | src/App.js:68-86 | on, off, then the end of session 1: session 1 is restarted while the flag is off |
| `TranscriberApp.GuardedSessionStaysStopped` | src/App.js:68-86 | the same events with the guarded handler leave no session wanted |
| `TranscriberApp.ToggleThriceScenario` | src/App.js:77-91 | on, off, on without an end event leaves exactly one session wanted, the newest |
| `TranscriberApp.TranscriptScenario` | src/App.js:10-66 | empty storage, final "hello", interim "wor", final "world", clear: the screen is empty and the slot still holds both utterances |

## Left out

- Rendering, button labels and the history list (src/App.js:88-106): user interface only.
- The `console.log` calls: output with no effect on state.
- The browser recognizer, its feature detection and its configuration (src/App.js:43-48). It
  appears only as numbered sessions and a log of calls. Which events it delivers, and when, is
  up to the caller of the methods.
- How a result is picked out of the event (`event.results[event.resultIndex][0]`): a result is
  given directly as its text and its final flag.
- React's scheduling and batching: each handler and the effects it triggers run as one step.
  On unmount, pending state updates are dropped, so `OnResult` changes nothing once
  `mounted` is false.
- JSON encoding: the slot stores the list of strings itself.
- Malformed stored text, where `JSON.parse` throws (src/App.js:24), and storage quota
  failures: host library failures that are not modelled.
- `OnResult` does not say which session delivered the result, because the handler ignores it.
- `TranscriberApp.App.OnEnd` may be called for any created session. The browser only ends
  sessions that were started, so the model allows more end events than can really happen.

## Findings

| source | as written | input that shows it | evidently intended | confidence | as-written member | corrected member |
|---|---|---|---|---|---|---|
| src/App.js:68-75 | `onend` restarts its session when the `isListening` captured by the effect run that created it was true, even after that session has been torn down | toggle on (session 1 starts), toggle off (cleanup stops session 1); the end event of session 1 then calls `start` on it although listening is off | a session that has been torn down never restarts, so stopping really stops (and an unmounted component releases the microphone) | high, not executed | `TranscriberApp.StaleSessionRestart` (with `TranscriberApp.App.OnEnd`) | `TranscriberApp.App.OnEndGuarded` (with `TranscriberApp.GuardedSessionStaysStopped`) |
