/** The App component: its three state variables, the storage slot it mirrors the history
    into, and the recognition sessions its effect creates. Each event handler runs to
    completion before the next one, together with the effects its state change triggers. */
module TranscriberApp {

  import opened Storage
  import opened Transcript
  import opened Recognizer

  class App {
    var isListening: bool
    var transcript: string
    var history: seq<string>
    var stored: Slot
    /** captured[i] is the isListening value seen by the run of the recognition effect that
        created session i; the closures of that session (onend among them) read this value. */
    var captured: seq<bool>
    /** Every start and stop call made on any session, oldest first. */
    var calls: seq<Call>
    /** False once the component has been torn down. */
    var mounted: bool

    /** The latest effect run saw the current flag, and a non-empty history has always
        reached the slot through the auto-save effect. */
    ghost predicate Valid()
      reads this
    {
      |captured| > 0 && captured[|captured| - 1] == isListening &&
      (history != [] ==> stored == Some(history))
    }

    /** The session created by the latest run of the recognition effect. */
    function Current(): nat
      reads this
      requires |captured| > 0
    {
      |captured| - 1
    }

    function View(): Screen
      reads this
    {
      Screen(transcript, history)
    }

    /** The intended behaviour of the recognition lifecycle: the only session the component
        wants running is the current one, and only while mounted and listening. */
    ghost predicate NoStraySession()
      reads this
      requires |captured| > 0
    {
      forall s: nat :: Active(calls, s) <==> mounted && isListening && s == Current()
    }

    /** Mount with the slot as the browser holds it. In the first commit the load effect
        schedules the loaded history, the auto-save effect sees the empty history and skips,
        and the recognition effect creates session 0 and stops it; in the next commit the
        auto-save effect sees the loaded history. */
    constructor (slot: Slot)
      ensures Valid() && NoStraySession() && mounted
      ensures !isListening && transcript == "" && history == Load(slot)
      ensures stored == slot
      ensures captured == [false] && calls == [Stop(0)]
    {
      isListening, transcript, history := false, "", [];
      stored := slot;
      captured, calls := [], [];
      mounted := true;
      new;
      var loaded := Load(stored);
      stored := AutoSave(history, stored);
      captured := [isListening];
      calls := [Launch(0, isListening)];
      history := loaded;
      stored := AutoSave(history, stored);
      LoadThenAutoSave(slot);
    }

    /** The Start/Stop button: flip the flag; the recognition effect then re-runs, its cleanup
        stopping the previous session and its body starting or stopping a new one. */
    method ToggleListening()
      requires Valid() && mounted
      modifies this`isListening, this`captured, this`calls
      ensures Valid()
      ensures isListening == !old(isListening)
      ensures captured == old(captured) + [isListening]
      ensures calls == old(calls) + EffectCalls(old(Current()), Current(), isListening)
      ensures old(NoStraySession()) ==> NoStraySession()
    {
      isListening := !isListening;
      var previous := Current();
      captured := captured + [isListening];
      calls := calls + EffectCalls(previous, Current(), isListening);
      forall s: nat
        ensures Active(calls, s) ==
          if s == Current() then isListening else if s == previous then false else Active(old(calls), s)
      {
        EffectActivity(old(calls), previous, Current(), isListening, s);
      }
    }

    /** onresult, from whichever session delivers it. A final result is appended to the
        history, which triggers the auto-save effect; an interim one only replaces the
        transcript. Once the component is torn down its state updates are dropped. */
    method OnResult(res: RecognitionResult)
      requires Valid()
      modifies this`transcript, this`history, this`stored
      ensures Valid()
      ensures mounted ==> View() == ApplyResult(old(View()), res)
      ensures mounted && res.isFinal ==> stored == AutoSave(history, old(stored)) && Load(stored) == history
      ensures mounted && !res.isFinal ==> stored == old(stored)
      ensures !mounted ==> View() == old(View()) && stored == old(stored)
    {
      if mounted {
        if res.isFinal {
          history := AppendFinal(history, res.text);
          transcript := "";
          stored := AutoSave(history, stored);
        } else {
          transcript := res.text;
        }
      }
    }

    /** onend of a session, as written: it restarts its own session when the flag it captured
        was on, whether or not the session has since been torn down. */
    method OnEnd(session: nat)
      requires Valid() && session < |captured|
      modifies this`calls
      ensures Valid()
      ensures calls == old(calls) + RestartCalls(session, captured[session])
      ensures transcript == old(transcript) && history == old(history)
      ensures session == Current() ==> (|calls| == |old(calls)| + 1 <==> isListening)
    {
      if captured[session] {
        calls := calls + [Start(session)];
      }
    }

    /** onend with the restart limited to a session that has not been torn down: only the
        current session of a mounted component restarts, and only when its flag is on. */
    method OnEndGuarded(session: nat)
      requires Valid() && session < |captured|
      modifies this`calls
      ensures Valid()
      ensures calls == old(calls) + RestartCalls(session, mounted && session == Current() && captured[session])
      ensures transcript == old(transcript) && history == old(history)
      ensures old(NoStraySession()) ==> NoStraySession()
    {
      var restart := mounted && session == Current() && captured[session];
      calls := calls + RestartCalls(session, restart);
      forall s: nat
        ensures Active(calls, s) == if restart && s == session then true else Active(old(calls), s)
      {
        RestartActivity(old(calls), session, restart, s);
      }
    }

    /** Unmount: the cleanup of the last effect run stops the current session. */
    method Unmount()
      requires Valid() && mounted
      modifies this`calls, this`mounted
      ensures Valid() && !mounted
      ensures calls == old(calls) + [Stop(Current())]
      ensures !Active(calls, Current())
      ensures old(NoStraySession()) ==> NoStraySession()
    {
      calls := calls + [Stop(Current())];
      mounted := false;
      forall s: nat
        ensures Active(calls, s) == if s == Current() then false else Active(old(calls), s)
      {
        ActiveAppend(old(calls), Stop(Current()), s);
      }
    }

    /** clearScreen: empty the transcript and the history; the auto-save effect then sees an
        empty history and leaves the slot alone. */
    method ClearScreen()
      requires Valid() && mounted
      modifies this`transcript, this`history, this`stored
      ensures Valid()
      ensures transcript == "" && history == []
      ensures stored == old(stored)
    {
      transcript := "";
      history := [];
      stored := AutoSave(history, stored);
      AutoSaveSkipsEmpty(old(stored), history);
    }

    /** The Save History button: write the current history, even an empty one. */
    method SaveHistory()
      requires Valid() && mounted
      modifies this`stored
      ensures Valid()
      ensures stored == Save(old(stored), history)
      ensures Load(stored) == history
    {
      stored := Save(stored, history);
      SaveLoadRoundTrip(old(stored), history);
    }

    /** The Load History button: replace the history by the stored one; the auto-save effect
        then writes back what was just read, so the slot is unchanged. */
    method LoadHistory()
      requires Valid() && mounted
      modifies this`history, this`stored
      ensures Valid()
      ensures history == Load(old(stored))
      ensures old(stored) == None ==> history == []
      ensures stored == old(stored)
    {
      history := Load(stored);
      stored := AutoSave(history, stored);
      LoadThenAutoSave(old(stored));
    }
  }

  /** Turning listening on and then off, followed by the end event of the session that was
      started and then torn down: the handler as written restarts that session although the
      flag is now off. */
  method StaleSessionRestart() returns (app: App)
    ensures app.Valid() && app.mounted && !app.isListening
    ensures Active(app.calls, 1)
    ensures !app.NoStraySession()
  {
    app := new App(None);
    app.ToggleListening();
    app.ToggleListening();
    assert app.calls == [Stop(0), Stop(0), Start(1), Stop(1), Stop(2)];
    app.OnEnd(1);
    assert app.calls == [Stop(0), Stop(0), Start(1), Stop(1), Stop(2), Start(1)];
    assert Active(app.calls, 1) && app.Current() == 2;
  }

  /** The same events with the guarded handler: no session stays wanted. */
  method GuardedSessionStaysStopped() returns (app: App)
    ensures app.Valid() && app.mounted && !app.isListening
    ensures app.NoStraySession()
    ensures forall s: nat :: !Active(app.calls, s)
  {
    app := new App(None);
    app.ToggleListening();
    app.ToggleListening();
    app.OnEndGuarded(1);
  }

  /** On, off, on with no end event in between leaves exactly one session wanted: the newest. */
  method ToggleThriceScenario() returns (app: App)
    ensures app.Valid() && app.isListening
    ensures forall s: nat :: Active(app.calls, s) <==> s == 3
  {
    app := new App(None);
    app.ToggleListening();
    app.ToggleListening();
    app.ToggleListening();
  }

  /** Empty storage; final "hello"; interim "wor"; final "world"; clear. The clear empties the
      screen but the slot still holds both utterances. */
  method TranscriptScenario() returns (app: App)
    ensures app.Valid() && app.transcript == "" && app.history == []
    ensures app.stored == Some(["hello", "world"])
  {
    app := new App(None);
    assert app.history == [];
    app.OnResult(RecognitionResult("hello", true));
    assert app.history == ["hello"] && app.stored == Some(["hello"]);
    app.OnResult(RecognitionResult("wor", false));
    assert app.transcript == "wor" && app.history == ["hello"];
    app.OnResult(RecognitionResult("world", true));
    assert app.transcript == "" && app.history == ["hello", "world"];
    app.ClearScreen();
  }
}
