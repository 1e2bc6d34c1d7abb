/** The speech-recognition objects seen only through the calls the component makes on them.
    Every run of the recognition effect creates a new object; sessions are numbered by
    creation, the one created at mount being session 0. */
module Recognizer {

  datatype Call = Start(session: nat) | Stop(session: nat)

  /** The call the effect body makes on the session it has just created. */
  function Launch(session: nat, listening: bool): (c: Call)
    ensures c.session == session
    ensures c.Start? <==> listening
  {
    if listening then Start(session) else Stop(session)
  }

  /** One re-run of the recognition effect after the flag changed: the cleanup of the previous
      run stops its session, then the new session is started or stopped by the new flag. */
  function EffectCalls(previous: nat, next: nat, listening: bool): (r: seq<Call>)
    ensures r != [] && r[0] == Stop(previous)
    ensures r[|r| - 1].session == next && (r[|r| - 1].Start? <==> listening)
    ensures forall c :: c in r ==> c.session == previous || c.session == next
  {
    [Stop(previous), Launch(next, listening)]
  }

  /** The calls onend makes on its own session, given the flag it consults. */
  function RestartCalls(session: nat, listening: bool): (r: seq<Call>)
    ensures |r| == if listening then 1 else 0
    ensures forall c :: c in r ==> c == Start(session)
  {
    if listening then [Start(session)] else []
  }

  /** The component wants session s running: the latest call it made on s is a start. */
  predicate Active(log: seq<Call>, s: nat)
    decreases |log|
  {
    if log == [] then false
    else if log[|log| - 1].session == s then log[|log| - 1].Start?
    else Active(log[..|log| - 1], s)
  }

  /** The same notion read off the log by position. */
  ghost predicate LastCallIsStart(log: seq<Call>, s: nat)
  {
    exists i :: 0 <= i < |log| && log[i] == Start(s) &&
      forall j :: i < j < |log| ==> log[j].session != s
  }

  lemma {:induction false} ActiveIffLastCallIsStart(log: seq<Call>, s: nat)
    ensures Active(log, s) <==> LastCallIsStart(log, s)
    decreases |log|
  {
    if log != [] {
      var n := |log| - 1;
      var front := log[..n];
      ActiveIffLastCallIsStart(front, s);
      if log[n].session == s {
        if log[n].Start? {
          assert log[n] == Start(s);
          assert LastCallIsStart(log, s);
        }
      } else {
        if Active(front, s) {
          var i :| 0 <= i < |front| && front[i] == Start(s) &&
            forall j :: i < j < |front| ==> front[j].session != s;
          assert log[i] == front[i];
          assert forall j :: i < j < |log| ==> log[j].session != s by {
            forall j | i < j < |log| ensures log[j].session != s {
              if j < n { assert log[j] == front[j]; }
            }
          }
        }
        if LastCallIsStart(log, s) {
          var i :| 0 <= i < |log| && log[i] == Start(s) &&
            forall j :: i < j < |log| ==> log[j].session != s;
          assert i < n;
          assert front[i] == Start(s);
          assert forall j :: i < j < |front| ==> front[j].session != s by {
            forall j | i < j < |front| ensures front[j].session != s {
              assert front[j] == log[j];
            }
          }
          assert LastCallIsStart(front, s);
        }
      }
    }
  }

  /** A call on one session changes whether that session is wanted and no other. */
  lemma ActiveAppend(log: seq<Call>, c: Call, s: nat)
    ensures Active(log + [c], s) == if c.session == s then c.Start? else Active(log, s)
  {
  }

  /** After a re-run of the effect the previous session is not wanted, the new one is exactly
      when the flag is on, and every other session is as it was. */
  lemma EffectActivity(log: seq<Call>, previous: nat, next: nat, listening: bool, s: nat)
    requires previous != next
    ensures Active(log + EffectCalls(previous, next, listening), s) ==
      if s == next then listening
      else if s == previous then false
      else Active(log, s)
  {
    var c1, c2 := Stop(previous), Launch(next, listening);
    assert log + EffectCalls(previous, next, listening) == (log + [c1]) + [c2];
    ActiveAppend(log, c1, s);
    ActiveAppend(log + [c1], c2, s);
  }

  /** A restart of a session makes it wanted and changes no other session. */
  lemma RestartActivity(log: seq<Call>, session: nat, listening: bool, s: nat)
    ensures Active(log + RestartCalls(session, listening), s) ==
      if listening && s == session then true else Active(log, s)
  {
    if listening {
      ActiveAppend(log, Start(session), s);
    } else {
      assert log + RestartCalls(session, listening) == log;
    }
  }
}
