/** The browser storage slot under the key "transcriptHistory". The JSON text that
    JSON.stringify writes and JSON.parse reads back is abstracted to the list of strings
    itself, so an absent key is None and a present one is Some(history). */
module Storage {

  datatype Option<+T> = None | Some(value: T)

  /** Contents of the one storage slot the component uses. */
  type Slot = Option<seq<string>>

  /** saveTranscriptHistory: overwrite the slot with the given history. The slot's previous
      contents are a parameter only so that "whatever it held" can be stated; the result does
      not depend on them, which is why a second save of the same history changes nothing. */
  function Save(slot: Slot, history: seq<string>): (r: Slot)
    ensures Load(r) == history
  {
    Some(history)
  }

  /** loadTranscriptHistory: the stored history, or the empty list when the key is absent.
      The stored text of any list, "[]" included, is non-empty and so truthy, so a present
      key is always parsed. */
  function Load(slot: Slot): (r: seq<string>)
    ensures slot == None ==> r == []
    ensures slot != None ==> slot == Some(r)
  {
    match slot
    case None => []
    case Some(history) => history
  }

  /** The effect that runs after every change of the history: it saves only a non-empty history. */
  function AutoSave(history: seq<string>, slot: Slot): (r: Slot)
    ensures r == slot <==> history == [] || slot == Some(history)
    ensures history != [] ==> Load(r) == history
  {
    if |history| > 0 then Save(slot, history) else slot
  }

  lemma LoadAbsent()
    ensures Load(None) == []
  {
  }

  lemma SaveLoadRoundTrip(slot: Slot, history: seq<string>)
    ensures Load(Save(slot, history)) == history
  {
  }

  lemma SaveIdempotent(slot: Slot, history: seq<string>)
    ensures Save(Save(slot, history), history) == Save(slot, history)
  {
  }

  /** An empty history never reaches the slot, so stored data survives a clear and the first
      render; a non-empty one leaves the slot as it was only when the slot already held it. */
  lemma AutoSaveSkipsEmpty(slot: Slot, history: seq<string>)
    ensures AutoSave(history, slot) == slot <==> history == [] || slot == Some(history)
  {
  }

  lemma AutoSaveRoundTrip(slot: Slot, history: seq<string>)
    requires history != []
    ensures AutoSave(history, slot) == Some(history)
    ensures Load(AutoSave(history, slot)) == history
  {
  }

  lemma AutoSaveIdempotent(slot: Slot, history: seq<string>)
    ensures AutoSave(history, AutoSave(history, slot)) == AutoSave(history, slot)
  {
  }

  /** Loading the slot and letting the auto-save effect see the loaded history leaves the slot as it was. */
  lemma LoadThenAutoSave(slot: Slot)
    ensures AutoSave(Load(slot), slot) == slot
  {
  }
}
