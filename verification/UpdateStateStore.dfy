/** The store that persists one update record under a machine-wide mutex. */
module UpdateStateStores {
  import opened Text
  import opened UpdateRecords

  /** The state file: absent, unreadable, or holding one record. */
  datatype StateFile = Absent | Garbage | Stored(record: Record)
  {
    predicate Readable() {
      Absent? || (Stored? && record.WellFormed())
    }
  }

  const INVALID := "Update state is invalid."

  class UpdateStateStore {
    var file: StateFile

    constructor (file: StateFile)
      ensures this.file == file
    {
      this.file := file;
    }

    method Load() returns (result: Result<Option<Record>>)
      ensures result.Ok? <==> file.Readable()
      ensures result.Ok? ==> (result.value.Some? <==> file.Stored?)
      ensures result.Ok? && result.value.Some? ==> result.value.value == file.record
    {
      match file
      case Absent => result := Ok(None);
      case Garbage => result := Err(INVALID);
      case Stored(r) => result := if r.WellFormed() then Ok(Some(r)) else Err(INVALID);
    }

    /** Writes unless the same update has already ended; the file changes only when it answers true. */
    method Save(state: UpdateState) returns (result: Result<bool>)
      modifies this
      ensures file == SavedFile(old(file), state.Snapshot())
      ensures result.Ok? <==> state.Snapshot().WellFormed() && old(file).Readable()
      ensures result.Ok? ==>
                (result.value <==> !(old(file).Stored? && old(file).record.SameUpdate(state.Snapshot()) && !old(file).record.IsActive()))
    {
      if !state.Snapshot().WellFormed() {
        return Err("Update state is not well formed.");
      }
      var loaded := Load();
      if loaded.Err? {
        return Err(loaded.error);
      }
      if loaded.value.Some? {
        var current := loaded.value.value;
        if current.SameUpdate(state.Snapshot()) && !current.IsActive() {
          return Ok(false);
        }
      }
      file := Stored(state.Snapshot());
      return Ok(true);
    }

    /** Applies a transition to the persisted record, if that record belongs to the update and is still active.
        The transition answers the changed record, or None to decline. */
    method TryTransitionNonTerminal(updateId: string, transition: Record -> Option<Record>)
      returns (result: Result<bool>, current: Option<Record>)
      modifies this
      ensures file == TransitionedFile(old(file), updateId, transition)
      ensures old(file).Readable() ==>
                (result == Ok(true) <==> Applies(old(file), updateId, transition))
      ensures result.Ok? ==> old(file).Readable() && current == Contents(file)
      ensures result.Err? ==> !old(file).Readable() || !WellFormedResult(old(file), updateId, transition)
    {
      var loaded := Load();
      if loaded.Err? {
        return Err(loaded.error), None;
      }
      current := loaded.value;
      if current.None? || !EqualsIgnoreCase(current.value.id.updateId, updateId) || !current.value.IsActive() {
        return Ok(false), current;
      }
      var changed := transition(current.value);
      if changed.None? {
        return Ok(false), current;
      }
      current := changed;
      if !current.value.WellFormed() {
        return Err(INVALID), current;
      }
      file := Stored(current.value);
      result := Ok(true);
    }
  }

  /** The file after Save; a failing or refused Save leaves it alone. */
  function SavedFile(file: StateFile, r: Record): StateFile {
    if !r.WellFormed() || !file.Readable() then file
    else if file.Stored? && file.record.SameUpdate(r) && !file.record.IsActive() then file
    else Stored(r)
  }

  function Contents(file: StateFile): Option<Record> {
    if file.Stored? then Some(file.record) else None
  }

  /** An attempted transition answers a record the store accepts. */
  predicate WellFormedResult(file: StateFile, updateId: string, transition: Record -> Option<Record>) {
    && file.Stored? && EqualsIgnoreCase(file.record.id.updateId, updateId)
    && file.record.IsActive() && transition(file.record).Some?
    ==> transition(file.record).value.WellFormed()
  }

  predicate Applies(file: StateFile, updateId: string, transition: Record -> Option<Record>) {
    && file.Stored? && file.record.WellFormed()
    && EqualsIgnoreCase(file.record.id.updateId, updateId)
    && file.record.IsActive()
    && transition(file.record).Some?
    && transition(file.record).value.WellFormed()
  }

  function TransitionedFile(file: StateFile, updateId: string, transition: Record -> Option<Record>): StateFile {
    if Applies(file, updateId, transition) then Stored(transition(file.record).value) else file
  }

  /** One store operation by anyone: a live runner, a stale copy held by an old runner, or the agent. */
  datatype StoreOp =
    | SaveOp(record: Record)
    | TransitionOp(updateId: string, transition: Record -> Option<Record>)

  function Applied(file: StateFile, op: StoreOp): StateFile {
    match op
    case SaveOp(r) => SavedFile(file, r)
    case TransitionOp(id, f) => TransitionedFile(file, id, f)
  }

  function AppliedAll(file: StateFile, ops: seq<StoreOp>): StateFile
    decreases |ops|
  {
    if ops == [] then file else AppliedAll(Applied(file, ops[0]), ops[1..])
  }

  /** One operation changes an ended record exactly when it saves a well-formed record of another update. */
  lemma EndedRecordChangesOnlyForAnotherUpdate(r: Record, op: StoreOp)
    requires r.WellFormed() && !r.IsActive()
    ensures Applied(Stored(r), op) != Stored(r) <==> op.SaveOp? && op.record.WellFormed() && !r.SameUpdate(op.record)
  {
    if op.SaveOp? && op.record == r {
      assert r.SameUpdate(r);
    }
  }

  /** Terminal is absorbing under every interleaving of live saves, stale saves and transitions. */
  lemma {:induction false} TerminalIsAbsorbing(r: Record, ops: seq<StoreOp>)
    requires r.WellFormed() && !r.IsActive()
    requires forall i :: 0 <= i < |ops| && ops[i].SaveOp? ==> r.SameUpdate(ops[i].record)
    ensures AppliedAll(Stored(r), ops) == Stored(r)
    decreases |ops|
  {
    if ops != [] {
      EndedRecordChangesOnlyForAnotherUpdate(r, ops[0]);
      TerminalIsAbsorbing(r, ops[1..]);
    }
  }

  lemma {:induction false} AppliedAllSplits(file: StateFile, first: seq<StoreOp>, second: seq<StoreOp>)
    ensures AppliedAll(file, first + second) == AppliedAll(AppliedAll(file, first), second)
    decreases |first|
  {
    if first == [] {
      assert first + second == second;
    } else {
      assert (first + second)[1..] == first[1..] + second;
      AppliedAllSplits(Applied(file, first[0]), first[1..], second);
    }
  }

  /** Two readers of one history who both see an ended update see the same ending, while no other update is saved. */
  lemma OneEndingIsObserved(file: StateFile, ops: seq<StoreOp>, i: nat, j: nat)
    requires i <= j <= |ops|
    requires AppliedAll(file, ops[..i]).Stored? && AppliedAll(file, ops[..i]).record.WellFormed()
    requires !AppliedAll(file, ops[..i]).record.IsActive()
    requires forall k :: 0 <= k < |ops| && ops[k].SaveOp? ==> AppliedAll(file, ops[..i]).record.SameUpdate(ops[k].record)
    ensures AppliedAll(file, ops[..j]) == AppliedAll(file, ops[..i])
  {
    assert ops[..j] == ops[..i] + ops[i..j];
    AppliedAllSplits(file, ops[..i], ops[i..j]);
    TerminalIsAbsorbing(AppliedAll(file, ops[..i]).record, ops[i..j]);
  }

  /** A finished record is displaced by a save under another id: the guard looks at one update id only. */
  lemma AnotherUpdateOverwritesAnEndedRecord()
    ensures var ended := Marked(Created("a", "", "1.0", "2.0"), Completed);
            var other := Created("b", "", "2.0", "3.0");
            Applied(Stored(ended), SaveOp(other)) == Stored(other)
  {
    var ended := Marked(Created("a", "", "1.0", "2.0"), Completed);
    var other := Created("b", "", "2.0", "3.0");
    assert !IsWhite("b"[0]) && !IsWhite("a"[0]);
    assert Upper("a")[0] != Upper("b")[0];
  }
}
