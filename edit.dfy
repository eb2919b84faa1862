/**
 Editing a record in its tab: the dirty flag is recomputed against the
 authoritative copy and the tab is shallow-merged into the tab store.
 */
module Edit {
  import opened Types

  /**
   The dirty flag of an edited record. A record without a collection is
   always changed; otherwise it is changed unless the authoritative copy
   exists and equals it. A collection without a record dictionary counts as
   a missing authoritative copy (see `IsChangedAsWritten` for what the
   source does there).
   */
  function IsChanged(records: map<Id, map<Id, Record>>, record: Record): (changed: bool)
    ensures record.collectionId == "" ==> changed
    ensures !changed <==>
      && record.collectionId != ""
      && record.collectionId in records
      && record.id in records[record.collectionId]
      && records[record.collectionId][record.id] == record
  {
    if record.collectionId != "" then Lookup(records, record.collectionId, record.id) != Some(record) else true
  }

  /**
   The dirty flag as the source computes it: `None` stands for the
   TypeError thrown when the record names a collection that has no record
   dictionary among the authoritative copies.
   */
  function IsChangedAsWritten(records: map<Id, map<Id, Record>>, record: Record): (r: Option<bool>)
    ensures r.None? <==> record.collectionId != "" && record.collectionId !in records
    ensures r.Some? ==> r.value == IsChanged(records, record)
  {
    if record.collectionId != "" then
      if record.collectionId in records then Some(Lookup(records, record.collectionId, record.id) != Some(record))
      else None
    else Some(true)
  }

  /**
   `{ ...tab, record, isChanged }`: a tab with the given record and flag and
   the other fields of the existing tab; fields of a tab that did not exist
   take their defaults.
   */
  function MergeTab(existing: Option<RecordState>, record: Record, isChanged: bool): (t: RecordState)
    ensures t.record == record && t.isChanged == isChanged
    ensures existing.Some? ==> t == existing.value.(record := record, isChanged := isChanged)
  {
    match existing
    case Some(tab) => tab.(record := record, isChanged := isChanged)
    case None => RecordState(record, isChanged, "", NoConflict, map[], false)
  }

  /** `updateStateRecord`: store the edited record in its tab, keyed by its id. */
  function UpdateStateRecord(s: State, record: Record): (t: State)
    ensures var rs := s.displayRecordsState.recordStates;
            var rs' := t.displayRecordsState.recordStates;
      && rs'.Keys == rs.Keys + {record.id}
      && rs'[record.id].record == record
      && rs'[record.id].isChanged == IsChanged(s.collectionState.collectionsInfo.records, record)
      && (record.id in rs ==>
            && rs'[record.id].name == rs[record.id].name
            && rs'[record.id].conflictType == rs[record.id].conflictType
            && rs'[record.id].parameterStatus == rs[record.id].parameterStatus
            && rs'[record.id].isRequesting == rs[record.id].isRequesting)
      && (forall k :: k in rs && k != record.id ==> rs'[k] == rs[k])
    ensures t.displayRecordsState.recordsOrder == s.displayRecordsState.recordsOrder
    ensures t.displayRecordsState.activeKey == s.displayRecordsState.activeKey
    ensures t == s.(displayRecordsState := t.displayRecordsState)
  {
    var isChanged := IsChanged(s.collectionState.collectionsInfo.records, record);
    var rs := s.displayRecordsState.recordStates;
    var existing := if record.id in rs then Some(rs[record.id]) else None;
    s.(displayRecordsState := s.displayRecordsState.(
      recordStates := rs[record.id := MergeTab(existing, record, isChanged)]))
  }

  /** The fields an edit of the active tab supplies; absent fields keep their value. */
  datatype RecordPatch = RecordPatch(
    id: Option<Id>,
    collectionId: Option<Id>,
    name: Option<string>,
    request: Option<Blob>,
    history: Option<Option<seq<HistoryEntry>>>)

  /** `{ ...record, ...patch }`. */
  function ApplyPatch(r: Record, p: RecordPatch): Record
  {
    Record(
      if p.id.Some? then p.id.value else r.id,
      if p.collectionId.Some? then p.collectionId.value else r.collectionId,
      if p.name.Some? then p.name.value else r.name,
      if p.request.Some? then p.request.value else r.request,
      if p.history.Some? then p.history.value else r.history)
  }

  /**
   The empty patch keeps the record as it is, and spreading the same patch
   a second time changes nothing more.
   */
  lemma PatchIsIdempotent(r: Record, p: RecordPatch)
    ensures ApplyPatch(r, RecordPatch(None, None, None, None, None)) == r
    ensures ApplyPatch(ApplyPatch(r, p), p) == ApplyPatch(r, p)
  {
  }

  /**
   Editing the active tab: the patch is merged onto the active tab's record,
   which is then stored as an ordinary edit. A patch that keeps the id edits
   the active tab itself and opens no new tab.
   */
  function UpdateActiveRecord(s: State, p: RecordPatch): (t: State)
    requires s.displayRecordsState.activeKey in s.displayRecordsState.recordStates
    ensures var d := s.displayRecordsState;
            var active := d.recordStates[d.activeKey];
            var d' := t.displayRecordsState;
      p.id.None? && TabsKeyed(d.recordStates) ==>
        && d'.recordStates.Keys == d.recordStates.Keys
        && d'.recordStates[d.activeKey].record == ApplyPatch(active.record, p)
        && d'.activeKey == d.activeKey
  {
    var d := s.displayRecordsState;
    UpdateStateRecord(s, ApplyPatch(d.recordStates[d.activeKey].record, p))
  }

  /** An edit keeps every tab under its record's id and keeps the tab store valid. */
  lemma EditKeepsTabStore(s: State, record: Record)
    requires TabsKeyed(s.displayRecordsState.recordStates)
    requires TabStoreValid(s.displayRecordsState)
    ensures TabsKeyed(UpdateStateRecord(s, record).displayRecordsState.recordStates)
    ensures TabStoreValid(UpdateStateRecord(s, record).displayRecordsState)
  {
  }

  /**
   Editing a tab back to its authoritative copy clears its dirty flag, and
   editing it away from that copy sets it.
   */
  lemma EditDirtyFlagTracksAuthoritative(s: State, record: Record)
    requires record.collectionId != ""
    requires Lookup(s.collectionState.collectionsInfo.records, record.collectionId, record.id).Some?
    ensures var t := UpdateStateRecord(s, record);
      t.displayRecordsState.recordStates[record.id].isChanged <==>
        record != s.collectionState.collectionsInfo.records[record.collectionId][record.id]
  {
  }

  /**
   Editing is idempotent, and a later edit of the same tab overrides an
   earlier one entirely: only the last edited record and its flag remain.
   */
  lemma {:induction false} EditOverridesEdit(s: State, r1: Record, r2: Record)
    requires r1.id == r2.id
    ensures UpdateStateRecord(UpdateStateRecord(s, r1), r2) == UpdateStateRecord(s, r2)
  {
    var rs := s.displayRecordsState.recordStates;
    var rs1 := UpdateStateRecord(s, r1).displayRecordsState.recordStates;
    var rs2 := UpdateStateRecord(UpdateStateRecord(s, r1), r2).displayRecordsState.recordStates;
    var rs3 := UpdateStateRecord(s, r2).displayRecordsState.recordStates;
    assert rs2.Keys == rs3.Keys;
    forall k | k in rs2 ensures rs2[k] == rs3[k] {
      if k == r2.id {
        if r2.id in rs {
          assert rs1[r1.id] == rs[r1.id].(record := r1, isChanged := rs1[r1.id].isChanged);
        }
      }
    }
    assert rs2 == rs3;
  }
}
