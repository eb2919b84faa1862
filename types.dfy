/**
 The whole-state snapshot the reducer works on: the authoritative
 collections and records, the open record tabs, and the sub-states the
 reducer reads or copies. Every entity is an immutable value; the
 reducer builds a new snapshot rather than changing the old one.
 */
module Types {

  datatype Option<+T> = None | Some(value: T)

  /** Ids of records, collections, projects, environments and schedules. */
  type Id = string

  /** Data the reducer never looks into; it is only copied. */
  datatype Blob = Blob(data: seq<int>)

  /** The user stamped on a history entry; `NoUser` when none is recorded yet. */
  datatype User = NoUser | User(id: Id, name: string)

  datatype HistoryEntry = HistoryEntry(id: int, user: User, detail: Blob)

  /**
   A request record. `collectionId` is "" for a record that belongs to no
   collection yet (the source's undefined, null and empty id are all falsy).
   `history` is None when the record carries no version trail at all.
   */
  datatype Record = Record(
    id: Id,
    collectionId: Id,
    name: string,
    request: Blob,
    history: Option<seq<HistoryEntry>>)

  datatype Collection = Collection(id: Id, projectId: Id, name: string)

  datatype ConflictType = NoConflict | Modify | Delete

  /** An open tab: the edited copy of a record plus its editing metadata. */
  datatype RecordState = RecordState(
    record: Record,
    isChanged: bool,
    name: string,
    conflictType: ConflictType,
    parameterStatus: map<string, string>,
    isRequesting: bool)

  datatype DisplayRecordsState = DisplayRecordsState(
    recordStates: map<Id, RecordState>,
    recordsOrder: seq<Id>,
    activeKey: Id)

  /** The authoritative copies: collections by id, and records by collection id then record id. */
  datatype CollectionsInfo = CollectionsInfo(
    collections: map<Id, Collection>,
    records: map<Id, map<Id, Record>>)

  datatype CollectionState = CollectionState(
    collectionsInfo: CollectionsInfo,
    selectedProject: Id,
    openKeys: seq<string>,
    other: Blob)

  datatype TimelineState = TimelineState(isShow: bool, record: Option<Record>)

  datatype UiState = UiState(timelineState: TimelineState, syncState: Blob, other: Blob)

  datatype UserState = UserState(userInfo: User, other: Blob)

  datatype ProjectState = ProjectState(activeProject: Id, other: Blob)

  datatype EnvironmentState = EnvironmentState(activeEnv: Id, other: Blob)

  datatype ScheduleState = ScheduleState(scheduleRecordsInfo: Blob, activeSchedule: Id, other: Blob)

  datatype State = State(
    localDataState: Blob,
    collectionState: CollectionState,
    displayRecordsState: DisplayRecordsState,
    uiState: UiState,
    userState: UserState,
    projectState: ProjectState,
    environmentState: EnvironmentState,
    scheduleState: ScheduleState,
    stressTestState: Blob)

  /** Prefix of the synthetic id of a record that was never saved. */
  const NewRecordFlag: string := "@new@"

  predicate StartsWith(s: string, prefix: string) {
    |prefix| <= |s| && s[..|prefix|] == prefix
  }

  /** A tab key of a record that has no server counterpart yet. */
  predicate IsNew(key: Id) {
    StartsWith(key, NewRecordFlag)
  }

  /**
   A blank tab for a record that was never saved, under the id
   `NewRecordFlag + uid`; the uid is supplied by the caller.
   */
  function NewRecordState(uid: string): (r: RecordState)
    ensures IsNew(r.record.id)
    ensures r.record.collectionId == ""
    ensures !r.isChanged && r.conflictType == NoConflict
  {
    var id := NewRecordFlag + uid;
    assert id[..|NewRecordFlag|] == NewRecordFlag;
    RecordState(Record(id, "", "", Blob([]), None), false, "", NoConflict, map[], false)
  }

  /**
   `records[cid][id]` read as a value that may be absent: absent when the
   collection has no dictionary or the dictionary has no such record.
   */
  function Lookup(records: map<Id, map<Id, Record>>, cid: Id, id: Id): (r: Option<Record>)
    ensures r.Some? <==> cid in records && id in records[cid]
    ensures r.Some? ==> r.value == records[cid][id]
  {
    if cid in records && id in records[cid] then Some(records[cid][id]) else None
  }

  /** Every record is stored under its own collection id and record id. */
  predicate RecordsKeyed(records: map<Id, map<Id, Record>>) {
    forall cid, id :: cid in records && id in records[cid] ==>
      records[cid][id].collectionId == cid && records[cid][id].id == id
  }

  /** Every tab is stored under the id of its record. */
  predicate TabsKeyed(tabs: map<Id, RecordState>) {
    forall k :: k in tabs ==> tabs[k].record.id == k
  }

  /** Every collection is stored under its own id. */
  predicate CollectionsKeyed(cs: map<Id, Collection>) {
    forall k :: k in cs ==> cs[k].id == k
  }

  /**
   The tab-store invariant: at least one tab is open, the active key names
   an open tab, and every id in the tab order names an open tab.
   */
  predicate TabStoreValid(d: DisplayRecordsState) {
    && d.recordStates != map[]
    && d.activeKey in d.recordStates
    && forall k :: k in d.recordsOrder ==> k in d.recordStates
  }
}
