/**
 Restoring the drafts of a previous session from a local snapshot: the
 snapshot's tabs are refreshed against the current authoritative copies,
 and only a few selectors of the snapshot's other sub-states are carried
 over.
 */
module Restore {
  import opened Types
  import opened Lodash
  import Edit

  /** The sync status every restore starts from. */
  const SyncDefaultValue: Blob := Blob([])

  /**
   One restored tab: its transient status is cleared; when its record still
   exists among the authoritative copies its name is refreshed, and an
   unedited tab also takes the authoritative record.
   */
  function RestoreTab(t: RecordState, online: map<Id, map<Id, Record>>): (r: RecordState)
    ensures r.parameterStatus == map[] && !r.isRequesting
    ensures r.isChanged == t.isChanged && r.conflictType == t.conflictType
    ensures t.isChanged ==> r.record == t.record
    ensures Lookup(online, t.record.collectionId, t.record.id).Some? ==>
      var o := Lookup(online, t.record.collectionId, t.record.id).value;
      r.name == o.name && (!t.isChanged ==> r.record == o)
    ensures Lookup(online, t.record.collectionId, t.record.id).None? ==>
      r.record == t.record && r.name == t.name
  {
    var cleared := t.(parameterStatus := map[], isRequesting := false);
    match Lookup(online, t.record.collectionId, t.record.id)
    case None => cleared
    case Some(o) => if t.isChanged then cleared.(name := o.name) else cleared.(name := o.name, record := o)
  }

  /** Every restored tab refreshed against the same authoritative copies. */
  function RestoreTabs(rs: map<Id, RecordState>, online: map<Id, map<Id, Record>>): (r: map<Id, RecordState>)
    ensures r.Keys == rs.Keys
  {
    map k | k in rs :: RestoreTab(rs[k], online)
  }

  /** The body of the restore loop for one tab. */
  method RefreshTab(tab: RecordState, online: map<Id, map<Id, Record>>) returns (t: RecordState)
    ensures t == RestoreTab(tab, online)
  {
    var isChanged := tab.isChanged;
    var record := tab.record;
    t := tab.(parameterStatus := map[], isRequesting := false);
    if Lookup(online, record.collectionId, record.id).Some? {
      var o := Lookup(online, record.collectionId, record.id).value;
      t := t.(name := o.name);
      if !isChanged {
        t := t.(record := o);
      }
    }
  }

  /** The loop of the restore case: each tab of the snapshot is refreshed in turn. */
  method RefreshTabs(rs: map<Id, RecordState>, online: map<Id, map<Id, Record>>) returns (out: map<Id, RecordState>)
    ensures out == RestoreTabs(rs, online)
  {
    var ks := Keys(rs);
    out := rs;
    for i := 0 to |ks|
      invariant out.Keys == rs.Keys
      invariant forall k :: k in rs ==> out[k] == if k in ks[i..] then rs[k] else RestoreTab(rs[k], online)
    {
      var key := ks[i];
      var t := RefreshTab(out[key], online);
      assert key !in ks[i + 1..];
      out := out[key := t];
    }
  }

  /**
   The restore case of the reducer. No snapshot leaves the state as it is.
   Otherwise the tab store is the snapshot's with every tab refreshed; the
   interface state is the snapshot's with the sync status reset; the open
   tree keys come from the snapshot unless it has none; the selected project,
   active project, active environment, active schedule and schedule run
   information come from the snapshot; everything else is kept.
   */
  function FetchLocalData(s: State, snapshot: Option<State>): (t: State)
    ensures snapshot.None? ==> t == s
    ensures snapshot.Some? ==>
      var snap := snapshot.value;
      && t.displayRecordsState == snap.displayRecordsState.(recordStates :=
           RestoreTabs(snap.displayRecordsState.recordStates, s.collectionState.collectionsInfo.records))
      && t.uiState == snap.uiState.(syncState := SyncDefaultValue)
      && t.collectionState.collectionsInfo == s.collectionState.collectionsInfo
      && t.collectionState.selectedProject == snap.collectionState.selectedProject
      && t.collectionState.openKeys ==
           (if |snap.collectionState.openKeys| > 0 then snap.collectionState.openKeys else s.collectionState.openKeys)
      && t.collectionState.other == s.collectionState.other
      && t.projectState == s.projectState.(activeProject := snap.projectState.activeProject)
      && t.environmentState == s.environmentState.(activeEnv := snap.environmentState.activeEnv)
      && t.scheduleState == s.scheduleState.(scheduleRecordsInfo := snap.scheduleState.scheduleRecordsInfo,
                                             activeSchedule := snap.scheduleState.activeSchedule)
      && t.userState == s.userState && t.localDataState == s.localDataState && t.stressTestState == s.stressTestState
  {
    match snapshot
    case None => s
    case Some(snap) =>
      var d := snap.displayRecordsState;
      s.(displayRecordsState := d.(recordStates := RestoreTabs(d.recordStates, s.collectionState.collectionsInfo.records)),
         uiState := snap.uiState.(syncState := SyncDefaultValue),
         collectionState := s.collectionState.(
           selectedProject := snap.collectionState.selectedProject,
           openKeys := if |snap.collectionState.openKeys| > 0 then snap.collectionState.openKeys else s.collectionState.openKeys),
         projectState := s.projectState.(activeProject := snap.projectState.activeProject),
         environmentState := s.environmentState.(activeEnv := snap.environmentState.activeEnv),
         scheduleState := s.scheduleState.(
           scheduleRecordsInfo := snap.scheduleState.scheduleRecordsInfo,
           activeSchedule := snap.scheduleState.activeSchedule))
  }

  /**
   After a restore, every unedited tab whose record exists among the
   authoritative copies holds exactly that copy, so recomputing its dirty
   flag, as an edit would, finds it clean.
   */
  lemma RestoredUneditedTabsAreClean(s: State, snap: State, k: Id)
    requires RecordsKeyed(s.collectionState.collectionsInfo.records)
    requires k in snap.displayRecordsState.recordStates
    requires var t := snap.displayRecordsState.recordStates[k];
      !t.isChanged && t.record.collectionId != "" &&
      Lookup(s.collectionState.collectionsInfo.records, t.record.collectionId, t.record.id).Some?
    ensures var t' := FetchLocalData(s, Some(snap)).displayRecordsState.recordStates[k];
      !Edit.IsChanged(s.collectionState.collectionsInfo.records, t'.record)
  {
    var records := s.collectionState.collectionsInfo.records;
    var t := snap.displayRecordsState.recordStates[k];
    var o: Record := records[t.record.collectionId][t.record.id];
    assert o.collectionId == t.record.collectionId && o.id == t.record.id;
  }

  /** A restore keeps the snapshot's tab store valid and keyed. */
  lemma RestoreKeepsTabStore(s: State, snap: State)
    requires TabStoreValid(snap.displayRecordsState)
    ensures TabStoreValid(FetchLocalData(s, Some(snap)).displayRecordsState)
  {
  }
}
