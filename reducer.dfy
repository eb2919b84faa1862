/**
 The cross-slice reducer: one synchronous transition of the whole-state
 snapshot per action, dispatching on the action kind to the routines of
 the other modules. Unknown actions leave the state as it is.
 */
module Reducer {
  import opened Types
  import opened Lodash
  import Edit
  import Prune
  import Sync
  import Restore
  import History
  import Timeline

  datatype Action =
    | SaveRecord(record: Record)
    | SaveAsRecord(record: Record)
    | MoveRecord(record: Record)
    | Reload
    | ShowTimeline(recordId: Id)
    | QuitProject(projectId: Id)
    | DisbandProject(projectId: Id)
    | UpdateDisplayRecordProperty(patch: Edit.RecordPatch)
    | UpdateDisplayRecord(record: Record)
    | FetchLocalDataSuccess(snapshot: Option<State>)
    | SyncUserDataSuccess(collection: Option<CollectionsInfo>)
    | Unhandled

  /** What the source demands before the reducer runs: editing the active tab needs an active tab. */
  predicate Accepts(s: State, a: Action) {
    a.UpdateDisplayRecordProperty? ==> s.displayRecordsState.activeKey in s.displayRecordsState.recordStates
  }

  /**
   The transitions the reducer may take on action `a`, with `uid` the id
   suffix of the blank tab a cascade may open. The enumeration order of a
   dictionary is not modelled, so the show-timeline and cascade cases are
   stated for some enumeration of the dictionaries' keys.
   */
  ghost predicate Step(s: State, a: Action, uid: string, t: State)
    requires Accepts(s, a)
  {
    match a
    case SaveRecord(r) => t == History.SaveRecord(s, r)
    case SaveAsRecord(r) => t == History.SaveRecord(s, r)
    case MoveRecord(r) => t == History.SaveRecord(s, r)
    case Reload => t == s
    case ShowTimeline(id) => TimelineStep(s, id, t)
    case QuitProject(p) => PruneStep(s, p, uid, t)
    case DisbandProject(p) => PruneStep(s, p, uid, t)
    case UpdateDisplayRecordProperty(p) => t == Edit.UpdateActiveRecord(s, p)
    case UpdateDisplayRecord(r) => t == Edit.UpdateStateRecord(s, r)
    case FetchLocalDataSuccess(snap) => t == Restore.FetchLocalData(s, snap)
    case SyncUserDataSuccess(c) => t == Sync.SyncUserData(s, c)
    case Unhandled => t == s
  }

  /** The show-timeline case, for some enumeration of the collection ids. */
  ghost predicate TimelineStep(s: State, id: Id, t: State) {
    exists ck :: IsEnumeration(ck, s.collectionState.collectionsInfo.records.Keys) && t == Timeline.ShowTimeline(s, ck, id)
  }

  /** The quit and disband cases, for some enumeration of the collection ids and of the tab keys. */
  ghost predicate PruneStep(s: State, p: Id, uid: string, t: State) {
    exists cks, ks :: IsEnumeration(cks, s.collectionState.collectionsInfo.collections.Keys) &&
      IsEnumeration(ks, s.displayRecordsState.recordStates.Keys) &&
      t == Prune.PruneProject(s, p, NewRecordState(uid), cks, ks)
  }

  /** `multipleStateReducer`: the next snapshot for action `a`. */
  method MultipleStateReducer(s: State, a: Action, uid: string) returns (t: State)
    requires Accepts(s, a)
    ensures Step(s, a, uid, t)
  {
    var info := s.collectionState.collectionsInfo;
    var d := s.displayRecordsState;
    match a {
      case SaveRecord(r) => t := History.SaveRecord(s, r);
      case SaveAsRecord(r) => t := History.SaveRecord(s, r);
      case MoveRecord(r) => t := History.SaveRecord(s, r);
      case Reload => t := s;
      case ShowTimeline(id) =>
        var ck := Keys(info.records);
        var record := Timeline.FindTimelineRecord(info.records, ck, id);
        t := s.(uiState := s.uiState.(timelineState := TimelineState(true, record)));
        assert t == Timeline.ShowTimeline(s, ck, id);
      case QuitProject(p) =>
        var cks := Keys(info.collections);
        var ks := Keys(d.recordStates);
        t := Prune.PruneProject(s, p, NewRecordState(uid), cks, ks);
      case DisbandProject(p) =>
        var cks := Keys(info.collections);
        var ks := Keys(d.recordStates);
        t := Prune.PruneProject(s, p, NewRecordState(uid), cks, ks);
      case UpdateDisplayRecordProperty(p) => t := Edit.UpdateActiveRecord(s, p);
      case UpdateDisplayRecord(r) => t := Edit.UpdateStateRecord(s, r);
      case FetchLocalDataSuccess(snap) =>
        if snap.None? {
          t := s;
        } else {
          var local := snap.value;
          var restored := Restore.RefreshTabs(local.displayRecordsState.recordStates, info.records);
          t := s.(displayRecordsState := local.displayRecordsState.(recordStates := restored),
                  uiState := local.uiState.(syncState := Restore.SyncDefaultValue),
                  collectionState := s.collectionState.(
                    selectedProject := local.collectionState.selectedProject,
                    openKeys := if |local.collectionState.openKeys| > 0 then local.collectionState.openKeys
                                else s.collectionState.openKeys),
                  projectState := s.projectState.(activeProject := local.projectState.activeProject),
                  environmentState := s.environmentState.(activeEnv := local.environmentState.activeEnv),
                  scheduleState := s.scheduleState.(
                    scheduleRecordsInfo := local.scheduleState.scheduleRecordsInfo,
                    activeSchedule := local.scheduleState.activeSchedule));
          assert t == Restore.FetchLocalData(s, snap);
        }
      case SyncUserDataSuccess(c) =>
        if c.None? {
          t := s;
        } else {
          var classified := Sync.ClassifyTabs(d.recordStates, info.records, c.value.records);
          t := s.(collectionState := s.collectionState.(collectionsInfo := c.value),
                  displayRecordsState := d.(recordStates := classified));
        }
      case Unhandled => t := s;
    }
  }

  /**
   Every transition keeps the tab store valid and every tab keyed by its
   record's id, given a valid restored snapshot and synced payloads that
   store every record under its own collection and id; a cascade
   establishes both whatever the state before.
   */
  lemma StepKeepsTabStore(s: State, a: Action, uid: string, t: State)
    requires Accepts(s, a) && Step(s, a, uid, t)
    requires TabStoreValid(s.displayRecordsState) && TabsKeyed(s.displayRecordsState.recordStates)
    requires RecordsKeyed(s.collectionState.collectionsInfo.records)
    requires a.FetchLocalDataSuccess? && a.snapshot.Some? ==>
      TabStoreValid(a.snapshot.value.displayRecordsState) && TabsKeyed(a.snapshot.value.displayRecordsState.recordStates)
    requires a.SyncUserDataSuccess? && a.collection.Some? ==> RecordsKeyed(a.collection.value.records)
    ensures TabStoreValid(t.displayRecordsState) && TabsKeyed(t.displayRecordsState.recordStates)
  {
    var info := s.collectionState.collectionsInfo;
    match a {
      case QuitProject(p) =>
        var cks, ks :| IsEnumeration(cks, info.collections.Keys) && IsEnumeration(ks, s.displayRecordsState.recordStates.Keys) &&
          t == Prune.PruneProject(s, p, NewRecordState(uid), cks, ks);
        Prune.PruneEstablishesTabStore(s, p, NewRecordState(uid), cks, ks);
      case DisbandProject(p) =>
        var cks, ks :| IsEnumeration(cks, info.collections.Keys) && IsEnumeration(ks, s.displayRecordsState.recordStates.Keys) &&
          t == Prune.PruneProject(s, p, NewRecordState(uid), cks, ks);
        Prune.PruneEstablishesTabStore(s, p, NewRecordState(uid), cks, ks);
      case UpdateDisplayRecordProperty(p) =>
        var d := s.displayRecordsState;
        Edit.EditKeepsTabStore(s, Edit.ApplyPatch(d.recordStates[d.activeKey].record, p));
      case UpdateDisplayRecord(r) => Edit.EditKeepsTabStore(s, r);
      case FetchLocalDataSuccess(snap) =>
        if snap.Some? {
          Restore.RestoreKeepsTabStore(s, snap.value);
          RestoreKeepsTabsKeyed(s, snap.value);
        }
      case SyncUserDataSuccess(c) => Sync.SyncKeepsTabStore(s, c);
      case ShowTimeline(id) =>
      case SaveRecord(r) =>
      case SaveAsRecord(r) =>
      case MoveRecord(r) =>
      case Reload =>
      case Unhandled =>
    }
  }

  lemma RestoreKeepsTabsKeyed(s: State, snap: State)
    requires RecordsKeyed(s.collectionState.collectionsInfo.records)
    requires TabsKeyed(snap.displayRecordsState.recordStates)
    ensures TabsKeyed(Restore.FetchLocalData(s, Some(snap)).displayRecordsState.recordStates)
  {
  }
}
