/**
 Concrete scenarios. The first two exhibit inputs on which the source, as
 written, dereferences a missing collection dictionary, and show what the
 model does there instead; the others walk through the reducer's
 documented behaviour on small states.
 */
module Findings {
  import opened Types
  import Edit
  import Sync
  import Prune

  const R1: Record := Record("r1", "c1", "A", Blob([]), None)
  const R1Online: Record := Record("r1", "c1", "B", Blob([]), None)
  const C1: Collection := Collection("c1", "p1", "C")

  /** A state with collection c1 of project p1 holding r1, open in the only tab. */
  function Start(isChanged: bool): (s: State)
    ensures "r1" in s.displayRecordsState.recordStates
  {
    var tab := RecordState(R1, isChanged, "A", NoConflict, map[], false);
    State(
      Blob([]),
      CollectionState(CollectionsInfo(map["c1" := C1], map["c1" := map["r1" := R1]]), "p1", [], Blob([])),
      DisplayRecordsState(map["r1" := tab], ["r1"], "r1"),
      UiState(TimelineState(false, None), Blob([]), Blob([])),
      UserState(NoUser, Blob([])),
      ProjectState("p1", Blob([])),
      EnvironmentState("", Blob([])),
      ScheduleState(Blob([]), "", Blob([])),
      Blob([]))
  }

  /** A sync payload in which collection c1 is gone. */
  const Dropped: CollectionsInfo := CollectionsInfo(map[], map[])

  /** A sync payload in which collection c1 is back, with r1 renamed on the server. */
  const Restored: CollectionsInfo := CollectionsInfo(map["c1" := C1], map["c1" := map["r1" := R1Online]])

  /**
   A sync that drops c1 leaves r1's tab open, flagged deleted. Editing that
   tab then makes the source read a record of a collection dictionary that no
   longer exists: it throws.
   */
  lemma EditAfterDroppedCollectionThrows()
    ensures var s1 := Sync.SyncUserData(Start(false), Some(Dropped));
      && s1.displayRecordsState.recordStates["r1"].conflictType == Delete
      && Edit.IsChangedAsWritten(s1.collectionState.collectionsInfo.records, R1).None?
  {
    var s1 := Sync.SyncUserData(Start(false), Some(Dropped));
    assert !IsNew("r1") by {
      assert !StartsWith("r1", NewRecordFlag);
    }
    assert s1.displayRecordsState.recordStates["r1"] ==
      Sync.SyncTab("r1", Start(false).displayRecordsState.recordStates["r1"], Start(false).collectionState.collectionsInfo.records, Dropped.records);
  }

  /** In the model the same edit is total: the tab is dirty, having no authoritative copy. */
  lemma EditAfterDroppedCollectionIsDirty()
    ensures var s1 := Sync.SyncUserData(Start(false), Some(Dropped));
      var s2 := Edit.UpdateStateRecord(s1, R1);
      && s2.displayRecordsState.recordStates["r1"].isChanged
      && s2.displayRecordsState.recordStates["r1"].conflictType == Delete
  {
    var s1 := Sync.SyncUserData(Start(false), Some(Dropped));
    assert !IsNew("r1") by {
      assert !StartsWith("r1", NewRecordFlag);
    }
    assert s1.displayRecordsState.recordStates["r1"] ==
      Sync.SyncTab("r1", Start(false).displayRecordsState.recordStates["r1"], Start(false).collectionState.collectionsInfo.records, Dropped.records);
  }

  /**
   A collection that disappears in one sync and comes back in the next makes
   the source, classifying r1's tab in the second sync, read the previous
   authoritative copy from a collection dictionary that does not exist: it
   throws, whether the tab was edited or not.
   */
  lemma ResyncAfterDroppedCollectionThrows(isChanged: bool)
    ensures var s1 := Sync.SyncUserData(Start(isChanged), Some(Dropped));
      Sync.SyncTabAsWritten("r1", s1.displayRecordsState.recordStates["r1"],
        s1.collectionState.collectionsInfo.records, Restored.records).None?
  {
    var s1 := Sync.SyncUserData(Start(isChanged), Some(Dropped));
    assert !IsNew("r1") by {
      assert !StartsWith("r1", NewRecordFlag);
    }
    assert s1.displayRecordsState.recordStates["r1"] ==
      Sync.SyncTab("r1", Start(isChanged).displayRecordsState.recordStates["r1"], Start(isChanged).collectionState.collectionsInfo.records, Dropped.records);
  }

  /**
   In the model the second sync classifies the tab: an edited tab gets a
   modify conflict over its delete flag being kept, an unedited one adopts
   the server's copy and name.
   */
  lemma ResyncAfterDroppedCollectionClassifies(isChanged: bool)
    ensures var s1 := Sync.SyncUserData(Start(isChanged), Some(Dropped));
      var s2 := Sync.SyncUserData(s1, Some(Restored));
      var t := s2.displayRecordsState.recordStates["r1"];
      && (isChanged ==> t.conflictType == Modify && t.record == R1)
      && (!isChanged ==> t.record == R1Online && t.name == "B")
  {
    var s0 := Start(isChanged);
    var s1 := Sync.SyncUserData(s0, Some(Dropped));
    assert !IsNew("r1") by {
      assert !StartsWith("r1", NewRecordFlag);
    }
    assert s1.displayRecordsState.recordStates["r1"] ==
      Sync.SyncTab("r1", s0.displayRecordsState.recordStates["r1"], s0.collectionState.collectionsInfo.records, Dropped.records);
    var s2 := Sync.SyncUserData(s1, Some(Restored));
    assert s2.displayRecordsState.recordStates["r1"] ==
      Sync.SyncTab("r1", s1.displayRecordsState.recordStates["r1"], s1.collectionState.collectionsInfo.records, Restored.records);
  }

  /**
   Disbanding the project that owns the collection of the only open tab
   removes the collection and its records and leaves one blank tab, which is
   both the whole tab order and the active tab.
   */
  lemma DisbandLastProjectOpensBlankTab(uid: string)
    ensures var t := Prune.PruneProject(Start(true), "p1", NewRecordState(uid), ["c1"], ["r1"]);
      var blankId := NewRecordState(uid).record.id;
      && t.collectionState.collectionsInfo.collections == map[]
      && t.collectionState.collectionsInfo.records == map[]
      && t.displayRecordsState.recordStates == map[blankId := NewRecordState(uid)]
      && t.displayRecordsState.recordsOrder == [blankId]
      && t.displayRecordsState.activeKey == blankId
  {
    var s := Start(true);
    var blank := NewRecordState(uid);
    Prune.PruneEstablishesTabStore(s, "p1", blank, ["c1"], ["r1"]);
    var cs := Prune.SurvivingCollections(s.collectionState.collectionsInfo.collections, ["c1"], "p1");
    assert cs == map[];
    var live := Prune.LiveTabs(s.displayRecordsState.recordStates, ["r1"], cs);
    assert live == [] by {
      assert forall t :: t in live ==> Prune.Survives(t, cs);
      assert !Prune.Survives(s.displayRecordsState.recordStates["r1"], cs);
    }
  }
}
