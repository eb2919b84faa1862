/**
 Server sync: every open tab that has a server counterpart is compared
 with the freshly synced copy and either flagged as a conflict, silently
 refreshed, or left alone; then the synced payload replaces the
 authoritative copies wholesale.
 */
module Sync {
  import opened Types
  import opened Lodash

  /**
   The classification of one tab under key `key`. `current` holds the
   authoritative copies before the sync and `online` the synced ones. A
   collection without a record dictionary among the current copies counts as
   a missing current copy (see `SyncTabAsWritten` for what the source does).
   */
  function SyncTab(key: Id, t: RecordState, current: map<Id, map<Id, Record>>, online: map<Id, map<Id, Record>>): (r: RecordState)
    ensures var found := Lookup(online, t.record.collectionId, key);
      // unsaved tabs have no server counterpart and are never classified
      && (IsNew(key) ==> r == t)
      // the dirty flag and the transient status are never touched
      && r.isChanged == t.isChanged && r.parameterStatus == t.parameterStatus && r.isRequesting == t.isRequesting
      // local work is never discarded: an edited tab keeps its record and name
      && (t.isChanged ==> r.record == t.record && r.name == t.name)
      // a tab missing from the synced copies is flagged deleted, and only such a tab
      && (!IsNew(key) && found.None? ==> r == t.(conflictType := Delete))
      && (r.conflictType == Delete && t.conflictType != Delete ==> found.None?)
      // a modify conflict is raised exactly on an edited tab, still on the server, whose authoritative copy differs from the synced one
      && (r.conflictType == Modify && t.conflictType != Modify ==>
            !IsNew(key) && t.isChanged && found.Some? && Lookup(current, t.record.collectionId, key) != found)
      && (!IsNew(key) && t.isChanged && found.Some? && Lookup(current, t.record.collectionId, key) != found ==>
            r == t.(conflictType := Modify))
      // a tab whose synced copy equals the authoritative one is left alone
      && (!IsNew(key) && found.Some? && found == Lookup(current, t.record.collectionId, key) ==> r == t)
      // a sync never clears a conflict: the conflict type changes only to delete or modify
      && (r.conflictType != t.conflictType ==> r.conflictType == Delete || r.conflictType == Modify)
      // an unedited tab whose synced copy differs from the authoritative one adopts it, without a new conflict
      && (!IsNew(key) && !t.isChanged && found.Some? && found != Lookup(current, t.record.collectionId, key) ==>
            r == t.(name := found.value.name, record := found.value))
      // the record of a tab changes only by adopting the synced copy
      && (r.record != t.record ==> found == Some(r.record) && r.name == r.record.name)
  {
    if IsNew(key) then t
    else
      var cid := t.record.collectionId;
      match Lookup(online, cid, key)
      case None =>
        if t.conflictType != Delete then t.(conflictType := Delete) else t
      case Some(o) =>
        if t.isChanged then
          if t.conflictType != Modify && Lookup(current, cid, key) != Some(o) then t.(conflictType := Modify) else t
        else if Some(o) != Lookup(current, cid, key) then t.(name := o.name, record := o)
        else t
  }

  /**
   The classification as the source computes it: `None` stands for the
   TypeError thrown when a tab's record is still on the server but its
   collection has no record dictionary among the current copies.
   */
  function SyncTabAsWritten(key: Id, t: RecordState, current: map<Id, map<Id, Record>>, online: map<Id, map<Id, Record>>): (r: Option<RecordState>)
    ensures r.None? <==>
      && !IsNew(key)
      && Lookup(online, t.record.collectionId, key).Some?
      && t.record.collectionId !in current
      && (t.isChanged ==> t.conflictType != Modify)
    ensures r.Some? ==> r.value == SyncTab(key, t, current, online)
  {
    if IsNew(key) then Some(t)
    else
      var cid := t.record.collectionId;
      match Lookup(online, cid, key)
      case None => Some(if t.conflictType != Delete then t.(conflictType := Delete) else t)
      case Some(o) =>
        if t.isChanged then
          if t.conflictType != Modify then
            if cid in current then
              Some(if Lookup(current, cid, key) != Some(o) then t.(conflictType := Modify) else t)
            else None
          else Some(t)
        else if cid in current then
          Some(if Some(o) != Lookup(current, cid, key) then t.(name := o.name, record := o) else t)
        else None
  }

  /** Every tab classified against the same sync. */
  function SyncTabs(rs: map<Id, RecordState>, current: map<Id, map<Id, Record>>, online: map<Id, map<Id, Record>>): (r: map<Id, RecordState>)
    ensures r.Keys == rs.Keys
  {
    map k | k in rs :: SyncTab(k, rs[k], current, online)
  }

  /**
   The sync case of the reducer: no payload leaves the state as it is;
   otherwise every tab is classified and the payload becomes the
   authoritative copies.
   */
  function SyncUserData(s: State, collection: Option<CollectionsInfo>): (t: State)
    ensures collection.None? ==> t == s
    ensures collection.Some? ==>
      && t.collectionState.collectionsInfo == collection.value
      && t.collectionState == s.collectionState.(collectionsInfo := collection.value)
      && t.displayRecordsState.recordStates.Keys == s.displayRecordsState.recordStates.Keys
      && t.displayRecordsState.recordsOrder == s.displayRecordsState.recordsOrder
      && t.displayRecordsState.activeKey == s.displayRecordsState.activeKey
      && t == s.(collectionState := t.collectionState, displayRecordsState := t.displayRecordsState)
  {
    match collection
    case None => s
    case Some(c) =>
      var d := s.displayRecordsState;
      s.(collectionState := s.collectionState.(collectionsInfo := c),
         displayRecordsState := d.(recordStates := SyncTabs(d.recordStates, s.collectionState.collectionsInfo.records, c.records)))
  }

  /**
   The body of the sync loop for one key: the tab as the loop reads it from
   the copy being updated, and the tab it writes back.
   */
  method ClassifyTab(key: Id, t: RecordState, current: map<Id, map<Id, Record>>, online: map<Id, map<Id, Record>>)
    returns (next: RecordState)
    ensures next == SyncTab(key, t, current, online)
  {
    next := t;
    if !IsNew(key) {
      var cid := t.record.collectionId;
      var isDeleted := Lookup(online, cid, key).None?;
      if isDeleted {
        if t.conflictType != Delete {
          next := t.(conflictType := Delete);
        }
      } else if t.isChanged {
        var o := Lookup(online, cid, key).value;
        if t.conflictType != Modify && Lookup(current, cid, key) != Some(o) {
          next := t.(conflictType := Modify);
        }
      } else {
        var o := Lookup(online, cid, key).value;
        if Some(o) != Lookup(current, cid, key) {
          next := t.(name := o.name, record := o);
        }
      }
    }
  }

  /**
   The loop of the sync case: a copy of the tab dictionary is updated key by
   key, reading each key's conflict type from the copy before writing it.
   */
  method ClassifyTabs(rs: map<Id, RecordState>, current: map<Id, map<Id, Record>>, online: map<Id, map<Id, Record>>)
    returns (out: map<Id, RecordState>)
    ensures out == SyncTabs(rs, current, online)
  {
    var ks := Keys(rs);
    out := rs;
    for i := 0 to |ks|
      invariant out.Keys == rs.Keys
      invariant forall k :: k in rs ==> out[k] == if k in ks[i..] then rs[k] else SyncTab(k, rs[k], current, online)
    {
      var key := ks[i];
      var t := out[key];
      var next := ClassifyTab(key, t, current, online);
      assert key !in ks[i + 1..];
      out := out[key := next];
    }
  }

  /**
   Sync is idempotent: delivering the same payload again changes nothing,
   in particular a deletion or modify conflict is not raised twice, when
   the payload stores every record under its own collection and id.
   */
  lemma {:induction false} SyncIsIdempotent(s: State, c: CollectionsInfo)
    requires RecordsKeyed(c.records)
    ensures SyncUserData(SyncUserData(s, Some(c)), Some(c)) == SyncUserData(s, Some(c))
  {
    var rs := s.displayRecordsState.recordStates;
    var once := SyncTabs(rs, s.collectionState.collectionsInfo.records, c.records);
    var twice := SyncTabs(once, c.records, c.records);
    forall k | k in rs ensures twice[k] == once[k] {
      SyncTabIdempotent(k, rs[k], s.collectionState.collectionsInfo.records, c.records);
    }
    assert twice == once;
  }

  lemma SyncTabIdempotent(key: Id, t: RecordState, current: map<Id, map<Id, Record>>, online: map<Id, map<Id, Record>>)
    requires RecordsKeyed(online)
    ensures var once := SyncTab(key, t, current, online);
      SyncTab(key, once, online, online) == once
  {
  }

  /**
   An edit followed by a sync never loses the edit: whatever the server
   sends, a tab that was edited keeps its edited record.
   */
  lemma SyncKeepsEdits(s: State, c: CollectionsInfo, k: Id)
    requires k in s.displayRecordsState.recordStates && s.displayRecordsState.recordStates[k].isChanged
    ensures var t := SyncUserData(s, Some(c)).displayRecordsState.recordStates;
      t[k].record == s.displayRecordsState.recordStates[k].record && t[k].isChanged
  {
  }

  /** Sync keeps the tab-store invariant and the keying of tabs by record id. */
  lemma SyncKeepsTabStore(s: State, c: Option<CollectionsInfo>)
    requires TabStoreValid(s.displayRecordsState)
    requires c.Some? ==> RecordsKeyed(c.value.records)
    requires TabsKeyed(s.displayRecordsState.recordStates)
    ensures TabStoreValid(SyncUserData(s, c).displayRecordsState)
    ensures TabsKeyed(SyncUserData(s, c).displayRecordsState.recordStates)
  {
  }
}
