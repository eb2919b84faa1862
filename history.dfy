/**
 After a save, save-as or move, the last entry of the saved record's
 version trail is attributed to the current user.
 */
module History {
  import opened Types

  /** The trail with its last entry stamped with `u`. */
  function StampLast(h: seq<HistoryEntry>, u: User): (r: seq<HistoryEntry>)
    requires |h| > 0
    ensures |r| == |h|
    ensures r[|r| - 1].user == u
    ensures r[|r| - 1] == h[|h| - 1].(user := u)
    ensures forall i :: 0 <= i < |h| - 1 ==> r[i] == h[i]
  {
    h[|h| - 1 := h[|h| - 1].(user := u)]
  }

  /** Whether the saved record is among the authoritative copies with a non-empty trail. */
  predicate HasTrail(records: map<Id, map<Id, Record>>, saved: Record) {
    var found := Lookup(records, saved.collectionId, saved.id);
    found.Some? && found.value.history.Some? && |found.value.history.value| > 0
  }

  /**
   The authoritative copies after stamping: only the saved record's last
   trail entry changes, and only when the trail exists and is non-empty.
   */
  function StampRecords(records: map<Id, map<Id, Record>>, saved: Record, u: User): (r: map<Id, map<Id, Record>>)
    ensures !HasTrail(records, saved) ==> r == records
    ensures HasTrail(records, saved) ==>
      var prev: Record := records[saved.collectionId][saved.id];
      var h := prev.history.value;
      && r.Keys == records.Keys
      && r[saved.collectionId].Keys == records[saved.collectionId].Keys
      && r[saved.collectionId][saved.id] == prev.(history := Some(StampLast(h, u)))
      && (forall cid :: cid in records && cid != saved.collectionId ==> r[cid] == records[cid])
      && (forall id :: id in records[saved.collectionId] && id != saved.id ==>
            r[saved.collectionId][id] == records[saved.collectionId][id])
  {
    if HasTrail(records, saved) then
      var dict := records[saved.collectionId];
      var rec := dict[saved.id];
      records[saved.collectionId := dict[saved.id := rec.(history := Some(StampLast(rec.history.value, u)))]]
    else records
  }

  /** The save, save-as and move cases of the reducer. */
  function SaveRecord(s: State, saved: Record): (t: State)
    ensures t.collectionState.collectionsInfo.records ==
      StampRecords(s.collectionState.collectionsInfo.records, saved, s.userState.userInfo)
    ensures t == s.(collectionState := s.collectionState.(collectionsInfo :=
      s.collectionState.collectionsInfo.(records := t.collectionState.collectionsInfo.records)))
  {
    var info := s.collectionState.collectionsInfo;
    s.(collectionState := s.collectionState.(collectionsInfo :=
      info.(records := StampRecords(info.records, saved, s.userState.userInfo))))
  }

  /**
   Stamping twice with the same user is the same as stamping once; the
   trail keeps its length, so the same entry is stamped both times.
   */
  lemma StampIsIdempotent(records: map<Id, map<Id, Record>>, saved: Record, u: User)
    ensures StampRecords(StampRecords(records, saved, u), saved, u) == StampRecords(records, saved, u)
  {
    if HasTrail(records, saved) {
      var once: map<Id, map<Id, Record>> := StampRecords(records, saved, u);
      var prev: Record := records[saved.collectionId][saved.id];
      var h := prev.history.value;
      var rec: Record := once[saved.collectionId][saved.id];
      assert rec.history == Some(StampLast(h, u));
      assert StampLast(StampLast(h, u), u) == StampLast(h, u);
      assert rec.(history := Some(StampLast(rec.history.value, u))) == rec;
      assert once[saved.collectionId][saved.id := rec] == once[saved.collectionId];
      assert once[saved.collectionId := once[saved.collectionId]] == once;
    }
  }
}
