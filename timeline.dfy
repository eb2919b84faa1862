/**
 Showing the version timeline of a record: the collections' record
 dictionaries are scanned in key order for the record id, and the first
 record found, if any, is shown.
 */
module Timeline {
  import opened Types

  /** The record found first when scanning the collections in the order `ckeys`. */
  function FirstMatch(records: map<Id, map<Id, Record>>, ckeys: seq<Id>, id: Id): (r: Option<Record>)
    requires forall c :: c in ckeys ==> c in records
    ensures r.Some? ==> exists i :: 0 <= i < |ckeys| && id in records[ckeys[i]] && r.value == records[ckeys[i]][id]
    ensures |ckeys| > 0 && id in records[ckeys[0]] ==> r == Some(records[ckeys[0]][id])
  {
    if ckeys == [] then None
    else if id in records[ckeys[0]] then Some(records[ckeys[0]][id])
    else FirstMatch(records, ckeys[1..], id)
  }

  /**
   The scan finds nothing exactly when no scanned collection has the id;
   otherwise it finds the record of the first collection that has it.
   */
  lemma {:induction false} FirstMatchIsFirst(records: map<Id, map<Id, Record>>, ckeys: seq<Id>, id: Id)
    requires forall c :: c in ckeys ==> c in records
    ensures FirstMatch(records, ckeys, id).None? <==> forall i :: 0 <= i < |ckeys| ==> id !in records[ckeys[i]]
    ensures FirstMatch(records, ckeys, id).Some? ==>
      exists i :: 0 <= i < |ckeys| && id in records[ckeys[i]] &&
        FirstMatch(records, ckeys, id).value == records[ckeys[i]][id] &&
        forall j :: 0 <= j < i ==> id !in records[ckeys[j]]
  {
    if ckeys != [] && id !in records[ckeys[0]] {
      FirstMatchIsFirst(records, ckeys[1..], id);
      var r := FirstMatch(records, ckeys, id);
      if r.Some? {
        var i :| 0 <= i < |ckeys[1..]| && id in records[ckeys[1..][i]] &&
          r.value == records[ckeys[1..][i]][id] &&
          forall j :: 0 <= j < i ==> id !in records[ckeys[1..][j]];
        assert ckeys[i + 1] == ckeys[1..][i];
        assert forall j :: 1 <= j < i + 1 ==> ckeys[j] == ckeys[1..][j - 1];
      }
      forall i | 0 <= i < |ckeys[1..]| ensures ckeys[1..][i] == ckeys[i + 1] { }
    } else if ckeys != [] {
      assert 0 < |ckeys| && id in records[ckeys[0]];
    }
  }

  /** The scan loop of the show-timeline case, stopping at the first hit. */
  method FindTimelineRecord(records: map<Id, map<Id, Record>>, ckeys: seq<Id>, id: Id) returns (record: Option<Record>)
    requires forall c :: c in ckeys ==> c in records
    ensures record == FirstMatch(records, ckeys, id)
  {
    record := None;
    var i := 0;
    while i < |ckeys|
      invariant 0 <= i <= |ckeys|
      invariant record.None?
      invariant FirstMatch(records, ckeys, id) == FirstMatch(records, ckeys[i..], id)
    {
      var cid := ckeys[i];
      if id in records[cid] {
        record := Some(records[cid][id]);
        break;
      }
      assert ckeys[i..][1..] == ckeys[i + 1..];
      i := i + 1;
    }
  }

  /** The show-timeline case of the reducer for the scan order `ckeys`. */
  function ShowTimeline(s: State, ckeys: seq<Id>, id: Id): (t: State)
    requires forall c :: c in ckeys ==> c in s.collectionState.collectionsInfo.records
    ensures t.uiState.timelineState.isShow
    ensures t.uiState.timelineState.record == FirstMatch(s.collectionState.collectionsInfo.records, ckeys, id)
    ensures t == s.(uiState := s.uiState.(timelineState := t.uiState.timelineState))
  {
    s.(uiState := s.uiState.(timelineState :=
      TimelineState(true, FirstMatch(s.collectionState.collectionsInfo.records, ckeys, id))))
  }
}
