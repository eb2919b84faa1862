/**
 Quitting or disbanding a project: its collections, their authoritative
 records and every tab opened on them are removed, and the tab store is
 repaired so that at least one tab stays open and the active key names an
 open tab.
 */
module Prune {
  import opened Types
  import opened Lodash

  /** The collections that do not belong to project `p`, re-keyed by their ids. */
  function SurvivingCollections(cs: map<Id, Collection>, cks: seq<Id>, p: Id): (r: map<Id, Collection>)
    requires IsEnumeration(cks, cs.Keys)
    ensures CollectionsKeyed(r)
    ensures forall id :: id in r ==> r[id].projectId != p && r[id] in cs.Values
  {
    ValuesOfEnumeration(cs, cks);
    KeyBy(Filter(ValuesOf(cs, cks), (c: Collection) => c.projectId != p), (c: Collection) => c.id)
  }

  /**
   When every collection is stored under its own id, re-keying changes
   nothing: exactly the collections of other projects remain.
   */
  lemma SurvivingCollectionsWhenKeyed(cs: map<Id, Collection>, cks: seq<Id>, p: Id)
    requires IsEnumeration(cks, cs.Keys)
    requires CollectionsKeyed(cs)
    ensures var r := SurvivingCollections(cs, cks, p);
      forall k :: (k in r <==> k in cs && cs[k].projectId != p) && (k in r ==> r[k] == cs[k])
  {
    KeyByOfKeyedValues(cs, cks, (c: Collection) => c.id, (c: Collection) => c.projectId != p);
  }

  /** A tab survives when its record has no collection or its collection survives. */
  predicate Survives(t: RecordState, collections: map<Id, Collection>) {
    t.record.collectionId == "" || t.record.collectionId in collections
  }

  /** The surviving tabs in enumeration order. */
  function LiveTabs(rs: map<Id, RecordState>, ks: seq<Id>, collections: map<Id, Collection>): (live: seq<RecordState>)
    requires IsEnumeration(ks, rs.Keys)
    ensures forall t :: t in live <==> t in rs.Values && Survives(t, collections)
  {
    ValuesOfEnumeration(rs, ks);
    Filter(ValuesOf(rs, ks), (t: RecordState) => Survives(t, collections))
  }

  /** The surviving tabs, re-keyed by their record ids. */
  function SurvivingTabs(rs: map<Id, RecordState>, ks: seq<Id>, collections: map<Id, Collection>): (r: map<Id, RecordState>)
    requires IsEnumeration(ks, rs.Keys)
    ensures TabsKeyed(r)
    ensures forall k :: k in r ==> r[k] in rs.Values && Survives(r[k], collections)
    ensures r == map[] <==> LiveTabs(rs, ks, collections) == []
  {
    var live := LiveTabs(rs, ks, collections);
    var r := KeyBy(live, (t: RecordState) => t.record.id);
    assert live != [] ==> live[0].record.id in r;
    r
  }

  /**
   When every tab is stored under its record's id, re-keying changes
   nothing: exactly the surviving tabs remain, under their old keys.
   */
  lemma SurvivingTabsWhenKeyed(rs: map<Id, RecordState>, ks: seq<Id>, collections: map<Id, Collection>)
    requires IsEnumeration(ks, rs.Keys)
    requires TabsKeyed(rs)
    ensures var r := SurvivingTabs(rs, ks, collections);
      forall k :: (k in r <==> k in rs && Survives(rs[k], collections)) && (k in r ==> r[k] == rs[k])
  {
    var r := SurvivingTabs(rs, ks, collections);
    forall k | k in r ensures k in rs && r[k] == rs[k] && Survives(rs[k], collections) {
      var v := r[k];
      assert v.record.id == k && v in rs.Values && Survives(v, collections);
      KeyedValue(rs, v);
    }
    forall k | k in rs && Survives(rs[k], collections) ensures k in r {
      SurvivingTabIsKept(rs, ks, collections, k);
    }
  }

  /** In a keyed tab store a stored tab is found under its record's id. */
  lemma KeyedValue(rs: map<Id, RecordState>, t: RecordState)
    requires TabsKeyed(rs) && t in rs.Values
    ensures t.record.id in rs && rs[t.record.id] == t
  {
  }

  lemma SurvivingTabIsKept(rs: map<Id, RecordState>, ks: seq<Id>, collections: map<Id, Collection>, k: Id)
    requires IsEnumeration(ks, rs.Keys)
    requires k in rs && Survives(rs[k], collections)
    ensures rs[k].record.id in SurvivingTabs(rs, ks, collections)
  {
    var live := LiveTabs(rs, ks, collections);
    assert rs[k] in live;
    var i :| 0 <= i < |live| && live[i] == rs[k];
    assert live[i].record.id == rs[k].record.id;
  }

  /** The tab order restricted to the tabs that are still open. */
  function SurvivingOrder(order: seq<Id>, rs: map<Id, RecordState>): (r: seq<Id>)
    ensures forall k :: k in r <==> k in order && k in rs
  {
    Filter(order, (k: Id) => k in rs)
  }

  /**
   The cascade for project `p`. `cks` and `ks` are the enumeration orders of
   the collection and tab dictionaries, and `blank` is the fresh tab opened
   when no tab survives.
   */
  function PruneProject(s: State, p: Id, blank: RecordState, cks: seq<Id>, ks: seq<Id>): (t: State)
    requires IsEnumeration(cks, s.collectionState.collectionsInfo.collections.Keys)
    requires IsEnumeration(ks, s.displayRecordsState.recordStates.Keys)
    ensures var info := s.collectionState.collectionsInfo;
            var info' := t.collectionState.collectionsInfo;
      && info'.collections == SurvivingCollections(info.collections, cks, p)
      && info'.records == Pick(info.records, info'.collections.Keys)
    ensures var d := s.displayRecordsState;
            var d' := t.displayRecordsState;
            var live := SurvivingTabs(d.recordStates, ks, t.collectionState.collectionsInfo.collections);
      && (live != map[] ==>
            && d'.recordStates == live
            && d'.recordsOrder == SurvivingOrder(d.recordsOrder, live))
      && (live == map[] ==>
            && d'.recordStates == map[blank.record.id := blank]
            && d'.recordsOrder == [blank.record.id])
      && (d.activeKey in d'.recordStates ==> d'.activeKey == d.activeKey)
    // otherwise the active tab becomes the first surviving tab, or the blank tab when none survives
    ensures var d := s.displayRecordsState;
            var d' := t.displayRecordsState;
            var liveSeq := LiveTabs(d.recordStates, ks, t.collectionState.collectionsInfo.collections);
      d.activeKey !in d'.recordStates ==>
        d'.activeKey == (if liveSeq == [] then blank.record.id else liveSeq[0].record.id)
    ensures t == s.(collectionState := t.collectionState, displayRecordsState := t.displayRecordsState)
    ensures t.collectionState == s.collectionState.(collectionsInfo := t.collectionState.collectionsInfo)
  {
    var info := s.collectionState.collectionsInfo;
    var d := s.displayRecordsState;
    var collections := SurvivingCollections(info.collections, cks, p);
    var records := Pick(info.records, collections.Keys);
    var liveSeq := LiveTabs(d.recordStates, ks, collections);
    var live := SurvivingTabs(d.recordStates, ks, collections);
    var recordStates := if live == map[] then map[blank.record.id := blank] else live;
    var recordsOrder := if live == map[] then [blank.record.id] else SurvivingOrder(d.recordsOrder, live);
    // `_.keys(recordStates)[0]`: the first key inserted, that of the first surviving tab
    var firstKey := if live == map[] then blank.record.id else liveSeq[0].record.id;
    assert firstKey in recordStates;
    var activeKey := if d.activeKey in recordStates then d.activeKey else recordStates[firstKey].record.id;
    s.(collectionState := s.collectionState.(
         collectionsInfo := info.(collections := collections, records := records)),
       displayRecordsState := d.(activeKey := activeKey, recordsOrder := recordsOrder, recordStates := recordStates))
  }

  /**
   Whatever the state before, the cascade leaves at least one open tab, an
   active key naming an open tab and a tab order naming only open tabs.
   */
  lemma PruneEstablishesTabStore(s: State, p: Id, blank: RecordState, cks: seq<Id>, ks: seq<Id>)
    requires IsEnumeration(cks, s.collectionState.collectionsInfo.collections.Keys)
    requires IsEnumeration(ks, s.displayRecordsState.recordStates.Keys)
    ensures TabStoreValid(PruneProject(s, p, blank, cks, ks).displayRecordsState)
    ensures TabsKeyed(PruneProject(s, p, blank, cks, ks).displayRecordsState.recordStates)
  {
  }

  /**
   No collection, authoritative record dictionary or tab of project `p`
   survives: every remaining collection belongs to another project, and
   every remaining tab is unsaved or opened on a remaining collection.
   */
  lemma PruneIsComplete(s: State, p: Id, blank: RecordState, cks: seq<Id>, ks: seq<Id>)
    requires IsEnumeration(cks, s.collectionState.collectionsInfo.collections.Keys)
    requires IsEnumeration(ks, s.displayRecordsState.recordStates.Keys)
    requires blank.record.collectionId == ""
    ensures var t := PruneProject(s, p, blank, cks, ks);
            var info' := t.collectionState.collectionsInfo;
      && (forall cid :: cid in info'.collections ==> info'.collections[cid].projectId != p)
      && (forall cid :: cid in info'.records ==> cid in info'.collections)
      && (forall k :: k in t.displayRecordsState.recordStates ==>
            var cid := t.displayRecordsState.recordStates[k].record.collectionId;
            cid == "" || (cid in info'.collections && info'.collections[cid].projectId != p))
  {
  }

  /**
   When the stores are keyed by their entities' ids, a collection survives
   exactly when it belongs to another project, and a tab survives exactly
   when it has no collection or its collection survives; nothing else is
   removed and nothing is added.
   */
  lemma PruneKeepsExactlyOthers(s: State, p: Id, blank: RecordState, cks: seq<Id>, ks: seq<Id>)
    requires IsEnumeration(cks, s.collectionState.collectionsInfo.collections.Keys)
    requires IsEnumeration(ks, s.displayRecordsState.recordStates.Keys)
    requires CollectionsKeyed(s.collectionState.collectionsInfo.collections)
    requires TabsKeyed(s.displayRecordsState.recordStates)
    requires blank.record.id !in s.displayRecordsState.recordStates
    ensures var t := PruneProject(s, p, blank, cks, ks);
            var cs := s.collectionState.collectionsInfo.collections;
            var rs := s.displayRecordsState.recordStates;
            var cs' := t.collectionState.collectionsInfo.collections;
            var rs' := t.displayRecordsState.recordStates;
      && (forall cid :: cid in cs' <==> cid in cs && cs[cid].projectId != p)
      && (forall k :: k in rs && k in rs' ==> rs'[k] == rs[k])
      && (forall k :: k in rs ==>
            (k in rs' <==>
               rs[k].record.collectionId == "" ||
               (rs[k].record.collectionId in cs && cs[rs[k].record.collectionId].projectId != p)))
  {
    var t := PruneProject(s, p, blank, cks, ks);
    var cs := s.collectionState.collectionsInfo.collections;
    var rs := s.displayRecordsState.recordStates;
    var cs' := t.collectionState.collectionsInfo.collections;
    SurvivingCollectionsWhenKeyed(cs, cks, p);
    SurvivingTabsWhenKeyed(rs, ks, cs');
  }

  /**
   When some tab survives, the new tab order is the old order with the
   removed tabs dropped and the others in their original relative order.
   */
  lemma PruneOrderIsSubsequence(s: State, p: Id, blank: RecordState, cks: seq<Id>, ks: seq<Id>)
    requires IsEnumeration(cks, s.collectionState.collectionsInfo.collections.Keys)
    requires IsEnumeration(ks, s.displayRecordsState.recordStates.Keys)
    ensures var t := PruneProject(s, p, blank, cks, ks);
            var live := SurvivingTabs(s.displayRecordsState.recordStates, ks, t.collectionState.collectionsInfo.collections);
      live != map[] ==> IsSubsequence(t.displayRecordsState.recordsOrder, s.displayRecordsState.recordsOrder)
  {
    var t := PruneProject(s, p, blank, cks, ks);
    var live := SurvivingTabs(s.displayRecordsState.recordStates, ks, t.collectionState.collectionsInfo.collections);
    FilterIsSubsequence(s.displayRecordsState.recordsOrder, (k: Id) => k in live);
  }
}
