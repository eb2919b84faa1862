# State reconciliation reducer of the Hitchhiker client, in Dafny

This project models `multipleStateReducer` of the Hitchhiker API-testing
client (`client/src/reducer/index.ts`): the reducer that runs after the
per-slice reducers and keeps the slices consistent with each other. It
takes the whole-state snapshot and an action and returns the next snapshot.

The snapshot holds:

- the authoritative copies, `collectionsInfo`: collections keyed by id, and
  records keyed by collection id, then by record id;
- the open record tabs, `displayRecordsState`: a `recordStates` dictionary of
  tabs (`record`, `isChanged`, `name`, `conflictType`, `parameterStatus`,
  `isRequesting`), the tab order `recordsOrder` and the `activeKey`;
- the sub-states the reducer reads or copies: the interface state, the user,
  the project, environment and schedule selectors. What it never looks into is
  an opaque `Blob`.

The reducer's cases, one module each:

- `Edit`: editing a tab (`updateStateRecord`, directly or through the active tab).
  The dirty flag is recomputed against the authoritative copy, then shallow-merged.
- `Sync`: server sync. Each open tab is classified as a delete conflict, a modify
  conflict, a silent refresh, or left alone. Unsaved tabs (ids starting with
  the new-record prefix) are exempt. Then the payload replaces the
  authoritative copies.
- `Prune`: quitting or disbanding a project. The cascade removes the project's
  collections, their records and their tabs. It repairs the tab store so that it
  is never empty and the active key names an open tab.
- `Restore`: restoring drafts from a local snapshot.
- `History`: stamping the last history entry of a saved, saved-as or moved record
  with the current user.
- `Timeline`: the first-match scan of the show-timeline case.
- `Reducer`: the action datatype, the dispatch method `MultipleStateReducer`,
  and the relation `Step` it satisfies.
- `Lodash`: the lodash and object helpers the reducer relies on (key
  enumeration, `filter`, `keyBy`, `pick`).
- `Findings`: concrete scenarios.

The deep-equality helper `CompareUtil.compare` is Dafny's structural equality
on `Record` values. The loops of the source (the sync and restore `forEach`
over the tab keys, the show-timeline `for … break`) are methods with loop
invariants. Each is proved equal to a pure specification function. The
expression-style cases (the edit, the cascade) are functions.

Three behaviours of the code that are easy to misread, and which the model follows:

- A tab is classified as deleted when the *synced* payload lacks its collection
  or record. The previous authoritative copies play no part in that test.
- A restore clears `parameterStatus` and `isRequesting` on every restored tab,
  not only on tabs whose record still exists.
- When the active tab does not survive a cascade, the new active key is not an
  arbitrary one. It is the first key of the re-keyed tab dictionary, which is
  the first surviving tab in enumeration order.

## Model

| member | source | states |
|---|---|---|
| `Types.NewRecordState` | client/src/reducer/index.ts:88 | the blank tab has an unsaved id (starts with the new-record prefix), no collection, is clean and has no conflict |
| `Lodash.Keys` | client/src/reducer/index.ts:73 | `_.keys` lists every key of the dictionary exactly once |
| `Lodash.ValuesOf` | client/src/reducer/index.ts:86 | `_.values` yields the dictionary's values in the order of the key enumeration |
| `Lodash.ValuesOfEnumeration` | client/src/reducer/index.ts:89 | the values taken along an enumeration are exactly the dictionary's values |
| `Lodash.Filter` | client/src/reducer/index.ts:90 | a filter keeps exactly the elements satisfying the predicate, and never grows the list |
| `Lodash.FilterIsSubsequence` | client/src/reducer/index.ts:90 | a filtered list is a subsequence of the original: relative order is preserved |
| `Lodash.KeyBy` | client/src/reducer/index.ts:86 | `_.keyBy` has a key exactly for each element's key, and stores under each key an element of the list carrying that key |
| `Lodash.KeyByOfKeyedValues` | client/src/reducer/index.ts:86-89 | re-keying the filtered values of a dictionary already keyed by its values' ids removes exactly the filtered-out keys and changes nothing else |
| `Lodash.Pick` | client/src/reducer/index.ts:87 | `_.pick` keeps exactly the entries whose key is in the given set, with their values |
| `Edit.IsChanged` | client/src/reducer/index.ts:205-209 | a record without a collection is always dirty; otherwise it is clean iff its authoritative copy exists and equals it |
| `Edit.IsChangedAsWritten` | client/src/reducer/index.ts:207-208 | the source's lookup throws exactly when the record names a collection with no record dictionary; otherwise it agrees with `Edit.IsChanged` |
| `Edit.MergeTab` | client/src/reducer/index.ts:215 | the shallow merge sets `record` and `isChanged` and keeps every other field of an existing tab |
| `Edit.UpdateStateRecord` | client/src/reducer/index.ts:204-218 | an edit adds or replaces exactly the tab under the record's id, with the record, the recomputed dirty flag and the tab's other fields kept; other tabs, order, active key and all other state are unchanged |
| `Edit.PatchIsIdempotent` | client/src/reducer/index.ts:111 | spreading the empty patch keeps the record, and spreading the same patch twice equals spreading it once |
| `Edit.UpdateActiveRecord` | client/src/reducer/index.ts:109-112 | with tabs keyed by record id, a patch that keeps the id edits the active tab itself: no tab is opened, the active key stays, the active tab holds the patched record |
| `Edit.EditKeepsTabStore` | client/src/reducer/index.ts:210-217 | an edit keeps the tab store valid (non-empty, active key and order name open tabs) and every tab keyed by its record id |
| `Edit.EditDirtyFlagTracksAuthoritative` | client/src/reducer/index.ts:204-209 | with an authoritative copy present, the edited tab is dirty iff the edited record differs from that copy |
| `Edit.EditOverridesEdit` | client/src/reducer/index.ts:210-217 | two edits of the same record id in a row equal the second edit alone |
| `Prune.SurvivingCollections` | client/src/reducer/index.ts:86 | the surviving collections all belong to other projects, are keyed by their ids and come from the old collections |
| `Prune.SurvivingCollectionsWhenKeyed` | client/src/reducer/index.ts:86 | when collections are keyed by id, exactly the collections of other projects survive, unchanged |
| `Prune.LiveTabs` | client/src/reducer/index.ts:89 | the surviving tabs are exactly the old tabs that have no collection or whose collection survives |
| `Prune.SurvivingTabs` | client/src/reducer/index.ts:89 | the re-keyed surviving tabs are keyed by record id, all survive, and the dictionary is empty iff no tab survives |
| `Prune.SurvivingTabsWhenKeyed` | client/src/reducer/index.ts:89 | when tabs are keyed by record id, exactly the surviving tabs remain, under their old keys |
| `Prune.SurvivingOrder` | client/src/reducer/index.ts:90 | the new order holds exactly the old order's ids that name a surviving tab |
| `Prune.PruneProject` | client/src/reducer/index.ts:82-107 | the cascade: collections and records are restricted to the survivors; the tabs are the survivors, or one blank tab that is the whole order; the active key is kept if its tab survives, else it is the first surviving tab or the blank tab; nothing else changes |
| `Prune.PruneEstablishesTabStore` | client/src/reducer/index.ts:91-95 | whatever the state before, the cascade leaves a non-empty tab store whose active key and order name open tabs |
| `Prune.PruneIsComplete` | client/src/reducer/index.ts:86-89 | no remaining collection belongs to the removed project, no record dictionary outlives its collection, and no remaining tab refers to a removed collection |
| `Prune.PruneKeepsExactlyOthers` | client/src/reducer/index.ts:86-95 | with keyed stores and a fresh blank id: a collection survives iff it belongs to another project, a tab survives iff it has no collection or a surviving one, and survivors are unchanged |
| `Prune.PruneOrderIsSubsequence` | client/src/reducer/index.ts:90 | when some tab survives, the new order is a subsequence of the old order |
| `Sync.SyncTab` | client/src/reducer/index.ts:171-194 | unsaved tabs are untouched; a tab missing online is flagged delete and kept, and only such a tab gets a new delete flag; an edited tab whose authoritative copy differs from the synced one gets modify, and only such a tab gets a new modify flag; a tab whose synced copy equals the authoritative one is left alone; an unedited tab adopts a differing synced copy and its name; no conflict is ever cleared; edits are never lost; the dirty flag never changes |
| `Sync.SyncTabAsWritten` | client/src/reducer/index.ts:175-189 | the source throws exactly when a non-new tab's record is online but its collection has no dictionary among the previous copies and the previous copy is read; otherwise it agrees with `Sync.SyncTab` |
| `Sync.SyncTabs` | client/src/reducer/index.ts:171 | classification keeps exactly the same tab keys |
| `Sync.SyncUserData` | client/src/reducer/index.ts:164-199 | no payload leaves the state unchanged; otherwise the payload replaces the authoritative copies wholesale, and tab keys, order, active key and all other state stay |
| `Sync.ClassifyTab` | client/src/reducer/index.ts:172-193 | the loop body for one key, reading the conflict type from the copy being updated, writes back exactly that tab's classification |
| `Sync.ClassifyTabs` | client/src/reducer/index.ts:166-194 | the loop over the tab keys, reading each conflict type from the copy it updates, yields exactly the per-tab classification |
| `Sync.SyncIsIdempotent` | client/src/reducer/index.ts:171-198 | delivering the same (keyed) payload twice equals delivering it once: no conflict is raised twice |
| `Sync.SyncTabIdempotent` | client/src/reducer/index.ts:178-192 | classifying an already classified tab against the same payload changes nothing |
| `Sync.SyncKeepsEdits` | client/src/reducer/index.ts:184-187 | a sync never replaces the record of an edited tab, and it stays dirty |
| `Sync.SyncKeepsTabStore` | client/src/reducer/index.ts:195-198 | a sync keeps the tab store valid and the tabs keyed by record id |
| `Restore.RestoreTab` | client/src/reducer/index.ts:125-137 | transient status is cleared; dirty flag and conflict are kept; where the authoritative copy exists its name is taken, and its record only for an unedited tab; otherwise record and name are kept |
| `Restore.RestoreTabs` | client/src/reducer/index.ts:124 | the restore keeps exactly the snapshot's tab keys |
| `Restore.RefreshTab` | client/src/reducer/index.ts:125-137 | the loop body for one tab yields exactly the refreshed tab |
| `Restore.RefreshTabs` | client/src/reducer/index.ts:124-138 | the loop over the snapshot's tab keys yields exactly the per-tab refresh |
| `Restore.FetchLocalData` | client/src/reducer/index.ts:116-162 | a null snapshot is a no-op; otherwise the tabs are the refreshed snapshot tabs, open keys come from the snapshot only if non-empty, the listed selectors come from the snapshot, the rest is kept |
| `Restore.RestoredUneditedTabsAreClean` | client/src/reducer/index.ts:130-135 | an unedited restored tab whose record exists holds the authoritative copy, so its recomputed dirty flag is clean |
| `Restore.RestoreKeepsTabStore` | client/src/reducer/index.ts:140-142 | a valid snapshot tab store stays valid after the restore |
| `History.StampLast` | client/src/reducer/index.ts:62 | only the last history entry changes, and only its user, which becomes the given user |
| `History.StampRecords` | client/src/reducer/index.ts:57-64 | with a non-empty trail only the saved record's last entry is stamped and every other record and dictionary is unchanged; without one nothing changes |
| `History.SaveRecord` | client/src/reducer/index.ts:54-66 | save, save-as and move change only the authoritative records, by stamping with the current user |
| `History.StampIsIdempotent` | client/src/reducer/index.ts:59-63 | stamping twice with the same user equals stamping once |
| `Timeline.FirstMatch` | client/src/reducer/index.ts:72-79 | a found record is the id's record in one of the scanned collections, and a hit in the first scanned collection is returned at once |
| `Timeline.FirstMatchIsFirst` | client/src/reducer/index.ts:72-79 | the scan finds nothing iff no scanned collection has the id; otherwise it returns the record of the first collection that has it |
| `Timeline.FindTimelineRecord` | client/src/reducer/index.ts:72-79 | the loop with `break` returns exactly the first match |
| `Timeline.ShowTimeline` | client/src/reducer/index.ts:71-81 | the timeline is shown with the first match; nothing else changes |
| `Reducer.MultipleStateReducer` | client/src/reducer/index.ts:52-203 | each action kind takes the transition of its case; reload and unknown actions return the state unchanged |
| `Reducer.StepKeepsTabStore` | client/src/reducer/index.ts:82-198 | every transition keeps the tab store valid and keyed, given valid restored snapshots and keyed sync payloads |
| `Reducer.RestoreKeepsTabsKeyed` | client/src/reducer/index.ts:124-138 | refreshing against keyed authoritative copies keeps each tab keyed by its record id |
| `Findings.EditAfterDroppedCollectionThrows` | client/src/reducer/index.ts:208 | after a sync that drops a tab's collection, editing that tab makes the source's lookup throw |
| `Findings.EditAfterDroppedCollectionIsDirty` | client/src/reducer/index.ts:204-209 | in the model the same edit succeeds and marks the tab dirty, keeping its delete flag |
| `Findings.ResyncAfterDroppedCollectionThrows` | client/src/reducer/index.ts:176 | when a dropped collection returns in the next sync, classifying its tab makes the source's lookup throw |
| `Findings.ResyncAfterDroppedCollectionClassifies` | client/src/reducer/index.ts:184-191 | in the model that sync flags an edited tab as modify and keeps its edit, and refreshes an unedited one |
| `Findings.DisbandLastProjectOpensBlankTab` | client/src/reducer/index.ts:84-95 | disbanding the project of the only open tab empties collections and records; one blank tab is the whole order and active |

## Left out

- `rootReducer`, `reduceReducers` and the `combineReducers` wiring (lines 26-50) are left out. The per-slice reducers they call are not part of this model.
- The reload case (lines 67-70) is modelled as returning the state unchanged. `location.reload` is browser I/O.
- `client/src/modules/schedule/index.tsx` is left out. It is a view component and its dispatch plumbing.
- `CompareUtil.compare` is not part of this model. It is Dafny's structural equality on records.
- `getNewRecordState` is not part of this model. `Types.NewRecordState` builds the blank tab from a uid passed in by the caller, in place of the generated one. Fields other than the id, the missing collection and the clean, conflict-free status are placeholders.
- The value of `newRecordFlag` (`common/constants`) is not part of this model. A fixed placeholder prefix stands in for it; only the prefix test matters.
- `syncDefaultValue` (`state/ui`) is not part of this model. A fixed constant stands in for it.
- The enumeration order of JavaScript objects (insertion order, with integer-like keys first) is not modelled. Any duplicate-free enumeration may occur.
- `Reducer.MultipleStateReducer`: for show-timeline and the cascade it promises the result for some enumeration of the dictionary keys, not the one the JavaScript engine uses. Which collection's record the timeline shows, and which tab becomes active, can differ when several qualify.
- `Prune.PruneKeepsExactlyOthers`: requires the blank tab's id to be absent from the old tabs. This stands in for the uniqueness of the generated id, which is not modelled.
- Updates in place are modelled on values:
  - the stamping of `history[last].user` on the shared record object (line 62);
  - the mutation of the snapshot's tab objects during a restore (lines 128-135).
  - So aliasing is not captured: a tab holding the same object as the authoritative copy would also see the stamp in the source.
- The `if (record)` guard of the restore (line 127) is always true in the model. Every modelled tab has a record.
- Editing the active tab (line 111) requires the active key to name an open tab (`Reducer.Accepts`). The source throws otherwise; the model excludes that state by assumption. `Reducer.StepKeepsTabStore` only shows that one step of this reducer preserves the tab-store invariant, given keyed authoritative records, a valid keyed snapshot and a keyed sync payload. The per-slice reducers that run before it and the initial state are not part of this model.
- A shallow merge onto a tab that does not exist (line 215) yields a tab whose other fields take defaults: empty name, no conflict, empty status, not requesting. The source leaves them undefined.
- An absent, null or empty `collectionId` is the empty string. The source's lookup of `records[undefined]` in the sync case becomes a lookup of `records[""]`.
- The lookups that throw in the source when a collection has no record dictionary (lines 176 and 208) are listed under Findings. The rest of the model uses the corrected, total behaviour.

## Findings

| source | as written | input that shows it | evidently intended | confidence | as-written member | corrected member |
|---|---|---|---|---|---|---|
| client/src/reducer/index.ts:208 | `records[record.collectionId][record.id]` is read without checking the collection dictionary | a sync whose payload no longer holds collection c1 leaves r1's tab open, flagged deleted; editing that tab reads `records['c1']['r1']` on a missing dictionary and throws | a missing authoritative collection counts as a missing copy, so the edit marks the tab dirty | medium; not executed | `Edit.IsChangedAsWritten`, `Findings.EditAfterDroppedCollectionThrows` | `Edit.IsChanged`, `Findings.EditAfterDroppedCollectionIsDirty` |
| client/src/reducer/index.ts:176 | `getCurrentRecord` reads the previous authoritative copy without checking the collection dictionary | collection c1 is missing from one sync payload and present again in the next; classifying r1's tab in the second sync reads a missing dictionary and throws, edited or not | a missing previous copy counts as different from the synced one: an edited tab gets a modify conflict, an unedited one adopts the synced copy | medium; not executed | `Sync.SyncTabAsWritten`, `Findings.ResyncAfterDroppedCollectionThrows` | `Sync.SyncTab`, `Findings.ResyncAfterDroppedCollectionClassifies` |
