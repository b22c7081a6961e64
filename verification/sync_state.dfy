/**
 * The sync ledger (`SyncStateManager`): the set of synced document ids, each
 * with the metadata recorded for it, plus the change-feed cursor `lastSeq` and
 * the time of the last cursor update. The ledger is kept in memory; the clock
 * is a `now` parameter.
 */
module Ledger {
  import opened JsValues

  /** The metadata object stored for a synced document. */
  type Entry = map<string, Value>

  datatype SyncState = SyncState(lastSeq: Value, syncedDocuments: map<string, Entry>, lastSyncTime: Value)

  datatype Stats = Stats(totalSynced: nat, lastSyncTime: Value, lastSeq: Value)

  /** The state a manager starts from when no state file exists. */
  function Initial(): (st: SyncState)
    ensures st.lastSeq == Str("now")
    ensures st.syncedDocuments == map[]
    ensures st.lastSyncTime == Null
  {
    SyncState(Str("now"), map[], Null)
  }

  /** `isDocumentSynced(docId)`: an own key of `syncedDocuments`. */
  predicate IsDocumentSynced(st: SyncState, docId: string) {
    docId in st.syncedDocuments
  }

  /**
   * `markDocumentSynced(docId, metadata)`: stores `{syncedAt: now, ...metadata}`
   * under `docId`, replacing any earlier entry; everything else is kept.
   */
  function MarkDocumentSynced(st: SyncState, docId: string, metadata: Entry, now: string): (r: SyncState)
    ensures IsDocumentSynced(r, docId)
    ensures r.syncedDocuments.Keys == st.syncedDocuments.Keys + {docId}
    ensures forall id :: id in st.syncedDocuments && id != docId ==> r.syncedDocuments[id] == st.syncedDocuments[id]
    ensures r.lastSeq == st.lastSeq && r.lastSyncTime == st.lastSyncTime
    ensures forall k :: k in metadata ==> k in r.syncedDocuments[docId] && r.syncedDocuments[docId][k] == metadata[k]
    ensures r.syncedDocuments[docId].Keys == metadata.Keys + {"syncedAt"}
    ensures "syncedAt" !in metadata ==> r.syncedDocuments[docId]["syncedAt"] == Str(now)
  {
    st.(syncedDocuments := st.syncedDocuments[docId := map["syncedAt" := Str(now)] + metadata])
  }

  /** `updateLastSeq(seq)`: moves the cursor and stamps the sync time; the synced set is kept. */
  function UpdateLastSeq(st: SyncState, cursor: Value, now: string): (r: SyncState)
    ensures r.lastSeq == cursor
    ensures r.lastSyncTime == Str(now)
    ensures r.syncedDocuments == st.syncedDocuments
  {
    st.(lastSeq := cursor, lastSyncTime := Str(now))
  }

  function GetLastSeq(st: SyncState): Value {
    st.lastSeq
  }

  /** `getStats()`: the number of synced ids, the last sync time and the cursor. */
  function GetStats(st: SyncState): (s: Stats)
    ensures s.totalSynced == |st.syncedDocuments.Keys|
    ensures s.lastSeq == GetLastSeq(st)
    ensures s.lastSyncTime == st.lastSyncTime
  {
    Stats(|st.syncedDocuments|, st.lastSyncTime, st.lastSeq)
  }

  /** `clearSyncedDocuments()`: forgets every synced id and keeps the cursor. */
  function ClearSyncedDocuments(st: SyncState): (r: SyncState)
    ensures forall id :: !IsDocumentSynced(r, id)
    ensures r.lastSeq == st.lastSeq && r.lastSyncTime == st.lastSyncTime
  {
    st.(syncedDocuments := map[])
  }

  /**
   * Marking counts a document once: the total grows by one for a new id and
   * stays put for an id already synced, whose entry is replaced, not merged.
   */
  lemma MarkCountsOnce(st: SyncState, docId: string, metadata: Entry, now: string)
    ensures var r := MarkDocumentSynced(st, docId, metadata, now);
      GetStats(r).totalSynced == GetStats(st).totalSynced + (if IsDocumentSynced(st, docId) then 0 else 1)
    ensures IsDocumentSynced(st, docId) ==>
      MarkDocumentSynced(st, docId, metadata, now).syncedDocuments[docId] == map["syncedAt" := Str(now)] + metadata
  {
    var r := MarkDocumentSynced(st, docId, metadata, now);
    if IsDocumentSynced(st, docId) {
      assert r.syncedDocuments.Keys == st.syncedDocuments.Keys;
    } else {
      assert r.syncedDocuments.Keys == st.syncedDocuments.Keys + {docId};
    }
  }

  /** Marking the same id twice in a row leaves the ledger as one marking with the later metadata. */
  lemma MarkTwiceOverwrites(st: SyncState, docId: string, m1: Entry, m2: Entry, now: string)
    ensures MarkDocumentSynced(MarkDocumentSynced(st, docId, m1, now), docId, m2, now) ==
            MarkDocumentSynced(st, docId, m2, now)
  {
  }

  /** Clearing empties the statistics' count but keeps the cursor the statistics report. */
  lemma ClearResetsCount(st: SyncState)
    ensures GetStats(ClearSyncedDocuments(st)).totalSynced == 0
    ensures GetStats(ClearSyncedDocuments(st)).lastSeq == GetStats(st).lastSeq
  {
  }

  /** A cursor update and a marking touch disjoint parts of the state, so they commute. */
  lemma MarkAndUpdateCommute(st: SyncState, docId: string, metadata: Entry, cursor: Value, now: string, later: string)
    ensures UpdateLastSeq(MarkDocumentSynced(st, docId, metadata, now), cursor, later) ==
            MarkDocumentSynced(UpdateLastSeq(st, cursor, later), docId, metadata, now)
  {
  }
}
