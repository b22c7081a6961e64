/**
 * The orchestrator (`IntegrationService`): the per-document delivery sequence
 * `processDeathReview`, the backfill pass, the live pass over the changes
 * feed, and the `initialize`/`start` guards. Delivery, the clock and the
 * connections are inputs; the ledger is the state being threaded through.
 */
module Integration {
  import opened Wrappers
  import opened JsValues
  import opened Documents
  import opened FieldMapping
  import opened Ledger
  import opened CouchDb
  import opened Dhis2

  /** What happened to one document; every failure is caught, none escapes. */
  datatype Outcome =
    | AlreadySynced
    | TransformFailed(transformError: TransformError)
    | DeliveryFailed(postError: PostError)
    | Synced

  /** What the outside world supplies while one document is processed: the clock and the tracker's answer. */
  datatype Moment = Moment(runtime: Runtime, response: SinkResponse)

  /**
   * The result of `processDeathReview`: the ledger afterwards, the outcome, the
   * event produced (handed to `postEvent` by the service, only logged by the
   * dry run), and the ledger states `saveState` wrote, in order.
   */
  datatype Step = Step(state: SyncState, outcome: Outcome, posted: Option<Event>, saves: seq<SyncState>)

  /** The metadata recorded for a delivered event: its id, or "auto-generated", and the import status. */
  function SyncMetadata(event: Event, result: ImportResult): Entry {
    map["dhis2EventId" := Or(event.event, Str("auto-generated")), "dhis2Response" := result.status]
  }

  /** The entry of a document delivered without an event id: "auto-generated", with status "OK". */
  predicate RecordsDelivery(entry: Entry) {
    && "dhis2EventId" in entry && entry["dhis2EventId"] == Str("auto-generated")
    && "dhis2Response" in entry && entry["dhis2Response"] == Str("OK")
  }

  /** Entries already in `before` are still in `after`, unchanged. */
  predicate Preserves(before: SyncState, after: SyncState) {
    forall id :: id in before.syncedDocuments ==>
      id in after.syncedDocuments && after.syncedDocuments[id] == before.syncedDocuments[id]
  }

  /** The cursor and its timestamp are as they were. */
  predicate SameCursor(before: SyncState, after: SyncState) {
    after.lastSeq == before.lastSeq && after.lastSyncTime == before.lastSyncTime
  }

  /** The ledger entry recorded after a successful post, with the cursor moved when `since` is truthy. */
  function Record(st: SyncState, doc: Doc, since: Value, event: Event, result: ImportResult, now: string): (r: Step)
    requires event.event == Undefined && result.status == Str("OK")
    ensures r.outcome == Synced && r.posted == Some(event)
    ensures r.state.syncedDocuments.Keys == st.syncedDocuments.Keys + {doc.id}
    ensures RecordsDelivery(r.state.syncedDocuments[doc.id])
    ensures forall id :: id in st.syncedDocuments && id != doc.id ==> r.state.syncedDocuments[id] == st.syncedDocuments[id]
    ensures r.state.lastSeq == (if Truthy(since) then since else st.lastSeq)
    ensures !Truthy(since) ==> SameCursor(st, r.state)
    ensures |r.saves| == (if Truthy(since) then 2 else 1) && r.saves[|r.saves| - 1] == r.state
    ensures forall i :: 0 <= i < |r.saves| ==> IsDocumentSynced(r.saves[i], doc.id)
    ensures r.saves[0].lastSeq == st.lastSeq
  {
    var metadata := SyncMetadata(event, result);
    assert metadata["dhis2EventId"] == Str("auto-generated") && metadata["dhis2Response"] == Str("OK");
    var marked := MarkDocumentSynced(st, doc.id, metadata, now);
    if Truthy(since) then
      var moved := UpdateLastSeq(marked, since, now);
      Step(moved, Synced, Some(event), [marked, moved])
    else Step(marked, Synced, Some(event), [marked])
  }

  /**
   * `processDeathReview(doc, seq)`, with `since` for `seq`: skip a synced
   * document; otherwise transform, post, and only after the post succeeds
   * record the document and, when `since` is truthy, move the cursor to it. A
   * throw anywhere leaves the ledger as it was.
   */
  function ProcessDeathReview(st: SyncState, doc: Doc, since: Value, cfg: Config, m: Moment): (r: Step)
    ensures r.outcome.AlreadySynced? <==> IsDocumentSynced(st, doc.id)
    ensures r.posted.Some? <==> !IsDocumentSynced(st, doc.id) && TransformToTrackerEvent(doc, cfg, m.runtime).Success?
    ensures r.posted.Some? ==> r.posted.value == TransformToTrackerEvent(doc, cfg, m.runtime).value
    ensures r.outcome.Synced? <==> r.posted.Some? && m.response == Responded(Str("OK"))
    ensures !r.outcome.Synced? ==> r.state == st && r.saves == []
    ensures r.outcome.Synced? ==>
      && r.state.syncedDocuments.Keys == st.syncedDocuments.Keys + {doc.id}
      && RecordsDelivery(r.state.syncedDocuments[doc.id])
    ensures Preserves(st, r.state)
    ensures r.state.lastSeq == (if r.outcome.Synced? && Truthy(since) then since else st.lastSeq)
    ensures !(r.outcome.Synced? && Truthy(since)) ==> SameCursor(st, r.state)
  {
    if IsDocumentSynced(st, doc.id) then Step(st, AlreadySynced, None, [])
    else
      var transformed := TransformToTrackerEvent(doc, cfg, m.runtime);
      if transformed.Failure? then Step(st, TransformFailed(transformed.error), None, [])
      else
        var event := transformed.value;
        EventHeader(doc, cfg, m.runtime);
        var posted := PostEvent(m.response);
        if posted.Failure? then Step(st, DeliveryFailed(posted.error), Some(event), [])
        else Record(st, doc, since, event, posted.value, m.runtime.now)
  }

  /**
   * The ledger is written before the cursor: every state `saveState` writes
   * already records the document, the cursor moves only in the last write, and
   * the last write is the final state. A crash between the writes leaves the
   * document recorded with the old cursor.
   */
  lemma PersistOrder(st: SyncState, doc: Doc, since: Value, cfg: Config, m: Moment)
    ensures var r := ProcessDeathReview(st, doc, since, cfg, m);
      && (r.saves != [] ==> r.saves[|r.saves| - 1] == r.state)
      && (forall i :: 0 <= i < |r.saves| ==> IsDocumentSynced(r.saves[i], doc.id))
      && (forall i :: 0 <= i < |r.saves| - 1 ==> r.saves[i].lastSeq == st.lastSeq)
      && |r.saves| == (if r.outcome.Synced? then (if Truthy(since) then 2 else 1) else 0)
  {
  }

  /**
   * Processing a document a second time, with the ledger from a first pass
   * that delivered it or found it synced, never calls the tracker and
   * changes nothing.
   */
  lemma ProcessIdempotent(st: SyncState, doc: Doc, since: Value, cfg: Config, m1: Moment, m2: Moment)
    ensures var first := ProcessDeathReview(st, doc, since, cfg, m1);
      var again := ProcessDeathReview(first.state, doc, since, cfg, m2);
      (first.outcome.Synced? || first.outcome.AlreadySynced?) ==>
        again.outcome.AlreadySynced? && again.posted == None && again.state == first.state
  {
  }

  predicate NoDuplicates(ids: seq<string>) {
    forall i, j :: 0 <= i < j < |ids| ==> ids[i] != ids[j]
  }

  function Elements(ids: seq<string>): set<string> {
    set id | id in ids
  }

  /** The event a step posted, as a list. */
  function PostedBy(step: Step): seq<Event> {
    if step.posted.Some? then [step.posted.value] else []
  }

  /** The document a step recorded, as a list. */
  function DeliveredBy(step: Step, doc: Doc): seq<string> {
    if step.outcome.Synced? then [doc.id] else []
  }

  // ---------------------------------------------------------------------
  // backfillHistoricalData
  // ---------------------------------------------------------------------

  /**
   * One backfill pass: the ledger afterwards, the `processed` and `skipped`
   * counters, the events posted and the ids recorded, in order.
   */
  datatype BackfillRun = BackfillRun(
    state: SyncState,
    processed: nat,
    skipped: nat,
    posted: seq<Event>,
    delivered: seq<string>)

  /**
   * The backfill loop over `docs`; the `k`-th document overall meets the world
   * `world(k)`. A synced document is skipped; any other goes through
   * `processDeathReview` with a null `seq` and counts as processed whatever
   * its outcome.
   */
  function Backfill(st: SyncState, docs: seq<Doc>, cfg: Config, world: nat -> Moment, k: nat): (r: BackfillRun)
    ensures r.processed + r.skipped == |docs|
    ensures |r.delivered| <= |r.posted| <= r.processed
    ensures SameCursor(st, r.state)
    ensures Preserves(st, r.state)
    ensures r.state.syncedDocuments.Keys == st.syncedDocuments.Keys + Elements(r.delivered)
    decreases |docs|
  {
    if |docs| == 0 then BackfillRun(st, 0, 0, [], [])
    else
      var doc := docs[0];
      assert forall i :: 0 <= i < |docs| - 1 ==> docs[1..][i] == docs[i + 1];
      if IsDocumentSynced(st, doc.id) then
        var rest := Backfill(st, docs[1..], cfg, world, k + 1);
        rest.(skipped := rest.skipped + 1)
      else
        var step := ProcessDeathReview(st, doc, Null, cfg, world(k));
        var rest := Backfill(step.state, docs[1..], cfg, world, k + 1);
        BackfillRun(
          rest.state,
          rest.processed + 1,
          rest.skipped,
          PostedBy(step) + rest.posted,
          DeliveredBy(step, doc) + rest.delivered)
  }

  /** The ids of `docs`, in order. */
  function Ids(docs: seq<Doc>): seq<string> {
    if |docs| == 0 then [] else [docs[0].id] + Ids(docs[1..])
  }

  /** Backfill records only ids the ledger did not hold before, and only ids of the documents it was given. */
  lemma {:induction false} BackfillDeliversFreshIds(st: SyncState, docs: seq<Doc>, cfg: Config, world: nat -> Moment, k: nat)
    ensures forall id :: id in Backfill(st, docs, cfg, world, k).delivered ==> id !in st.syncedDocuments && id in Ids(docs)
    decreases |docs|
  {
    if |docs| > 0 {
      var doc := docs[0];
      if IsDocumentSynced(st, doc.id) {
        BackfillDeliversFreshIds(st, docs[1..], cfg, world, k + 1);
      } else {
        var step := ProcessDeathReview(st, doc, Null, cfg, world(k));
        BackfillDeliversFreshIds(step.state, docs[1..], cfg, world, k + 1);
        assert Ids(docs) == [doc.id] + Ids(docs[1..]);
      }
    }
  }

  /** Backfill records each id at most once. */
  lemma {:induction false} BackfillDeliversOnce(st: SyncState, docs: seq<Doc>, cfg: Config, world: nat -> Moment, k: nat)
    ensures NoDuplicates(Backfill(st, docs, cfg, world, k).delivered)
    decreases |docs|
  {
    if |docs| > 0 {
      var doc := docs[0];
      if IsDocumentSynced(st, doc.id) {
        BackfillDeliversOnce(st, docs[1..], cfg, world, k + 1);
      } else {
        var step := ProcessDeathReview(st, doc, Null, cfg, world(k));
        var rest := Backfill(step.state, docs[1..], cfg, world, k + 1);
        BackfillDeliversOnce(step.state, docs[1..], cfg, world, k + 1);
        if step.outcome.Synced? {
          BackfillDeliversFreshIds(step.state, docs[1..], cfg, world, k + 1);
          NoDuplicatesCons(doc.id, rest.delivered);
        }
      }
    }
  }

  lemma NoDuplicatesCons(id: string, ids: seq<string>)
    requires NoDuplicates(ids) && id !in ids
    ensures NoDuplicates([id] + ids)
  {
    var all := [id] + ids;
    forall i, j | 0 <= i < j < |all|
      ensures all[i] != all[j]
    {
      assert all[j] == ids[j - 1];
      if i > 0 {
        assert all[i] == ids[i - 1];
      }
    }
  }

  /** How many of `docs` the ledger holds already. */
  function SyncedCount(st: SyncState, docs: seq<Doc>): nat {
    if |docs| == 0 then 0
    else (if IsDocumentSynced(st, docs[0].id) then 1 else 0) + SyncedCount(st, docs[1..])
  }

  /** Two ledgers that agree on the ids of `docs` hold as many of them. */
  lemma {:induction false} SyncedCountAgrees(s1: SyncState, s2: SyncState, docs: seq<Doc>)
    requires forall i :: 0 <= i < |docs| ==> (IsDocumentSynced(s1, docs[i].id) <==> IsDocumentSynced(s2, docs[i].id))
    ensures SyncedCount(s1, docs) == SyncedCount(s2, docs)
    decreases |docs|
  {
    if |docs| > 0 {
      assert forall i :: 0 <= i < |docs| - 1 ==> docs[1..][i] == docs[i + 1];
      SyncedCountAgrees(s1, s2, docs[1..]);
    }
  }

  /** `processDeathReview` changes whether an id is synced only for its own document. */
  lemma StepTouchesOnlyItsDocument(st: SyncState, doc: Doc, since: Value, cfg: Config, m: Moment, id: string)
    requires id != doc.id
    ensures IsDocumentSynced(ProcessDeathReview(st, doc, since, cfg, m).state, id) <==> IsDocumentSynced(st, id)
  {
  }

  /**
   * Over documents with distinct ids, the backfill skips exactly the ones the
   * ledger held when it started and counts every other one as processed,
   * whatever its transform or post led to.
   */
  lemma {:induction false} BackfillCounts(st: SyncState, docs: seq<Doc>, cfg: Config, world: nat -> Moment, k: nat)
    requires forall i, j :: 0 <= i < j < |docs| ==> docs[i].id != docs[j].id
    ensures var r := Backfill(st, docs, cfg, world, k);
      r.skipped == SyncedCount(st, docs) && r.processed == |docs| - SyncedCount(st, docs)
    decreases |docs|
  {
    if |docs| > 0 {
      var doc := docs[0];
      var tail := docs[1..];
      assert forall i :: 0 <= i < |tail| ==> tail[i] == docs[i + 1];
      if IsDocumentSynced(st, doc.id) {
        BackfillCounts(st, tail, cfg, world, k + 1);
      } else {
        var step := ProcessDeathReview(st, doc, Null, cfg, world(k));
        forall i | 0 <= i < |tail|
          ensures IsDocumentSynced(step.state, tail[i].id) <==> IsDocumentSynced(st, tail[i].id)
        {
          StepTouchesOnlyItsDocument(st, doc, Null, cfg, world(k), tail[i].id);
        }
        SyncedCountAgrees(step.state, st, tail);
        BackfillCounts(step.state, tail, cfg, world, k + 1);
      }
    }
  }

  /** A backfill over new documents with distinct ids processes every one of them, whatever DHIS2 answers. */
  lemma BackfillProcessesEveryNewDocument(st: SyncState, docs: seq<Doc>, cfg: Config, world: nat -> Moment)
    requires forall i, j :: 0 <= i < j < |docs| ==> docs[i].id != docs[j].id
    requires forall i :: 0 <= i < |docs| ==> !IsDocumentSynced(st, docs[i].id)
    ensures Backfill(st, docs, cfg, world, 0).processed == |docs|
    ensures Backfill(st, docs, cfg, world, 0).skipped == 0
  {
    BackfillCounts(st, docs, cfg, world, 0);
    NoneSyncedCount(st, docs);
  }

  /** A ledger that holds none of `docs` counts none of them. */
  lemma {:induction false} NoneSyncedCount(st: SyncState, docs: seq<Doc>)
    requires forall i :: 0 <= i < |docs| ==> !IsDocumentSynced(st, docs[i].id)
    ensures SyncedCount(st, docs) == 0
    decreases |docs|
  {
    if |docs| > 0 {
      assert forall i :: 0 <= i < |docs| - 1 ==> docs[1..][i] == docs[i + 1];
      NoneSyncedCount(st, docs[1..]);
    }
  }

  /** `backfillHistoricalData(limit)`: a failed view query propagates; otherwise the backfill loop runs. */
  function BackfillHistoricalData(st: SyncState, response: ViewResponse, cfg: Config, world: nat -> Moment): (r: Result<BackfillRun, CouchError>)
    ensures r.Failure? <==> response.ViewFailed?
    ensures r.Failure? ==> r.error == QueryFailed
    ensures r.Success? ==> r.value.processed + r.value.skipped == |response.rows|
    ensures r.Success? ==> SameCursor(st, r.value.state)
  {
    var docs :- GetDocumentsByForm(response);
    Success(Backfill(st, docs, cfg, world, 0))
  }

  /** A backfill over documents that are all synced already skips them all and changes nothing. */
  lemma {:induction false} BackfillIdempotent(st: SyncState, docs: seq<Doc>, cfg: Config, world: nat -> Moment, k: nat)
    requires forall i :: 0 <= i < |docs| ==> IsDocumentSynced(st, docs[i].id)
    ensures var r := Backfill(st, docs, cfg, world, k);
      r.state == st && r.skipped == |docs| && r.processed == 0 && r.posted == []
    decreases |docs|
  {
    if |docs| > 0 {
      assert forall i :: 0 <= i < |docs| - 1 ==> docs[1..][i] == docs[i + 1];
      BackfillIdempotent(st, docs[1..], cfg, world, k + 1);
    }
  }

  /** A second backfill over the same documents never records an id the first one recorded. */
  lemma BackfillRerunNeverRedelivers(st: SyncState, docs: seq<Doc>, cfg: Config, w1: nat -> Moment, w2: nat -> Moment)
    ensures var first := Backfill(st, docs, cfg, w1, 0);
      var second := Backfill(first.state, docs, cfg, w2, 0);
      forall id :: id in second.delivered ==> id !in first.delivered
  {
    BackfillDeliversFreshIds(Backfill(st, docs, cfg, w1, 0).state, docs, cfg, w2, 0);
  }

  // ---------------------------------------------------------------------
  // The live pass: the changes feed calling processDeathReview(doc, seq)
  // ---------------------------------------------------------------------

  /** One pass over a stretch of the changes feed: the ledger afterwards, the events posted and the ids recorded. */
  datatype TailRun = TailRun(state: SyncState, posted: seq<Event>, delivered: seq<string>)

  /** The truthy sequence values of the changes the filter forwards, in feed order. */
  function Cursors(changes: seq<Change>): seq<Value> {
    if |changes| == 0 then []
    else
      var head := Forward(changes[0]);
      (if head.Some? && Truthy(head.value.1) then [head.value.1] else []) + Cursors(changes[1..])
  }

  /**
   * The callback `watchChanges` calls for each forwarded change: it gets the
   * ledger, the document, the change's `seq`, and the position of the change
   * in the feed.
   */
  type Handler = (SyncState, Doc, Value, nat) -> Step

  /** The callback the service registers: `(doc, seq) => processDeathReview(doc, seq)`. */
  function Live(cfg: Config, world: nat -> Moment): Handler {
    (st: SyncState, doc: Doc, since: Value, k: nat) => ProcessDeathReview(st, doc, since, cfg, world(k))
  }

  /**
   * The feed over `changes`, one change after the other, starting at feed
   * position `k`: a change the filter forwards goes to `handle` with its own
   * `seq`; any other change is ignored.
   */
  function Feed(st: SyncState, changes: seq<Change>, handle: Handler, k: nat): (r: TailRun)
    ensures |r.posted| <= |changes| && |r.delivered| <= |changes|
    decreases |changes|
  {
    if |changes| == 0 then TailRun(st, [], [])
    else
      var rest := changes[1..];
      match Forward(changes[0])
      case None => Feed(st, rest, handle, k + 1)
      case Some((doc, since)) =>
        var step := handle(st, doc, since, k);
        var after := Feed(step.state, rest, handle, k + 1);
        TailRun(after.state, PostedBy(step) + after.posted, DeliveredBy(step, doc) + after.delivered)
  }

  /** The service's live pass: the feed with `processDeathReview` as the callback. */
  function Tail(st: SyncState, changes: seq<Change>, cfg: Config, world: nat -> Moment, k: nat): TailRun {
    Feed(st, changes, Live(cfg, world), k)
  }

  /** A pass over `a + b` is a pass over `a` followed by a pass over `b` from where `a` left the ledger. */
  predicate ResumeHolds(st: SyncState, a: seq<Change>, b: seq<Change>, handle: Handler, k: nat) {
    var first := Feed(st, a, handle, k);
    var second := Feed(first.state, b, handle, k + |a|);
    Feed(st, a + b, handle, k) == TailRun(second.state, first.posted + second.posted, first.delivered + second.delivered)
  }

  /** The feed can be cut anywhere, whatever the callback does. */
  lemma {:induction false} FeedResume(st: SyncState, a: seq<Change>, b: seq<Change>, handle: Handler, k: nat)
    ensures ResumeHolds(st, a, b, handle, k)
    decreases |a|
  {
    if |a| == 0 {
      assert a + b == b;
    } else {
      var ab := a + b;
      assert ab[0] == a[0] && ab[1..] == a[1..] + b;
      match Forward(a[0])
      case None =>
        FeedResume(st, a[1..], b, handle, k + 1);
      case Some((doc, since)) =>
        var step := handle(st, doc, since, k);
        FeedResume(step.state, a[1..], b, handle, k + 1);
        var first := Feed(step.state, a[1..], handle, k + 1);
        var second := Feed(first.state, b, handle, k + |a|);
        assert PostedBy(step) + (first.posted + second.posted) == (PostedBy(step) + first.posted) + second.posted;
        assert DeliveredBy(step, doc) + (first.delivered + second.delivered) == (DeliveredBy(step, doc) + first.delivered) + second.delivered;
    }
  }

  /** The live pass posts at most once per forwarded change and records at most once per post. */
  lemma {:induction false} TailCounts(st: SyncState, changes: seq<Change>, cfg: Config, world: nat -> Moment, k: nat)
    ensures var r := Tail(st, changes, cfg, world, k);
      |r.delivered| <= |r.posted| <= |Forwarded(changes)|
    decreases |changes|
  {
    if |changes| > 0 {
      match Forward(changes[0])
      case None =>
        TailCounts(st, changes[1..], cfg, world, k + 1);
      case Some((doc, since)) =>
        var step := ProcessDeathReview(st, doc, since, cfg, world(k));
        TailCounts(step.state, changes[1..], cfg, world, k + 1);
    }
  }

  /** The live pass only adds to the ledger: every entry it held is kept, and it gains exactly the ids recorded. */
  lemma {:induction false} TailKeepsLedger(st: SyncState, changes: seq<Change>, cfg: Config, world: nat -> Moment, k: nat)
    ensures var r := Tail(st, changes, cfg, world, k);
      && Preserves(st, r.state)
      && r.state.syncedDocuments.Keys == st.syncedDocuments.Keys + Elements(r.delivered)
    decreases |changes|
  {
    if |changes| > 0 {
      match Forward(changes[0])
      case None =>
        TailKeepsLedger(st, changes[1..], cfg, world, k + 1);
      case Some((doc, since)) =>
        var step := ProcessDeathReview(st, doc, since, cfg, world(k));
        TailKeepsLedger(step.state, changes[1..], cfg, world, k + 1);
    }
  }

  /** After the live pass the cursor is the old one or the truthy `seq` of a forwarded change. */
  lemma {:induction false} TailCursorFromFeed(st: SyncState, changes: seq<Change>, cfg: Config, world: nat -> Moment, k: nat)
    ensures var r := Tail(st, changes, cfg, world, k);
      r.state.lastSeq == st.lastSeq || r.state.lastSeq in Cursors(changes)
    decreases |changes|
  {
    if |changes| > 0 {
      match Forward(changes[0])
      case None =>
        TailCursorFromFeed(st, changes[1..], cfg, world, k + 1);
      case Some((doc, since)) =>
        var step := ProcessDeathReview(st, doc, since, cfg, world(k));
        TailCursorFromFeed(step.state, changes[1..], cfg, world, k + 1);
    }
  }

  /** After a stretch ending in a forwarded change, the ledger is the one the callback returned for that change. */
  lemma FeedLastStep(st: SyncState, a: seq<Change>, c: Change, handle: Handler, k: nat)
    requires Forward(c).Some?
    ensures var before := Feed(st, a, handle, k);
      Feed(st, a + [c], handle, k).state == handle(before.state, Forward(c).value.0, c.sequence, k + |a|).state
  {
    FeedResume(st, a, [c], handle, k);
    var before := Feed(st, a, handle, k);
    var step := handle(before.state, Forward(c).value.0, c.sequence, k + |a|);
    assert [c][0] == c && [c][1..] == [];
    assert Feed(step.state, [], handle, k + |a| + 1).state == step.state;
    assert Feed(before.state, [c], handle, k + |a|).state == step.state;
  }

  /**
   * Replaying a stretch of the feed whose forwarded documents are all synced
   * already posts nothing and leaves the ledger, cursor included, as it was.
   */
  lemma {:induction false} TailReplayIsNoOp(st: SyncState, changes: seq<Change>, cfg: Config, world: nat -> Moment, k: nat)
    requires forall p :: p in Forwarded(changes) ==> IsDocumentSynced(st, p.0.id)
    ensures var r := Tail(st, changes, cfg, world, k);
      r.state == st && r.posted == [] && r.delivered == []
    decreases |changes|
  {
    if |changes| > 0 {
      match Forward(changes[0])
      case None =>
        assert Forwarded(changes) == Forwarded(changes[1..]);
        TailReplayIsNoOp(st, changes[1..], cfg, world, k + 1);
      case Some((doc, since)) =>
        assert Forwarded(changes) == [(doc, since)] + Forwarded(changes[1..]);
        assert Live(cfg, world)(st, doc, since, k) == ProcessDeathReview(st, doc, since, cfg, world(k));
        TailReplayIsNoOp(st, changes[1..], cfg, world, k + 1);
    }
  }

  /**
   * The cursor follows delivery: when the last change of a stretch is
   * forwarded with a truthy `seq` and its document is delivered, the cursor
   * ends on that `seq`; when its document is not delivered, the cursor is
   * where the rest of the stretch left it.
   */
  lemma TailCursorFollowsLastDelivery(st: SyncState, a: seq<Change>, c: Change, cfg: Config, world: nat -> Moment, k: nat)
    requires Forward(c).Some?
    ensures var before := Tail(st, a, cfg, world, k);
      var step := ProcessDeathReview(before.state, Forward(c).value.0, c.sequence, cfg, world(k + |a|));
      var r := Tail(st, a + [c], cfg, world, k);
      && (step.outcome.Synced? && Truthy(c.sequence) ==> r.state.lastSeq == c.sequence)
      && (!step.outcome.Synced? ==> r.state == before.state)
  {
    FeedLastStep(st, a, c, Live(cfg, world), k);
  }

  /** The live pass records only ids the ledger did not hold before, each of a forwarded document. */
  lemma {:induction false} TailDeliversFreshIds(st: SyncState, changes: seq<Change>, cfg: Config, world: nat -> Moment, k: nat)
    ensures forall id :: id in Tail(st, changes, cfg, world, k).delivered ==>
      id !in st.syncedDocuments && exists p :: p in Forwarded(changes) && p.0.id == id
    decreases |changes|
  {
    if |changes| > 0 {
      match Forward(changes[0])
      case None =>
        assert Forwarded(changes) == Forwarded(changes[1..]);
        assert Tail(st, changes, cfg, world, k) == Tail(st, changes[1..], cfg, world, k + 1);
        TailDeliversFreshIds(st, changes[1..], cfg, world, k + 1);
      case Some((doc, since)) =>
        assert Forwarded(changes) == [(doc, since)] + Forwarded(changes[1..]);
        var step := ProcessDeathReview(st, doc, since, cfg, world(k));
        TailDeliversFreshIds(step.state, changes[1..], cfg, world, k + 1);
        TailKeepsLedger(step.state, changes[1..], cfg, world, k + 1);
    }
  }

  /** The live pass records each id at most once, however often the feed repeats a document. */
  lemma {:induction false} TailDeliversOnce(st: SyncState, changes: seq<Change>, cfg: Config, world: nat -> Moment, k: nat)
    ensures NoDuplicates(Tail(st, changes, cfg, world, k).delivered)
    decreases |changes|
  {
    if |changes| > 0 {
      match Forward(changes[0])
      case None =>
        TailDeliversOnce(st, changes[1..], cfg, world, k + 1);
      case Some((doc, since)) =>
        var step := ProcessDeathReview(st, doc, since, cfg, world(k));
        TailDeliversOnce(step.state, changes[1..], cfg, world, k + 1);
        if step.outcome.Synced? {
          TailDeliversFreshIds(step.state, changes[1..], cfg, world, k + 1);
          NoDuplicatesCons(doc.id, Tail(step.state, changes[1..], cfg, world, k + 1).delivered);
        }
    }
  }

  // ---------------------------------------------------------------------
  // initialize, start and the boot sequence
  // ---------------------------------------------------------------------

  /** How `couchdb.connect()` went: the URL did not parse, the database did not answer `info()`, or it did. */
  datatype CouchConnect = BadUrl | NoAnswer | Answered

  /** The parts of the service its guards read: the ledger, `isRunning`, and whether `couchdb.db` is set. */
  datatype Service = Service(ledger: SyncState, isRunning: bool, hasDatabase: bool)

  /** The errors `initialize`, `backfillHistoricalData` and `start` rethrow. */
  datatype ServiceError =
    | CouchDbUnavailable
    | Dhis2Unavailable
    | BackfillFailed(queryError: CouchError)
    | NotInitialized
    | WatchFailed(watchError: CouchError)

  /** A freshly constructed service around a loaded ledger: not running, no database handle. */
  function NewService(ledger: SyncState): (svc: Service)
    ensures svc.ledger == ledger && !svc.isRunning && !svc.hasDatabase
  {
    Service(ledger, false, false)
  }

  /** The service after `initialize()`, and the error it rethrew, if any. */
  datatype Init = Init(service: Service, error: Option<ServiceError>)

  /**
   * `initialize()`: connect to CouchDB, then test the DHIS2 connection; the
   * service runs only when both answer. The database handle is set before
   * CouchDB is asked for `info()`, so it stays set when that call fails.
   */
  function Initialize(svc: Service, couch: CouchConnect, dhis2Answers: bool): (r: Init)
    ensures r.error.None? <==> couch == Answered && dhis2Answers
    ensures couch != Answered ==> r.error == Some(CouchDbUnavailable)
    ensures couch == Answered && !dhis2Answers ==> r.error == Some(Dhis2Unavailable)
    ensures r.service.isRunning <==> svc.isRunning || r.error.None?
    ensures r.service.hasDatabase <==> svc.hasDatabase || couch != BadUrl
    ensures r.service.ledger == svc.ledger
  {
    var connected := if couch == BadUrl then svc else svc.(hasDatabase := true);
    if couch != Answered then Init(connected, Some(CouchDbUnavailable))
    else if !dhis2Answers then Init(connected, Some(Dhis2Unavailable))
    else Init(connected.(isRunning := true), None)
  }

  /**
   * `start()`: refuses a service that is not running; otherwise opens the
   * changes feed at the ledger's cursor and returns the `since` it opened at.
   */
  function Start(svc: Service): (r: Result<Value, ServiceError>)
    ensures !svc.isRunning ==> r == Failure(NotInitialized)
    ensures r.Success? <==> svc.isRunning && svc.hasDatabase
    ensures svc.isRunning && !svc.hasDatabase ==> r == Failure(WatchFailed(DatabaseNotInitialized))
    ensures r.Success? ==> r.value == (if svc.ledger.lastSeq == Undefined then Str("now") else svc.ledger.lastSeq)
  {
    if !svc.isRunning then Failure(NotInitialized)
    else
      match WatchSince(svc.hasDatabase, GetLastSeq(svc.ledger))
      case Failure(e) => Failure(WatchFailed(e))
      case Success(since) => Success(since)
  }

  /** A running service always has its database handle, so `start` never fails once `initialize` succeeded. */
  predicate Consistent(svc: Service) {
    svc.isRunning ==> svc.hasDatabase
  }

  lemma InitializeKeepsConsistent(svc: Service, couch: CouchConnect, dhis2Answers: bool)
    requires Consistent(svc)
    ensures Consistent(Initialize(svc, couch, dhis2Answers).service)
    ensures Initialize(svc, couch, dhis2Answers).error.None? ==> Start(Initialize(svc, couch, dhis2Answers).service).Success?
  {
  }

  /** What a successful boot leaves: the running service, the backfill pass, and where the feed was opened. */
  datatype Boot = Boot(service: Service, backfill: BackfillRun, since: Value)

  /**
   * The main sequence: `initialize()`, then `backfillHistoricalData(100)`,
   * then `start()`; the first error ends the process. Once `initialize`
   * succeeded the service is running with a database handle, so `start`
   * cannot fail here.
   */
  function BootSequence(ledger: SyncState, couch: CouchConnect, dhis2Answers: bool, view: ViewResponse, cfg: Config, world: nat -> Moment): (r: Result<Boot, ServiceError>)
    ensures r.Success? <==> couch == Answered && dhis2Answers && view.ViewRows?
    ensures couch != Answered ==> r == Failure(CouchDbUnavailable)
    ensures couch == Answered && dhis2Answers && view.ViewFailed? ==> r == Failure(BackfillFailed(QueryFailed))
    ensures r.Success? ==> r.value.service.isRunning && r.value.service.ledger == r.value.backfill.state
  {
    var init := Initialize(NewService(ledger), couch, dhis2Answers);
    if init.error.Some? then Failure(init.error.value)
    else
      match BackfillHistoricalData(init.service.ledger, view, cfg, world)
      case Failure(e) => Failure(BackfillFailed(e))
      case Success(run) =>
        var svc := init.service.(ledger := run.state);
        var started := Start(svc);
        assert started.Success?;
        Success(Boot(svc, run, started.value))
  }

  /**
   * The handoff between backfill and the live feed: backfill never moves the
   * cursor, so the feed opens exactly where the loaded ledger's cursor
   * pointed, or at "now" when it had none, and no feed change is skipped
   * on account of the backfill.
   */
  lemma BootOpensFeedAtLoadedCursor(ledger: SyncState, couch: CouchConnect, dhis2Answers: bool, view: ViewResponse, cfg: Config, world: nat -> Moment)
    requires BootSequence(ledger, couch, dhis2Answers, view, cfg, world).Success?
    ensures var boot := BootSequence(ledger, couch, dhis2Answers, view, cfg, world).value;
      boot.since == (if ledger.lastSeq == Undefined then Str("now") else ledger.lastSeq)
  {
  }
}
