/**
 * The dry-run service (`TestIntegrationService`): the same transform, but the
 * event is given the id `medic-<document id>` and logged instead of posted,
 * and the ledger records it with a `testMode` flag. `processExisting` runs the
 * documents of the view through it with the cursor value "existing".
 */
module TestMode {
  import opened Wrappers
  import opened JsValues
  import opened Documents
  import opened FieldMapping
  import opened Ledger
  import opened CouchDb
  import Integration
  import Dhis2

  /** The configuration the dry run passes to the transform: no program stage. */
  function TestConfig(program: Value, orgUnit: Value): (cfg: Config)
    ensures cfg.program == program && cfg.orgUnit == orgUnit && cfg.programStage == Undefined
  {
    Config(program, Undefined, orgUnit)
  }

  /** The event id the dry run assigns. */
  function TestEventId(docId: string): string {
    "medic-" + docId
  }

  /** The entry the dry run records for a logged document. */
  predicate RecordsDryRun(entry: Entry, docId: string) {
    && "dhis2EventId" in entry && entry["dhis2EventId"] == Str(TestEventId(docId))
    && "testMode" in entry && entry["testMode"] == Bool(true)
  }

  /**
   * The dry-run `processDeathReview(doc, seq)`: skip a synced document;
   * otherwise transform, set the event id, log it, record the document and
   * move the cursor to `since`, whatever `since` is. A transform that throws
   * leaves the ledger as it was.
   */
  function ProcessDeathReview(st: SyncState, doc: Doc, since: Value, program: Value, orgUnit: Value, rt: Runtime): (r: Integration.Step)
    ensures r.outcome.AlreadySynced? <==> IsDocumentSynced(st, doc.id)
    ensures r.outcome.Synced? <==> !IsDocumentSynced(st, doc.id) && TransformToTrackerEvent(doc, TestConfig(program, orgUnit), rt).Success?
    ensures r.outcome.Synced? || r.outcome.AlreadySynced? || r.outcome.TransformFailed?
    ensures r.posted.Some? <==> r.outcome.Synced?
    ensures r.posted.Some? ==> r.posted.value.event == Str(TestEventId(doc.id))
    ensures !r.outcome.Synced? ==> r.state == st && r.saves == []
    ensures r.outcome.Synced? ==>
      && r.state.syncedDocuments.Keys == st.syncedDocuments.Keys + {doc.id}
      && RecordsDryRun(r.state.syncedDocuments[doc.id], doc.id)
      && r.state.lastSeq == since
    ensures Integration.Preserves(st, r.state)
  {
    if IsDocumentSynced(st, doc.id) then Integration.Step(st, Integration.AlreadySynced, None, [])
    else
      match TransformToTrackerEvent(doc, TestConfig(program, orgUnit), rt)
      case Failure(e) => Integration.Step(st, Integration.TransformFailed(e), None, [])
      case Success(event) =>
        var logged := event.(event := Str(TestEventId(doc.id)));
        var metadata: Entry := map["dhis2EventId" := logged.event, "testMode" := Bool(true)];
        var marked := MarkDocumentSynced(st, doc.id, metadata, rt.now);
        var moved := UpdateLastSeq(marked, since, rt.now);
        Integration.Step(moved, Integration.Synced, Some(logged), [marked, moved])
  }

  /**
   * The dry run logs exactly the event the service would post, apart from
   * the id: same header, same data values, same coordinate.
   */
  lemma DryRunLogsTheProductionEvent(st: SyncState, doc: Doc, since: Value, program: Value, orgUnit: Value, m: Integration.Moment)
    ensures var dry := ProcessDeathReview(st, doc, since, program, orgUnit, m.runtime);
      var live := Integration.ProcessDeathReview(st, doc, since, TestConfig(program, orgUnit), m);
      && (dry.posted.Some? <==> live.posted.Some?)
      && (dry.posted.Some? ==> dry.posted.value == live.posted.value.(event := Str(TestEventId(doc.id))))
  {
  }

  /**
   * Unlike the service, the dry run moves the cursor for every document it
   * logs, even to a falsy `seq`; the service leaves the cursor alone then.
   */
  lemma DryRunMovesCursorOnFalsySeq(st: SyncState, doc: Doc, program: Value, orgUnit: Value, m: Integration.Moment)
    requires !IsDocumentSynced(st, doc.id)
    requires TransformToTrackerEvent(doc, TestConfig(program, orgUnit), m.runtime).Success?
    requires m.response == Dhis2.Responded(Str("OK"))
    requires st.lastSeq != Null
    ensures ProcessDeathReview(st, doc, Null, program, orgUnit, m.runtime).state.lastSeq == Null
    ensures Integration.ProcessDeathReview(st, doc, Null, TestConfig(program, orgUnit), m).state.lastSeq == st.lastSeq
  {
  }

  /** The callback the dry run registers with `watchChanges`. */
  function Live(program: Value, orgUnit: Value, clock: nat -> Runtime): Integration.Handler {
    (st: SyncState, doc: Doc, since: Value, k: nat) => ProcessDeathReview(st, doc, since, program, orgUnit, clock(k))
  }

  /**
   * On the live feed the dry run's cursor follows every logged change: after a
   * stretch ending in a change whose document is logged, the cursor is that
   * change's `seq`, truthy or not; when that last document is skipped or its
   * transform throws, the ledger is the one the earlier changes left.
   */
  lemma DryRunCursorFollowsLastLog(st: SyncState, a: seq<Change>, c: Change, program: Value, orgUnit: Value, clock: nat -> Runtime, k: nat)
    requires Forward(c).Some?
    ensures var before := Integration.Feed(st, a, Live(program, orgUnit, clock), k);
      var step := ProcessDeathReview(before.state, Forward(c).value.0, c.sequence, program, orgUnit, clock(k + |a|));
      var r := Integration.Feed(st, a + [c], Live(program, orgUnit, clock), k);
      && (step.outcome.Synced? ==> r.state.lastSeq == c.sequence)
      && (!step.outcome.Synced? ==> r.state == before.state)
  {
    Integration.FeedLastStep(st, a, c, Live(program, orgUnit, clock), k);
  }

  /** What `processExisting` leaves: the ledger and one outcome per document, in order. */
  datatype ExistingRun = ExistingRun(state: SyncState, outcomes: seq<Integration.Outcome>)

  /** The cursor value `processExisting` passes for every document. */
  const ExistingCursor: Value := Str("existing")

  /** The loop of `processExisting` over `docs`; the `k`-th document overall sees the runtime `clock(k)`. */
  function Existing(st: SyncState, docs: seq<Doc>, program: Value, orgUnit: Value, clock: nat -> Runtime, k: nat): (r: ExistingRun)
    ensures |r.outcomes| == |docs|
    ensures Integration.Preserves(st, r.state)
    ensures r.state.lastSeq == (if Integration.Synced in r.outcomes then ExistingCursor else st.lastSeq)
    decreases |docs|
  {
    if |docs| == 0 then ExistingRun(st, [])
    else
      var step := ProcessDeathReview(st, docs[0], ExistingCursor, program, orgUnit, clock(k));
      var rest := Existing(step.state, docs[1..], program, orgUnit, clock, k + 1);
      ExistingRun(rest.state, [step.outcome] + rest.outcomes)
  }

  /** Every document the ledger already holds is skipped, wherever it sits in the list. */
  lemma {:induction false} ExistingSkipsSynced(st: SyncState, docs: seq<Doc>, program: Value, orgUnit: Value, clock: nat -> Runtime, k: nat)
    ensures var r := Existing(st, docs, program, orgUnit, clock, k);
      forall i :: 0 <= i < |docs| && IsDocumentSynced(st, docs[i].id) ==> r.outcomes[i] == Integration.AlreadySynced
    decreases |docs|
  {
    if |docs| > 0 {
      var step := ProcessDeathReview(st, docs[0], ExistingCursor, program, orgUnit, clock(k));
      ExistingSkipsSynced(step.state, docs[1..], program, orgUnit, clock, k + 1);
      var r := Existing(st, docs, program, orgUnit, clock, k);
      var rest := Existing(step.state, docs[1..], program, orgUnit, clock, k + 1);
      forall i | 0 < i < |docs| && IsDocumentSynced(st, docs[i].id)
        ensures r.outcomes[i] == Integration.AlreadySynced
      {
        assert docs[1..][i - 1] == docs[i];
        assert r.outcomes[i] == rest.outcomes[i - 1];
      }
    }
  }

  /** One dry-run step adds no id to the ledger but its own document's, and that only when it records it. */
  lemma DryRunAddsOnlyItsDocument(st: SyncState, doc: Doc, since: Value, program: Value, orgUnit: Value, rt: Runtime)
    ensures var step := ProcessDeathReview(st, doc, since, program, orgUnit, rt);
      forall id :: id in step.state.syncedDocuments && id !in st.syncedDocuments ==> id == doc.id && step.outcome == Integration.Synced
  {
  }

  /** A document is recorded only when its outcome says so, and the ledger gains only those ids. */
  lemma {:induction false} ExistingRecordsSynced(st: SyncState, docs: seq<Doc>, program: Value, orgUnit: Value, clock: nat -> Runtime, k: nat)
    ensures var r := Existing(st, docs, program, orgUnit, clock, k);
      forall id :: id in r.state.syncedDocuments && id !in st.syncedDocuments ==>
        exists i :: 0 <= i < |docs| && docs[i].id == id && r.outcomes[i] == Integration.Synced
    decreases |docs|
  {
    if |docs| > 0 {
      var step := ProcessDeathReview(st, docs[0], ExistingCursor, program, orgUnit, clock(k));
      DryRunAddsOnlyItsDocument(st, docs[0], ExistingCursor, program, orgUnit, clock(k));
      ExistingRecordsSynced(step.state, docs[1..], program, orgUnit, clock, k + 1);
      RecordedByHeadOrTail(st, step.state, step.outcome, docs, Existing(step.state, docs[1..], program, orgUnit, clock, k + 1));
    }
  }

  /**
   * The inductive step of `ExistingRecordsSynced`, stated without the dry
   * run: an id new to the ledger was added either by the first step or by
   * the rest of the loop.
   */
  lemma RecordedByHeadOrTail(st: SyncState, mid: SyncState, outcome: Integration.Outcome, docs: seq<Doc>, rest: ExistingRun)
    requires |docs| > 0 && |rest.outcomes| == |docs| - 1
    requires forall id :: id in mid.syncedDocuments && id !in st.syncedDocuments ==> id == docs[0].id && outcome == Integration.Synced
    requires forall id :: id in rest.state.syncedDocuments && id !in mid.syncedDocuments ==>
      exists i :: 0 <= i < |docs[1..]| && docs[1..][i].id == id && rest.outcomes[i] == Integration.Synced
    ensures var r := ExistingRun(rest.state, [outcome] + rest.outcomes);
      forall id :: id in r.state.syncedDocuments && id !in st.syncedDocuments ==>
        exists i :: 0 <= i < |docs| && docs[i].id == id && r.outcomes[i] == Integration.Synced
  {
    var r := ExistingRun(rest.state, [outcome] + rest.outcomes);
    forall id | id in r.state.syncedDocuments && id !in st.syncedDocuments
      ensures exists i :: 0 <= i < |docs| && docs[i].id == id && r.outcomes[i] == Integration.Synced
    {
      if id in mid.syncedDocuments {
        assert docs[0].id == id && r.outcomes[0] == Integration.Synced;
      } else {
        var j :| 0 <= j < |docs| - 1 && docs[1..][j].id == id && rest.outcomes[j] == Integration.Synced;
        assert docs[j + 1].id == id && r.outcomes[j + 1] == Integration.Synced;
      }
    }
  }

  /**
   * `processExisting(limit)`: a failed view query propagates; otherwise every
   * document of the view goes through the dry run.
   */
  function ProcessExisting(st: SyncState, view: ViewResponse, program: Value, orgUnit: Value, clock: nat -> Runtime): (r: Result<ExistingRun, CouchError>)
    ensures r.Failure? <==> view.ViewFailed?
    ensures r.Success? ==> |r.value.outcomes| == |view.rows|
    ensures r.Success? ==> r.value.state.lastSeq == (if Integration.Synced in r.value.outcomes then ExistingCursor else st.lastSeq)
  {
    var docs :- GetDocumentsByForm(view);
    Success(Existing(st, docs, program, orgUnit, clock, 0))
  }
}
