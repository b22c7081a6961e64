/**
 * The change source (`CouchDBService`): the TLS flag, the guard and default
 * of `watchChanges`, the filter its change handler applies before calling
 * back, and the row mapping of `getDocumentsByForm`. Connections, the feed
 * and the view query are inputs.
 */
module CouchDb {
  import opened Wrappers
  import opened JsValues
  import opened Documents

  /** `config.rejectUnauthorized !== 'false'`: only the exact string "false" turns TLS checks off. */
  function RejectUnauthorized(setting: Value): (verify: bool)
    ensures !verify <==> setting == Str("false")
  {
    setting != Str("false")
  }

  /** One entry of the changes feed, with its document included. */
  datatype Change = Change(id: string, sequence: Value, doc: Option<Doc>, deleted: Value)

  /** The forms whose changes reach the integration. */
  predicate WatchedForm(form: Value) {
    form == Str("death_review") || form == Str("cha_verbal_autopsy")
  }

  /** The change handler's filter: the `(doc, seq)` pair it passes to the callback, if any. */
  function Forward(c: Change): (r: Option<(Doc, Value)>)
    ensures r.Some? <==> c.doc.Some? && !Truthy(c.deleted) && WatchedForm(c.doc.value.form)
    ensures r.Some? ==> r.value == (c.doc.value, c.sequence)
  {
    match c.doc
    case None => None
    case Some(doc) =>
      if Truthy(c.deleted) then None
      else if doc.form == Str("death_review") then Some((doc, c.sequence))
      else if doc.form == Str("cha_verbal_autopsy") then Some((doc, c.sequence))
      else None
  }

  /** The callbacks a feed produces, in feed order. */
  function Forwarded(changes: seq<Change>): (r: seq<(Doc, Value)>)
    ensures |r| <= |changes|
  {
    if |changes| == 0 then []
    else
      var head := Forward(changes[0]);
      (if head.Some? then [head.value] else []) + Forwarded(changes[1..])
  }

  /** A pair reaches the callback exactly when some change of the feed is forwarded as that pair. */
  lemma {:induction false} ForwardedMembers(changes: seq<Change>)
    ensures forall p :: p in Forwarded(changes) <==> exists i :: 0 <= i < |changes| && Forward(changes[i]) == Some(p)
    decreases |changes|
  {
    if |changes| > 0 {
      ForwardedMembers(changes[1..]);
      assert forall i :: 0 < i < |changes| ==> changes[i] == changes[1..][i - 1];
      forall p | exists i :: 0 <= i < |changes| && Forward(changes[i]) == Some(p)
        ensures p in Forwarded(changes)
      {
        var i :| 0 <= i < |changes| && Forward(changes[i]) == Some(p);
        if i > 0 {
          assert Forward(changes[1..][i - 1]) == Some(p);
        }
      }
    }
  }

  /** Only documents of a watched form, not deleted, reach the callback. */
  lemma ForwardedAreWatched(changes: seq<Change>)
    ensures forall p :: p in Forwarded(changes) ==> WatchedForm(p.0.form)
  {
    ForwardedMembers(changes);
  }

  datatype CouchError = DatabaseNotInitialized | QueryFailed

  /**
   * `watchChanges(callback, lastSeq)` up to opening the feed: it throws
   * without a database handle, and otherwise opens the feed at `lastSeq`,
   * or at "now" when `lastSeq` is undefined.
   */
  function WatchSince(connected: bool, lastSeq: Value): (r: Result<Value, CouchError>)
    ensures !connected <==> r == Failure(DatabaseNotInitialized)
    ensures connected && lastSeq != Undefined ==> r == Success(lastSeq)
    ensures connected && lastSeq == Undefined ==> r == Success(Str("now"))
  {
    if !connected then Failure(DatabaseNotInitialized)
    else if lastSeq == Undefined then Success(Str("now"))
    else Success(lastSeq)
  }

  /** One row of the `reports_by_form` view, queried with `include_docs`. */
  datatype Row = Row(id: string, key: seq<Value>, doc: Doc)

  /** The view's answer: its rows, or a failed query. */
  datatype ViewResponse = ViewRows(rows: seq<Row>) | ViewFailed

  /** `getDocumentsByForm(form, limit)`: the `doc` of each row, in row order. */
  function GetDocumentsByForm(response: ViewResponse): (r: Result<seq<Doc>, CouchError>)
    ensures response.ViewFailed? <==> r.Failure?
    ensures response.ViewRows? ==> |r.value| == |response.rows|
    ensures response.ViewRows? ==> forall i :: 0 <= i < |response.rows| ==> r.value[i] == response.rows[i].doc
  {
    match response
    case ViewFailed => Failure(QueryFailed)
    case ViewRows(rows) => Success(seq(|rows|, i requires 0 <= i < |rows| => rows[i].doc))
  }
}
