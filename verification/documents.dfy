/**
 * The shape of a CouchDB report document as the pipeline reads it: its id, its
 * form tag, the `fields` object with the nested `group_review` object, the
 * `reported_date` and an optional `geolocation`.
 */
module Documents {
  import opened Wrappers
  import opened JsValues

  /** A form's `fields` object; `groupReview` is its nested `group_review` object. */
  datatype FormFields = FormFields(values: map<string, Value>, groupReview: Option<map<string, Value>>)

  datatype Geolocation = Geolocation(latitude: Value, longitude: Value)

  /** A report document; `None` stands for a missing or falsy object-valued member. */
  datatype Doc = Doc(
    id: string,
    form: Value,
    fields: Option<FormFields>,
    reportedDate: Value,
    geolocation: Option<Geolocation>)

  /** Property access `obj[key]` on a plain object: `undefined` when the key is missing. */
  function Get(obj: map<string, Value>, key: string): (v: Value)
    ensures key !in obj ==> v == Undefined
    ensures key in obj ==> v == obj[key]
  {
    if key in obj then obj[key] else Undefined
  }

  /** `doc.fields || {}`. */
  function FieldsOf(doc: Doc): map<string, Value> {
    match doc.fields
    case Some(f) => f.values
    case None => map[]
  }

  /** `(doc.fields || {}).group_review || {}`. */
  function ReviewOf(doc: Doc): map<string, Value> {
    match doc.fields
    case Some(FormFields(_, Some(review))) => review
    case _ => map[]
  }
}
