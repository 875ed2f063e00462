/** The shapes exchanged with the hosted document store: field values, a
    document's fields, a delivered document (its store id and its stored
    fields), query constraints and the three kinds of write. The store
    itself is not modelled; its answers enter the model as `Ack` values. */
module Documents {

  /** A JSON-representable field value. `Time` stands for an ISO-8601
      timestamp string, which orders like the instant (ms) it denotes. */
  datatype Value = Str(s: string) | Num(n: real) | Bool(b: bool) | Time(ms: int)

  /** A document's fields: `doc.data()`, or a record built from one. */
  type Fields = map<string, Value>

  /** A document as a snapshot delivers it: `doc.id` and `doc.data()`. */
  datatype StoredDoc = StoredDoc(id: string, fields: Fields)

  /** The query constraints the pages pass (`where(f, '==', v)`,
      `where(f, '>', v)`, `orderBy(f, 'desc')`). */
  datatype Constraint =
    | WhereEq(field: string, value: Value)
    | WhereGt(field: string, value: Value)
    | OrderByDesc(field: string)

  /** `a > b` as a range filter compares it: only values of the same
      numeric or temporal kind are ordered. */
  predicate Greater(a: Value, b: Value)
  {
    match (a, b)
    case (Num(x), Num(y)) => x > y
    case (Time(x), Time(y)) => x > y
    case _ => false
  }

  /** The documents a single constraint lets through; ordering by a field
      drops the documents that do not have it. */
  predicate Satisfies(c: Constraint, f: Fields)
  {
    match c
    case WhereEq(field, v) => field in f && f[field] == v
    case WhereGt(field, v) => field in f && Greater(f[field], v)
    case OrderByDesc(field) => field in f
  }

  /** A query admits the documents every one of its constraints lets through. */
  predicate Admits(q: seq<Constraint>, f: Fields)
  {
    forall i :: 0 <= i < |q| ==> Satisfies(q[i], f)
  }

  /** A write sent to the store. */
  datatype WriteRequest =
    | AddDoc(collection: string, payload: Fields)
    | UpdateDoc(collection: string, id: string, patch: Fields)
    | DeleteDoc(collection: string, id: string)

  /** The store's answer to one write: accepted (with what it returns) or refused. */
  datatype Ack<T> = Accepted(value: T) | Refused(reason: string)
}
