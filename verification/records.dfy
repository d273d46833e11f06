/**
 The two record shapes of the gallery: `Data`, one stored project, and
 `Query`, one object of a `POST /q` request. Both carry the same four text
 fields; `Data` adds the id the store assigns.
 */
module Records {

  datatype Option<T> = None | Some(value: T)

  /** The four indexed text fields, in the order the query handler visits them. */
  datatype Field = Title | Description | Filename | Src

  /** One stored project record. */
  datatype Data = Data(id: int, title: string, description: string, filename: string, src: string)

  /** One query object; an empty field means "not constrained". */
  datatype Query = Query(title: string, description: string, filename: string, src: string)

  /** The zero value of `Data`, what a fresh `var resp Data` holds. */
  const ZeroData := Data(0, "", "", "", "")

  /** The query object whose fields are all empty. */
  const EmptyQuery := Query("", "", "", "")

  function DataField(d: Data, f: Field): string {
    match f
    case Title => d.title
    case Description => d.description
    case Filename => d.filename
    case Src => d.src
  }

  function QueryField(q: Query, f: Field): string {
    match f
    case Title => q.title
    case Description => q.description
    case Filename => q.filename
    case Src => q.src
  }

  /** Position of a field in the handler's fixed visiting order. */
  function Rank(f: Field): nat {
    match f
    case Title => 0
    case Description => 1
    case Filename => 2
    case Src => 3
  }

  /** The meaning of a query object: every non-empty field of `q` equals the
      same field of `d`. */
  predicate Satisfies(d: Data, q: Query) {
    forall f: Field :: QueryField(q, f) != "" ==> DataField(d, f) == QueryField(q, f)
  }
}
