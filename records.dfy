/**
 * The data of the λF panel: the raw documents of the "lambdaF" collection,
 * the rows built from them, and the normalised history records.
 */
module Records {
  import opened Wrappers

  /** The value of one field of a stored document: absent, stored as null, or a value. */
  datatype Field<+T> = Missing | Null | Value(v: T)

  /**
   * One document of the "lambdaF" collection as the store delivers it.
   * Timestamps are already comparable values (integers); λF is an exact real.
   */
  datatype Doc = Doc(timestamp: Field<int>, lambdaF: Field<real>, status: Field<string>)

  /** One row of the table built by the fetch loop, before incomplete rows are dropped. */
  datatype Row = Row(timestamp: Option<int>, lambdaF: Option<real>, status: Option<string>)

  /** One record of the normalised history: timestamp and λF are always present. */
  datatype Record = Record(timestamp: int, lambdaF: real, status: Option<string>)

  /** The status written into a row whose document has no status field. */
  const NotAvailable: string := "N/A"

  /** Dictionary lookup without a default: absent and null both read as nothing. */
  function Get<T>(f: Field<T>): (r: Option<T>)
    ensures r.Some? <==> f.Value?
    ensures r.Some? ==> r.value == f.v
  {
    match f
    case Value(x) => Some(x)
    case _ => None
  }

  /** Dictionary lookup with a default: the default replaces an absent key, not a stored null. */
  function GetOr<T>(f: Field<T>, default: T): (r: Option<T>)
    ensures f.Missing? ==> r == Some(default)
    ensures f.Null? ==> r == None
    ensures f.Value? ==> r == Some(f.v)
  {
    match f
    case Missing => Some(default)
    case Null => None
    case Value(x) => Some(x)
  }

  /** Ascending (non-decreasing) order by timestamp. */
  ghost predicate SortedAsc(s: seq<Record>)
  {
    forall i, j :: 0 <= i < j < |s| ==> s[i].timestamp <= s[j].timestamp
  }

  /** Descending (non-increasing) order by timestamp. */
  ghost predicate SortedDesc(s: seq<Record>)
  {
    forall i, j :: 0 <= i < j < |s| ==> s[i].timestamp >= s[j].timestamp
  }

  /** No two records share a timestamp (the well-formed window of the store). */
  ghost predicate DistinctTimes(s: seq<Record>)
  {
    forall i, j :: 0 <= i < j < |s| ==> s[i].timestamp != s[j].timestamp
  }
}
