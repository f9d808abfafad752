/** `CustomerNameMismatchMag.run` once the query has answered: one record per
    row, in row order, with a placeholder for every missing name, and a
    single medium issue when there are rows. The query, which pairs customers
    with the addresses whose names differ from theirs, is an input. */
module NameMismatch {
  import opened Wrappers
  import opened Values
  import opened Issues
  import Checks
  import Seqs
  import Text

  const Name: string := "CustomerNameMismatchMag"
  const ErrorMessage: string := "Error executing customer name mismatch check"
  const Missing: Value := VStr("(NULL)")

  /** A result row, its six columns as the driver gives them. */
  datatype Row = Row(
    customerId: Value, customerFirst: Value, customerLast: Value,
    addressId: Value, addressFirst: Value, addressLast: Value)

  /** `v if v else '(NULL)'`. */
  function NameOr(v: Value): (r: Value)
    ensures Truthy(r)
    ensures Truthy(v) ==> r == v
  {
    if Truthy(v) then v else Missing
  }

  const Fields: seq<string> := [
    "customer_id", "customer_firstname", "customer_lastname",
    "address_id", "address_firstname", "address_lastname"]

  /** The record of a row: the six fields in order, the ids copied, and
      every name field a name, the row's own when it has one and the
      placeholder when it is NULL or empty. */
  function RecordOf(r: Row): (rec: Record)
    ensures |rec| == 6 && forall k :: 0 <= k < 6 ==> rec[k].0 == Fields[k]
    ensures rec[0].1 == r.customerId && rec[3].1 == r.addressId
    ensures forall k :: k in NamePositions ==> Truthy(rec[k].1)
    ensures forall k :: k in NamePositions && Truthy(NameField(r, k)) ==> rec[k].1 == NameField(r, k)
    ensures forall k :: k in NamePositions && !Truthy(NameField(r, k)) ==> rec[k].1 == Missing
  {
    [("customer_id", r.customerId),
     ("customer_firstname", NameOr(r.customerFirst)),
     ("customer_lastname", NameOr(r.customerLast)),
     ("address_id", r.addressId),
     ("address_firstname", NameOr(r.addressFirst)),
     ("address_lastname", NameOr(r.addressLast))]
  }

  /** Where the four name fields sit in a record. */
  const NamePositions: set<nat> := {1, 2, 4, 5}

  function NameField(r: Row, k: nat): Value
  {
    if k == 1 then r.customerFirst
    else if k == 2 then r.customerLast
    else if k == 4 then r.addressFirst
    else r.addressLast
  }

  /** The list comprehension over the rows. */
  function Records(rows: seq<Row>): (vs: seq<Value>)
    ensures |vs| == |rows|
    ensures forall i :: 0 <= i < |rows| ==> vs[i] == VDict(RecordOf(rows[i]))
  {
    seq(|rows|, i requires 0 <= i < |rows| => VDict(RecordOf(rows[i])))
  }

  function CustomerIds(rows: seq<Row>): (ids: seq<Value>)
    ensures |ids| == |rows|
    ensures forall i :: 0 <= i < |rows| ==> ids[i] == rows[i].customerId
  {
    seq(|rows|, i requires 0 <= i < |rows| => rows[i].customerId)
  }

  /** `len(set(r['customer_id'] for r in records))`. */
  function UniqueCustomers(rows: seq<Row>): (n: nat)
    ensures n <= |rows|
    ensures n == |Seqs.ToSet(CustomerIds(rows))|
  {
    Seqs.CardToSet(CustomerIds(rows));
    |Seqs.ToSet(CustomerIds(rows))|
  }

  function N(n: nat): string { Text.NatToString(n) }

  /** The issue for the mismatched addresses; the unique customers are
      counted on the records' customer ids, which are the rows'. */
  function MismatchIssue(rows: seq<Row>): (i: Issue)
    ensures Valid(i) && i.severity == "medium" && i.checkName == Name
  {
    var records := Records(rows);
    var u := UniqueCustomers(rows);
    Issue(Name, "medium",
      "Found " + N(|records|) + " address(es) with mismatched customer names",
      "Found " + N(|records|) + " address record(s) where customer name does not match the customer entity name, affecting "
        + N(u) + " unique customer(s)",
      [("records", VList(records)),
       ("summary", VDict([("Total mismatched addresses", VInt(|records|)), ("Unique customers affected", VInt(u))]))])
  }

  function Report(rows: seq<Row>): (r: IssueCollection)
    ensures Len(r) <= 1 && ValidCollection(r)
    ensures Len(r) == 1 <==> rows != []
    ensures rows != [] ==> r.issues == [MismatchIssue(rows)]
  {
    if rows == [] then Empty else Checks.Emit(Empty, MismatchIssue(rows))
  }

  /** `run`: a failing query yields exactly one high-severity issue. */
  function Run(q: Checks.Query<Row>): (r: IssueCollection)
    ensures q.Failure? ==> r.issues == [Issue(Name, "high", ErrorMessage, q.error, [])]
    ensures q.Success? ==> (Len(r) == 1 <==> q.value != [])
  {
    match q
    case Failure(e) => Checks.Failed(Name, ErrorMessage, e)
    case Success(rows) => Report(rows)
  }
}
