/** `CityValidationMag.run` once the query has answered: the rows (address
    id and city, NULL as `None`) are sorted into NULL, empty and invalid
    cities, and one medium issue is recorded per non-empty kind, invalid
    first. The query itself, which selects the addresses whose city is not
    one of the allowed ones, is an input. */
module CityValidation {
  import opened Wrappers
  import opened Values
  import opened Issues
  import Checks
  import Seqs
  import Ordering
  import Text

  const Name: string := "CityValidationMag"
  const ErrorMessage: string := "Error executing city validation check"

  datatype Row = Row(entityId: int, city: Option<string>)

  predicate IsNull(r: Row) { r.city.None? }

  predicate IsBlank(r: Row) { r.city == Some("") }

  predicate IsInvalid(r: Row) { r.city.Some? && r.city.value != "" }

  /** The city a row's record shows: placeholders for NULL and empty. */
  function Shown(r: Row): string
  {
    match r.city
    case None => "(NULL)"
    case Some(c) => if c == "" then "(Empty)" else c
  }

  /** `{'id': entity_id, 'city': ...}`. */
  function RecordOf(r: Row): Record
  {
    [("id", VInt(r.entityId)), ("city", VStr(Shown(r)))]
  }

  function RecordsOf(rows: seq<Row>): (rs: seq<Value>)
    ensures |rs| == |rows|
    ensures forall i :: 0 <= i < |rows| ==> rs[i] == VDict(RecordOf(rows[i]))
  {
    seq(|rows|, i requires 0 <= i < |rows| => VDict(RecordOf(rows[i])))
  }

  function ShownAll(rows: seq<Row>): (cs: seq<string>)
    ensures |cs| == |rows|
    ensures forall i :: 0 <= i < |rows| ==> cs[i] == Shown(rows[i])
  {
    seq(|rows|, i requires 0 <= i < |rows| => Shown(rows[i]))
  }

  /** The three lists the loop fills; each keeps its rows, from which the
      records are built. */
  datatype Buckets = Buckets(invalid: seq<Row>, nulls: seq<Row>, empties: seq<Row>)

  /** The classification loop: each row is appended to the list of its kind. */
  function Classify(rows: seq<Row>): Buckets
  {
    if rows == [] then Buckets([], [], [])
    else
      var b := Classify(rows[..|rows| - 1]);
      var r := rows[|rows| - 1];
      if r.city.None? then b.(nulls := b.nulls + [r])
      else if r.city.value == "" then b.(empties := b.empties + [r])
      else b.(invalid := b.invalid + [r])
  }

  /** Every row lands in exactly one list, and each list holds the rows of
      its kind in their order. */
  lemma {:induction false} ClassifySpec(rows: seq<Row>)
    ensures Classify(rows).invalid == Seqs.Filter(rows, IsInvalid)
    ensures Classify(rows).nulls == Seqs.Filter(rows, IsNull)
    ensures Classify(rows).empties == Seqs.Filter(rows, IsBlank)
    ensures |Classify(rows).invalid| + |Classify(rows).nulls| + |Classify(rows).empties| == |rows|
  {
    if rows != [] {
      var ys := rows[..|rows| - 1];
      var r := rows[|rows| - 1];
      assert rows == ys + [r];
      ClassifySpec(ys);
      Seqs.FilterSnoc(ys, r, IsInvalid);
      Seqs.FilterSnoc(ys, r, IsNull);
      Seqs.FilterSnoc(ys, r, IsBlank);
    }
  }

  /** `sorted(set(r['city'] for r in invalid_city_records))`. */
  function InvalidValues(invalid: seq<Row>): seq<string>
  {
    Ordering.SortedSet(ShownAll(invalid))
  }

  /** The invalid values are increasing, repeat nothing, and are exactly the
      cities of the invalid rows. */
  lemma InvalidValuesSpec(rows: seq<Row>)
    ensures var vs := InvalidValues(Classify(rows).invalid);
      Ordering.Sorted(vs) && Seqs.NoDup(vs)
      && forall y :: y in vs <==> exists i :: 0 <= i < |rows| && rows[i].city == Some(y) && y != ""
  {
    ClassifySpec(rows);
    var inv := Seqs.Filter(rows, IsInvalid);
    var vs := InvalidValues(inv);
    forall y
      ensures y in vs <==> exists i :: 0 <= i < |rows| && rows[i].city == Some(y) && y != ""
    {
      if y in vs {
        var k :| 0 <= k < |inv| && Shown(inv[k]) == y;
        InvalidRow(rows, inv[k]);
      }
      if exists i :: 0 <= i < |rows| && rows[i].city == Some(y) && y != "" {
        var i :| 0 <= i < |rows| && rows[i].city == Some(y) && y != "";
        InvalidKept(rows, i);
      }
    }
  }

  lemma InvalidRow(rows: seq<Row>, r: Row)
    requires r in Seqs.Filter(rows, IsInvalid)
    ensures exists i :: 0 <= i < |rows| && rows[i].city == Some(Shown(r)) && Shown(r) != ""
  {
    Seqs.FilterSpec(rows, IsInvalid);
    assert multiset(Seqs.Filter(rows, IsInvalid))[r] > 0;
    var i := Seqs.FirstIndex(rows, r);
    assert rows[i].city == Some(Shown(r));
  }

  lemma InvalidKept(rows: seq<Row>, i: nat)
    requires i < |rows| && IsInvalid(rows[i])
    ensures Shown(rows[i]) in ShownAll(Seqs.Filter(rows, IsInvalid))
  {
    Seqs.FilterSpec(rows, IsInvalid);
    assert multiset(rows)[rows[i]] > 0;
    var inv := Seqs.Filter(rows, IsInvalid);
    var k := Seqs.FirstIndex(inv, rows[i]);
    assert ShownAll(inv)[k] == Shown(rows[i]);
  }

  function N(n: nat): string { Text.NatToString(n) }

  /** The issue for cities outside the allowed list. */
  function InvalidIssue(invalid: seq<Row>): (i: Issue)
    ensures Valid(i)
  {
    var vs := InvalidValues(invalid);
    Issue(Name, "medium",
      "Found " + N(|vs|) + " invalid city name(s) in customer addresses",
      "Found " + N(|vs|) + " unique invalid city name(s) affecting " + N(|invalid|) + " address record(s)",
      [("invalid_values", VList(Strs(vs))),
       ("records", VList(RecordsOf(invalid))),
       ("summary", VDict([("Unique invalid cities", VInt(|vs|)), ("Affected addresses", VInt(|invalid|))]))])
  }

  /** The issue for addresses without a city. */
  function NullIssue(nulls: seq<Row>): (i: Issue)
    ensures Valid(i)
  {
    Issue(Name, "medium",
      "Found " + N(|nulls|) + " address(es) with NULL city value",
      "Found " + N(|nulls|) + " address record(s) with NULL city value",
      [("records", VList(RecordsOf(nulls))), ("summary", VDict([("NULL cities", VInt(|nulls|))]))])
  }

  /** The issue for addresses whose city is the empty string. */
  function BlankIssue(empties: seq<Row>): (i: Issue)
    ensures Valid(i)
  {
    Issue(Name, "medium",
      "Found " + N(|empties|) + " address(es) with empty city value",
      "Found " + N(|empties|) + " address record(s) with empty city value",
      [("records", VList(RecordsOf(empties))), ("summary", VDict([("Empty cities", VInt(|empties|))]))])
  }

  /** The issues recorded for the rows, one per non-empty list, built up by
      successive `add_issue` calls. */
  function Report(rows: seq<Row>): IssueCollection
  {
    if rows == [] then Empty
    else
      var b := Classify(rows);
      Chain(InvalidIssue(b.invalid), NullIssue(b.nulls), BlankIssue(b.empties),
            b.invalid != [], b.nulls != [], b.empties != [])
  }

  /** Three successive `add_issue` calls, each made only when its flag is set. */
  function Chain(a: Issue, b: Issue, c: Issue, p: bool, q: bool, r: bool): (res: IssueCollection)
    requires Valid(a) && Valid(b) && Valid(c)
    ensures res.issues == When(p, a) + When(q, b) + When(r, c)
  {
    var c1 := if p then Checks.Emit(Empty, a) else Empty;
    var c2 := if q then Checks.Emit(c1, b) else c1;
    assert c1.issues == When(p, a);
    assert c2.issues == c1.issues + When(q, b);
    if r then Checks.Emit(c2, c) else c2
  }

  /** `run`: a failing query yields exactly one high-severity issue
      carrying the check's name and the exception text. */
  function Run(q: Checks.Query<Row>): (r: IssueCollection)
    ensures q.Failure? ==> r.issues == [Issue(Name, "high", ErrorMessage, q.error, [])]
  {
    match q
    case Failure(e) => Checks.Failed(Name, ErrorMessage, e)
    case Success(rows) => Report(rows)
  }

  function When(b: bool, i: Issue): seq<Issue>
  {
    if b then [i] else []
  }

  /** The issues are, in this order: one for the invalid cities, one for the
      NULL cities and one for the empty cities, each present exactly when
      some row is of its kind and counting exactly the rows of its kind. */
  lemma ReportSpec(rows: seq<Row>)
    ensures var inv := Seqs.Filter(rows, IsInvalid);
      var nul := Seqs.Filter(rows, IsNull);
      var emp := Seqs.Filter(rows, IsBlank);
      Report(rows).issues
      == When(inv != [], InvalidIssue(inv)) + When(nul != [], NullIssue(nul)) + When(emp != [], BlankIssue(emp))
  {
    ReportShape(rows);
    ClassifySpec(rows);
  }

  /** The issues of the three lists, in order, each present when its list is
      not empty. */
  function Whens(b: Buckets): seq<Issue>
  {
    When(b.invalid != [], InvalidIssue(b.invalid)) + When(b.nulls != [], NullIssue(b.nulls))
      + When(b.empties != [], BlankIssue(b.empties))
  }

  lemma ReportShape(rows: seq<Row>)
    ensures Report(rows).issues == Whens(Classify(rows))
  {
    if rows == [] {
      assert Classify(rows) == Buckets([], [], []);
    }
  }

  /** The three kinds partition the rows. */
  lemma KindSizes(rows: seq<Row>)
    ensures |Seqs.Filter(rows, IsInvalid)| + |Seqs.Filter(rows, IsNull)| + |Seqs.Filter(rows, IsBlank)| == |rows|
  {
    ClassifySpec(rows);
  }

  /** Between none and three issues, none for no rows, all of medium
      severity under the check's name. */
  lemma ReportBounds(rows: seq<Row>)
    ensures Len(Report(rows)) <= 3
    ensures rows == [] <==> IsEmpty(Report(rows))
    ensures ValidCollection(Report(rows))
    ensures forall i :: 0 <= i < Len(Report(rows)) ==>
      Report(rows).issues[i].severity == "medium" && Report(rows).issues[i].checkName == Name
  {
    var inv := Seqs.Filter(rows, IsInvalid);
    var nul := Seqs.Filter(rows, IsNull);
    var emp := Seqs.Filter(rows, IsBlank);
    ReportSpec(rows);
    KindSizes(rows);
    WhenBounds(InvalidIssue(inv), NullIssue(nul), BlankIssue(emp), inv != [], nul != [], emp != []);
  }

  lemma WhenBounds(a: Issue, b: Issue, c: Issue, p: bool, q: bool, r: bool)
    requires Valid(a) && Valid(b) && Valid(c)
    requires a.severity == b.severity == c.severity == "medium"
    requires a.checkName == b.checkName == c.checkName == Name
    ensures var xs := When(p, a) + When(q, b) + When(r, c);
      |xs| <= 3 && (xs == [] <==> !p && !q && !r) && ValidCollection(IssueCollection(xs))
      && forall i :: 0 <= i < |xs| ==> xs[i].severity == "medium" && xs[i].checkName == Name
  {
    var xs := When(p, a) + When(q, b) + When(r, c);
    assert forall i :: 0 <= i < |xs| ==> xs[i] in {a, b, c};
  }
}
