/** `MissingProductImagesMag.run` once the query has answered: rows with a
    NULL key field are skipped, each (attribute id, store id, entity id)
    combination is recorded once, at its first row, and a single medium issue
    summarises the records, counted per attribute code. The query, which
    looks for image attributes without a value, is an input. */
module MissingImages {
  import opened Wrappers
  import opened Values
  import opened Issues
  import Checks
  import Seqs
  import Assoc
  import Text

  const Name: string := "MissingProductImagesMag"
  const ErrorMessage: string := "Error executing missing product images check"

  /** A result row; `None` is SQL NULL. */
  datatype Row = Row(attributeId: Option<int>, storeId: Option<int>, entityId: Option<int>, attributeCode: Option<string>)

  /** None of the four fields is NULL. */
  predicate Complete(r: Row)
  {
    r.attributeId.Some? && r.storeId.Some? && r.entityId.Some? && r.attributeCode.Some?
  }

  /** A record: `{'id', 'attribute_id', 'attribute_code', 'store_id'}`. */
  datatype Entry = Entry(id: int, attributeId: int, attributeCode: string, storeId: int)

  type Combination = (int, int, int)

  /** The combination the loop deduplicates on. */
  function Key(e: Entry): Combination
  {
    (e.attributeId, e.storeId, e.id)
  }

  function EntryOf(r: Row): Entry
    requires Complete(r)
  {
    Entry(r.entityId.value, r.attributeId.value, r.attributeCode.value, r.storeId.value)
  }

  /** The entries of the complete rows, in row order, repeats included. */
  function Entries(rows: seq<Row>): seq<Entry>
  {
    if rows == [] then []
    else (if Complete(rows[0]) then [EntryOf(rows[0])] else []) + Entries(rows[1..])
  }

  function Keys(es: seq<Entry>): (ks: seq<Combination>)
    ensures |ks| == |es|
    ensures forall i :: 0 <= i < |es| ==> ks[i] == Key(es[i])
  {
    seq(|es|, i requires 0 <= i < |es| => Key(es[i]))
  }

  /** The loop over the rows, with the combinations seen so far. */
  function Collect(rows: seq<Row>, seen: set<Combination>): seq<Entry>
  {
    if rows == [] then []
    else if !Complete(rows[0]) then Collect(rows[1..], seen)
    else
      var e := EntryOf(rows[0]);
      if Key(e) in seen then Collect(rows[1..], seen)
      else [e] + Collect(rows[1..], seen + {Key(e)})
  }

  /** The records keep the order of the complete rows they come from. */
  lemma {:induction false} CollectSubseq(rows: seq<Row>, seen: set<Combination>)
    ensures Seqs.IsSubseq(Collect(rows, seen), Entries(rows))
  {
    if rows != [] {
      var e := if Complete(rows[0]) then [EntryOf(rows[0])] else [];
      if !Complete(rows[0]) {
        CollectSubseq(rows[1..], seen);
        assert Entries(rows) == Entries(rows[1..]);
      } else if Key(EntryOf(rows[0])) in seen {
        CollectSubseq(rows[1..], seen);
        Seqs.SubseqSkip(EntryOf(rows[0]), Collect(rows[1..], seen), Entries(rows[1..]));
      } else {
        CollectSubseq(rows[1..], seen + {Key(EntryOf(rows[0]))});
        Seqs.SubseqCons(EntryOf(rows[0]), Collect(rows[1..], seen + {Key(EntryOf(rows[0]))}), Entries(rows[1..]));
      }
    }
  }

  /** Some complete row has combination `k`. */
  ghost predicate Occurs(rows: seq<Row>, k: Combination)
  {
    exists i :: 0 <= i < |rows| && Complete(rows[i]) && Key(EntryOf(rows[i])) == k
  }

  lemma OccursCons(rows: seq<Row>, k: Combination)
    requires rows != []
    ensures Occurs(rows, k) <==> (Complete(rows[0]) && Key(EntryOf(rows[0])) == k) || Occurs(rows[1..], k)
  {
    if Occurs(rows, k) {
      var i :| 0 <= i < |rows| && Complete(rows[i]) && Key(EntryOf(rows[i])) == k;
      if i > 0 {
        assert rows[1..][i - 1] == rows[i];
      }
    }
    if Occurs(rows[1..], k) {
      var i :| 0 <= i < |rows[1..]| && Complete(rows[1..][i]) && Key(EntryOf(rows[1..][i])) == k;
      assert rows[i + 1] == rows[1..][i];
    }
  }

  /** No combination is recorded twice or recorded when already seen, and
      every combination of a complete row not seen before is recorded. */
  lemma {:induction false} CollectKeys(rows: seq<Row>, seen: set<Combination>)
    ensures Seqs.NoDup(Keys(Collect(rows, seen)))
    ensures forall k :: k in Keys(Collect(rows, seen)) <==> k !in seen && Occurs(rows, k)
  {
    if rows != [] {
      forall k {
        OccursCons(rows, k);
      }
      if !Complete(rows[0]) || Key(EntryOf(rows[0])) in seen {
        CollectKeys(rows[1..], seen);
      } else {
        var e := EntryOf(rows[0]);
        var rest := Collect(rows[1..], seen + {Key(e)});
        CollectKeys(rows[1..], seen + {Key(e)});
        assert Keys([e] + rest) == [Key(e)] + Keys(rest);
      }
    }
  }

  /** Each recorded entry is the first complete row with its combination. */
  lemma {:induction false} CollectFirst(rows: seq<Row>, seen: set<Combination>, i: nat)
    requires i < |rows| && Complete(rows[i]) && Key(EntryOf(rows[i])) !in seen
    requires forall j :: 0 <= j < i && Complete(rows[j]) ==> Key(EntryOf(rows[j])) != Key(EntryOf(rows[i]))
    ensures EntryOf(rows[i]) in Collect(rows, seen)
  {
    if i > 0 {
      var s' := if Complete(rows[0]) && Key(EntryOf(rows[0])) !in seen then seen + {Key(EntryOf(rows[0]))} else seen;
      assert rows[1..][i - 1] == rows[i];
      CollectFirst(rows[1..], s', i - 1);
    }
  }

  /** Every entry of `c` has its combination in `ks`. */
  ghost predicate KeysIn(ks: seq<Combination>, c: seq<Entry>)
  {
    forall i :: 0 <= i < |c| ==> Key(c[i]) in ks
  }

  /** The entries of `c` come in the order of their combinations' first
      positions in `ks`. */
  ghost predicate InFirstOrder(ks: seq<Combination>, c: seq<Entry>)
  {
    KeysIn(ks, c)
    && forall i, j :: 0 <= i < j < |c| ==> Seqs.FirstIndex(ks, Key(c[i])) < Seqs.FirstIndex(ks, Key(c[j]))
  }

  /** Putting in front a combination that no entry of `c` has moves every
      first position up by one. */
  lemma ShiftIndex(k: Combination, ks: seq<Combination>, c: seq<Entry>)
    requires KeysIn(ks, c)
    requires forall i :: 0 <= i < |c| ==> Key(c[i]) != k
    ensures KeysIn([k] + ks, c)
    ensures forall i :: 0 <= i < |c| ==> Seqs.FirstIndex([k] + ks, Key(c[i])) == 1 + Seqs.FirstIndex(ks, Key(c[i]))
  {
    forall i | 0 <= i < |c|
      ensures Key(c[i]) in [k] + ks && Seqs.FirstIndex([k] + ks, Key(c[i])) == 1 + Seqs.FirstIndex(ks, Key(c[i]))
    {
      Seqs.FirstIndexCons(k, ks, Key(c[i]));
    }
  }

  lemma OrderShift(k: Combination, ks: seq<Combination>, c: seq<Entry>)
    requires InFirstOrder(ks, c)
    requires forall i :: 0 <= i < |c| ==> Key(c[i]) != k
    ensures InFirstOrder([k] + ks, c)
  {
    ShiftIndex(k, ks, c);
  }

  /** An entry with a new combination, put in front of both, keeps the order. */
  lemma OrderCons(e: Entry, ks: seq<Combination>, c: seq<Entry>)
    requires InFirstOrder(ks, c)
    requires forall i :: 0 <= i < |c| ==> Key(c[i]) != Key(e)
    ensures InFirstOrder([Key(e)] + ks, [e] + c)
  {
    var ks2 := [Key(e)] + ks;
    var c2 := [e] + c;
    ShiftIndex(Key(e), ks, c);
    assert Seqs.FirstIndex(ks2, Key(e)) == 0;
    assert forall i :: 0 < i < |c2| ==> c2[i] == c[i - 1];
    assert KeysIn(ks2, c2);
    forall i, j | 0 <= i < j < |c2|
      ensures Seqs.FirstIndex(ks2, Key(c2[i])) < Seqs.FirstIndex(ks2, Key(c2[j]))
    {
      if i > 0 {
        assert Seqs.FirstIndex(ks, Key(c[i - 1])) < Seqs.FirstIndex(ks, Key(c[j - 1]));
      }
    }
  }

  lemma EntriesCons(rows: seq<Row>)
    requires rows != [] && Complete(rows[0])
    ensures Keys(Entries(rows)) == [Key(EntryOf(rows[0]))] + Keys(Entries(rows[1..]))
  {
    assert Entries(rows) == [EntryOf(rows[0])] + Entries(rows[1..]);
  }

  /** The records come in the order in which their combinations first
      occur among the complete rows. */
  lemma {:induction false} CollectOrder(rows: seq<Row>, seen: set<Combination>)
    ensures InFirstOrder(Keys(Entries(rows)), Collect(rows, seen))
  {
    if rows != [] {
      if !Complete(rows[0]) {
        CollectOrder(rows[1..], seen);
        assert Entries(rows) == Entries(rows[1..]);
      } else {
        var k := Key(EntryOf(rows[0]));
        var s' := if k in seen then seen else seen + {k};
        CollectOrder(rows[1..], s');
        CollectKeys(rows[1..], s');
        EntriesCons(rows);
        var c' := Collect(rows[1..], s');
        forall i | 0 <= i < |c'|
          ensures Key(c'[i]) != k
        {
          assert Keys(c')[i] == Key(c'[i]);
        }
        if k in seen {
          OrderShift(k, Keys(Entries(rows[1..])), c');
        } else {
          OrderCons(EntryOf(rows[0]), Keys(Entries(rows[1..])), c');
        }
      }
    }
  }

  function Codes(es: seq<Entry>): (cs: seq<string>)
    ensures |cs| == |es|
    ensures forall i :: 0 <= i < |es| ==> cs[i] == es[i].attributeCode
  {
    seq(|es|, i requires 0 <= i < |es| => es[i].attributeCode)
  }

  /** The `attribute_counts` loop. */
  function CountCodes(es: seq<Entry>): (m: seq<(string, int)>)
    ensures Assoc.Sum(m) == |es|
    ensures Seqs.NoDup(Assoc.Keys(m))
    ensures forall k :: k in Assoc.Keys(m) <==> k in Codes(es)
  {
    if es == [] then []
    else
      var m := CountCodes(es[..|es| - 1]);
      assert Codes(es) == Codes(es[..|es| - 1]) + [es[|es| - 1].attributeCode];
      Assoc.PutKeepsNoDup(m, es[|es| - 1].attributeCode, Assoc.Get(m, es[|es| - 1].attributeCode).GetOr(0) + 1);
      Assoc.Bump(m, es[|es| - 1].attributeCode)
  }

  function CodeIs(k: string): Entry -> bool
  {
    (e: Entry) => e.attributeCode == k
  }

  /** Each attribute code counts exactly the records that carry it. */
  lemma {:induction false} CountCodesGet(es: seq<Entry>, k: string)
    requires k in Codes(es)
    ensures Assoc.Get(CountCodes(es), k) == Some(|Seqs.Filter(es, CodeIs(k))|)
    decreases |es|
  {
    var ys := es[..|es| - 1];
    var e := es[|es| - 1];
    CodesSnoc(es);
    CountUnfold(es);
    BumpGet(CountCodes(ys), e.attributeCode, k);
    FilterStep(es, k);
    if k in Codes(ys) {
      CountCodesGet(ys, k);
    } else {
      FilterNone(ys, k);
      assert !Assoc.HasKey(CountCodes(ys), k);
    }
  }

  lemma CodesSnoc(es: seq<Entry>)
    requires es != []
    ensures Codes(es) == Codes(es[..|es| - 1]) + [es[|es| - 1].attributeCode]
  {
  }

  lemma CountUnfold(es: seq<Entry>)
    requires es != []
    ensures CountCodes(es) == Assoc.Bump(CountCodes(es[..|es| - 1]), es[|es| - 1].attributeCode)
  {
  }

  lemma BumpGet(m: seq<(string, int)>, c: string, k: string)
    ensures Assoc.Get(Assoc.Bump(m, c), k)
      == if k == c then Some(Assoc.Get(m, k).GetOr(0) + 1) else Assoc.Get(m, k)
  {
  }

  lemma FilterStep(es: seq<Entry>, k: string)
    requires es != []
    ensures |Seqs.Filter(es, CodeIs(k))|
      == |Seqs.Filter(es[..|es| - 1], CodeIs(k))| + if es[|es| - 1].attributeCode == k then 1 else 0
  {
    var ys, e := es[..|es| - 1], es[|es| - 1];
    Seqs.FilterSnoc(ys, e, CodeIs(k));
    assert ys + [e] == es;
    assert CodeIs(k)(e) <==> e.attributeCode == k;
  }

  lemma {:induction false} FilterNone(es: seq<Entry>, k: string)
    requires k !in Codes(es)
    ensures Seqs.Filter(es, CodeIs(k)) == []
  {
    if es != [] {
      assert Codes(es[1..]) == Codes(es)[1..];
      FilterNone(es[1..], k);
    }
  }

  function Ids(es: seq<Entry>): (ids: seq<int>)
    ensures |ids| == |es|
    ensures forall i :: 0 <= i < |es| ==> ids[i] == es[i].id
  {
    seq(|es|, i requires 0 <= i < |es| => es[i].id)
  }

  /** `len(set(r['id'] for r in records))`: at most one per record. */
  function UniqueProducts(es: seq<Entry>): (n: nat)
    ensures n <= |es|
    ensures n == |Seqs.ToSet(Ids(es))|
  {
    Seqs.CardToSet(Ids(es));
    |Seqs.ToSet(Ids(es))|
  }

  function RecordOf(e: Entry): Record
  {
    [("id", VInt(e.id)), ("attribute_id", VInt(e.attributeId)),
     ("attribute_code", VStr(e.attributeCode)), ("store_id", VInt(e.storeId))]
  }

  function Records(es: seq<Entry>): (vs: seq<Value>)
    ensures |vs| == |es|
    ensures forall i :: 0 <= i < |es| ==> vs[i] == VDict(RecordOf(es[i]))
  {
    seq(|es|, i requires 0 <= i < |es| => VDict(RecordOf(es[i])))
  }

  function Counts(m: seq<(string, int)>): (vs: seq<(string, Value)>)
    ensures Assoc.Keys(vs) == Assoc.Keys(m)
  {
    var vs := Assoc.MapValues(m, (n: int) => VInt(n));
    Assoc.MapValuesGet(m, (n: int) => VInt(n), "");
    vs
  }

  function N(n: nat): string { Text.NatToString(n) }

  /** The issue for the recorded entries. */
  function ImagesIssue(es: seq<Entry>): (i: Issue)
    ensures Valid(i) && i.severity == "medium" && i.checkName == Name
  {
    var u := UniqueProducts(es);
    Issue(Name, "medium",
      "Found " + N(|es|) + " missing product image attribute(s)",
      "Found " + N(|es|) + " missing image attribute value(s) affecting " + N(u) + " unique product(s)",
      [("records", VList(Records(es))),
       ("summary", VDict([("Total missing attributes", VInt(|es|)),
                          ("Unique products affected", VInt(u)),
                          ("By attribute", VDict(Counts(CountCodes(es))))]))])
  }

  function Report(rows: seq<Row>): IssueCollection
  {
    if rows == [] then Empty
    else
      var es := Collect(rows, {});
      if es == [] then Empty else Checks.Emit(Empty, ImagesIssue(es))
  }

  /** `run`: a failing query yields exactly one high-severity issue. */
  function Run(q: Checks.Query<Row>): (r: IssueCollection)
    ensures q.Failure? ==> r.issues == [Issue(Name, "high", ErrorMessage, q.error, [])]
  {
    match q
    case Failure(e) => Checks.Failed(Name, ErrorMessage, e)
    case Success(rows) => Report(rows)
  }

  /** Something is recorded exactly when some row has no NULL key field. */
  lemma CollectEmpty(rows: seq<Row>)
    ensures Collect(rows, {}) != [] <==> exists i :: 0 <= i < |rows| && Complete(rows[i])
  {
    var es := Collect(rows, {});
    CollectKeys(rows, {});
    if exists i :: 0 <= i < |rows| && Complete(rows[i]) {
      var i :| 0 <= i < |rows| && Complete(rows[i]);
      assert Occurs(rows, Key(EntryOf(rows[i])));
      assert Key(EntryOf(rows[i])) in Keys(es);
    }
    if es != [] {
      assert Key(es[0]) in Keys(es);
      var i :| 0 <= i < |rows| && Complete(rows[i]) && Key(EntryOf(rows[i])) == Key(es[0]);
    }
  }

  /** At most one issue, present exactly when some row has no NULL key field,
      and it summarises the deduplicated records. */
  lemma ReportSpec(rows: seq<Row>)
    ensures Len(Report(rows)) <= 1 && ValidCollection(Report(rows))
    ensures Len(Report(rows)) == 1 <==> exists i :: 0 <= i < |rows| && Complete(rows[i])
    ensures Len(Report(rows)) == 1 ==> Report(rows).issues == [ImagesIssue(Collect(rows, {}))]
  {
    CollectEmpty(rows);
  }
}
