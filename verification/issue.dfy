/** Issues and issue collections. An issue is validated when it is built; a
    collection is an ordered list of issues with append, merge, filtering,
    grouping by check, severity counts and a summary. Dictionaries returned by
    the source are insertion-ordered association lists here. */
module Issues {
  import opened Wrappers
  import opened Values
  import Assoc
  import Seqs

  const ValidSeverities: set<string> := {"low", "medium", "high"}

  datatype Issue = Issue(
    checkName: string,
    severity: string,
    message: string,
    details: string,
    extraData: Record)

  /** The `ValueError`s of `Issue.validate`, one per requirement. */
  datatype ValidationError =
    | CheckNameRequired
    | SeverityRequired
    | InvalidSeverity(got: string)
    | MessageRequired

  predicate Valid(i: Issue)
  {
    i.checkName != "" && i.severity in ValidSeverities && i.message != ""
  }

  /** `Issue.validate`: the first requirement that fails, in the order the
      source tests them, or nothing when the issue is valid. */
  function Validate(i: Issue): (r: Option<ValidationError>)
    ensures r.None? <==> Valid(i)
  {
    if i.checkName == "" then Some(CheckNameRequired)
    else if i.severity == "" then Some(SeverityRequired)
    else if i.severity !in ValidSeverities then Some(InvalidSeverity(i.severity))
    else if i.message == "" then Some(MessageRequired)
    else None
  }

  /** `Issue(check_name, severity, message, details, extra_data)`: missing
      details become the empty string and missing or empty extra data the
      empty dict; construction fails exactly when validation does. */
  function NewIssue(
    checkName: string, severity: string, message: string,
    details: Option<string>, extraData: Option<Record>): (r: Result<Issue, ValidationError>)
    ensures r.Success? <==> checkName != "" && severity in ValidSeverities && message != ""
    ensures r.Success? ==> r.value == Issue(checkName, severity, message, details.GetOr(""), extraData.GetOr([]))
    ensures r.Success? ==> Valid(r.value)
    ensures checkName == "" ==> r == Failure(CheckNameRequired)
    ensures checkName != "" && severity == "" ==> r == Failure(SeverityRequired)
    ensures checkName != "" && severity != "" && severity !in ValidSeverities ==> r == Failure(InvalidSeverity(severity))
    ensures checkName != "" && severity in ValidSeverities && message == "" ==> r == Failure(MessageRequired)
  {
    var issue := Issue(checkName, severity, message, details.GetOr(""), extraData.GetOr([]));
    match Validate(issue)
    case Some(e) => Failure(e)
    case None => Success(issue)
  }

  /** `Issue.has_extra_data`. */
  predicate HasExtraData(i: Issue)
  {
    |i.extraData| > 0
  }

  /** An issue built without extra data, or with an empty dict, reports no
      extra data; one built with a non-empty dict reports it. */
  lemma HasExtraDataIffGiven(
    checkName: string, severity: string, message: string,
    details: Option<string>, extraData: Option<Record>)
    requires NewIssue(checkName, severity, message, details, extraData).Success?
    ensures HasExtraData(NewIssue(checkName, severity, message, details, extraData).value)
            <==> extraData.Some? && extraData.value != []
  {
  }

  datatype IssueCollection = IssueCollection(issues: seq<Issue>)

  const Empty: IssueCollection := IssueCollection([])

  /** Every issue in the collection passed validation when it was added. */
  predicate ValidCollection(c: IssueCollection)
  {
    forall i :: 0 <= i < |c.issues| ==> Valid(c.issues[i])
  }

  /** `len(collection)`. */
  function Len(c: IssueCollection): nat
  {
    |c.issues|
  }

  /** `IssueCollection.is_empty`. */
  predicate IsEmpty(c: IssueCollection)
  {
    |c.issues| == 0
  }

  /** `add_issue`: validation runs before the append, so a failing issue
      leaves no trace; a valid one lands exactly once, at the end. */
  function AddIssue(
    c: IssueCollection, checkName: string, severity: string, message: string,
    details: Option<string>, extraData: Option<Record>): (r: Result<IssueCollection, ValidationError>)
    ensures r.Success? <==> checkName != "" && severity in ValidSeverities && message != ""
    ensures r.Failure? ==> r.error == NewIssue(checkName, severity, message, details, extraData).error
    ensures r.Success? ==> |r.value.issues| == |c.issues| + 1
    ensures r.Success? ==> r.value.issues[..|c.issues|] == c.issues
    ensures r.Success? ==> r.value.issues[|c.issues|]
                           == Issue(checkName, severity, message, details.GetOr(""), extraData.GetOr([]))
    ensures r.Success? && ValidCollection(c) ==> ValidCollection(r.value)
  {
    var issue :- NewIssue(checkName, severity, message, details, extraData);
    Success(IssueCollection(c.issues + [issue]))
  }

  /** `extend`: the receiver's issues followed by the other collection's, both
      in their own order. */
  function Extend(c: IssueCollection, other: IssueCollection): (r: IssueCollection)
    ensures Len(r) == Len(c) + Len(other)
    ensures r.issues[..Len(c)] == c.issues && r.issues[Len(c)..] == other.issues
    ensures ValidCollection(c) && ValidCollection(other) ==> ValidCollection(r)
  {
    IssueCollection(c.issues + other.issues)
  }

  function SeverityIs(s: string): Issue -> bool
  {
    (i: Issue) => i.severity == s
  }

  function NameIs(k: string): Issue -> bool
  {
    (i: Issue) => i.checkName == k
  }

  /** `filter_by_severity`: a new collection holding, in their original order,
      exactly the issues of the given severity, each as often as in `c`. */
  function FilterBySeverity(c: IssueCollection, s: string): (r: IssueCollection)
    ensures Seqs.IsSubseq(r.issues, c.issues)
    ensures forall i :: 0 <= i < |r.issues| ==> r.issues[i].severity == s
    ensures forall x: Issue :: x.severity == s ==> multiset(r.issues)[x] == multiset(c.issues)[x]
    ensures ValidCollection(c) ==> ValidCollection(r)
  {
    Seqs.FilterSpec(c.issues, SeverityIs(s));
    IssueCollection(Seqs.Filter(c.issues, SeverityIs(s)))
  }

  /** Filtering by severity distributes over merging. */
  lemma FilterExtend(a: IssueCollection, b: IssueCollection, s: string)
    ensures FilterBySeverity(Extend(a, b), s) == Extend(FilterBySeverity(a, s), FilterBySeverity(b, s))
  {
    Seqs.FilterAppend(a.issues, b.issues, SeverityIs(s));
  }

  function Names(xs: seq<Issue>): (ns: seq<string>)
    ensures |ns| == |xs|
    ensures forall i :: 0 <= i < |xs| ==> ns[i] == xs[i].checkName
  {
    seq(|xs|, i requires 0 <= i < |xs| => xs[i].checkName)
  }

  type Groups = seq<(string, seq<Issue>)>

  /** One iteration of the grouping loop: create the group on first sight of
      the check name, then append the issue to it. */
  function GroupStep(g: Groups, x: Issue): Groups
  {
    Assoc.Put(g, x.checkName, Assoc.Get(g, x.checkName).GetOr([]) + [x])
  }

  /** The grouping loop run over `xs`, in order. */
  function GroupFold(xs: seq<Issue>): Groups
  {
    if xs == [] then [] else GroupStep(GroupFold(xs[..|xs| - 1]), xs[|xs| - 1])
  }

  /** `group_by_check`. */
  function GroupByCheck(c: IssueCollection): Groups
  {
    GroupFold(c.issues)
  }

  /** The keys `ks` appear once each, in order of first appearance in `ns`,
      and are exactly the names occurring in `ns`. */
  ghost predicate FirstSeen(ks: seq<string>, ns: seq<string>)
  {
    && Seqs.NoDup(ks)
    && (forall k :: k in ks <==> k in ns)
    && (forall i, j :: 0 <= i < j < |ks| ==>
          ks[i] in ns && ks[j] in ns && Seqs.FirstIndex(ns, ks[i]) < Seqs.FirstIndex(ns, ks[j]))
  }

  /** The group keys are the check names of the issues, in first-seen order. */
  ghost predicate FirstSeenKeys(g: Groups, xs: seq<Issue>)
  {
    FirstSeen(Assoc.Keys(g), Names(xs))
  }

  /** A name seen before adds no key and moves none. */
  lemma FirstSeenAgain(ks: seq<string>, ns: seq<string>, k: string)
    requires FirstSeen(ks, ns) && k in ns
    ensures FirstSeen(ks, ns + [k])
  {
    FirstIndexKept(ns, k);
  }

  /** A new name becomes the last key. */
  lemma FirstSeenNew(ks: seq<string>, ns: seq<string>, k: string)
    requires FirstSeen(ks, ns) && k !in ns
    ensures FirstSeen(ks + [k], ns + [k])
  {
    var ks', ns' := ks + [k], ns + [k];
    FirstIndexKept(ns, k);
    assert ns'[|ns|] == k;
    assert Seqs.FirstIndex(ns', k) == |ns|;
    forall i, j | 0 <= i < j < |ks'|
      ensures ks'[i] in ns' && ks'[j] in ns' && Seqs.FirstIndex(ns', ks'[i]) < Seqs.FirstIndex(ns', ks'[j])
    {
      assert ks'[i] == ks[i] && ks[i] in ns;
      if j == |ks| {
        assert Seqs.FirstIndex(ns, ks[i]) < |ns|;
      }
    }
  }

  lemma FilterNone(xs: seq<Issue>, k: string)
    requires k !in Names(xs)
    ensures Seqs.Filter(xs, NameIs(k)) == []
  {
    Seqs.FilterSpec(xs, NameIs(k));
    var f := Seqs.Filter(xs, NameIs(k));
    assert forall i :: 0 <= i < |xs| ==> Names(xs)[i] != k;
    assert forall x: Issue :: NameIs(k)(x) ==> multiset(xs)[x] == 0;
    assert multiset(f) == multiset{};
  }

  /** Each present key maps to the in-order sub-list of issues with that name. */
  ghost predicate GroupsMatch(g: Groups, xs: seq<Issue>)
  {
    forall k :: Assoc.HasKey(g, k) ==> Assoc.Get(g, k) == Some(Seqs.Filter(xs, NameIs(k)))
  }

  /** Appending a name leaves where the earlier names first occur. */
  lemma FirstIndexKept(ns: seq<string>, k: string)
    ensures forall k' :: k' in ns ==> k' in ns + [k] && Seqs.FirstIndex(ns + [k], k') == Seqs.FirstIndex(ns, k')
  {
    forall k' | k' in ns
      ensures k' in ns + [k] && Seqs.FirstIndex(ns + [k], k') == Seqs.FirstIndex(ns, k')
    {
      Seqs.FirstIndexAppend(ns, [k], k');
    }
  }

  lemma GroupStepKeys(g: Groups, ys: seq<Issue>, x: Issue)
    requires FirstSeenKeys(g, ys)
    ensures FirstSeenKeys(GroupStep(g, x), ys + [x])
  {
    if Assoc.HasKey(g, x.checkName) {
      GroupStepSeen(g, ys, x);
    } else {
      GroupStepUnseen(g, ys, x);
    }
  }

  /** A check already grouped keeps its place. */
  lemma GroupStepSeen(g: Groups, ys: seq<Issue>, x: Issue)
    requires FirstSeenKeys(g, ys) && Assoc.HasKey(g, x.checkName)
    ensures FirstSeenKeys(GroupStep(g, x), ys + [x])
  {
    assert Names(ys + [x]) == Names(ys) + [x.checkName];
    FirstSeenAgain(Assoc.Keys(g), Names(ys), x.checkName);
  }

  /** A new check goes last, and it is the last name to occur first. */
  lemma GroupStepUnseen(g: Groups, ys: seq<Issue>, x: Issue)
    requires FirstSeenKeys(g, ys) && !Assoc.HasKey(g, x.checkName)
    ensures FirstSeenKeys(GroupStep(g, x), ys + [x])
  {
    assert Names(ys + [x]) == Names(ys) + [x.checkName];
    FirstSeenNew(Assoc.Keys(g), Names(ys), x.checkName);
  }

  lemma GroupStepValues(g: Groups, ys: seq<Issue>, x: Issue)
    requires forall k :: k in Assoc.Keys(g) <==> k in Names(ys)
    requires GroupsMatch(g, ys)
    ensures GroupsMatch(GroupStep(g, x), ys + [x])
  {
    var k := x.checkName;
    var g' := GroupStep(g, x);
    forall k' | Assoc.HasKey(g', k')
      ensures Assoc.Get(g', k') == Some(Seqs.Filter(ys + [x], NameIs(k')))
    {
      Seqs.FilterSnoc(ys, x, NameIs(k'));
      var prior := Assoc.Get(g, k).GetOr([]);
      assert Assoc.Get(g', k) == Some(prior + [x]);
      if k' == k {
        assert NameIs(k)(x);
        if Assoc.HasKey(g, k) {
          assert prior == Seqs.Filter(ys, NameIs(k));
          assert Seqs.Filter(ys + [x], NameIs(k)) == prior + [x];
        } else {
          FilterNone(ys, k);
          assert Seqs.Filter(ys + [x], NameIs(k)) == prior + [x];
        }
      } else {
        assert !NameIs(k')(x);
        assert Assoc.Get(g', k') == Assoc.Get(g, k');
        assert Assoc.HasKey(g, k');
        assert Seqs.Filter(ys + [x], NameIs(k')) == Seqs.Filter(ys, NameIs(k'));
      }
    }
  }

  lemma {:induction false} GroupFoldSpec(xs: seq<Issue>)
    ensures FirstSeenKeys(GroupFold(xs), xs)
    ensures GroupsMatch(GroupFold(xs), xs)
    decreases |xs|
  {
    if xs != [] {
      var ys := xs[..|xs| - 1];
      assert xs == ys + [xs[|xs| - 1]];
      GroupFoldSpec(ys);
      GroupStepKeys(GroupFold(ys), ys, xs[|xs| - 1]);
      GroupStepValues(GroupFold(ys), ys, xs[|xs| - 1]);
    }
  }

  /** The groups are keyed by the distinct check names in first-seen order. */
  lemma {:induction false} GroupFoldKeys(xs: seq<Issue>)
    ensures Assoc.Keys(GroupFold(xs)) == Seqs.Dedup(Names(xs))
    decreases |xs|
  {
    if xs != [] {
      var ys := xs[..|xs| - 1];
      GroupFoldKeys(ys);
      assert Names(xs)[..|xs| - 1] == Names(ys);
    }
  }

  /** What `group_by_check` returns: one group per distinct check name, keyed
      in first-seen order, each group the in-order sub-list of the issues with
      that name, so issues of different checks never share a group. */
  lemma GroupByCheckSpec(c: IssueCollection)
    ensures FirstSeenKeys(GroupByCheck(c), c.issues)
    ensures forall i :: 0 <= i < |GroupByCheck(c)| ==>
              GroupByCheck(c)[i].1 == Seqs.Filter(c.issues, NameIs(GroupByCheck(c)[i].0))
    ensures forall i, j :: 0 <= i < |GroupByCheck(c)| && 0 <= j < |GroupByCheck(c)[i].1| ==>
              GroupByCheck(c)[i].1[j].checkName == GroupByCheck(c)[i].0
  {
    var g := GroupByCheck(c);
    GroupFoldSpec(c.issues);
    forall i | 0 <= i < |g|
      ensures g[i].1 == Seqs.Filter(c.issues, NameIs(g[i].0))
    {
      Assoc.GetAt(g, i);
    }
    forall i | 0 <= i < |g|
      ensures forall j :: 0 <= j < |g[i].1| ==> g[i].1[j].checkName == g[i].0
    {
      Seqs.FilterSpec(c.issues, NameIs(g[i].0));
    }
  }

  function SizeOf(v: seq<Issue>): int
  {
    |v|
  }

  /** `{name: len(issues) for name, issues in group_by_check().items()}`. */
  function GroupSizes(g: Groups): seq<(string, int)>
  {
    Assoc.MapValues(g, SizeOf)
  }

  lemma {:induction false} GroupSizesSum(xs: seq<Issue>)
    ensures Assoc.Sum(GroupSizes(GroupFold(xs))) == |xs|
    decreases |xs|
  {
    if xs != [] {
      var ys := xs[..|xs| - 1];
      var x := xs[|xs| - 1];
      GroupSizesSum(ys);
      var g := GroupFold(ys);
      var k := x.checkName;
      var v := Assoc.Get(g, k).GetOr([]) + [x];
      Assoc.MapValuesPut(g, SizeOf, k, v);
      Assoc.MapValuesGet(g, SizeOf, k);
      assert GroupSizes(GroupStep(g, x)) == Assoc.Bump(GroupSizes(g), k);
    }
  }

  const InitialCounts: seq<(string, int)> := [("low", 0), ("medium", 0), ("high", 0)]

  /** The counting loop of `count_by_severity` run over `xs`, in order. */
  function CountFold(xs: seq<Issue>): seq<(string, int)>
  {
    if xs == [] then InitialCounts
    else Assoc.Bump(CountFold(xs[..|xs| - 1]), xs[|xs| - 1].severity)
  }

  predicate AllSeveritiesValid(xs: seq<Issue>)
  {
    forall i :: 0 <= i < |xs| ==> xs[i].severity in ValidSeverities
  }

  lemma {:induction false} CountFoldKeys(xs: seq<Issue>)
    ensures |CountFold(xs)| >= 3 && Assoc.Keys(CountFold(xs))[..3] == ["low", "medium", "high"]
    ensures AllSeveritiesValid(xs) ==> Assoc.Keys(CountFold(xs)) == ["low", "medium", "high"]
    decreases |xs|
  {
    if xs == [] {
      assert Assoc.Keys(InitialCounts) == ["low", "medium", "high"];
    } else {
      var ys := xs[..|xs| - 1];
      var x := xs[|xs| - 1];
      CountFoldKeys(ys);
      var m := CountFold(ys);
      assert Assoc.Keys(CountFold(xs))[..3] == Assoc.Keys(m)[..3];
      if AllSeveritiesValid(xs) {
        assert AllSeveritiesValid(ys) by {
          assert forall i :: 0 <= i < |ys| ==> ys[i] == xs[i];
        }
        assert x.severity in ValidSeverities;
        assert Assoc.HasKey(m, x.severity);
      }
    }
  }

  lemma {:induction false} CountFoldSum(xs: seq<Issue>)
    ensures Assoc.Sum(CountFold(xs)) == |xs|
    decreases |xs|
  {
    if xs != [] {
      CountFoldSum(xs[..|xs| - 1]);
    }
  }

  lemma InitialCountsZero(s: string)
    requires s in ValidSeverities
    ensures Assoc.Get(InitialCounts, s) == Some(0)
  {
    assert Assoc.Keys(InitialCounts) == ["low", "medium", "high"];
    assert Seqs.NoDup(Assoc.Keys(InitialCounts));
    Assoc.GetAt(InitialCounts, if s == "low" then 0 else if s == "medium" then 1 else 2);
  }

  lemma {:induction false} CountFoldCounts(xs: seq<Issue>, s: string)
    requires AllSeveritiesValid(xs) && s in ValidSeverities
    ensures Assoc.Get(CountFold(xs), s) == Some(|Seqs.Filter(xs, SeverityIs(s))|)
    decreases |xs|
  {
    if xs == [] {
      InitialCountsZero(s);
    } else {
      var ys := xs[..|xs| - 1];
      var x := xs[|xs| - 1];
      assert xs == ys + [x];
      assert AllSeveritiesValid(ys) by {
        assert forall i :: 0 <= i < |ys| ==> ys[i] == xs[i];
      }
      CountFoldCounts(ys, s);
      var m := CountFold(ys);
      assert CountFold(xs) == Assoc.Bump(m, x.severity);
      Seqs.FilterSnoc(ys, x, SeverityIs(s));
      if x.severity == s {
        assert SeverityIs(s)(x);
        assert |Seqs.Filter(xs, SeverityIs(s))| == |Seqs.Filter(ys, SeverityIs(s))| + 1;
      } else {
        assert !SeverityIs(s)(x);
        assert Seqs.Filter(xs, SeverityIs(s)) == Seqs.Filter(ys, SeverityIs(s));
      }
    }
  }

  /** `count_by_severity`: the keys low, medium and high are always present
      and first; for validated issues they are the only keys, each counts the
      issues of that severity, and the counts add up to the collection size. */
  function CountBySeverity(c: IssueCollection): (r: seq<(string, int)>)
    ensures |r| >= 3 && Assoc.Keys(r)[..3] == ["low", "medium", "high"]
    ensures Assoc.Sum(r) == Len(c)
    ensures ValidCollection(c) ==> Assoc.Keys(r) == ["low", "medium", "high"]
    ensures ValidCollection(c) ==>
              forall s :: s in ValidSeverities ==> Assoc.Get(r, s) == Some(Len(FilterBySeverity(c, s)))
  {
    CountFoldKeys(c.issues);
    CountFoldSum(c.issues);
    assert ValidCollection(c) ==> forall s :: s in ValidSeverities ==>
             Assoc.Get(CountFold(c.issues), s) == Some(Len(FilterBySeverity(c, s))) by {
      if ValidCollection(c) {
        forall s | s in ValidSeverities
          ensures Assoc.Get(CountFold(c.issues), s) == Some(Len(FilterBySeverity(c, s)))
        {
          CountFoldCounts(c.issues, s);
        }
      }
    }
    CountFold(c.issues)
  }

  datatype Summary = Summary(
    totalIssues: nat,
    bySeverity: seq<(string, int)>,
    byCheck: seq<(string, int)>,
    uniqueChecks: nat)

  /** `get_summary`: the total is the collection size, `by_check` counts each
      check's issues under the distinct check names in first-seen order and
      sums to the total, and `unique_checks` is the number of distinct check
      names. */
  function GetSummary(c: IssueCollection): (r: Summary)
    ensures r.totalIssues == Len(c)
    ensures r.bySeverity == CountBySeverity(c)
    ensures FirstSeenKeys(GroupByCheck(c), c.issues) && Assoc.Keys(r.byCheck) == Assoc.Keys(GroupByCheck(c))
    ensures forall i :: 0 <= i < |r.byCheck| ==> r.byCheck[i].1 == |Seqs.Filter(c.issues, NameIs(r.byCheck[i].0))|
    ensures Assoc.Sum(r.byCheck) == r.totalIssues
    ensures r.uniqueChecks == |Seqs.ToSet(Names(c.issues))| == |Assoc.Keys(r.byCheck)|
  {
    var g := GroupByCheck(c);
    GroupByCheckSpec(c);
    GroupSizesSum(c.issues);
    Assoc.MapValuesGet(g, SizeOf, "");
    Seqs.CardToSet(Assoc.Keys(g));
    assert Seqs.ToSet(Assoc.Keys(g)) == Seqs.ToSet(Names(c.issues));
    Summary(|c.issues|, CountBySeverity(c), GroupSizes(g), |g|)
  }

  /** A collection is empty exactly when its summary counts nothing and it
      has no groups. */
  lemma EmptyIffNoGroups(c: IssueCollection)
    ensures IsEmpty(c) <==> GetSummary(c).totalIssues == 0
    ensures IsEmpty(c) <==> GroupByCheck(c) == []
  {
    GroupByCheckSpec(c);
    if !IsEmpty(c) {
      assert c.issues[0].checkName in Names(c.issues);
    }
  }
}
