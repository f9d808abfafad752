/** The check manager: resolving user-given check names, choosing the checks
    to run (include, exclude or all), folding their outcomes into one
    collection and the gate in front of the report. Discovery is an input:
    the discovered checks, each with what its `run` gives, and the map from
    file names to class names. */
module Manager {
  import opened Wrappers
  import opened Issues
  import Text
  import Seqs
  import Reporter

  /** What running a check gives: its issues, or the message of the
      exception it raised. */
  datatype Outcome = Ran(found: IssueCollection) | Raised(error: string)

  /** A discovered check: its class name and its outcome. */
  datatype Check = Check(checkName: string, outcome: Outcome)

  /** File name (without `.py`) to class name, in discovery order. */
  type FileMap = seq<(string, string)>

  // ---- _resolve_check_name ----

  /** Equal once both sides are lower-cased. */
  predicate SameName(a: string, b: string)
  {
    Text.Lower(a) == Text.Lower(b)
  }

  /** Position of the first check whose class name matches `name`. */
  function ClassMatch(name: string, checks: seq<Check>): (r: Option<nat>)
    ensures r.None? <==> forall i :: 0 <= i < |checks| ==> !SameName(checks[i].checkName, name)
    ensures r.Some? ==> r.value < |checks| && SameName(checks[r.value].checkName, name)
    ensures r.Some? ==> forall j :: 0 <= j < r.value ==> !SameName(checks[j].checkName, name)
  {
    if checks == [] then None
    else if SameName(checks[0].checkName, name) then Some(0)
    else
      match ClassMatch(name, checks[1..])
      case None => None
      case Some(i) => Some(i + 1)
  }

  /** Position of the first file-map entry whose file name matches `name`. */
  function FileMatch(name: string, files: FileMap): (r: Option<nat>)
    ensures r.None? <==> forall j :: 0 <= j < |files| ==> !SameName(files[j].0, name)
    ensures r.Some? ==> r.value < |files| && SameName(files[r.value].0, name)
    ensures r.Some? ==> forall j :: 0 <= j < r.value ==> !SameName(files[j].0, name)
  {
    if files == [] then None
    else if SameName(files[0].0, name) then Some(0)
    else
      match FileMatch(name, files[1..])
      case None => None
      case Some(j) => Some(j + 1)
  }

  /** Check `i` is the first whose class name matches `name`. */
  predicate FirstClass(name: string, checks: seq<Check>, i: nat)
    requires i < |checks|
  {
    SameName(checks[i].checkName, name) && forall j :: 0 <= j < i ==> !SameName(checks[j].checkName, name)
  }

  /** Entry `i` is the first whose file name matches `name`. */
  predicate FirstFile(name: string, files: FileMap, i: nat)
    requires i < |files|
  {
    SameName(files[i].0, name) && forall j :: 0 <= j < i ==> !SameName(files[j].0, name)
  }

  predicate NoClassMatch(name: string, checks: seq<Check>)
  {
    forall i :: 0 <= i < |checks| ==> !SameName(checks[i].checkName, name)
  }

  /** `_resolve_check_name`: the class name of the first check that matches
      ignoring case; failing that, the class of the first matching file
      name; failing both, nothing. */
  function Resolve(name: string, checks: seq<Check>, files: FileMap): (r: Option<string>)
    ensures r.None? <==> NoClassMatch(name, checks) && forall j :: 0 <= j < |files| ==> !SameName(files[j].0, name)
    ensures forall i :: 0 <= i < |checks| && FirstClass(name, checks, i) ==> r == Some(checks[i].checkName)
    ensures NoClassMatch(name, checks) ==>
              forall i :: 0 <= i < |files| && FirstFile(name, files, i) ==> r == Some(files[i].1)
  {
    match ClassMatch(name, checks)
    case Some(i) => Some(checks[i].checkName)
    case None =>
      match FileMatch(name, files)
      case Some(j) => Some(files[j].1)
      case None => None
  }

  lemma {:induction false} ClassMatchCase(a: string, b: string, checks: seq<Check>)
    requires Text.Lower(a) == Text.Lower(b)
    ensures ClassMatch(a, checks) == ClassMatch(b, checks)
  {
    if checks != [] {
      ClassMatchCase(a, b, checks[1..]);
    }
  }

  lemma {:induction false} FileMatchCase(a: string, b: string, files: FileMap)
    requires Text.Lower(a) == Text.Lower(b)
    ensures FileMatch(a, files) == FileMatch(b, files)
  {
    if files != [] {
      FileMatchCase(a, b, files[1..]);
    }
  }

  /** Resolution ignores case: names equal up to case resolve alike. */
  lemma ResolveIgnoresCase(a: string, b: string, checks: seq<Check>, files: FileMap)
    requires Text.Lower(a) == Text.Lower(b)
    ensures Resolve(a, checks, files) == Resolve(b, checks, files)
  {
    ClassMatchCase(a, b, checks);
    FileMatchCase(a, b, files);
  }

  /** A class-name match always wins over a file-name match. */
  lemma ClassBeforeFile(name: string, checks: seq<Check>, files: FileMap, i: nat)
    requires i < |checks| && SameName(checks[i].checkName, name)
    ensures exists k :: 0 <= k <= i && Resolve(name, checks, files) == Some(checks[k].checkName)
  {
    var k := ClassMatch(name, checks).value;
    assert Resolve(name, checks, files) == Some(checks[k].checkName);
  }

  // ---- filter_checks ----

  /** The names of `names` that resolve, in order, with repetitions; a name
      that resolves to the empty string is dropped like one that does not
      resolve, as the source tests the result for truth. */
  function Resolved(names: seq<string>, checks: seq<Check>, files: FileMap): seq<string>
  {
    if names == [] then []
    else
      var rest := Resolved(names[1..], checks, files);
      match Resolve(names[0], checks, files)
      case Some(k) => if k != "" then [k] + rest else rest
      case None => rest
  }

  /** Some name of `names` resolves to `k`, and `k` is not empty. */
  ghost predicate Requested(names: seq<string>, checks: seq<Check>, files: FileMap, k: string)
  {
    k != "" && exists n :: n in names && Resolve(n, checks, files) == Some(k)
  }

  lemma {:induction false} ResolvedSpec(names: seq<string>, checks: seq<Check>, files: FileMap)
    ensures forall k :: k in Resolved(names, checks, files) <==> Requested(names, checks, files, k)
    ensures |Resolved(names, checks, files)| <= |names|
  {
    if names != [] {
      ResolvedSpec(names[1..], checks, files);
      assert forall n :: n in names <==> n == names[0] || n in names[1..] by {
        assert names == [names[0]] + names[1..];
      }
    }
  }

  datatype Selection = Selection(checks: seq<Check>, info: string)

  const BothGiven: string := "Cannot use both --checks and --exclude at the same time"
  const AllExecuted: string := "All checks executed"

  function NameIn(ks: seq<string>): Check -> bool
  {
    (c: Check) => c.checkName in ks
  }

  function NameNotIn(ks: seq<string>): Check -> bool
  {
    (c: Check) => c.checkName !in ks
  }

  /** The names spaced as in the report and joined with commas. */
  function Formatted(ks: seq<string>): string
  {
    Text.Join(", ", seq(|ks|, i requires 0 <= i < |ks| => Reporter.FormatCheckName(ks[i])))
  }

  /** Include mode: the checks named by the resolved names, in discovery
      order; when there are none, an empty selection naming every requested
      name. */
  function Include(all: seq<Check>, files: FileMap, includeNames: seq<string>): Selection
  {
    var keep := Resolved(includeNames, all, files);
    var picked := Seqs.Filter(all, NameIn(keep));
    if picked == [] then Selection([], "No valid checks found from: " + Text.Join(", ", includeNames))
    else Selection(picked, "Selected checks executed: " + Formatted(keep))
  }

  /** Exclude mode: every check whose name no excluded name resolves to. */
  function Exclude(all: seq<Check>, files: FileMap, excludeNames: seq<string>): Selection
  {
    var drop := Resolved(excludeNames, all, files);
    var info := if drop != [] then "All checks executed except: " + Formatted(drop) else AllExecuted;
    Selection(Seqs.Filter(all, NameNotIn(drop)), info)
  }

  /** `filter_checks`. An absent list and an empty one are treated alike;
      giving both lists is an error. */
  function FilterChecks(all: seq<Check>, files: FileMap, includeNames: seq<string>, excludeNames: seq<string>)
    : (r: Result<Selection, string>)
    ensures r.Failure? <==> includeNames != [] && excludeNames != []
    ensures r.Failure? ==> r.error == BothGiven
    ensures includeNames == [] && excludeNames == [] ==> r == Success(Selection(all, AllExecuted))
  {
    if includeNames != [] && excludeNames != [] then Failure(BothGiven)
    else if includeNames != [] then Success(Include(all, files, includeNames))
    else if excludeNames != [] then Success(Exclude(all, files, excludeNames))
    else Success(Selection(all, AllExecuted))
  }

  /** Include mode keeps, in their order and as often as they were
      discovered, exactly the checks some requested name resolves to. */
  lemma IncludeSelects(all: seq<Check>, files: FileMap, includeNames: seq<string>)
    requires includeNames != []
    ensures var r := FilterChecks(all, files, includeNames, []);
      r.Success? && Seqs.IsSubseq(r.value.checks, all)
      && forall c :: multiset(r.value.checks)[c]
           == if Requested(includeNames, all, files, c.checkName) then multiset(all)[c] else 0
  {
    var keep := Resolved(includeNames, all, files);
    ResolvedSpec(includeNames, all, files);
    Seqs.FilterSpec(all, NameIn(keep));
    if Seqs.Filter(all, NameIn(keep)) == [] {
      assert Seqs.IsSubseq([], all);
    }
  }

  /** Include mode's message: the requested names when nothing was selected,
      the spaced resolved names otherwise. */
  lemma IncludeInfo(all: seq<Check>, files: FileMap, includeNames: seq<string>)
    requires includeNames != []
    ensures var r := FilterChecks(all, files, includeNames, []).value;
      (r.checks == [] <==> forall i :: 0 <= i < |all| ==> !Requested(includeNames, all, files, all[i].checkName))
      && (r.checks == [] ==> r.info == "No valid checks found from: " + Text.Join(", ", includeNames))
      && (r.checks != [] ==> r.info == "Selected checks executed: " + Formatted(Resolved(includeNames, all, files)))
  {
    var keep := Resolved(includeNames, all, files);
    ResolvedSpec(includeNames, all, files);
    FilterEmpty(all, NameIn(keep));
  }

  /** Exclude mode keeps, in their order and as often as they were
      discovered, exactly the checks no excluded name resolves to. */
  lemma ExcludeSelects(all: seq<Check>, files: FileMap, excludeNames: seq<string>)
    requires excludeNames != []
    ensures var r := FilterChecks(all, files, [], excludeNames);
      r.Success? && Seqs.IsSubseq(r.value.checks, all)
      && forall c :: multiset(r.value.checks)[c]
           == if Requested(excludeNames, all, files, c.checkName) then 0 else multiset(all)[c]
  {
    ResolvedSpec(excludeNames, all, files);
    Seqs.FilterSpec(all, NameNotIn(Resolved(excludeNames, all, files)));
  }

  /** Exclude mode's message names the excluded checks, spaced, and is the
      plain "All checks executed" exactly when no excluded name resolves. */
  lemma ExcludeInfo(all: seq<Check>, files: FileMap, excludeNames: seq<string>)
    requires excludeNames != []
    ensures var r := FilterChecks(all, files, [], excludeNames).value;
      (r.info == AllExecuted <==> forall k :: !Requested(excludeNames, all, files, k))
      && (r.info != AllExecuted ==>
            r.info == "All checks executed except: " + Formatted(Resolved(excludeNames, all, files)))
  {
    var drop := Resolved(excludeNames, all, files);
    ResolvedSpec(excludeNames, all, files);
    var r := FilterChecks(all, files, [], excludeNames).value;
    if drop != [] {
      assert |r.info| >= |"All checks executed except: "| > |AllExecuted|;
      assert drop[0] in drop;
    }
  }

  lemma {:induction false} FilterEmpty<T>(xs: seq<T>, p: T -> bool)
    ensures Seqs.Filter(xs, p) == [] <==> forall i :: 0 <= i < |xs| ==> !p(xs[i])
  {
    if xs != [] {
      FilterEmpty(xs[1..], p);
    }
  }

  // ---- run_checks ----

  const ErrorMessage: string := "Error executing check"

  /** The issue recorded for a check that raised. */
  function ErrorIssue(name: string, error: string): Issue
  {
    Issue(name, "high", ErrorMessage, error, [])
  }

  /** One pass of the loop: a check that ran adds its issues; one that raised
      adds a high-severity issue carrying the exception text, which fails
      only when the check has no name. */
  function RunStep(acc: IssueCollection, k: Check): Result<IssueCollection, ValidationError>
  {
    match k.outcome
    case Ran(found) => Success(Extend(acc, found))
    case Raised(e) => AddIssue(acc, k.checkName, "high", ErrorMessage, Some(e), None)
  }

  /** The loop over the selected checks; every check runs, whatever the
      earlier ones did. */
  function RunAll(acc: IssueCollection, checks: seq<Check>): Result<IssueCollection, ValidationError>
    decreases |checks|
  {
    if checks == [] then Success(acc)
    else
      match RunStep(acc, checks[0])
      case Failure(e) => Failure(e)
      case Success(next) => RunAll(next, checks[1..])
  }

  /** What a check adds to the collection. */
  function Contribution(k: Check): seq<Issue>
  {
    match k.outcome
    case Ran(found) => found.issues
    case Raised(e) => [ErrorIssue(k.checkName, e)]
  }

  function Contributions(checks: seq<Check>): seq<Issue>
  {
    if checks == [] then [] else Contribution(checks[0]) + Contributions(checks[1..])
  }

  /** Every check that raised has a name, so its error can be recorded. */
  predicate Recordable(checks: seq<Check>)
  {
    forall i :: 0 <= i < |checks| && checks[i].outcome.Raised? ==> checks[i].checkName != ""
  }

  /** The loop appends, in check order, each check's issues, and one error
      issue per check that raised; it fails only when an error issue cannot
      be recorded. */
  lemma {:induction false} RunAllSpec(acc: IssueCollection, checks: seq<Check>)
    ensures RunAll(acc, checks).Success? <==> Recordable(checks)
    ensures RunAll(acc, checks).Success? ==> RunAll(acc, checks).value.issues == acc.issues + Contributions(checks)
    ensures RunAll(acc, checks).Failure? ==> RunAll(acc, checks).error == CheckNameRequired
    decreases |checks|
  {
    if checks == [] {
      assert acc.issues + [] == acc.issues;
    } else {
      RecordableCons(checks);
      RunStepSpec(acc, checks[0]);
      var step := RunStep(acc, checks[0]);
      if step.Success? {
        var next := step.value;
        RunAllSpec(next, checks[1..]);
        assert RunAll(acc, checks) == RunAll(next, checks[1..]);
        assert Contributions(checks) == Contribution(checks[0]) + Contributions(checks[1..]);
        Seqs.ConcatAssoc(acc.issues, Contribution(checks[0]), Contributions(checks[1..]));
      }
    }
  }

  /** One pass of the loop adds the check's contribution, or fails on a
      check that raised and has no name. */
  lemma RunStepSpec(acc: IssueCollection, k: Check)
    ensures RunStep(acc, k).Success? <==> (k.outcome.Raised? ==> k.checkName != "")
    ensures RunStep(acc, k).Success? ==> RunStep(acc, k).value.issues == acc.issues + Contribution(k)
    ensures RunStep(acc, k).Failure? ==> RunStep(acc, k).error == CheckNameRequired
  {
    if k.outcome.Raised? && k.checkName != "" {
      var r := AddIssue(acc, k.checkName, "high", ErrorMessage, Some(k.outcome.error), None);
      assert r.value.issues == acc.issues + [ErrorIssue(k.checkName, k.outcome.error)];
    }
  }

  lemma RecordableCons(checks: seq<Check>)
    requires checks != []
    ensures Recordable(checks) <==>
      (checks[0].outcome.Raised? ==> checks[0].checkName != "") && Recordable(checks[1..])
  {
    assert forall i :: 1 <= i < |checks| ==> checks[i] == checks[1..][i - 1];
  }

  lemma {:induction false} ContributionsAppend(a: seq<Check>, b: seq<Check>)
    ensures Contributions(a + b) == Contributions(a) + Contributions(b)
  {
    if a == [] {
      assert a + b == b;
    } else {
      assert (a + b)[1..] == a[1..] + b;
      ContributionsAppend(a[1..], b);
    }
  }

  /** Each check adds its issues at its own place: those of the checks
      before it come first and those of the checks after it follow. A check
      that raised adds exactly one issue. */
  lemma ContributionAt(checks: seq<Check>, i: nat)
    requires i < |checks|
    ensures Contributions(checks)
      == Contributions(checks[..i]) + Contribution(checks[i]) + Contributions(checks[i + 1..])
    ensures checks[i].outcome.Raised? ==> |Contribution(checks[i])| == 1
  {
    assert checks == checks[..i] + [checks[i]] + checks[i + 1..];
    ContributionsAppend(checks[..i] + [checks[i]], checks[i + 1..]);
    ContributionsAppend(checks[..i], [checks[i]]);
    assert Contributions([checks[i]]) == Contribution(checks[i]);
  }

  /** The manager's state: the collected issues and the execution message. */
  datatype Manager = Manager(issues: IssueCollection, executionInfo: Option<string>)

  datatype RunError =
    | BothLists(message: string)          // `ValueError` from `filter_checks`
    | NotRecorded(error: ValidationError) // `ValueError` from `add_issue`

  /** `run_checks`: nothing happens without discovered checks; otherwise the
      selection's message is kept and, when something was selected, the
      selected checks run into the manager's collection. */
  function RunChecks(m: Manager, all: seq<Check>, files: FileMap, includeNames: seq<string>, excludeNames: seq<string>)
    : (r: Result<Manager, RunError>)
  {
    if all == [] then Success(m)
    else
      match FilterChecks(all, files, includeNames, excludeNames)
      case Failure(e) => Failure(BothLists(e))
      case Success(sel) =>
        if sel.checks == [] then Success(Manager(m.issues, Some(sel.info)))
        else
          match RunAll(m.issues, sel.checks)
          case Failure(e) => Failure(NotRecorded(e))
          case Success(c) => Success(Manager(c, Some(sel.info)))
  }

  /** A run adds to the collection exactly the contributions of the selected
      checks, and records the selection's message whenever checks were
      discovered. */
  lemma RunChecksSpec(m: Manager, all: seq<Check>, files: FileMap, includeNames: seq<string>, excludeNames: seq<string>)
    ensures all == [] ==> RunChecks(m, all, files, includeNames, excludeNames) == Success(m)
    ensures all != [] ==>
      var f := FilterChecks(all, files, includeNames, excludeNames);
      var r := RunChecks(m, all, files, includeNames, excludeNames);
      (f.Failure? ==> r == Failure(BothLists(BothGiven)))
      && (f.Success? && Recordable(f.value.checks) ==>
            r.Success? && r.value.executionInfo == Some(f.value.info)
            && r.value.issues.issues == m.issues.issues + Contributions(f.value.checks))
      && (f.Success? && !Recordable(f.value.checks) ==> r == Failure(NotRecorded(CheckNameRequired)))
  {
    if all != [] {
      var f := FilterChecks(all, files, includeNames, excludeNames);
      if f.Success? {
        RunAllSpec(m.issues, f.value.checks);
        if f.value.checks == [] {
          assert Contributions([]) == [];
          assert m.issues.issues + [] == m.issues.issues;
        }
      }
    }
  }

  // ---- send_report ----

  datatype Delivery = Skipped | Attempted(sent: bool)

  /** `send_report`: delivery is attempted only when issues were found. A
      missing execution message reaches the report as an empty one; both are
      false to the report. */
  function SendReport(m: Manager, date: string, delivered: bool): (r: Delivery)
    ensures r.Attempted? <==> !IsEmpty(m.issues)
    ensures r.Attempted? ==>
      (r.sent <==> delivered && Reporter.FormatIssues(m.issues, date, m.executionInfo.GetOr("")).Some?)
  {
    if IsEmpty(m.issues) then Skipped
    else Attempted(Reporter.SendEmail(m.issues, date, m.executionInfo.GetOr(""), delivered))
  }

  /** A selected check that raised leaves the collection non-empty, so a
      delivery is attempted. */
  lemma RaisedIsReported(m: Manager, all: seq<Check>, files: FileMap, includeNames: seq<string>, excludeNames: seq<string>,
                         i: nat)
    requires FilterChecks(all, files, includeNames, excludeNames).Success?
    requires var sel := FilterChecks(all, files, includeNames, excludeNames).value.checks;
      i < |sel| && sel[i].outcome.Raised? && Recordable(sel)
    ensures RunChecks(m, all, files, includeNames, excludeNames).Success?
    ensures !IsEmpty(RunChecks(m, all, files, includeNames, excludeNames).value.issues)
  {
    var sel := FilterChecks(all, files, includeNames, excludeNames).value.checks;
    RunChecksSpec(m, all, files, includeNames, excludeNames);
    ContributionAt(sel, i);
  }
}
