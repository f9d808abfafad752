/** What the three checks share: the query outcome they classify and the
    issue they record when connecting or querying raises. */
module Checks {
  import opened Wrappers
  import opened Values
  import opened Issues

  /** The rows a query returned, or the text of the exception raised while
      connecting to the database or running the query. */
  type Query<R> = Result<seq<R>, string>

  /** `issues.add_issue(...)` for a check whose name, severity and message
      are known to be valid: it cannot raise and appends exactly this issue. */
  function Add(c: IssueCollection, name: string, severity: string, message: string,
               details: string, extra: Record): (r: IssueCollection)
    requires name != "" && severity in ValidSeverities && message != ""
    ensures r.issues == c.issues + [Issue(name, severity, message, details, extra)]
  {
    AddIssue(c, name, severity, message, Some(details), Some(extra)).value
  }

  /** `add_issue` with the fields of a valid issue. */
  function Emit(c: IssueCollection, i: Issue): (r: IssueCollection)
    requires Valid(i)
    ensures r.issues == c.issues + [i]
  {
    Add(c, i.checkName, i.severity, i.message, i.details, i.extraData)
  }

  /** The `except` branch of every check: one high-severity issue carrying
      the check's name, its error message and the exception text. */
  function Failed(name: string, message: string, error: string): (r: IssueCollection)
    requires name != "" && message != ""
    ensures Len(r) == 1 && ValidCollection(r)
    ensures r.issues[0] == Issue(name, "high", message, error, [])
  {
    Add(Empty, name, "high", message, error, [])
  }

  /** A record's values as the report sees them. */
  function Dicts(rs: seq<Record>): (r: seq<Value>)
    ensures |r| == |rs|
    ensures forall i :: 0 <= i < |rs| ==> r[i] == VDict(rs[i])
  {
    seq(|rs|, i requires 0 <= i < |rs| => VDict(rs[i]))
  }
}
