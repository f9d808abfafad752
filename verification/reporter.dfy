/** The alert e-mail: the HTML report (`format_issues`), its plain-text
    variant (`_format_issues_text`), the spacing of check names
    (`_format_check_name`) and the gate in front of delivery (`send_email`).
    Check names, messages and details go into the report as they are; only
    the extra data is escaped, by the `Render` fragments. The report date is
    a parameter. */
module Reporter {
  import opened Wrappers
  import opened Issues
  import Render
  import Text
  import Seqs
  import Assoc

  // ---- _format_check_name ----

  function CountUpper(s: string): nat
  {
    if s == [] then 0 else (if Text.IsUpper(s[0]) then 1 else 0) + CountUpper(s[1..])
  }

  /** A space in front of every upper-case ASCII letter of `s`. */
  function SpaceUppers(s: string): (r: string)
    ensures |r| == |s| + CountUpper(s)
  {
    if s == [] then []
    else (if Text.IsUpper(s[0]) then " " + [s[0]] else [s[0]]) + SpaceUppers(s[1..])
  }

  /** `_format_check_name`: a regular-expression substitution that puts a
      space before each upper-case letter except at the very start. */
  function FormatCheckName(name: string): (r: string)
    ensures |r| == |name| + (if name == [] then 0 else CountUpper(name[1..]))
    ensures name != [] ==> r[0] == name[0]
  {
    if name == [] then [] else [name[0]] + SpaceUppers(name[1..])
  }

  /** Deletes every space that stands directly before an upper-case letter. */
  function Unspace(r: string): string
  {
    if r == [] then []
    else if |r| >= 2 && r[0] == ' ' && Text.IsUpper(r[1]) then Unspace(r[1..])
    else [r[0]] + Unspace(r[1..])
  }

  lemma SpaceUppersHead(s: string)
    requires s != []
    ensures !Text.IsUpper(SpaceUppers(s)[0])
  {
  }

  lemma {:induction false} UnspaceSpaced(s: string)
    ensures Unspace(SpaceUppers(s)) == s
  {
    if s != [] {
      var rest := SpaceUppers(s[1..]);
      UnspaceSpaced(s[1..]);
      if s[1..] != [] {
        SpaceUppersHead(s[1..]);
      }
      if Text.IsUpper(s[0]) {
        var r := " " + [s[0]] + rest;
        assert r[1..] == [s[0]] + rest;
        assert ([s[0]] + rest)[1..] == rest;
      } else {
        var r := [s[0]] + rest;
        assert r[1..] == rest;
      }
      assert s == [s[0]] + s[1..];
    }
  }

  /** Deleting the inserted spaces gives the class name back, so distinct
      class names are shown as distinct headings. */
  lemma UnspaceFormat(name: string)
    ensures Unspace(FormatCheckName(name)) == name
  {
    if name != [] {
      var rest := SpaceUppers(name[1..]);
      UnspaceSpaced(name[1..]);
      if name[1..] != [] {
        SpaceUppersHead(name[1..]);
      }
      assert ([name[0]] + rest)[1..] == rest;
      assert name == [name[0]] + name[1..];
    }
  }

  lemma FormatCheckNameInjective(a: string, b: string)
    requires FormatCheckName(a) == FormatCheckName(b)
    ensures a == b
  {
    UnspaceFormat(a);
    UnspaceFormat(b);
  }

  lemma {:induction false} SpaceUppersAppend(a: string, b: string)
    ensures SpaceUppers(a + b) == SpaceUppers(a) + SpaceUppers(b)
  {
    if a == [] {
      assert a + b == b;
    } else {
      assert (a + b)[0] == a[0] && (a + b)[1..] == a[1..] + b;
      SpaceUppersAppend(a[1..], b);
    }
  }

  lemma {:induction false} SpaceUppersNone(s: string)
    requires forall i :: 0 <= i < |s| ==> !Text.IsUpper(s[i])
    ensures SpaceUppers(s) == s
  {
    if s != [] {
      SpaceUppersNone(s[1..]);
      assert s == [s[0]] + s[1..];
    }
  }

  lemma SpaceUppersWord(c: char, w: string)
    requires Text.IsUpper(c) && forall i :: 0 <= i < |w| ==> !Text.IsUpper(w[i])
    ensures SpaceUppers([c] + w) == " " + [c] + w
  {
    SpaceUppersNone(w);
    assert ([c] + w)[1..] == w;
  }

  /** For example, the city check's class name is shown as three words. */
  lemma FormatCityValidation()
    ensures FormatCheckName("CityValidationMag") == "City Validation Mag"
  {
    CityWords();
    LowerWords();
    SpaceUppersNone("ity");
    SpaceUppersWord('V', "alidation");
    SpaceUppersWord('M', "ag");
    SpaceUppersAppend("ity", ['V'] + "alidation");
    SpaceUppersAppend("ity" + (['V'] + "alidation"), ['M'] + "ag");
    CityJoined();
  }

  lemma CityWords()
    ensures "CityValidationMag" == "C" + ("ity" + (['V'] + "alidation") + (['M'] + "ag"))
    ensures "CityValidationMag"[0] == 'C' && "CityValidationMag"[1..] == "ity" + (['V'] + "alidation") + (['M'] + "ag")
  {
  }

  lemma LowerWords()
    ensures forall i :: 0 <= i < |"ity"| ==> !Text.IsUpper("ity"[i])
    ensures forall i :: 0 <= i < |"alidation"| ==> !Text.IsUpper("alidation"[i])
    ensures forall i :: 0 <= i < |"ag"| ==> !Text.IsUpper("ag"[i])
    ensures Text.IsUpper('V') && Text.IsUpper('M')
  {
  }

  lemma CityJoined()
    ensures "C" + ("ity" + (" " + ['V'] + "alidation") + (" " + ['M'] + "ag")) == "City Validation Mag"
  {
  }

  // ---- format_issues ----

  /** Python truthiness of an optional string: `None` and `''` are false. */
  function Opt(s: string): bool { s != "" }

  function Cat(a: Option<string>, b: Option<string>): (r: Option<string>)
    ensures r.Some? <==> a.Some? && b.Some?
  {
    if a.Some? && b.Some? then Some(a.value + b.value) else None
  }

  /** The report up to the first section: style sheet, heading, date and the
      number of issues. */
  function ReportHead(date: string, total: nat): string
  {
    HeadStart + date + HeadMiddle + Text.NatToString(total) + HeadEnd
  }

  const HeadStart: string :=
        "\n"
    + "        <html>\n"
    + "        <head>\n"
    + "            <style>\n"
    + "                body { font-family: Arial, sans-serif; }\n"
    + "                h1 { color: #000000; }\n"
    + "                h2 { color: #1976d2; margin-top: 20px; }\n"
    + "                .issue { \n"
    + "                    background-color: #fff3cd; \n"
    + "                    border-left: 4px solid #ffc107; \n"
    + "                    padding: 10px; \n"
    + "                    margin: 10px 0; \n"
    + "                }\n"
    + "                .severity-high { border-left-color: #d32f2f; background-color: #ffebee; }\n"
    + "                .severity-medium { border-left-color: #ff9800; background-color: #fff3e0; }\n"
    + "                .severity-low { border-left-color: #4caf50; background-color: #e8f5e9; }\n"
    + "                .details { margin-top: 5px; color: #333; font-size: 0.9em; }\n"
    + "                .extra-data { margin-top: 10px; padding: 10px; background-color: #f5f5f5; border-radius: 4px; }\n"
    + "                .extra-data-section { margin-top: 10px; }\n"
    + "                .extra-data-title { font-weight: bold; color: #1976d2; margin-bottom: 5px; }\n"
    + "                .extra-data-list { margin: 5px 0; padding-left: 20px; }\n"
    + "                .extra-data-list li { margin: 3px 0; }\n"
    + "                .extra-data-table { width: 100%; border-collapse: collapse; margin: 10px 0; font-size: 0.9em; }\n"
    + "                .extra-data-table th { background-color: #1976d2; color: white; padding: 8px; text-align: left; }\n"
    + "                .extra-data-table td { padding: 6px 8px; border-bottom: 1px solid #ddd; }\n"
    + "                .extra-data-table tr:nth-child(even) { background-color: #f9f9f9; }\n"
    + "                .truncation-notice { margin-top: 5px; font-style: italic; color: #666; font-size: 0.85em; }\n"
    + "                .execution-info { color: #999; font-size: 0.85em; font-style: italic; margin-top: 5px; }\n"
    + "            </style>\n"
    + "        </head>\n"
    + "        <body>\n"
    + "            <h1>Data Quality Alert Report</h1>\n"
    + "            <p><strong>Date:</strong> "

  const HeadMiddle: string :=
        "</p>\n"
    + "            <p><strong>Total Issues Found:</strong> "

  const HeadEnd: string :=
        "</p>\n"
    + "        "

  const ReportFoot: string :=
        "\n"
    + "        <hr style=\"margin-top: 30px; border: none; border-top: 1px solid #ddd;\">\n"
    + "        <p style=\"color: #666; font-size: 0.9em; margin-top: 20px;\">Yazan Majdalawi</p>\n"
    + "        </body>\n"
    + "        </html>\n"
    + "        "

  /** The execution mode line, only when there is a mode to report. */
  function ExecutionLine(info: string): string
  {
    if Opt(info) then "<p class=\"execution-info\">Execution mode: " + info + "</p>\n" else ""
  }

  /** The start of an issue's box: its severity class, the upper-cased
      severity and the message, unescaped. */
  function IssueOpening(i: Issue): string
  {
    "\n                <div class=\"issue severity-" + i.severity + "\">\n                    <strong>["
    + Text.Upper(i.severity) + "]</strong> " + i.message + "\n                "
  }

  function DetailsLine(i: Issue): string
  {
    if Opt(i.details) then "<div class=\"details\">" + i.details + "</div>" else ""
  }

  /** An issue's box. Rendering fails only through its extra data. */
  function IssueBlock(i: Issue): (r: Option<string>)
    ensures r.None? <==> HasExtraData(i) && Render.FormatExtraData(i.extraData).None?
  {
    var extra := if HasExtraData(i) then Render.FormatExtraData(i.extraData) else Some("");
    Cat(Some(IssueOpening(i) + DetailsLine(i)), Cat(extra, Some("</div>\n")))
  }

  /** A box that does not fail: what it writes. */
  lemma IssueBlockText(i: Issue)
    requires IssueBlock(i).Some?
    ensures IssueBlock(i).value == IssueOpening(i) + DetailsLine(i)
      + (if HasExtraData(i) then Render.FormatExtraData(i.extraData).value else "") + "</div>\n"
  {
  }

  predicate Fails(i: Issue)
  {
    IssueBlock(i).None?
  }

  function IssueBlocks(xs: seq<Issue>): (r: Option<string>)
  {
    if xs == [] then Some("") else Cat(IssueBlock(xs[0]), IssueBlocks(xs[1..]))
  }

  lemma {:induction false} IssueBlocksFail(xs: seq<Issue>)
    ensures IssueBlocks(xs).None? <==> exists x :: x in xs && Fails(x)
  {
    if xs != [] {
      IssueBlocksFail(xs[1..]);
      BlocksStep(xs);
      MemberStep(xs, Fails);
    }
  }

  lemma BlocksStep(xs: seq<Issue>)
    requires xs != []
    ensures IssueBlocks(xs).None? <==> Fails(xs[0]) || IssueBlocks(xs[1..]).None?
  {
  }

  /** Some element of a non-empty list has a property exactly when its head
      or some element of its tail does. */
  lemma MemberStep(xs: seq<Issue>, p: Issue -> bool)
    requires xs != []
    ensures (exists x :: x in xs && p(x)) <==> p(xs[0]) || exists x :: x in xs[1..] && p(x)
  {
    assert xs == [xs[0]] + xs[1..];
    if p(xs[0]) {
      assert xs[0] in xs;
    }
  }

  /** One check's section: its spaced name as a heading, then its issues. */
  function CheckSection(name: string, xs: seq<Issue>): Option<string>
  {
    Cat(Some("<h2>" + FormatCheckName(name) + "</h2>\n"), IssueBlocks(xs))
  }

  /** The sections in the order of the grouping. */
  function GroupSections(g: Groups): Option<string>
  {
    if g == [] then Some("") else Cat(CheckSection(g[0].0, g[0].1), GroupSections(g[1..]))
  }

  /** `format_issues`: nothing for an empty collection; otherwise the head,
      the execution mode, a section per group and the foot. `None` when
      rendering an issue's extra data raises. */
  function FormatIssues(c: IssueCollection, date: string, info: string): Option<string>
  {
    if IsEmpty(c) then Some("")
    else
      match GroupSections(GroupByCheck(c))
      case None => None
      case Some(body) => Some(ReportHead(date, Len(c)) + ExecutionLine(info) + body + ReportFoot)
  }

  // Reference: the sections of the distinct check names, in first-seen order.

  /** The section of each name of `ks`, showing the issues of `xs` with that
      check name in their order. */
  function SectionsOf(ks: seq<string>, xs: seq<Issue>): Option<string>
  {
    if ks == [] then Some("")
    else Cat(CheckSection(ks[0], Seqs.Filter(xs, NameIs(ks[0]))), SectionsOf(ks[1..], xs))
  }

  function ReferenceReport(c: IssueCollection, date: string, info: string): Option<string>
  {
    if IsEmpty(c) then Some("")
    else
      match SectionsOf(Seqs.Dedup(Names(c.issues)), c.issues)
      case None => None
      case Some(body) => Some(ReportHead(date, Len(c)) + ExecutionLine(info) + body + ReportFoot)
  }

  lemma {:induction false} GroupSectionsOf(g: Groups, xs: seq<Issue>)
    requires forall i :: 0 <= i < |g| ==> g[i].1 == Seqs.Filter(xs, NameIs(g[i].0))
    ensures GroupSections(g) == SectionsOf(Assoc.Keys(g), xs)
  {
    if g != [] {
      assert Assoc.Keys(g)[1..] == Assoc.Keys(g[1..]);
      GroupSectionsOf(g[1..], xs);
    }
  }

  /** The report has one section per distinct check name, in the order the
      names first occur, each holding exactly that check's issues in the
      order they were added. */
  lemma FormatIssuesSections(c: IssueCollection, date: string, info: string)
    ensures FormatIssues(c, date, info) == ReferenceReport(c, date, info)
  {
    GroupByCheckSpec(c);
    GroupFoldKeys(c.issues);
    GroupSectionsOf(GroupByCheck(c), c.issues);
  }

  lemma {:induction false} SectionsOfFail(ks: seq<string>, xs: seq<Issue>)
    ensures SectionsOf(ks, xs).None? <==> exists k, x :: k in ks && x in Seqs.Filter(xs, NameIs(k)) && Fails(x)
  {
    if ks != [] {
      SectionsOfFail(ks[1..], xs);
      IssueBlocksFail(Seqs.Filter(xs, NameIs(ks[0])));
      SectionsStep(ks, xs);
      SectionMemberStep(ks, xs, Fails);
    }
  }

  lemma SectionsStep(ks: seq<string>, xs: seq<Issue>)
    requires ks != []
    ensures SectionsOf(ks, xs).None?
      <==> IssueBlocks(Seqs.Filter(xs, NameIs(ks[0]))).None? || SectionsOf(ks[1..], xs).None?
  {
  }

  lemma SectionMemberStep(ks: seq<string>, xs: seq<Issue>, p: Issue -> bool)
    requires ks != []
    ensures (exists k, x :: k in ks && x in Seqs.Filter(xs, NameIs(k)) && p(x))
      <==> (exists x :: x in Seqs.Filter(xs, NameIs(ks[0])) && p(x))
           || exists k, x :: k in ks[1..] && x in Seqs.Filter(xs, NameIs(k)) && p(x)
  {
    assert forall k :: k in ks <==> k == ks[0] || k in ks[1..] by {
      assert ks == [ks[0]] + ks[1..];
    }
  }

  /** An issue is in its own check's section, and sections hold nothing else. */
  lemma InOwnSection(xs: seq<Issue>, k: string, x: Issue)
    ensures x in Seqs.Filter(xs, NameIs(k)) <==> x in xs && x.checkName == k
  {
    Seqs.FilterSpec(xs, NameIs(k));
    assert multiset(Seqs.Filter(xs, NameIs(k)))[x] == if NameIs(k)(x) then multiset(xs)[x] else 0;
  }

  /** The sections fail exactly when one of the issues does. */
  lemma ReferenceFails(xs: seq<Issue>)
    ensures SectionsOf(Seqs.Dedup(Names(xs)), xs).None? <==> exists i :: 0 <= i < |xs| && Fails(xs[i])
  {
    SectionsOfFail(Seqs.Dedup(Names(xs)), xs);
    SectionWitness(xs, Fails);
  }

  /** Some issue of some check's section has a property exactly when some
      issue of `xs` has it. */
  lemma SectionWitness(xs: seq<Issue>, p: Issue -> bool)
    ensures (exists k, x :: k in Seqs.Dedup(Names(xs)) && x in Seqs.Filter(xs, NameIs(k)) && p(x))
        <==> exists i :: 0 <= i < |xs| && p(xs[i])
  {
    if exists i :: 0 <= i < |xs| && p(xs[i]) {
      var i :| 0 <= i < |xs| && p(xs[i]);
      assert Names(xs)[i] == xs[i].checkName;
      InOwnSection(xs, xs[i].checkName, xs[i]);
    }
    if exists k, x :: k in Seqs.Dedup(Names(xs)) && x in Seqs.Filter(xs, NameIs(k)) && p(x) {
      var k, x :| k in Seqs.Dedup(Names(xs)) && x in Seqs.Filter(xs, NameIs(k)) && p(x);
      InOwnSection(xs, k, x);
      var i := Seqs.FirstIndex(xs, x);
      assert p(xs[i]);
    }
  }

  /** The report fails exactly when some issue's extra data cannot be
      rendered, and an empty collection gives the empty string. */
  lemma FormatIssuesFails(c: IssueCollection, date: string, info: string)
    ensures IsEmpty(c) ==> FormatIssues(c, date, info) == Some("")
    ensures FormatIssues(c, date, info).None? <==>
      exists i :: 0 <= i < |c.issues| && HasExtraData(c.issues[i]) && Render.FormatExtraData(c.issues[i].extraData).None?
  {
    FormatIssuesSections(c, date, info);
    ReferenceFails(c.issues);
  }

  // ---- _format_issues_text ----

  function IssueLines(i: Issue): string
  {
    "  [" + Text.Upper(i.severity) + "] " + i.message + "\n"
    + (if Opt(i.details) then "    Details: " + i.details + "\n" else "")
    + "\n"
  }

  function IssuesLines(xs: seq<Issue>): string
  {
    if xs == [] then "" else IssueLines(xs[0]) + IssuesLines(xs[1..])
  }

  /** The check name, underlined with as many dashes as it has characters. */
  function TextSection(name: string, xs: seq<Issue>): string
  {
    name + ":\n" + Text.Repeat('-', |name|) + "\n" + IssuesLines(xs)
  }

  function TextSections(g: Groups): string
  {
    if g == [] then "" else TextSection(g[0].0, g[0].1) + TextSections(g[1..])
  }

  /** `_format_issues_text`. */
  function FormatIssuesText(c: IssueCollection, date: string): string
  {
    if IsEmpty(c) then ""
    else
      "Data Quality Alert Report\n" + "Date: " + date + "\n"
      + "Total Issues Found: " + Text.NatToString(Len(c)) + "\n\n"
      + TextSections(GroupByCheck(c))
  }

  function TextSectionsOf(ks: seq<string>, xs: seq<Issue>): string
  {
    if ks == [] then "" else TextSection(ks[0], Seqs.Filter(xs, NameIs(ks[0]))) + TextSectionsOf(ks[1..], xs)
  }

  lemma {:induction false} TextSectionsFrom(g: Groups, xs: seq<Issue>)
    requires forall i :: 0 <= i < |g| ==> g[i].1 == Seqs.Filter(xs, NameIs(g[i].0))
    ensures TextSections(g) == TextSectionsOf(Assoc.Keys(g), xs)
  {
    if g != [] {
      assert Assoc.Keys(g)[1..] == Assoc.Keys(g[1..]);
      TextSectionsFrom(g[1..], xs);
    }
  }

  /** The plain-text report is empty for no issues; otherwise it has one
      underlined section per distinct check name, in first-seen order, each
      listing exactly that check's issues in order. */
  lemma FormatIssuesTextSections(c: IssueCollection, date: string)
    ensures IsEmpty(c) <==> FormatIssuesText(c, date) == ""
    ensures !IsEmpty(c) ==>
      FormatIssuesText(c, date)
      == "Data Quality Alert Report\n" + "Date: " + date + "\n"
         + "Total Issues Found: " + Text.NatToString(Len(c)) + "\n\n"
         + TextSectionsOf(Seqs.Dedup(Names(c.issues)), c.issues)
  {
    GroupByCheckSpec(c);
    GroupFoldKeys(c.issues);
    TextSectionsFrom(GroupByCheck(c), c.issues);
  }

  // ---- send_email ----

  /** `send_email`. `delivered` is whether acquiring the access token and
      posting the message both succeed; the report is built between the two,
      inside the same `try`, so a report that raises also gives `False`. */
  function SendEmail(c: IssueCollection, date: string, info: string, delivered: bool): (sent: bool)
    ensures sent <==> !IsEmpty(c) && delivered && FormatIssues(c, date, info).Some?
  {
    if IsEmpty(c) then false
    else delivered && FormatIssues(c, date, info).Some?
  }

  /** The subject line of the message. */
  function Subject(c: IssueCollection): string
  {
    "Data Quality Alert - " + Text.NatToString(Len(c)) + " Issue(s) Found"
  }
}
