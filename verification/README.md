# Data Quality Alert System — a Dafny model of its core

The Data Quality Alert System runs a set of data-quality checks against the
Magento database. Each check records the problems it finds as issues (a check
name, a severity of low, medium or high, a message, details and structured
extra data). The check manager chooses which checks to run, gathers their
issues into one collection and, when anything was found, sends an HTML
e-mail report.

This project models that core as pure functions over immutable datatypes
and proves what each part does:

- `issue.dfy` (module `Issues`): issue validation, the issue collection and
  its builder, filtering by severity, grouping by check, counting by
  severity and the summary.
- `manager.dfy` (module `Manager`): resolving user-given check names,
  choosing the checks to run (include mode, exclude mode or all), the run
  loop that folds the checks' outcomes into the collection, and the gate in
  front of the report.
- `reporter.dfy` (module `Reporter`): the HTML report (`format_issues`),
  its plain-text variant, the spacing of check names and the send gate.
- `render.dfy` (module `Render`): the extra-data fragments of the report
  (the list, the records table, the summary and the box around them).
- `html.dfy` (module `Html`): `_escape_html`, and an independent reader of
  the generated HTML (a tokenizer into tags and text runs) that the
  rendering properties are stated through.
- `checks.dfy`, `city.dfy`, `images.dfy`, `names.dfy` (modules `Checks`,
  `CityValidation`, `MissingImages`, `NameMismatch`): what each of the three
  checks does with its query's answer.
- `config.dfy` (module `Config`): splitting the recipients setting.
- `text.dfy`, `seqs.dfy`, `assoc.dfy`, `values.dfy`, `ordering.dfy`,
  `wrappers.dfy`: support for the above. They cover Python's string methods
  restricted to ASCII, sequence filtering and deduplication, insertion-order
  dictionaries as association lists, the Python values that travel in extra
  data, string ordering with `sorted(set(...))`, and `Option`/`Result`.

Python exceptions are modelled as values. `add_issue` and `filter_checks`
give a `Result` whose failure names the `ValueError`. A rendering step that
would raise on malformed extra data gives `None`.

## Model

| member | source | states |
|---|---|---|
| Issues.Validate | issue.py:31-40 | An issue passes validation exactly when its check name is non-empty, its severity is one of low, medium and high, and its message is non-empty. |
| Issues.NewIssue | issue.py:10-40 | Building an issue succeeds exactly when the three requirements hold. Missing details become "" and missing extra data an empty dict. Each failure is the first unmet requirement, in the order check name, missing severity, unknown severity, message. |
| Issues.HasExtraDataIffGiven | issue.py:26-44 | A built issue has extra data exactly when a non-empty dict was given. |
| Issues.AddIssue | issue.py:54-71 | Adding succeeds under the same conditions as building an issue, and fails with the same error. On success the old issues are kept in place and the new issue is appended exactly once, at the end. Validity of the collection is preserved. |
| Issues.Extend | issue.py:131-138 | The merged collection is the receiver's issues followed by the other's, and it is valid when both were. |
| Issues.FilterBySeverity | issue.py:73-85 | The result is an in-order sub-list of the issues, every kept issue has the severity, and every issue of that severity is kept as often as it occurs. |
| Issues.FilterExtend | issue.py:73-138 | Filtering a merged collection equals merging the filtered collections. |
| Issues.GroupByCheckSpec | issue.py:87-99 | The groups are keyed by the distinct check names in first-seen order. Each group is the in-order sub-list of the issues with its name. |
| Issues.GroupFoldKeys | issue.py:94-99 | The group keys equal the deduplicated list of check names. |
| Issues.GroupSizesSum | issue.py:123 | The per-check counts add up to the number of issues. |
| Issues.CountFoldCounts | issue.py:108-111 | For validated issues, the counter of each severity equals the number of issues of that severity. |
| Issues.CountBySeverity | issue.py:101-111 | low, medium and high are always the first three keys, and the counts add up to the collection size. For a valid collection they are the only keys, and each counts that severity's issues. |
| Issues.GetSummary | issue.py:113-125 | The total is the collection size, and `by_severity` is the severity count. `by_check` has the groups' keys, counts each check's issues and sums to the total. `unique_checks` is the number of distinct check names. |
| Issues.EmptyIffNoGroups | issue.py:87-129 | A collection is empty exactly when its summary total is 0, and exactly when it has no groups. |
| Manager.ClassMatch | manager.py:88-91 | Gives the position of the first check whose class name equals the name ignoring case, or nothing when no check matches. |
| Manager.FileMatch | manager.py:94-96 | Gives the position of the first file name that equals the name ignoring case, or nothing when none matches. |
| Manager.Resolve | manager.py:73-98 | The first class-name match gives its class name. Without one, the first file-name match gives its class. Without either there is no result. |
| Manager.ResolveIgnoresCase | manager.py:86-96 | Names equal up to case resolve to the same result. |
| Manager.ClassBeforeFile | manager.py:88-96 | When some check's class name matches, the result is the class name of a check at or before it, whatever the file map says. |
| Manager.ResolvedSpec | manager.py:123-128 | A name is in the resolved list exactly when some requested name resolves to it and it is non-empty. The list is no longer than the request. |
| Manager.FilterChecks | manager.py:114-174 | Fails with the exact error text exactly when both lists are given. With neither list, every check runs and the message is "All checks executed". |
| Manager.IncludeSelects | manager.py:117-135 | Include mode keeps an in-order sub-list of the discovered checks. A check is kept, as often as it was discovered, exactly when a requested name resolves to its name. |
| Manager.IncludeInfo | manager.py:137-142 | Nothing is selected exactly when no discovered check was requested. Then the message lists the requested names; otherwise it lists the resolved names, spaced. |
| Manager.ExcludeSelects | manager.py:144-162 | Exclude mode keeps an in-order sub-list of the discovered checks. A check is kept, as often as it was discovered, exactly when no excluded name resolves to its name. |
| Manager.ExcludeInfo | manager.py:164-170 | The message is "All checks executed" exactly when no excluded name resolves. Otherwise it lists the excluded class names, spaced. |
| Manager.RunStepSpec | manager.py:206-224 | One pass adds the check's issues, or one high-severity "Error executing check" issue carrying the exception text. It fails only when that issue cannot be recorded because the check has no name. |
| Manager.RunAllSpec | manager.py:206-224 | The loop succeeds exactly when every check that raised has a name. It then appends, in check order, each check's contribution to the collection. Its only failure is the missing check name. |
| Manager.ContributionAt | manager.py:206-224 | Each check's issues sit between those of the checks before and after it, and a check that raised contributes exactly one issue. |
| Manager.RunChecksSpec | manager.py:181-226 | Without discovered checks nothing changes. Otherwise giving both lists fails with the filter's error. Else the selection's message is stored and the collection grows by exactly the selected checks' contributions, unless an error issue cannot be recorded. |
| Manager.RaisedIsReported | manager.py:206-232 | When a selected check raised and every check that raised has a name, the run succeeds and leaves a non-empty collection, so a report is attempted. |
| Manager.SendReport | manager.py:228-241 | Delivery is attempted exactly when issues were found. It succeeds exactly when delivery works and the report renders. |
| Reporter.FormatCheckName | email_reporter.py:219-223 | The spaced name has one extra character per upper-case letter after the first position, and keeps the first character. |
| Reporter.UnspaceFormat | email_reporter.py:219-223 | Deleting each space that stands before an upper-case letter gives the class name back. |
| Reporter.FormatCheckNameInjective | email_reporter.py:219-223 | Distinct check names get distinct headings. |
| Reporter.FormatCityValidation | email_reporter.py:219-223 | "CityValidationMag" is spaced as "City Validation Mag". |
| Reporter.IssueBlock | email_reporter.py:86-98 | An issue's box fails to render exactly when the issue has extra data and rendering that data fails. |
| Reporter.FormatIssuesSections | email_reporter.py:25-107 | The report equals a reference that writes one section per distinct check name, in first-seen order, each showing exactly that check's issues in order. The head shows the date and the issue count, and the mode line appears only with a mode. The report is "" for an empty collection. |
| Reporter.ReferenceFails | email_reporter.py:83-98 | The reference report fails exactly when some issue's box fails. |
| Reporter.FormatIssuesFails | email_reporter.py:36-98 | The report is "" for an empty collection. It fails exactly when some issue has extra data that cannot be rendered. |
| Reporter.FormatIssuesTextSections | email_reporter.py:294-315 | The plain-text report is "" exactly when there are no issues. Otherwise it is the title, date and count lines followed by one underlined section per distinct check name, in first-seen order, each listing exactly that check's issues. |
| Reporter.SendEmail | email_reporter.py:243-292 | The mail counts as sent exactly when there are issues, delivery works and the report renders. A report that raises also gives false. |
| Html.EscapeHtml | email_reporter.py:225-233 | The result is the per-character escape of the text and contains none of `<`, `>`, `"` and `'`. Undoing the five entities gives the text back. |
| Html.EscapeIsPerChar | email_reporter.py:229-233 | The chain of five replacements, `&` first, equals escaping each character on its own. |
| Html.UnescapeEscape | email_reporter.py:229-233 | Unescaping the per-character escape gives the original text. |
| Render.ListRendering | email_reporter.py:151-169 | A rendered list has exactly min(len(items), 10) bullets. They hold the first items in order, each escaped. The title appears once, and the truncation notice appears exactly when items were left out. |
| Render.AsItems | email_reporter.py:157-161 | A list's items are its elements and a string's are its characters. Any other value raises. |
| Render.TableRendering | email_reporter.py:171-205 | The table is "" for no records. It raises exactly when the first record is not a dict, or when the first record has keys and one of the records shown is not a dict. Otherwise the header cells are the first record's keys, escaped. There is one header row plus one row per record shown, at most 10. The body cells are the shown records' values under those keys, escaped, row by row, with "" for a missing key. There are no body cells when the first record has no keys. The title appears, and the notice appears exactly when records were left out. |
| Render.HeaderlessTable | email_reporter.py:180-197 | Records `[{}, 5]` render as a table with one header row and two empty rows: without headers no record is looked into. |
| Render.SummaryRendering | email_reporter.py:207-217 | The summary raises unless it is a dict. Otherwise it has one bullet per key, in insertion order. Each bullet's bold label is the escaped key with a colon, and its text is a space and the escaped value, under the title "Summary:". |
| Render.Given | email_reporter.py:122-146 | A section's value is taken exactly when its key is present and its value is truthy. |
| Render.ExtraDataRendering | email_reporter.py:109-149 | The box raises exactly when a given section has the wrong shape: a list section that is neither a list nor a string; records that are not a list, whose first element is not a dict, or, when that dict has keys, with a shown record that is not a dict; or a summary that is not a dict. Otherwise it shows the titles of the given sections in the fixed order entity ids, invalid values, records, summary, leaving out absent and empty ones. |
| Render.ExtraDataParts | email_reporter.py:109-149 | A box that renders is its opening tag, the four sections in order and its closing tag, and each section renders on its own. |
| Checks.Add | checks/city_validation_mag.py:59-72 | Adding a valid issue cannot raise and appends exactly that issue. |
| Checks.Failed | checks/city_validation_mag.py:104-110 | A failing connection or query yields exactly one high-severity issue carrying the check's name, its error message and the exception text. |
| CityValidation.ClassifySpec | checks/city_validation_mag.py:47-54 | The invalid, NULL and empty lists are exactly the rows of each kind, in row order, and their sizes add up to the number of rows. |
| CityValidation.InvalidValuesSpec | checks/city_validation_mag.py:58 | The invalid values are strictly increasing and free of repeats. They are exactly the non-empty cities of the rows. |
| CityValidation.ReportSpec | checks/city_validation_mag.py:41-102 | The issues are, in this order, one for invalid cities, one for NULL cities and one for empty cities. Each is present exactly when a row of its kind exists, and it is built from exactly those rows. |
| CityValidation.ReportBounds | checks/city_validation_mag.py:41-102 | There are at most three issues, none exactly when there are no rows, and all are valid, of medium severity and under the check's name. |
| CityValidation.Run | checks/city_validation_mag.py:104-110 | A failing query yields exactly the one high-severity error issue. |
| MissingImages.CollectSubseq | checks/missing_product_images_mag.py:59-75 | The records keep the order of the complete rows they come from. |
| MissingImages.CollectOrder | checks/missing_product_images_mag.py:59-75 | The records come in the order in which their combinations first occur among the complete rows: of two records, the one whose combination occurs first comes first. With the key facts this fixes the order of the records. |
| MissingImages.CollectKeys | checks/missing_product_images_mag.py:59-75 | No combination of attribute id, store id and entity id is recorded twice. A combination is recorded exactly when a complete row has it and it was not seen before. |
| MissingImages.CollectFirst | checks/missing_product_images_mag.py:66-75 | A complete row whose combination no earlier complete row has is recorded as it is. |
| MissingImages.CountCodes | checks/missing_product_images_mag.py:79-82 | The counts add up to the number of records, no code is counted under two keys, and the keys are exactly the codes that occur. |
| MissingImages.CountCodesGet | checks/missing_product_images_mag.py:79-82 | Each attribute code's count is the number of records carrying it. |
| MissingImages.UniqueProducts | checks/missing_product_images_mag.py:85 | The number of unique products is the number of distinct entity ids, at most the number of records. |
| MissingImages.CollectEmpty | checks/missing_product_images_mag.py:63-77 | Something is recorded exactly when some row has no NULL key field. |
| MissingImages.ReportSpec | checks/missing_product_images_mag.py:54-100 | There is at most one issue, present exactly when some row is complete. It summarises the deduplicated records. |
| MissingImages.Run | checks/missing_product_images_mag.py:102-108 | A failing query yields exactly the one high-severity error issue. |
| NameMismatch.NameOr | checks/customer_name_mismatch_mag.py:48-52 | A name field keeps a truthy value and otherwise becomes "(NULL)", so it is always truthy. |
| NameMismatch.RecordOf | checks/customer_name_mismatch_mag.py:45-55 | A record has the six fields in order and copies both ids. Each name field is the row's name when it has one and "(NULL)" when it is NULL or empty. |
| NameMismatch.UniqueCustomers | checks/customer_name_mismatch_mag.py:58 | The number of unique customers is the number of distinct customer ids, at most the number of rows. |
| NameMismatch.Report | checks/customer_name_mismatch_mag.py:43-72 | There is at most one issue, present exactly when there are rows, and it is the mismatch issue for those rows. |
| NameMismatch.Run | checks/customer_name_mismatch_mag.py:43-80 | A failing query yields exactly the one high-severity error issue. A successful one yields an issue exactly when rows came back. |
| Config.ParseRecipients | config.py:41-42 | An empty setting gives no recipients. Otherwise there is one entry per comma-separated segment (one per comma plus one), and entry i is segment i with its surrounding whitespace stripped, so none contains a comma or has surrounding whitespace. |
| Config.JoinRecipients | config.py:41-42 | When no segment has surrounding whitespace, joining the entries with commas gives the setting back. |
| Config.BlankSetting | config.py:42 | A non-empty setting of only whitespace gives one empty recipient; empty segments are kept, not dropped. |
| Text.Strip | config.py:42 | Stripping removes a whitespace run at each end and leaves no whitespace at either end. |
| Text.JoinSplit | config.py:42 | Splitting on a character and joining with it again gives the string back. |

## Left out

- Check discovery (`discover_checks`, module import and class inspection) is not modelled. The discovered checks and the file-to-class map are inputs.
- The command-line entry point (`main`) and argument parsing are not modelled.
- The database connection, the SQL text and query execution are not modelled. Each check takes its query's answer as an input: the rows, or the exception text.
- Access tokens (MSAL) and the HTTP post to Microsoft Graph are not modelled. `Reporter.SendEmail` takes whether delivery worked as a parameter. The message's JSON and the recipients' wrapping are left out; only the subject line is defined.
- The clock is not modelled. The report date is a parameter.
- Printed progress and warning lines, including the not-found warnings of `filter_checks`, are not modelled, because they do not affect any result.
- Reading environment variables is not modelled. `Config.ParseRecipients` takes the setting's text.
- Text.Lower: lower-cases ASCII letters only, unlike Python's full Unicode `str.lower`.
- Text.Strip: treats only ASCII whitespace as whitespace, unlike Python's Unicode `str.strip`.
- Values.Repr: shows a string between single quotes always; Python's switch to double quotes for a string holding a single quote, and its backslash escapes, are not modelled.
- Issues.AddIssue: when building the issue raises, the model returns the error and no collection. The source leaves the collection as it was, which the failure case also implies, since the append comes after validation.
- Reporter.FormatIssuesSections: states the report's structure, not an escaping property. The check name, the message and the details are inserted without escaping, so a report can contain markup from them; only the extra data is escaped.
- `IssueCollection.__iter__` and `__repr__` are not modelled; the model works on the issue list directly.
