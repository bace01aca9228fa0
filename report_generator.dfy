/**
 * The report renderer of lib/report_generator.py: the Markdown text report and the
 * summary statistics, both read off a formatter report without changing it. The
 * generation time is a parameter.
 */
module ReportGenerator {
  import opened Wrappers
  import opened Seqs
  import opened Strings
  import opened Json
  import Assoc
  import opened JsonFormatter

  // ================================================================ counting

  /** The issue lists of the map, in its order (`issues_by_model.values()`). */
  function Values(m: IssueMap): (r: seq<seq<string>>)
    ensures |r| == |m| && forall i :: 0 <= i < |m| ==> r[i] == m[i].1
  {
    seq(|m|, i requires 0 <= i < |m| => m[i].1)
  }

  /** `sum(len(issues) for issues in report_data['issues_by_model'].values())`. */
  function TotalIssues(m: IssueMap): (n: nat)
    ensures n == |Flatten(Values(m))|
  {
    SumLengths(Values(m))
  }

  lemma TotalIssuesCons(m: IssueMap)
    requires m != []
    ensures TotalIssues(m) == |m[0].1| + TotalIssues(m[1..])
  {
    assert Values(m)[1..] == Values(m[1..]);
  }

  /**
   * Assigning a list to a name changes the total by the difference between the new list's
   * length and the length of the list the name held (none counts as empty).
   */
  lemma {:induction false} TotalIssuesPut(m: IssueMap, name: Json, v: seq<string>)
    ensures TotalIssues(Assoc.Put(m, name, v)) + |Assoc.GetOr(m, name, [])| == TotalIssues(m) + |v|
    decreases |m|
  {
    var r := Assoc.Put(m, name, v);
    if m == [] {
      assert r == [(name, v)];
      TotalIssuesCons(r);
    } else if m[0].0 == name {
      assert r == [(name, v)] + m[1..];
      TotalIssuesCons(r);
      TotalIssuesCons(m);
      assert r[1..] == m[1..];
    } else {
      TotalIssuesPut(m[1..], name, v);
      assert r == [m[0]] + Assoc.Put(m[1..], name, v);
      TotalIssuesCons(r);
      TotalIssuesCons(m);
      assert r[1..] == Assoc.Put(m[1..], name, v);
    }
  }

  /** Every issue recorded through `add_issue` adds exactly one to the report's total. */
  lemma {:induction false} TotalIssuesAfterAdd(issues: IssueMap, name: Json, added: seq<string>)
    requires AddIssues(issues, name, added).Ok?
    ensures TotalIssues(AddIssues(issues, name, added).value) == TotalIssues(issues) + |added|
  {
    AddIssuesFacts(issues, name, added);
    if added != [] {
      var before := Assoc.GetOr(issues, name, []);
      TotalIssuesPut(issues, name, before + added);
    }
  }

  // ================================================================ get_summary_stats

  /** The dictionary `get_summary_stats` returns. */
  datatype SummaryStats = SummaryStats(totalModels: nat, processedModels: nat, failedModels: nat, totalIssues: nat)

  /** `get_summary_stats`: the three counters as stored, and the number of issues recorded over all models. */
  function GetSummaryStats(rep: Report): (r: SummaryStats)
    ensures r.totalModels == rep.total && r.processedModels == rep.processed && r.failedModels == rep.failed
    ensures r.totalIssues == |Flatten(Values(rep.issues))|
  {
    SummaryStats(rep.total, rep.processed, rep.failed, TotalIssues(rep.issues))
  }

  // ================================================================ issue lines

  /** `issue.split(" in ")[0] if " in " in issue else issue`: the text before the first `" in "`. */
  function CleanIssue(issue: string): (r: string)
    ensures StartsWith(issue, r)
    ensures Contains(issue, " in ") ==> OccursAt(issue, " in ", |r|) && !Contains(r, " in ")
    ensures !Contains(issue, " in ") ==> r == issue
  {
    match IndexOf(issue, " in ")
    case None => issue
    case Some(j) =>
      FirstOccurrenceCuts(issue, " in ", j);
      issue[..j]
  }

  /** The text before the first occurrence of `sub` does not contain `sub`. */
  lemma {:induction false} FirstOccurrenceCuts(s: string, sub: string, j: nat)
    requires |sub| > 0 && IndexOf(s, sub) == Some(j)
    ensures IndexOf(s[..j], sub).None?
  {
    forall k | OccursAt(s[..j], sub, k) ensures false {
      OccursInPrefix(s, sub, j, k);
    }
  }

  lemma OccursInPrefix(s: string, sub: string, j: nat, k: int)
    requires |sub| > 0 && j <= |s| && OccursAt(s[..j], sub, k)
    ensures OccursAt(s, sub, k) && k < j
  {
    assert s[..j][k..k + |sub|] == s[k..k + |sub|];
  }

  /** Trimming twice is trimming once. */
  lemma CleanIssueIdempotent(issue: string)
    ensures CleanIssue(CleanIssue(issue)) == CleanIssue(issue)
  {
  }

  /** `f"{idx}. {clean_issue}\n"`. */
  function IssueLine(idx: nat, issue: string): string {
    NatToString(idx) + ". " + CleanIssue(issue) + "\n"
  }

  /** The inner loop `for idx, issue in enumerate(issues, first)`. */
  function IssueLines(issues: seq<string>, first: nat): string
    decreases |issues|
  {
    if issues == [] then "" else IssueLine(first, issues[0]) + IssueLines(issues[1..], first + 1)
  }

  /** Splitting the list splits the lines, the second part numbered on from where the first stopped. */
  lemma {:induction false} IssueLinesAppend(a: seq<string>, b: seq<string>, first: nat)
    ensures IssueLines(a + b, first) == IssueLines(a, first) + IssueLines(b, first + |a|)
    decreases |a|
  {
    if a == [] {
      assert a + b == b;
    } else {
      assert (a + b)[1..] == a[1..] + b;
      IssueLinesAppend(a[1..], b, first + 1);
      var x, rest, tail := IssueLine(first, a[0]), IssueLines(a[1..], first + 1), IssueLines(b, first + |a|);
      assert (a + b)[0] == a[0] && first + 1 + |a[1..]| == first + |a|;
      assert IssueLines(a + b, first) == x + IssueLines(a[1..] + b, first + 1);
      assert IssueLines(a, first) == x + rest;
      AppendAssoc(x, rest, tail);
    }
  }

  /** One more issue adds one more line, numbered one past the count so far: issues are numbered from 1, in order. */
  lemma {:induction false} IssueLinesSnoc(issues: seq<string>, x: string)
    ensures IssueLines(issues + [x], 1) == IssueLines(issues, 1) + IssueLine(|issues| + 1, x)
  {
    IssueLinesAppend(issues, [x], 1);
    assert IssueLines([x], |issues| + 1) == IssueLine(|issues| + 1, x) + "";
  }

  // ================================================================ the text report

  /** The block of one model: its name, its issue count and its numbered issues. */
  function ModelSection(name: Json, issues: seq<string>): string {
    "\n### \U{1F4CC} " + Str(name) + "\n" + "**Total Issues:** " + NatToString(|issues|) + "\n\n" + IssueLines(issues, 1) + "\n"
  }

  /** The outer loop over `issues_by_model.items()`, in the map's order. */
  function ModelSections(m: IssueMap): string
    decreases |m|
  {
    if m == [] then "" else ModelSection(m[0].0, m[0].1) + ModelSections(m[1..])
  }

  /** One more model adds its block after the others. */
  lemma {:induction false} ModelSectionsSnoc(m: IssueMap, name: Json, issues: seq<string>)
    ensures ModelSections(m + [(name, issues)]) == ModelSections(m) + ModelSection(name, issues)
    decreases |m|
  {
    if m == [] {
      assert [(name, issues)][1..] == [];
    } else {
      assert (m + [(name, issues)])[1..] == m[1..] + [(name, issues)];
      ModelSectionsSnoc(m[1..], name, issues);
      AppendAssoc(ModelSection(m[0].0, m[0].1), ModelSections(m[1..]), ModelSection(name, issues));
    }
  }

  const NO_ISSUES: string := "\n\U{2705} No issues found - all models are already properly formatted!\n"
  const ERRORS_HEADING: string := "\n---\n\n## Errors\n"
  const NO_ERRORS: string := "\n\U{2705} No errors encountered!\n"

  /** `f"- ❌ {error}\n"`. */
  function ErrorLine(error: string): string {
    "- \U{274C} " + error + "\n"
  }

  /** The loop over `errors`. */
  function ErrorLines(errors: seq<string>): string
    decreases |errors|
  {
    if errors == [] then "" else ErrorLine(errors[0]) + ErrorLines(errors[1..])
  }

  /** One more error adds its line at the end: one line per error, in order. */
  lemma {:induction false} ErrorLinesSnoc(errors: seq<string>, e: string)
    ensures ErrorLines(errors + [e]) == ErrorLines(errors) + ErrorLine(e)
    decreases |errors|
  {
    if errors == [] {
      assert [e][1..] == [];
    } else {
      assert (errors + [e])[1..] == errors[1..] + [e];
      ErrorLinesSnoc(errors[1..], e);
      AppendAssoc(ErrorLine(errors[0]), ErrorLines(errors[1..]), ErrorLine(e));
    }
  }

  /** The heading and the summary block, with the generation time as given. */
  function Header(rep: Report, generatedOn: string): string {
    "\n\n# JSON Formatting & Validation Report\n**Generated on:** " + generatedOn + "\n\n---\n\n## Summary\n"
    + "- **Total Models Processed:** " + NatToString(rep.total) + "\n"
    + "- **Successfully Formatted:** " + NatToString(rep.processed) + "\n"
    + "- **Failed Models:** " + NatToString(rep.failed) + "\n"
    + "- **Total Issues Fixed:** " + NatToString(TotalIssues(rep.issues)) + "\n"
    + "\n---\n\n## Issues Fixed by Model\n"
  }

  function IssuesPart(m: IssueMap): string {
    if m == [] then NO_ISSUES else ModelSections(m)
  }

  function ErrorsPart(errors: seq<string>): string {
    if errors == [] then NO_ERRORS else ErrorLines(errors)
  }

  /** `generate_text_report`. */
  function GenerateTextReport(rep: Report, generatedOn: string): string {
    Header(rep, generatedOn) + IssuesPart(rep.issues) + ERRORS_HEADING + ErrorsPart(rep.errors)
  }

  /**
   * The report opens with the summary and then either the "no issues" line or the models'
   * blocks, and it closes with either the "no errors" line or one line per error.
   */
  lemma ReportShape(rep: Report, generatedOn: string)
    ensures var r := GenerateTextReport(rep, generatedOn);
      && (rep.issues == [] ==> StartsWith(r, Header(rep, generatedOn) + NO_ISSUES))
      && (rep.issues != [] ==> StartsWith(r, Header(rep, generatedOn) + ModelSections(rep.issues)))
      && (rep.errors == [] ==> EndsWith(r, ERRORS_HEADING + NO_ERRORS))
      && (rep.errors != [] ==> EndsWith(r, ERRORS_HEADING + ErrorLines(rep.errors)))
  {
    var h, i, e := Header(rep, generatedOn), IssuesPart(rep.issues), ErrorsPart(rep.errors);
    AppendAssoc(h + i, ERRORS_HEADING, e);
    PrefixAndSuffix(h + i, ERRORS_HEADING + e);
  }

  lemma PrefixAndSuffix<T>(a: seq<T>, b: seq<T>)
    ensures (a + b)[..|a|] == a && (a + b)[|a + b| - |b|..] == b
  {
  }
}
