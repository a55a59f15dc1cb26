/** The statistics of `analyze_issues`: label counts, a one-bucket-per-issue
    type classification, open and closed counts, the mean resolution time
    and the open ratio.

    Issues are the records the GitHub API returns, reduced to the fields
    the function reads. Turning the two timestamps of a closed issue into a
    number of days is a parameter (`days`); Python's floats are exact
    `real`s here. */
module IssueAnalysis {
  import opened Wrappers
  import opened Strings

  datatype Label = Label(name: string)

  /** `closed_at` is `None` for an open issue. */
  datatype Issue = Issue(labels: seq<Label>, createdAt: string, closedAt: Option<string>)

  /** The four keys of the `issue_types` counter. */
  datatype IssueType = Bug | Enhancement | Question | Other

  /** `if issue['closed_at']`: present and non-empty. */
  predicate IsClosed(issue: Issue) {
    issue.closedAt.Some? && issue.closedAt.value != ""
  }

  // ---------------------------------------------------------------------
  // Classification

  /** `[label['name'].lower() for label in issue['labels']]`. */
  function LoweredNames(labels: seq<Label>): (ns: seq<string>)
    ensures |ns| == |labels|
    ensures forall i :: 0 <= i < |labels| ==> ns[i] == LowerAscii(labels[i].name)
  {
    seq(|labels|, i requires 0 <= i < |labels| => LowerAscii(labels[i].name))
  }

  /** The source's if/elif chain: the first of `bug`, `enhancement`,
      `question` among the lowered label names decides the type. */
  function TypeOf(labels: seq<Label>): IssueType {
    var names := LoweredNames(labels);
    if "bug" in names then Bug
    else if "enhancement" in names then Enhancement
    else if "question" in names then Question
    else Other
  }

  /** The precedence of the chain: bug over enhancement over question over
      everything else. */
  function Priority(t: IssueType): nat {
    match t
    case Bug => 3
    case Enhancement => 2
    case Question => 1
    case Other => 0
  }

  /** The type one label on its own would give. */
  function LabelType(name: string): IssueType {
    var lowered := LowerAscii(name);
    if lowered == "bug" then Bug
    else if lowered == "enhancement" then Enhancement
    else if lowered == "question" then Question
    else Other
  }

  function Stronger(a: IssueType, b: IssueType): (c: IssueType)
    ensures c == a || c == b
    ensures Priority(c) >= Priority(a) && Priority(c) >= Priority(b)
  {
    if Priority(a) >= Priority(b) then a else b
  }

  /** The highest-precedence type among the labels, each taken alone. */
  function Strongest(labels: seq<Label>): IssueType
    decreases |labels|
  {
    if |labels| == 0 then Other
    else Stronger(LabelType(labels[0].name), Strongest(labels[1..]))
  }

  /** The if/elif chain picks the strongest label: classifying an issue is
      classifying each label and keeping the highest precedence. */
  lemma {:induction false} TypeIsStrongestLabel(labels: seq<Label>)
    ensures TypeOf(labels) == Strongest(labels)
    decreases |labels|
  {
    if |labels| > 0 {
      var head := LowerAscii(labels[0].name);
      assert LoweredNames(labels) == [head] + LoweredNames(labels[1..]);
      TypeIsStrongestLabel(labels[1..]);
    }
  }

  /** Precedence spelled out per label: an issue is a bug iff one of its
      labels is `bug` in any case; an enhancement iff none is `bug` and one
      is `enhancement`; a question iff neither of those and one is
      `question`; otherwise other. */
  lemma TypePrecedence(labels: seq<Label>)
    ensures TypeOf(labels) == Bug <==> exists l :: l in labels && LabelType(l.name) == Bug
    ensures TypeOf(labels) == Enhancement <==>
              (forall l :: l in labels ==> LabelType(l.name) != Bug)
              && exists l :: l in labels && LabelType(l.name) == Enhancement
    ensures TypeOf(labels) == Question <==>
              (forall l :: l in labels ==> LabelType(l.name) != Bug && LabelType(l.name) != Enhancement)
              && exists l :: l in labels && LabelType(l.name) == Question
  {
    var names := LoweredNames(labels);
    forall w | w == "bug" || w == "enhancement" || w == "question"
      ensures w in names <==> exists l :: l in labels && LowerAscii(l.name) == w
    {
      if w in names {
        var i :| 0 <= i < |names| && names[i] == w;
        assert labels[i] in labels;
      }
      if exists l :: l in labels && LowerAscii(l.name) == w {
        var l :| l in labels && LowerAscii(l.name) == w;
        var i :| 0 <= i < |labels| && labels[i] == l;
        assert names[i] == w;
      }
    }
  }

  /** Adding labels never lowers an issue's precedence. */
  lemma TypeMonotone(labels: seq<Label>, extra: seq<Label>)
    ensures Priority(TypeOf(labels)) <= Priority(TypeOf(labels + extra))
  {
    var a, b := LoweredNames(labels), LoweredNames(labels + extra);
    forall w | w in a ensures w in b {
      var i :| 0 <= i < |a| && a[i] == w;
      assert (labels + extra)[i] == labels[i];
      assert b[i] == w;
    }
  }

  /** The type depends on the labels present, not on their order or
      repetition. */
  lemma TypeIgnoresOrder(a: seq<Label>, b: seq<Label>)
    requires forall l :: l in a <==> l in b
    ensures TypeOf(a) == TypeOf(b)
  {
    var na, nb := LoweredNames(a), LoweredNames(b);
    forall w | w in na ensures w in nb {
      var i :| 0 <= i < |na| && na[i] == w;
      assert a[i] in b;
      var j :| 0 <= j < |b| && b[j] == a[i];
      assert nb[j] == w;
    }
    forall w | w in nb ensures w in na {
      var j :| 0 <= j < |nb| && nb[j] == w;
      assert b[j] in a;
      var i :| 0 <= i < |a| && a[i] == b[j];
      assert na[i] == w;
    }
  }

  /** Label names that agree once lowered classify alike: `Bug`, `BUG` and
      `bug` all make a bug. */
  lemma TypeIgnoresCase(a: seq<Label>, b: seq<Label>)
    requires |a| == |b|
    requires forall i :: 0 <= i < |a| ==> LowerAscii(a[i].name) == LowerAscii(b[i].name)
    ensures TypeOf(a) == TypeOf(b)
  {
    assert LoweredNames(a) == LoweredNames(b);
  }

  // ---------------------------------------------------------------------
  // Reference tallies, built from the last issue backwards so that each
  // loop iteration extends them by one issue.

  function Names(labels: seq<Label>): (ns: seq<string>)
    ensures |ns| == |labels|
    ensures forall i :: 0 <= i < |labels| ==> ns[i] == labels[i].name
  {
    seq(|labels|, i requires 0 <= i < |labels| => labels[i].name)
  }

  /** Every label name of every issue, in order, original case kept. */
  function LabelNames(issues: seq<Issue>): seq<string>
    decreases |issues|
  {
    if |issues| == 0 then []
    else LabelNames(issues[..|issues| - 1]) + Names(issues[|issues| - 1].labels)
  }

  /** The number of labels over all issues. */
  function TotalLabels(issues: seq<Issue>): nat
    decreases |issues|
  {
    if |issues| == 0 then 0
    else TotalLabels(issues[..|issues| - 1]) + |issues[|issues| - 1].labels|
  }

  function Types(issues: seq<Issue>): (ts: seq<IssueType>)
    ensures |ts| == |issues|
    ensures forall i :: 0 <= i < |issues| ==> ts[i] == TypeOf(issues[i].labels)
  {
    seq(|issues|, i requires 0 <= i < |issues| => TypeOf(issues[i].labels))
  }

  function ClosedCount(issues: seq<Issue>): (n: nat)
    ensures n <= |issues|
    decreases |issues|
  {
    if |issues| == 0 then 0
    else ClosedCount(issues[..|issues| - 1]) + (if IsClosed(issues[|issues| - 1]) then 1 else 0)
  }

  /** The resolution time of each closed issue, in order. */
  function ResolveTimes(issues: seq<Issue>, days: (string, string) -> int): seq<int>
    decreases |issues|
  {
    if |issues| == 0 then []
    else
      var last := issues[|issues| - 1];
      ResolveTimes(issues[..|issues| - 1], days)
      + (if IsClosed(last) then [days(last.createdAt, last.closedAt.value)] else [])
  }

  lemma {:induction false} LabelNamesCount(issues: seq<Issue>)
    ensures |LabelNames(issues)| == TotalLabels(issues)
    decreases |issues|
  {
    if |issues| > 0 {
      LabelNamesCount(issues[..|issues| - 1]);
    }
  }

  lemma {:induction false} ResolveTimesCount(issues: seq<Issue>, days: (string, string) -> int)
    ensures |ResolveTimes(issues, days)| == ClosedCount(issues)
    decreases |issues|
  {
    if |issues| > 0 {
      ResolveTimesCount(issues[..|issues| - 1], days);
    }
  }

  lemma {:induction false} LabelNamesAppend(a: seq<Issue>, b: seq<Issue>)
    ensures LabelNames(a + b) == LabelNames(a) + LabelNames(b)
    decreases |b|
  {
    if |b| == 0 {
      assert a + b == a;
    } else {
      var init := b[..|b| - 1];
      assert (a + b)[..|a + b| - 1] == a + init;
      assert (a + b)[|a + b| - 1] == b[|b| - 1];
      LabelNamesAppend(a, init);
    }
  }

  lemma {:induction false} ClosedCountAppend(a: seq<Issue>, b: seq<Issue>)
    ensures ClosedCount(a + b) == ClosedCount(a) + ClosedCount(b)
    decreases |b|
  {
    if |b| == 0 {
      assert a + b == a;
    } else {
      var init := b[..|b| - 1];
      assert (a + b)[..|a + b| - 1] == a + init;
      assert (a + b)[|a + b| - 1] == b[|b| - 1];
      ClosedCountAppend(a, init);
    }
  }

  /** Tallying two batches of issues one after the other adds up their
      label counts, type counts and closed counts. */
  lemma TalliesAdd(a: seq<Issue>, b: seq<Issue>)
    ensures multiset(LabelNames(a + b)) == multiset(LabelNames(a)) + multiset(LabelNames(b))
    ensures multiset(Types(a + b)) == multiset(Types(a)) + multiset(Types(b))
    ensures ClosedCount(a + b) == ClosedCount(a) + ClosedCount(b)
  {
    LabelNamesAppend(a, b);
    ClosedCountAppend(a, b);
    assert Types(a + b) == Types(a) + Types(b);
  }

  /** Each issue lands in exactly one of the four buckets. */
  lemma {:induction false} BucketsPartition(ts: seq<IssueType>)
    ensures multiset(ts)[Bug] + multiset(ts)[Enhancement] + multiset(ts)[Question] + multiset(ts)[Other] == |ts|
    decreases |ts|
  {
    if |ts| > 0 {
      var x, m := ts[0], multiset(ts[1..]);
      BucketsPartition(ts[1..]);
      assert ts == [x] + ts[1..];
      assert multiset(ts) == multiset{x} + m;
      assert multiset(ts)[Bug] == m[Bug] + (if x == Bug then 1 else 0);
      assert multiset(ts)[Enhancement] == m[Enhancement] + (if x == Enhancement then 1 else 0);
      assert multiset(ts)[Question] == m[Question] + (if x == Question then 1 else 0);
      assert multiset(ts)[Other] == m[Other] + (if x == Other then 1 else 0);
    }
  }

  // ---------------------------------------------------------------------
  // The loop

  /** The counters after the source's `for issue in issues` loop. */
  datatype Tally = Tally(labelCounts: multiset<string>, resolveTimes: seq<int>,
                         issueTypes: multiset<IssueType>, openCount: nat, closedCount: nat)

  /** One iteration of the loop of `analyze_issues` (scripts/issue_analysis.py,
      lines 69-90) on `issue`. */
  method CountIssue(t: Tally, issue: Issue, days: (string, string) -> int) returns (t': Tally)
    ensures t'.labelCounts == t.labelCounts + multiset(Names(issue.labels))
    ensures t'.issueTypes == t.issueTypes + multiset{TypeOf(issue.labels)}
    ensures IsClosed(issue) ==> t'.closedCount == t.closedCount + 1 && t'.openCount == t.openCount
                                && t'.resolveTimes == t.resolveTimes + [days(issue.createdAt, issue.closedAt.value)]
    ensures !IsClosed(issue) ==> t'.closedCount == t.closedCount && t'.openCount == t.openCount + 1
                                 && t'.resolveTimes == t.resolveTimes
  {
    var labelCounts := t.labelCounts;
    var j := 0;
    while j < |issue.labels|
      invariant j <= |issue.labels|
      invariant labelCounts == t.labelCounts + multiset(Names(issue.labels[..j]))
    {
      assert Names(issue.labels[..j + 1]) == Names(issue.labels[..j]) + [issue.labels[j].name];
      labelCounts := labelCounts + multiset{issue.labels[j].name};
      j := j + 1;
    }
    assert issue.labels[..j] == issue.labels;
    var issueTypes := t.issueTypes + multiset{TypeOf(issue.labels)};
    if IsClosed(issue) {
      var resolveTime := days(issue.createdAt, issue.closedAt.value);
      t' := Tally(labelCounts, t.resolveTimes + [resolveTime], issueTypes, t.openCount, t.closedCount + 1);
    } else {
      t' := Tally(labelCounts, t.resolveTimes, issueTypes, t.openCount + 1, t.closedCount);
    }
  }

  /** The reference tallies of `issues[..i + 1]` extend those of `issues[..i]`
      by issue `i`. */
  lemma TalliesExtend(issues: seq<Issue>, i: nat, days: (string, string) -> int)
    requires i < |issues|
    ensures LabelNames(issues[..i + 1]) == LabelNames(issues[..i]) + Names(issues[i].labels)
    ensures Types(issues[..i + 1]) == Types(issues[..i]) + [TypeOf(issues[i].labels)]
    ensures ClosedCount(issues[..i + 1]) == ClosedCount(issues[..i]) + (if IsClosed(issues[i]) then 1 else 0)
    ensures ResolveTimes(issues[..i + 1], days)
            == ResolveTimes(issues[..i], days)
               + (if IsClosed(issues[i]) then [days(issues[i].createdAt, issues[i].closedAt.value)] else [])
  {
    assert issues[..i + 1][..i] == issues[..i];
    assert issues[..i + 1][i] == issues[i];
  }

  /** The loop of `analyze_issues`: every label name counted under its own
      spelling, one type per issue, and every issue either closed (with a
      resolution time) or open. */
  method CountIssues(issues: seq<Issue>, days: (string, string) -> int) returns (t: Tally)
    ensures t.openCount + t.closedCount == |issues|
    ensures |t.resolveTimes| == t.closedCount
    ensures t.issueTypes[Bug] + t.issueTypes[Enhancement] + t.issueTypes[Question] + t.issueTypes[Other] == |issues|
    ensures t.labelCounts == multiset(LabelNames(issues))
    ensures |t.labelCounts| == TotalLabels(issues)
    ensures t.issueTypes == multiset(Types(issues))
    ensures t.closedCount == ClosedCount(issues)
    ensures t.resolveTimes == ResolveTimes(issues, days)
  {
    t := Tally(multiset{}, [], multiset{}, 0, 0);
    var i := 0;
    while i < |issues|
      invariant i <= |issues|
      invariant t.labelCounts == multiset(LabelNames(issues[..i]))
      invariant t.issueTypes == multiset(Types(issues[..i]))
      invariant t.closedCount == ClosedCount(issues[..i])
      invariant t.openCount + t.closedCount == i
      invariant t.resolveTimes == ResolveTimes(issues[..i], days)
    {
      TalliesExtend(issues, i, days);
      t := CountIssue(t, issues[i], days);
      i := i + 1;
    }
    assert issues[..i] == issues;
    LabelNamesCount(issues);
    ResolveTimesCount(issues, days);
    BucketsPartition(Types(issues));
  }

  // ---------------------------------------------------------------------
  // The summary

  function Sum(xs: seq<int>): int
    decreases |xs|
  {
    if |xs| == 0 then 0 else Sum(xs[..|xs| - 1]) + xs[|xs| - 1]
  }

  /** `sum(xs) / len(xs) if xs else 0`. */
  function Mean(xs: seq<int>): (m: real)
    ensures |xs| == 0 ==> m == 0.0
    ensures |xs| > 0 ==> m * (|xs| as real) == Sum(xs) as real
  {
    if |xs| == 0 then 0.0 else Sum(xs) as real / |xs| as real
  }

  /** `part / total if total > 0 else 0`. */
  function Ratio(part: nat, total: nat): (r: real)
    requires part <= total
    ensures total == 0 ==> r == 0.0
    ensures total > 0 ==> r * (total as real) == part as real
    ensures 0.0 <= r <= 1.0
  {
    if total > 0 then part as real / total as real else 0.0
  }

  lemma {:induction false} SumBounds(xs: seq<int>, lo: int, hi: int)
    requires forall i :: 0 <= i < |xs| ==> lo <= xs[i] <= hi
    ensures |xs| * lo <= Sum(xs) <= |xs| * hi
    decreases |xs|
  {
    if |xs| > 0 {
      var init := xs[..|xs| - 1];
      assert forall i :: 0 <= i < |init| ==> init[i] == xs[i];
      SumBounds(init, lo, hi);
      assert |xs| * lo == |init| * lo + lo;
      assert |xs| * hi == |init| * hi + hi;
    }
  }

  /** The mean of samples that all lie in `[lo, hi]` lies there too. */
  lemma MeanWithin(xs: seq<int>, lo: int, hi: int)
    requires |xs| > 0
    requires forall i :: 0 <= i < |xs| ==> lo <= xs[i] <= hi
    ensures lo as real <= Mean(xs) <= hi as real
  {
    SumBounds(xs, lo, hi);
    var n, m := |xs| as real, Mean(xs);
    assert (m - lo as real) * n == Sum(xs) as real - n * lo as real;
    assert (hi as real - m) * n == n * hi as real - Sum(xs) as real;
  }

  /** The four results of `analyze_issues`. */
  datatype Report = Report(labelCounts: multiset<string>, avgResolveTime: real,
                           issueTypes: multiset<IssueType>, openRatio: real)

  /** `analyze_issues(issues)`. */
  method AnalyzeIssues(issues: seq<Issue>, days: (string, string) -> int) returns (r: Report)
    ensures |issues| == 0 ==> r.openRatio == 0.0
    ensures 0.0 <= r.openRatio <= 1.0
    ensures |r.issueTypes| == |issues|
    ensures ClosedCount(issues) == 0 ==> r.avgResolveTime == 0.0
    ensures r.labelCounts == multiset(LabelNames(issues))
    ensures |r.labelCounts| == TotalLabels(issues)
    ensures r.issueTypes == multiset(Types(issues))
    ensures r.avgResolveTime == Mean(ResolveTimes(issues, days))
    ensures |ResolveTimes(issues, days)| == ClosedCount(issues)
    ensures r.openRatio == Ratio(|issues| - ClosedCount(issues), |issues|)
  {
    var t := CountIssues(issues, days);
    var avg := Mean(t.resolveTimes);
    var total := t.openCount + t.closedCount;
    var ratio := Ratio(t.openCount, total);
    r := Report(t.labelCounts, avg, t.issueTypes, ratio);
    assert total == |issues| && t.openCount == |issues| - ClosedCount(issues);
  }
}
