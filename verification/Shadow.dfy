/**
 The shadow comparator (src/command/agent_evolve_shadow.rs): scoring of ledger rows,
 task-by-task comparison of a baseline and a candidate, and the verdict.
 Scores are real numbers here; floating-point rounding is not modelled.
 */
module Shadow {
  import opened Wrappers

  datatype Row = Row(
    eventId: string,
    agentVersion: Option<nat>,
    taskHash: Option<string>,
    quality: Option<real>,
    completion: Option<real>,
    status: string,
    gateFailed: bool,
    testFailed: bool,
    providerIncident: bool)

  datatype Verdict = Inconclusive | Reject | NeedsReview | Promote

  const DELTA: real := 0.05

  function Clamp(x: real): real {
    if x < 0.0 then 0.0 else if x > 1.0 then 1.0 else x
  }

  function BaseScore(row: Row): real {
    if row.quality.Some? then row.quality.value
    else if row.completion.Some? then row.completion.value
    else if row.status in {"succeeded", "success"} then 1.0
    else if row.status in {"failed", "failure", "cancelled", "canceled", "timed_out", "timeout"} then 0.0
    else 0.5
  }

  function Penalty(row: Row): real {
    if row.gateFailed || row.testFailed then 0.15
    else if row.providerIncident then 0.1
    else 0.0
  }

  function RowScore(row: Row): (score: real)
    ensures 0.0 <= score <= 1.0
    ensures score > 0.0 ==> score <= BaseScore(row) - Penalty(row)
    ensures score < 1.0 ==> score >= BaseScore(row) - Penalty(row)
  {
    Clamp(BaseScore(row) - Penalty(row))
  }

  function Sum(scores: seq<real>): real {
    if scores == [] then 0.0 else scores[0] + Sum(scores[1..])
  }

  function Scores(rows: seq<Row>): (scores: seq<real>)
    ensures |scores| == |rows|
    ensures forall i :: 0 <= i < |rows| ==> scores[i] == RowScore(rows[i])
  {
    seq(|rows|, i requires 0 <= i < |rows| => RowScore(rows[i]))
  }

  function AverageScore(rows: seq<Row>): (score: real)
    ensures 0.0 <= score <= 1.0
    ensures rows == [] ==> score == 0.0
  {
    if rows == [] then 0.0 else Clamp(Sum(Scores(rows)) / |rows| as real)
  }

  function Times(x: real, n: nat): real {
    if n == 0 then 0.0 else x + Times(x, n - 1)
  }

  lemma Distribute(x: real, m: real, n: real)
    requires n == m + 1.0
    ensures x * n == x * m + x
  {}

  lemma {:induction false} TimesIsProduct(x: real, n: nat)
    ensures Times(x, n) == x * n as real
  {
    if n > 0 {
      TimesIsProduct(x, n - 1);
      Distribute(x, (n - 1) as real, n as real);
    }
  }

  lemma {:induction false} SumBounds(scores: seq<real>, lo: real, hi: real)
    requires forall x :: x in scores ==> lo <= x <= hi
    ensures Times(lo, |scores|) <= Sum(scores) <= Times(hi, |scores|)
  {
    if scores != [] {
      assert forall x :: x in scores[1..] ==> x in scores;
      SumBounds(scores[1..], lo, hi);
      assert scores[0] in scores;
    }
  }

  lemma MeanBounds(total: real, n: real, lo: real, hi: real)
    requires n > 0.0 && lo * n <= total <= hi * n
    ensures lo <= total / n <= hi
  {
    assert total / n * n == total;
  }

  // The clamp of the average is idle: the mean of scores in [0, 1] is already there, and
  // it lies between the lowest and the highest row.
  lemma AverageIsBetween(rows: seq<Row>, lo: real, hi: real)
    requires rows != [] && 0.0 <= lo && hi <= 1.0
    requires forall x :: x in Scores(rows) ==> lo <= x <= hi
    ensures lo <= AverageScore(rows) <= hi
    ensures AverageScore(rows) == Sum(Scores(rows)) / |rows| as real
  {
    var n := |rows| as real;
    SumBounds(Scores(rows), lo, hi);
    TimesIsProduct(lo, |rows|);
    TimesIsProduct(hi, |rows|);
    MeanBounds(Sum(Scores(rows)), n, lo, hi);
  }

  predicate Worse(baseline: real, candidate: real) {
    candidate + DELTA < baseline
  }

  predicate Better(baseline: real, candidate: real) {
    candidate > baseline + DELTA
  }

  // The first row that carries the given task hash.
  function FirstFor(rows: seq<Row>, hash: string): (found: Option<Row>)
    ensures found.None? <==> forall row :: row in rows ==> row.taskHash != Some(hash)
    ensures found.Some? ==> found.value in rows && found.value.taskHash == Some(hash)
    ensures found.Some? ==> exists i: nat :: IsFirst(rows, hash, i) && found.value == rows[i]
  {
    if rows == [] then None
    else if rows[0].taskHash == Some(hash) then
      assert IsFirst(rows, hash, 0);
      Some(rows[0])
    else
      FirstOfRest(rows, hash);
      FirstFor(rows[1..], hash)
  }

  predicate IsFirst(rows: seq<Row>, hash: string, i: nat) {
    i < |rows| && rows[i].taskHash == Some(hash) && forall j :: 0 <= j < i ==> rows[j].taskHash != Some(hash)
  }

  lemma FirstOfRest(rows: seq<Row>, hash: string)
    requires rows != [] && rows[0].taskHash != Some(hash)
    ensures forall i: nat :: IsFirst(rows[1..], hash, i) ==> IsFirst(rows, hash, i + 1) && rows[i + 1] == rows[1..][i]
  {
    forall i: nat | IsFirst(rows[1..], hash, i) ensures IsFirst(rows, hash, i + 1) {
      assert forall j :: 0 < j <= i ==> rows[j] == rows[1..][j - 1];
    }
  }

  // The baseline row that one candidate row is held against, if there is one.
  function Opponent(baseline: seq<Row>, row: Row): Option<Row> {
    if row.taskHash.None? then None else FirstFor(baseline, row.taskHash.value)
  }

  predicate Regresses(baseline: seq<Row>, row: Row) {
    var opponent := Opponent(baseline, row);
    opponent.Some? && Worse(RowScore(opponent.value), RowScore(row))
  }

  predicate Improves(baseline: seq<Row>, row: Row) {
    var opponent := Opponent(baseline, row);
    opponent.Some? && Better(RowScore(opponent.value), RowScore(row))
  }

  ghost function Indices<T>(p: T -> bool, s: seq<T>): set<nat> {
    set i: nat | i < |s| && p(s[i])
  }

  ghost function Regressed(baseline: seq<Row>, candidate: seq<Row>): set<nat> {
    Indices(row => Regresses(baseline, row), candidate)
  }

  ghost function Improved(baseline: seq<Row>, candidate: seq<Row>): set<nat> {
    Indices(row => Improves(baseline, row), candidate)
  }

  datatype Tally = Tally(regressions: nat, improvements: nat)

  // Task-by-task losses and gains or, when there are none and both sides have rows, the
  // one comparison of the averages.
  function Settle(regressions: nat, improvements: nat, both: bool, baseline: real, candidate: real): Tally {
    if regressions == 0 && improvements == 0 && both then
      if Worse(baseline, candidate) then Tally(1, 0)
      else if Better(baseline, candidate) then Tally(0, 1)
      else Tally(0, 0)
    else
      Tally(regressions, improvements)
  }

  ghost function Compared(baseline: seq<Row>, candidate: seq<Row>): Tally {
    Settle(|Regressed(baseline, candidate)|, |Improved(baseline, candidate)|,
           baseline != [] && candidate != [], AverageScore(baseline), AverageScore(candidate))
  }

  method TallyScores(baseline: real, candidate: real, tally: Tally) returns (after: Tally)
    ensures after.regressions == tally.regressions + (if candidate + 0.05 < baseline then 1 else 0)
    ensures after.improvements == tally.improvements + (if candidate > baseline + 0.05 then 1 else 0)
  {
    after := tally;
    if candidate + DELTA < baseline {
      after := after.(regressions := after.regressions + 1);
    } else if candidate > baseline + DELTA {
      after := after.(improvements := after.improvements + 1);
    }
  }

  lemma OneMoreIndex<T>(p: T -> bool, s: seq<T>, x: T)
    ensures |Indices(p, s + [x])| == |Indices(p, s)| + (if p(x) then 1 else 0)
  {
    var longer := s + [x];
    assert longer[|s|] == x && forall i :: 0 <= i < |s| ==> longer[i] == s[i];
    assert Indices(p, longer) == if p(x) then Indices(p, s) + {|s|} else Indices(p, s);
  }

  lemma OneMoreRow(baseline: seq<Row>, rows: seq<Row>, row: Row)
    ensures |Regressed(baseline, rows + [row])|
         == |Regressed(baseline, rows)| + (if Regresses(baseline, row) then 1 else 0)
    ensures |Improved(baseline, rows + [row])|
         == |Improved(baseline, rows)| + (if Improves(baseline, row) then 1 else 0)
  {
    OneMoreIndex(r => Regresses(baseline, r), rows, row);
    OneMoreIndex(r => Improves(baseline, r), rows, row);
  }

  ghost function Counted(baseline: seq<Row>, rows: seq<Row>): Tally {
    Tally(|Regressed(baseline, rows)|, |Improved(baseline, rows)|)
  }

  lemma NothingCounted(baseline: seq<Row>)
    ensures Counted(baseline, []) == Tally(0, 0)
  {
    assert Regressed(baseline, []) == {} && Improved(baseline, []) == {};
  }

  // The body of the loop.
  method CompareRow(baseline: seq<Row>, row: Row, tally: Tally) returns (after: Tally)
    ensures after.regressions == tally.regressions + (if Regresses(baseline, row) then 1 else 0)
    ensures after.improvements == tally.improvements + (if Improves(baseline, row) then 1 else 0)
  {
    after := tally;
    if row.taskHash.None? {
      return;
    }
    var opponent := FirstFor(baseline, row.taskHash.value);
    if opponent.None? {
      return;
    }
    after := TallyScores(RowScore(opponent.value), RowScore(row), tally);
  }

  // The same after the rows counted so far.
  method CompareNext(baseline: seq<Row>, row: Row, tally: Tally, ghost rows: seq<Row>) returns (after: Tally)
    requires tally == Counted(baseline, rows)
    ensures after == Counted(baseline, rows + [row])
  {
    OneMoreRow(baseline, rows, row);
    after := CompareRow(baseline, row, tally);
  }

  // The loop over the candidate rows.
  method CompareRows(baseline: seq<Row>, candidate: seq<Row>) returns (tally: Tally)
    ensures tally == Counted(baseline, candidate)
  {
    tally := Tally(0, 0);
    NothingCounted(baseline);
    Prefixes(candidate, 0);
    for n := 0 to |candidate|
      invariant tally == Counted(baseline, candidate[..n])
    {
      tally := CompareNext(baseline, candidate[n], tally, candidate[..n]);
      Prefixes(candidate, n);
    }
  }

  lemma Prefixes<T>(s: seq<T>, n: nat)
    requires n <= |s|
    ensures s[..0] == [] && s[..|s|] == s
    ensures n < |s| ==> s[..n + 1] == s[..n] + [s[n]]
  {}

  method CompareTaskScores(baseline: seq<Row>, candidate: seq<Row>) returns (tally: Tally)
    ensures tally == Compared(baseline, candidate)
  {
    tally := CompareRows(baseline, candidate);
    if tally.regressions == 0 && tally.improvements == 0 && baseline != [] && candidate != [] {
      tally := TallyScores(AverageScore(baseline), AverageScore(candidate), tally);
    }
  }

  function VerdictOf(hasCandidate: bool, baseline: real, candidate: real, tally: Tally): (verdict: Verdict)
    ensures verdict == Promote <==>
              hasCandidate && tally.regressions == 0 && tally.improvements > 0 && candidate >= baseline
    ensures verdict == Reject <==> hasCandidate && tally.regressions > 0 && candidate < baseline
    ensures verdict in {Reject, NeedsReview} <==> hasCandidate && tally.regressions > 0
  {
    if !hasCandidate then Inconclusive
    else if candidate < baseline && tally.regressions > 0 then Reject
    else if tally.regressions > 0 then NeedsReview
    else if candidate >= baseline && tally.improvements > 0 then Promote
    else Inconclusive
  }

  ghost function Judge(baseline: seq<Row>, candidate: seq<Row>): Verdict {
    VerdictOf(candidate != [], AverageScore(baseline), AverageScore(candidate), Compared(baseline, candidate))
  }

  // ---------- What is counted ----------

  lemma CountIsZero<T>(p: T -> bool, s: seq<T>)
    ensures |Indices(p, s)| == 0 <==> forall x :: x in s ==> !p(x)
  {
    if forall x :: x in s ==> !p(x) {
      assert Indices(p, s) == {};
    } else {
      var x :| x in s && p(x);
      var i: nat :| i < |s| && s[i] == x;
      assert i in Indices(p, s);
    }
  }

  lemma CountsAreZero(baseline: seq<Row>, candidate: seq<Row>)
    ensures |Regressed(baseline, candidate)| == 0 <==> forall row :: row in candidate ==> !Regresses(baseline, row)
    ensures |Improved(baseline, candidate)| == 0 <==> forall row :: row in candidate ==> !Improves(baseline, row)
  {
    CountIsZero(row => Regresses(baseline, row), candidate);
    CountIsZero(row => Improves(baseline, row), candidate);
  }

  // The row and the first baseline row of its task.
  ghost predicate Matched(baseline: seq<Row>, row: Row, i: nat) {
    row.taskHash.Some? && IsFirst(baseline, row.taskHash.value, i)
  }

  ghost predicate LosesTask(baseline: seq<Row>, row: Row) {
    exists i: nat :: Matched(baseline, row, i) && RowScore(row) + 0.05 < RowScore(baseline[i])
  }

  ghost predicate GainsTask(baseline: seq<Row>, row: Row) {
    exists i: nat :: Matched(baseline, row, i) && RowScore(row) > RowScore(baseline[i]) + 0.05
  }

  lemma MatchIsOpponent(baseline: seq<Row>, row: Row)
    ensures Regresses(baseline, row) <==> LosesTask(baseline, row)
    ensures Improves(baseline, row) <==> GainsTask(baseline, row)
  {
    if row.taskHash.Some? {
      var found := FirstFor(baseline, row.taskHash.value);
      forall i: nat | Matched(baseline, row, i) ensures found == Some(baseline[i]) {
        assert baseline[i] in baseline;
        var j: nat :| IsFirst(baseline, row.taskHash.value, j) && found.value == baseline[j];
        assert i == j;
      }
      if found.Some? {
        var j: nat :| IsFirst(baseline, row.taskHash.value, j) && found.value == baseline[j];
        assert Matched(baseline, row, j);
      }
    }
  }

  ghost function Losers(baseline: seq<Row>, candidate: seq<Row>): set<nat> {
    set i: nat | i < |candidate| && LosesTask(baseline, candidate[i])
  }

  ghost function Gainers(baseline: seq<Row>, candidate: seq<Row>): set<nat> {
    set i: nat | i < |candidate| && GainsTask(baseline, candidate[i])
  }

  lemma SameCounts(baseline: seq<Row>, candidate: seq<Row>)
    ensures Regressed(baseline, candidate) == Losers(baseline, candidate)
    ensures Improved(baseline, candidate) == Gainers(baseline, candidate)
  {
    forall i: nat | i < |candidate|
      ensures i in Regressed(baseline, candidate) <==> LosesTask(baseline, candidate[i])
      ensures i in Improved(baseline, candidate) <==> GainsTask(baseline, candidate[i])
    {
      MatchIsOpponent(baseline, candidate[i]);
    }
  }

  lemma NoneCounted(baseline: seq<Row>, candidate: seq<Row>)
    ensures |Losers(baseline, candidate)| == 0 && |Gainers(baseline, candidate)| == 0 <==>
              forall i :: 0 <= i < |candidate| ==> !LosesTask(baseline, candidate[i]) && !GainsTask(baseline, candidate[i])
  {
    var losers, gainers := Losers(baseline, candidate), Gainers(baseline, candidate);
    if forall i :: 0 <= i < |candidate| ==> !LosesTask(baseline, candidate[i]) && !GainsTask(baseline, candidate[i]) {
      assert losers == {} && gainers == {};
    } else {
      var i: nat :| i < |candidate| && (LosesTask(baseline, candidate[i]) || GainsTask(baseline, candidate[i]));
      assert i in losers || i in gainers;
    }
  }

  // With rows on both sides of which none loses or gains against its task the averages
  // decide, beyond a tolerance of 0.05; in every other case the rows are counted.
  lemma TallyExactly(baseline: seq<Row>, candidate: seq<Row>)
    ensures var quiet := forall i :: 0 <= i < |candidate| ==>
                           !LosesTask(baseline, candidate[i]) && !GainsTask(baseline, candidate[i]);
            var a, b := AverageScore(baseline), AverageScore(candidate);
            Compared(baseline, candidate) ==
            if baseline != [] && candidate != [] && quiet then
              if b + 0.05 < a then Tally(1, 0) else if b > a + 0.05 then Tally(0, 1) else Tally(0, 0)
            else
              Tally(|Losers(baseline, candidate)|, |Gainers(baseline, candidate)|)
  {
    SameCounts(baseline, candidate);
    NoneCounted(baseline, candidate);
  }

  // ---------- Scores as numbers ----------

  // What a row scores before its flags are looked at.
  predicate Starts(row: Row, base: real) {
    match (row.quality, row.completion)
    case (Some(quality), _) => base == quality
    case (None, Some(completion)) => base == completion
    case (None, None) =>
      if row.status == "succeeded" || row.status == "success" then base == 1.0
      else if row.status == "failed" || row.status == "failure" || row.status == "cancelled" || row.status == "canceled"
           || row.status == "timed_out" || row.status == "timeout" then base == 0.0
      else base == 0.5
  }

  // A failed gate or test costs 0.15, otherwise an incident of the provider 0.1, and the
  // score is held between zero and one.
  lemma RowScoreIs(row: Row, base: real)
    requires Starts(row, base)
    ensures var left := if row.gateFailed || row.testFailed then base - 0.15 else if row.providerIncident then base - 0.1 else base;
            RowScore(row) == if left < 0.0 then 0.0 else if left > 1.0 then 1.0 else left
  {}

  lemma {:induction false} SumConcat(a: seq<real>, b: seq<real>)
    ensures Sum(a + b) == Sum(a) + Sum(b)
    ensures forall x :: Sum([x]) == x
  {
    if a == [] {
      assert a + b == b;
    } else {
      assert (a + b)[1..] == a[1..] + b;
      SumConcat(a[1..], b);
    }
    forall x ensures Sum([x]) == x {
      assert [x][1..] == [];
    }
  }

  // ---------- Antisymmetry ----------

  ghost predicate UniqueTasks(rows: seq<Row>) {
    forall i, j :: 0 <= i < j < |rows| && rows[i].taskHash.Some? ==> rows[i].taskHash != rows[j].taskHash
  }

  lemma {:induction false} FirstIsOnly(rows: seq<Row>, i: nat)
    requires UniqueTasks(rows) && i < |rows| && rows[i].taskHash.Some?
    ensures FirstFor(rows, rows[i].taskHash.value) == Some(rows[i])
  {
    if i > 0 {
      var rest := rows[1..];
      assert rows[0].taskHash != rows[i].taskHash;
      assert rest[i - 1] == rows[i];
      assert UniqueTasks(rest) by {
        forall a, b | 0 <= a < b < |rest| && rest[a].taskHash.Some?
          ensures rest[a].taskHash != rest[b].taskHash
        {
          assert rest[a] == rows[a + 1] && rest[b] == rows[b + 1];
        }
      }
      FirstIsOnly(rest, i - 1);
    }
  }

  lemma {:induction false} InjectiveImage(indices: set<nat>, f: nat -> string, image: set<string>)
    requires image == set i | i in indices :: f(i)
    requires forall i, j :: i in indices && j in indices && i != j ==> f(i) != f(j)
    ensures |image| == |indices|
  {
    if indices != {} {
      var i :| i in indices;
      var fewer := indices - {i};
      var smaller := set j | j in fewer :: f(j);
      InjectiveImage(fewer, f, smaller);
      assert image == smaller + {f(i)};
      assert f(i) !in smaller;
    }
  }

  function HashAt(rows: seq<Row>, i: nat): string {
    if i < |rows| && rows[i].taskHash.Some? then rows[i].taskHash.value else ""
  }

  ghost function TasksAt(rows: seq<Row>, indices: set<nat>): set<string> {
    set i | i in indices :: HashAt(rows, i)
  }

  // The tasks the candidate loses and gains.
  ghost function LostTasks(baseline: seq<Row>, candidate: seq<Row>): set<string> {
    TasksAt(candidate, Regressed(baseline, candidate))
  }

  ghost function WonTasks(baseline: seq<Row>, candidate: seq<Row>): set<string> {
    TasksAt(candidate, Improved(baseline, candidate))
  }

  lemma TasksCount(rows: seq<Row>, indices: set<nat>)
    requires UniqueTasks(rows)
    requires forall i :: i in indices ==> i < |rows| && rows[i].taskHash.Some?
    ensures |TasksAt(rows, indices)| == |indices|
  {
    var f := (i: nat) => HashAt(rows, i);
    assert TasksAt(rows, indices) == set i | i in indices :: f(i);
    forall i, j | i in indices && j in indices && i != j ensures f(i) != f(j) {
      assert if i < j then rows[i].taskHash != rows[j].taskHash else rows[j].taskHash != rows[i].taskHash;
    }
    InjectiveImage(indices, f, TasksAt(rows, indices));
  }

  lemma CountsAreTasks(baseline: seq<Row>, candidate: seq<Row>)
    requires UniqueTasks(candidate)
    ensures |Regressed(baseline, candidate)| == |LostTasks(baseline, candidate)|
    ensures |Improved(baseline, candidate)| == |WonTasks(baseline, candidate)|
  {
    TasksCount(candidate, Regressed(baseline, candidate));
    TasksCount(candidate, Improved(baseline, candidate));
  }

  // The row of the other side at which a matched row is found again.
  lemma MatchedBack(baseline: seq<Row>, candidate: seq<Row>, i: nat) returns (j: nat)
    requires UniqueTasks(candidate) && i < |candidate| && Opponent(baseline, candidate[i]).Some?
    ensures j < |baseline| && Opponent(baseline, candidate[i]) == Some(baseline[j])
    ensures Opponent(candidate, baseline[j]) == Some(candidate[i])
    ensures HashAt(baseline, j) == HashAt(candidate, i)
  {
    var other := Opponent(baseline, candidate[i]).value;
    j :| 0 <= j < |baseline| && baseline[j] == other;
    FirstIsOnly(candidate, i);
  }

  lemma LostIsWonBack(baseline: seq<Row>, candidate: seq<Row>)
    requires UniqueTasks(candidate)
    ensures LostTasks(baseline, candidate) <= WonTasks(candidate, baseline)
    ensures WonTasks(baseline, candidate) <= LostTasks(candidate, baseline)
  {
    forall hash | hash in LostTasks(baseline, candidate)
      ensures hash in WonTasks(candidate, baseline)
    {
      var i :| i in Regressed(baseline, candidate) && HashAt(candidate, i) == hash;
      var j := MatchedBack(baseline, candidate, i);
      assert j in Improved(candidate, baseline);
    }
    forall hash | hash in WonTasks(baseline, candidate)
      ensures hash in LostTasks(candidate, baseline)
    {
      var i :| i in Improved(baseline, candidate) && HashAt(candidate, i) == hash;
      var j := MatchedBack(baseline, candidate, i);
      assert j in Regressed(candidate, baseline);
    }
  }

  // With task hashes unique on each side, swapping the sides swaps the counts.
  lemma SwapSwapsTheCounts(baseline: seq<Row>, candidate: seq<Row>)
    requires UniqueTasks(baseline) && UniqueTasks(candidate)
    ensures Compared(candidate, baseline).regressions == Compared(baseline, candidate).improvements
    ensures Compared(candidate, baseline).improvements == Compared(baseline, candidate).regressions
  {
    LostIsWonBack(baseline, candidate);
    LostIsWonBack(candidate, baseline);
    assert LostTasks(baseline, candidate) == WonTasks(candidate, baseline);
    assert WonTasks(baseline, candidate) == LostTasks(candidate, baseline);
    CountsAreTasks(baseline, candidate);
    CountsAreTasks(candidate, baseline);
  }

  // No row of a task scores above the first row of that task. Rows with unique task
  // hashes are a special case.
  ghost predicate FirstRowsLead(rows: seq<Row>) {
    forall row :: row in rows && row.taskHash.Some? ==>
      RowScore(row) <= RowScore(FirstFor(rows, row.taskHash.value).value)
  }

  lemma UniqueTasksLead(rows: seq<Row>)
    requires UniqueTasks(rows)
    ensures FirstRowsLead(rows)
  {
    forall row | row in rows && row.taskHash.Some?
      ensures RowScore(row) <= RowScore(FirstFor(rows, row.taskHash.value).value)
    {
      var i: nat :| i < |rows| && rows[i] == row;
      FirstIsOnly(rows, i);
    }
  }

  lemma GainNeedsLoss(rows: seq<Row>, others: seq<Row>)
    requires FirstRowsLead(rows)
    requires Improved(others, rows) != {}
    ensures Regressed(rows, others) != {}
  {
    var i :| i in Improved(others, rows);
    var loser := Opponent(others, rows[i]).value;
    var j: nat :| j < |others| && others[j] == loser;
    assert Regresses(rows, others[j]);
    assert j in Regressed(rows, others);
  }

  // Two sets of rows are each promoted over the other exactly when both have rows, their
  // averages are equal, no row of either falls below the other's first row of its task by
  // more than the tolerance, and on each side some row rises above it by more.
  lemma PromotedBothWaysExactly(a: seq<Row>, b: seq<Row>)
    ensures Judge(a, b) == Promote && Judge(b, a) == Promote <==>
              && a != [] && b != [] && AverageScore(a) == AverageScore(b)
              && (forall row :: row in b ==> !Regresses(a, row)) && (forall row :: row in a ==> !Regresses(b, row))
              && (exists row :: row in b && Improves(a, row)) && (exists row :: row in a && Improves(b, row))
  {
    CountsAreZero(a, b);
    CountsAreZero(b, a);
  }

  // Unique task hashes on one side are enough to rule it out.
  lemma UniqueTasksAreSafe(a: seq<Row>, b: seq<Row>)
    requires UniqueTasks(a) || UniqueTasks(b)
    ensures !(Judge(a, b) == Promote && Judge(b, a) == Promote)
  {
    if UniqueTasks(a) { UniqueTasksLead(a); } else { UniqueTasksLead(b); }
    NeverPromotedBothWays(a, b);
  }

  // Two sets of rows are never each promoted over the other, as soon as one of them has
  // its leading rows first; unique task hashes on one side are enough.
  lemma NeverPromotedBothWays(a: seq<Row>, b: seq<Row>)
    requires FirstRowsLead(a) || FirstRowsLead(b)
    ensures !(Judge(a, b) == Promote && Judge(b, a) == Promote)
  {
    if Judge(a, b) == Promote && Judge(b, a) == Promote {
      if FirstRowsLead(a) {
        if Improved(b, a) != {} { GainNeedsLoss(a, b); }
      } else {
        if Improved(a, b) != {} { GainNeedsLoss(b, a); }
      }
      assert false;
    }
  }

  function SampleRow(score: real): Row {
    Row("", None, Some("task"), Some(score), None, "", false, false, false)
  }

  // Without it the promise fails: two rows of one task, the better one second, are
  // promoted over themselves.
  lemma RepeatedTaskPromotesItself()
    ensures var rows := [SampleRow(0.2), SampleRow(0.9)];
            !FirstRowsLead(rows) && Judge(rows, rows) == Promote
  {
    var rows := [SampleRow(0.2), SampleRow(0.9)];
    assert FirstFor(rows, "task") == Some(rows[0]);
    assert rows[1] in rows && RowScore(rows[1]) == 0.9 && RowScore(rows[0]) == 0.2;
    assert Improves(rows, rows[1]);
    assert 1 in Improved(rows, rows);
    assert Regressed(rows, rows) == {};
  }
}
