/** learning/: outcomes journalled, tallied, evaluated, and kept in registry-owned records. */
module Learning {
  import opened Wrappers
  import opened Orders

  datatype Direction = Buy | Sell | Hold

  datatype Outcome = Outcome(
    strategy: string, role: string, direction: Direction, pnl: real, won: bool, approved: bool, timestamp: int)

  datatype Entry = Entry(index: nat, outcome: Outcome)

  datatype Tally = Tally(samples: nat, wins: nat, pnl: real)

  datatype Evaluation = Evaluation(
    name: string, samples: nat, wins: nat, losses: int, winRate: real,
    totalPnl: real, averagePnl: real, score: real)

  datatype Parameters = Parameters(minSamples: int, adjustmentStep: real, winThreshold: real)

  datatype Kind = Strategy | Agent

  datatype Action = Increase | Decrease | Keep

  datatype Recommendation = Recommendation(subject: string, kind: Kind, action: Action, adjustment: real)

  type KeyFn = Outcome -> string

  function ByStrategy(o: Outcome): string { o.strategy }

  function ByRole(o: Outcome): string { o.role }

  // ---------- Evaluation ----------

  /** The tally of one subject: filter the journal, count and sum. */
  function TallyOf(entries: seq<Entry>, key: KeyFn, name: string): Tally {
    if entries == [] then Tally(0, 0, 0.0)
    else
      var t, o := TallyOf(entries[..|entries| - 1], key, name), entries[|entries| - 1].outcome;
      if key(o) == name then Counted(t, o) else t
  }

  function Counted(t: Tally, o: Outcome): Tally {
    Tally(t.samples + 1, t.wins + (if o.won then 1 else 0), t.pnl + o.pnl)
  }

  /** Subjects in order of first appearance, as the tally dictionary holds them. */
  function Subjects(entries: seq<Entry>, key: KeyFn): seq<string> {
    if entries == [] then []
    else
      var before, name := Subjects(entries[..|entries| - 1], key), key(entries[|entries| - 1].outcome);
      if name in before then before else before + [name]
  }

  function Figures(name: string, t: Tally): Evaluation {
    if t.samples == 0 then Evaluation(name, 0, 0, 0, 0.0, 0.0, 0.0, 0.0)
    else
      var n := t.samples as real;
      Evaluation(name, t.samples, t.wins, t.samples - t.wins, t.wins as real / n, t.pnl, t.pnl / n, t.pnl / n)
  }

  /** One evaluation per subject, in name order. */
  function Evaluations(entries: seq<Entry>, key: KeyFn): seq<Evaluation> {
    Figured(Sorted(LexLe, Subjects(entries, key)), entries, key)
  }

  function Figured(names: seq<string>, entries: seq<Entry>, key: KeyFn): (r: seq<Evaluation>)
    ensures |r| == |names|
    ensures forall i | 0 <= i < |names| :: r[i] == Figures(names[i], TallyOf(entries, key, names[i]))
  {
    seq(|names|, i requires 0 <= i < |names| => Figures(names[i], TallyOf(entries, key, names[i])))
  }

  method Group(entries: seq<Entry>, key: KeyFn) returns (names: seq<string>, tallies: map<string, Tally>)
    ensures names == Subjects(entries, key)
    ensures tallies == map n | n in names :: TallyOf(entries, key, n)
  {
    names, tallies := [], map[];
    for i := 0 to |entries|
      invariant names == Subjects(entries[..i], key)
      invariant tallies.Keys == set n | n in names
      invariant forall n :: n in tallies || TallyOf(entries[..i], key, n) == Tally(0, 0, 0.0)
      invariant forall n | n in tallies :: tallies[n] == TallyOf(entries[..i], key, n)
    {
      assert entries[..i + 1][..i] == entries[..i];
      var o := entries[i].outcome;
      var name := key(o);
      if name !in tallies {
        names := names + [name];
        tallies := tallies[name := Tally(0, 0, 0.0)];
      }
      tallies := tallies[name := Counted(tallies[name], o)];
    }
    assert entries[..|entries|] == entries;
  }

  lemma SortedMembers(names: seq<string>)
    ensures forall n :: n in Sorted(LexLe, names) <==> n in names
  {
    LexLeIsOrder();
    SortedIsSortedPermutation(LexLe, names);
    forall n
      ensures n in Sorted(LexLe, names) <==> n in names
    {
      assert n in names <==> n in multiset(names);
      assert n in Sorted(LexLe, names) <==> n in multiset(Sorted(LexLe, names));
    }
  }

  method Evaluate(entries: seq<Entry>, key: KeyFn) returns (evaluations: seq<Evaluation>)
    ensures evaluations == Evaluations(entries, key)
  {
    var names, tallies := Group(entries, key);
    var sortedNames := Sorted(LexLe, names);
    SortedMembers(names);
    evaluations := [];
    for i := 0 to |sortedNames|
      invariant |evaluations| == i
      invariant forall j | 0 <= j < i ::
        evaluations[j] == Figures(sortedNames[j], TallyOf(entries, key, sortedNames[j]))
    {
      evaluations := evaluations + [Figures(sortedNames[i], tallies[sortedNames[i]])];
    }
  }

  // ---------- The tallies add up ----------

  ghost predicate OnceEach(names: seq<string>) {
    forall n :: multiset(names)[n] <= 1
  }

  function Plus(a: Tally, b: Tally): Tally {
    Tally(a.samples + b.samples, a.wins + b.wins, a.pnl + b.pnl)
  }

  function SumOver(names: seq<string>, entries: seq<Entry>, key: KeyFn): Tally {
    if names == [] then Tally(0, 0, 0.0)
    else Plus(TallyOf(entries, key, names[0]), SumOver(names[1..], entries, key))
  }

  /** The whole journal, not split by subject. */
  function JournalTally(entries: seq<Entry>): Tally {
    if entries == [] then Tally(0, 0, 0.0)
    else Counted(JournalTally(entries[..|entries| - 1]), entries[|entries| - 1].outcome)
  }

  lemma {:induction false} SumOverStep(names: seq<string>, entries: seq<Entry>, key: KeyFn)
    requires OnceEach(names) && entries != []
    ensures var before := SumOver(names, entries[..|entries| - 1], key);
            var o := entries[|entries| - 1].outcome;
            SumOver(names, entries, key) == if key(o) in names then Counted(before, o) else before
  {
    if names != [] {
      var rest := names[1..];
      assert names == [names[0]] + rest;
      assert forall n :: multiset(names)[n] == multiset(rest)[n] + if n == names[0] then 1 else 0;
      assert names[0] !in rest by { assert multiset(rest)[names[0]] == 0; }
      SumOverStep(rest, entries, key);
    }
  }

  lemma {:induction false} SumOverIsJournal(names: seq<string>, entries: seq<Entry>, key: KeyFn)
    requires OnceEach(names) && forall e | e in entries :: key(e.outcome) in names
    ensures SumOver(names, entries, key) == JournalTally(entries)
  {
    if entries == [] {
      SumOverNothing(names, key);
    } else {
      SumOverIsJournal(names, entries[..|entries| - 1], key);
      SumOverStep(names, entries, key);
      assert entries[|entries| - 1] in entries;
    }
  }

  lemma {:induction false} SumOverNothing(names: seq<string>, key: KeyFn)
    ensures SumOver(names, [], key) == Tally(0, 0, 0.0)
  {
    if names != [] {
      SumOverNothing(names[1..], key);
    }
  }

  lemma {:induction false} SubjectsCover(entries: seq<Entry>, key: KeyFn)
    ensures OnceEach(Subjects(entries, key))
    ensures forall n :: n in Subjects(entries, key) <==> exists e :: e in entries && key(e.outcome) == n
  {
    if entries != [] {
      var front, last := entries[..|entries| - 1], entries[|entries| - 1];
      SubjectsCover(front, key);
      assert entries == front + [last];
      assert forall e :: e in entries <==> e in front || e == last;
      var before, name := Subjects(front, key), key(last.outcome);
      assert name !in before ==> multiset(before)[name] == 0;
    }
  }

  function TallyIn(e: Evaluation): Tally {
    Tally(e.samples, e.wins, e.totalPnl)
  }

  function SumEvaluations(es: seq<Evaluation>): Tally {
    if es == [] then Tally(0, 0, 0.0) else Plus(TallyIn(es[0]), SumEvaluations(es[1..]))
  }

  lemma {:induction false} SumMatches(es: seq<Evaluation>, names: seq<string>, entries: seq<Entry>, key: KeyFn)
    requires |es| == |names|
    requires forall i | 0 <= i < |es| :: TallyIn(es[i]) == TallyOf(entries, key, names[i])
    ensures SumEvaluations(es) == SumOver(names, entries, key)
  {
    if es != [] {
      SumMatches(es[1..], names[1..], entries, key);
    }
  }

  /** An evaluation carries its subject's tally unchanged. */
  lemma FiguresKeepTally(entries: seq<Entry>, key: KeyFn, name: string)
    ensures TallyIn(Figures(name, TallyOf(entries, key, name))) == TallyOf(entries, key, name)
  {
    NoSamplesNoPnl(entries, key, name);
  }

  lemma {:induction false} NoSamplesNoPnl(entries: seq<Entry>, key: KeyFn, name: string)
    ensures var t := TallyOf(entries, key, name);
            t.wins <= t.samples && (t.samples == 0 ==> t == Tally(0, 0, 0.0))
  {
    if entries != [] {
      NoSamplesNoPnl(entries[..|entries| - 1], key, name);
    }
  }

  /** Samples, wins and P&L over the subjects add up to the journal, whatever the attribution. */
  lemma EvaluationsAddUp(entries: seq<Entry>, key: KeyFn)
    ensures SumEvaluations(Evaluations(entries, key)) == JournalTally(entries)
  {
    var names := Subjects(entries, key);
    var sortedNames := Sorted(LexLe, names);
    LexLeIsOrder();
    SortedIsSortedPermutation(LexLe, names);
    SubjectsCover(entries, key);
    forall e | e in entries
      ensures key(e.outcome) in sortedNames
    {
      assert key(e.outcome) in names;
      assert key(e.outcome) in multiset(names);
      assert key(e.outcome) in multiset(sortedNames);
    }
    SumOverIsJournal(sortedNames, entries, key);
    forall i | 0 <= i < |sortedNames|
      ensures TallyIn(Evaluations(entries, key)[i]) == TallyOf(entries, key, sortedNames[i])
    {
      FiguresKeepTally(entries, key, sortedNames[i]);
    }
    SumMatches(Evaluations(entries, key), sortedNames, entries, key);
  }

  // ---------- Feedback ----------

  function Recommend(subject: string, kind: Kind, e: Evaluation, p: Parameters): Option<Recommendation> {
    if e.samples < p.minSamples then None
    else if e.score > p.winThreshold then Some(Recommendation(subject, kind, Increase, p.adjustmentStep))
    else if e.score < p.winThreshold then Some(Recommendation(subject, kind, Decrease, -p.adjustmentStep))
    else Some(Recommendation(subject, kind, Keep, 0.0))
  }

  function Recommendations(kind: Kind, es: seq<Evaluation>, p: Parameters): seq<Recommendation> {
    if es == [] then []
    else
      var last := es[|es| - 1];
      Recommendations(kind, es[..|es| - 1], p) +
      match Recommend(last.name, kind, last, p) { case None => [] case Some(r) => [r] }
  }

  method GenerateFeedback(strategies: seq<Evaluation>, agents: seq<Evaluation>, p: Parameters)
    returns (recommendations: seq<Recommendation>)
    ensures recommendations == Recommendations(Strategy, strategies, p) + Recommendations(Agent, agents, p)
  {
    recommendations := [];
    for i := 0 to |strategies|
      invariant recommendations == Recommendations(Strategy, strategies[..i], p)
    {
      assert strategies[..i + 1][..i] == strategies[..i];
      var r := Recommend(strategies[i].name, Strategy, strategies[i], p);
      if r.Some? {
        recommendations := recommendations + [r.value];
      }
    }
    assert strategies[..|strategies|] == strategies;
    for i := 0 to |agents|
      invariant recommendations == Recommendations(Strategy, strategies, p) + Recommendations(Agent, agents[..i], p)
    {
      assert agents[..i + 1][..i] == agents[..i];
      var r := Recommend(agents[i].name, Agent, agents[i], p);
      if r.Some? {
        recommendations := recommendations + [r.value];
      }
    }
    assert agents[..|agents|] == agents;
  }

  /** `r` is advice about `e`: its direction and its sign are those of score against threshold. */
  ghost predicate Advises(r: Recommendation, kind: Kind, e: Evaluation, p: Parameters) {
    && r.subject == e.name && r.kind == kind
    && (r.action == Increase <==> e.score > p.winThreshold)
    && (r.action == Decrease <==> e.score < p.winThreshold)
    && (r.action == Keep <==> e.score == p.winThreshold)
    && (r.action == Increase ==> r.adjustment == p.adjustmentStep)
    && (r.action == Decrease ==> r.adjustment == -p.adjustmentStep)
    && (r.action == Keep ==> r.adjustment == 0.0)
  }

  lemma RecommendAdvises(kind: Kind, e: Evaluation, p: Parameters, r: Recommendation)
    ensures Recommend(e.name, kind, e, p) == Some(r) <==> e.samples >= p.minSamples && Advises(r, kind, e, p)
  {
  }

  /** Exactly the subjects with enough samples are advised: up above the threshold, down below it. */
  lemma {:induction false} AdvisedExactly(kind: Kind, es: seq<Evaluation>, p: Parameters)
    ensures forall r :: r in Recommendations(kind, es, p) <==>
              exists e :: e in es && e.samples >= p.minSamples && Advises(r, kind, e, p)
  {
    AdvisedByRule(kind, es, p);
    forall r
      ensures r in Recommendations(kind, es, p) <==>
                exists e :: e in es && e.samples >= p.minSamples && Advises(r, kind, e, p)
    {
      forall e: Evaluation
        ensures Recommend(e.name, kind, e, p) == Some(r) <==> e.samples >= p.minSamples && Advises(r, kind, e, p)
      {
        RecommendAdvises(kind, e, p, r);
      }
    }
  }

  lemma {:induction false} AdvisedByRule(kind: Kind, es: seq<Evaluation>, p: Parameters)
    ensures forall r :: r in Recommendations(kind, es, p) <==>
              exists e :: e in es && Recommend(e.name, kind, e, p) == Some(r)
  {
    if es != [] {
      AdvisedByRule(kind, es[..|es| - 1], p);
      assert es == es[..|es| - 1] + [es[|es| - 1]];
      assert forall e :: e in es <==> e in es[..|es| - 1] || e == es[|es| - 1];
    }
  }

  // ---------- Metrics ----------

  datatype Metrics = Metrics(
    totalOutcomes: nat, winRate: real, averageScore: real, averagePnl: real,
    bestStrategy: string, worstStrategy: string, improvementRate: real, feedbackCount: nat)

  /** `max(es, key=score)`: the first evaluation with the highest score. */
  function Best(es: seq<Evaluation>): Evaluation
    requires es != []
  {
    if |es| == 1 then es[0]
    else
      var b := Best(es[..|es| - 1]);
      if es[|es| - 1].score > b.score then es[|es| - 1] else b
  }

  function Worst(es: seq<Evaluation>): Evaluation
    requires es != []
  {
    if |es| == 1 then es[0]
    else
      var w := Worst(es[..|es| - 1]);
      if es[|es| - 1].score < w.score then es[|es| - 1] else w
  }

  function ScoreSum(es: seq<Evaluation>): real {
    if es == [] then 0.0 else ScoreSum(es[..|es| - 1]) + es[|es| - 1].score
  }

  function AverageScore(es: seq<Evaluation>): real {
    if es == [] then 0.0 else ScoreSum(es) / (|es| as real)
  }

  function AveragePnl(entries: seq<Entry>): real {
    if entries == [] then 0.0 else JournalTally(entries).pnl / (|entries| as real)
  }

  /** Recent-minus-earlier average P&L, splitting the journal at n // 2. */
  function Improvement(entries: seq<Entry>): real {
    if |entries| < 2 then 0.0
    else AveragePnl(entries[|entries| / 2..]) - AveragePnl(entries[..|entries| / 2])
  }

  function Calculate(history: seq<Entry>, strategies: seq<Evaluation>, feedback: nat): Metrics {
    if history == [] then Metrics(0, 0.0, 0.0, 0.0, "", "", 0.0, feedback)
    else
      var n := |history| as real;
      Metrics(|history|, JournalTally(history).wins as real / n,
              AverageScore(strategies),
              AveragePnl(history),
              if strategies == [] then "" else Best(strategies).name,
              if strategies == [] then "" else Worst(strategies).name,
              Improvement(history), feedback)
  }

  lemma {:induction false} ExtremesAttained(es: seq<Evaluation>)
    requires es != []
    ensures Best(es) in es && Worst(es) in es
    ensures forall e | e in es :: Worst(es).score <= e.score <= Best(es).score
  {
    var front, last := es[..|es| - 1], es[|es| - 1];
    assert es == front + [last];
    if |es| > 1 {
      ExtremesAttained(front);
    }
  }

  lemma {:induction false} ScoreSumBounded(es: seq<Evaluation>, lo: real, hi: real)
    requires forall e | e in es :: lo <= e.score <= hi
    ensures lo * (|es| as real) <= ScoreSum(es) <= hi * (|es| as real)
  {
    if es != [] {
      var front, last := es[..|es| - 1], es[|es| - 1];
      ScoreSumBounded(front, lo, hi);
      assert last in es && ScoreSum(es) == ScoreSum(front) + last.score;
      assert |es| as real == |front| as real + 1.0;
      AddOne(lo, ScoreSum(front), hi, |front| as real, last.score);
    }
  }

  lemma AddOne(lo: real, sum: real, hi: real, n: real, x: real)
    requires lo * n <= sum <= hi * n && lo <= x <= hi
    ensures lo * (n + 1.0) <= sum + x <= hi * (n + 1.0)
  {
    assert lo * (n + 1.0) == lo * n + lo;
    assert hi * (n + 1.0) == hi * n + hi;
  }

  lemma DivideBounds(lo: real, sum: real, hi: real, n: real)
    requires n > 0.0 && lo * n <= sum <= hi * n
    ensures lo <= sum / n <= hi
  {
    var q := sum / n;
    assert q * n == sum;
  }

  lemma AverageBounded(es: seq<Evaluation>)
    requires es != []
    ensures Worst(es).score <= AverageScore(es) <= Best(es).score
  {
    ExtremesAttained(es);
    AverageWithin(es, Worst(es).score, Best(es).score);
  }

  lemma AverageWithin(es: seq<Evaluation>, lo: real, hi: real)
    requires es != [] && forall e | e in es :: lo <= e.score <= hi
    ensures lo <= AverageScore(es) <= hi
  {
    ScoreSumBounded(es, lo, hi);
    DivideBounds(lo, ScoreSum(es), hi, |es| as real);
  }

  /** worst <= average <= best, and the named subjects attain the extremes. */
  lemma AverageBetweenExtremes(history: seq<Entry>, strategies: seq<Evaluation>, feedback: nat)
    requires history != [] && strategies != []
    ensures var m := Calculate(history, strategies, feedback);
            exists best, worst :: IsRange(strategies, best, worst)
              && m.bestStrategy == best.name && m.worstStrategy == worst.name
              && worst.score <= m.averageScore <= best.score
  {
    var best, worst := Best(strategies), Worst(strategies);
    ExtremesAttained(strategies);
    AverageBounded(strategies);
    assert IsRange(strategies, best, worst);
    CalculatedNames(history, strategies, feedback);
  }

  ghost predicate IsRange(es: seq<Evaluation>, best: Evaluation, worst: Evaluation) {
    best in es && worst in es && forall e | e in es :: worst.score <= e.score <= best.score
  }

  lemma CalculatedNames(history: seq<Entry>, strategies: seq<Evaluation>, feedback: nat)
    requires history != [] && strategies != []
    ensures var m := Calculate(history, strategies, feedback);
            && m.bestStrategy == Best(strategies).name && m.worstStrategy == Worst(strategies).name
            && m.averageScore == AverageScore(strategies)
  {
  }

  lemma PlusCounted(s: Tally, t: Tally, o: Outcome)
    ensures Plus(s, Counted(t, o)) == Counted(Plus(s, t), o)
  {
  }

  lemma {:induction false} JournalSplits(a: seq<Entry>, b: seq<Entry>)
    ensures JournalTally(a + b) == Plus(JournalTally(a), JournalTally(b))
  {
    if b == [] {
      assert a + b == a;
    } else {
      JournalSplits(a, b[..|b| - 1]);
      assert (a + b)[..|a + b| - 1] == a + b[..|b| - 1];
      PlusCounted(JournalTally(a), JournalTally(b[..|b| - 1]), b[|b| - 1].outcome);
    }
  }

  lemma AverageTimesCount(entries: seq<Entry>)
    requires entries != []
    ensures AveragePnl(entries) * (|entries| as real) == JournalTally(entries).pnl
  {
  }

  lemma WeightedMean(x: real, m: real, y: real, k: real, mean: real)
    requires m > 0.0 && k > 0.0 && mean * (m + k) == x * m + y * k
    ensures y > x <==> y > mean
  {
    assert (mean - y) * (m + k) == (x - y) * m by {
      assert (mean - y) * (m + k) == mean * (m + k) - y * (m + k);
      assert y * (m + k) == y * m + y * k;
      assert (x - y) * m == x * m - y * m;
    }
    SameSign(mean - y, m + k, x - y, m);
  }

  lemma SameSign(a: real, m: real, b: real, n: real)
    requires m > 0.0 && n > 0.0 && a * m == b * n
    ensures a < 0.0 <==> b < 0.0
  {
    if a < 0.0 { assert a * m < 0.0; } else { assert a * m >= 0.0; }
    if b < 0.0 { assert b * n < 0.0; } else { assert b * n >= 0.0; }
  }

  /** The improvement rate is positive exactly when the recent half beats the whole journal. */
  lemma ImprovementIsRecentGain(entries: seq<Entry>)
    requires |entries| >= 2
    ensures Improvement(entries) > 0.0 <==> AveragePnl(entries[|entries| / 2..]) > AveragePnl(entries)
  {
    var mid := |entries| / 2;
    var earlier, recent := entries[..mid], entries[mid..];
    assert entries == earlier + recent;
    JournalSplits(earlier, recent);
    AverageTimesCount(entries);
    AverageTimesCount(earlier);
    AverageTimesCount(recent);
    assert |entries| as real == |earlier| as real + |recent| as real;
    WeightedMean(AveragePnl(earlier), |earlier| as real, AveragePnl(recent), |recent| as real, AveragePnl(entries));
  }
}
