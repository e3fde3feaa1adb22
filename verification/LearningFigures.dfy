/** What the evaluations, metrics and stored records of learning/ say about the outcomes learned. */
module LearningFigures {
  import opened Wrappers
  import opened Orders
  import opened Learning
  import opened LearningManager

  // ---------- Figures over a journal, read off its entries ----------

  /** The entries of one strategy, or of one agent role. */
  function Own(entries: seq<Entry>, kind: Kind, name: string): seq<Entry> {
    if entries == [] then []
    else
      var last := entries[|entries| - 1];
      Own(entries[..|entries| - 1], kind, name) + if SubjectOf(last.outcome, kind) == name then [last] else []
  }

  function SubjectOf(o: Outcome, kind: Kind): string {
    match kind
    case Strategy => o.strategy
    case Agent => o.role
  }

  function Wins(entries: seq<Entry>): nat {
    if entries == [] then 0
    else Wins(entries[..|entries| - 1]) + if entries[|entries| - 1].outcome.won then 1 else 0
  }

  function Pnl(entries: seq<Entry>): real {
    if entries == [] then 0.0 else Pnl(entries[..|entries| - 1]) + entries[|entries| - 1].outcome.pnl
  }

  /** `key` reads the subject of the given kind. */
  ghost predicate Reads(key: KeyFn, kind: Kind) {
    forall o :: key(o) == SubjectOf(o, kind)
  }

  lemma WinsAppend(entries: seq<Entry>, e: Entry)
    ensures Wins(entries + [e]) == Wins(entries) + if e.outcome.won then 1 else 0
    ensures Pnl(entries + [e]) == Pnl(entries) + e.outcome.pnl
  {
    assert (entries + [e])[..|entries|] == entries;
  }

  lemma TallyStep(entries: seq<Entry>, key: KeyFn, name: string)
    requires entries != []
    ensures var front, o := entries[..|entries| - 1], entries[|entries| - 1].outcome;
            TallyOf(entries, key, name) ==
              if key(o) == name then Counted(TallyOf(front, key, name), o) else TallyOf(front, key, name)
  {
  }

  lemma OwnStep(entries: seq<Entry>, kind: Kind, name: string)
    requires entries != []
    ensures var front, last := entries[..|entries| - 1], entries[|entries| - 1];
            Own(entries, kind, name) ==
              if SubjectOf(last.outcome, kind) == name then Own(front, kind, name) + [last] else Own(front, kind, name)
  {
    var front := entries[..|entries| - 1];
    assert Own(front, kind, name) + [] == Own(front, kind, name);
  }

  /** A tally counts and sums exactly the subject's own entries. */
  lemma {:induction false} TallyIsOwn(entries: seq<Entry>, kind: Kind, key: KeyFn, name: string)
    requires Reads(key, kind)
    ensures var own := Own(entries, kind, name);
            TallyOf(entries, key, name) == Tally(|own|, Wins(own), Pnl(own))
  {
    if entries != [] {
      var front, last := entries[..|entries| - 1], entries[|entries| - 1];
      TallyIsOwn(front, kind, key, name);
      TallyStep(entries, key, name);
      OwnStep(entries, kind, name);
      CountedOwn(Own(front, kind, name), last);
    }
  }

  lemma CountedOwn(own: seq<Entry>, e: Entry)
    ensures Counted(Tally(|own|, Wins(own), Pnl(own)), e.outcome) ==
            Tally(|own + [e]|, Wins(own + [e]), Pnl(own + [e]))
  {
    WinsAppend(own, e);
  }

  lemma {:induction false} JournalIsAll(entries: seq<Entry>)
    ensures JournalTally(entries) == Tally(|entries|, Wins(entries), Pnl(entries))
  {
    if entries != [] {
      JournalIsAll(entries[..|entries| - 1]);
    }
  }

  /** `e` reports the count, wins, losses, rates and P&L of its subject's own entries. */
  ghost predicate Reports(e: Evaluation, own: seq<Entry>) {
    && e.samples == |own| && e.wins == Wins(own) && e.losses == |own| - Wins(own)
    && e.totalPnl == Pnl(own)
    && IsRate(e.winRate, Wins(own) as real, |own|)
    && IsRate(e.averagePnl, Pnl(own), |own|)
    && e.score == e.averagePnl
  }

  /** One evaluation per subject that occurs, in strictly increasing name order, each about its own entries. */
  ghost predicate EvaluatesExactly(history: seq<Entry>, kind: Kind, es: seq<Evaluation>) {
    && (forall i, j | 0 <= i < j < |es| :: LexLt(es[i].name, es[j].name))
    && (forall i | 0 <= i < |es| :: Own(history, kind, es[i].name) != []
                                    && Reports(es[i], Own(history, kind, es[i].name)))
    && forall entry | entry in history :: exists i :: 0 <= i < |es| && es[i].name == SubjectOf(entry.outcome, kind)
  }

  lemma FiguresReport(name: string, own: seq<Entry>)
    requires own != []
    ensures Figures(name, Tally(|own|, Wins(own), Pnl(own))).name == name
    ensures Reports(Figures(name, Tally(|own|, Wins(own), Pnl(own))), own)
  {
    QuotientIsRate(Wins(own) as real, |own|);
    QuotientIsRate(Pnl(own), |own|);
  }

  lemma QuotientTimes(x: real, n: real)
    requires n > 0.0
    ensures x / n * n == x
  {
  }

  lemma {:induction false} OwnOccurs(entries: seq<Entry>, kind: Kind, name: string)
    ensures Own(entries, kind, name) != [] <==> exists e :: e in entries && SubjectOf(e.outcome, kind) == name
  {
    if entries != [] {
      var front, last := entries[..|entries| - 1], entries[|entries| - 1];
      OwnOccurs(front, kind, name);
      assert entries == front + [last];
      assert forall e :: e in entries <==> e in front || e == last;
    }
  }

  lemma SortedSubjects(entries: seq<Entry>, key: KeyFn)
    ensures var names := Sorted(LexLe, Subjects(entries, key));
            && (forall i, j | 0 <= i < j < |names| :: LexLt(names[i], names[j]))
            && forall n :: n in names <==> exists e :: e in entries && key(e.outcome) == n
  {
    var subjects := Subjects(entries, key);
    var names := Sorted(LexLe, subjects);
    LexLeIsOrder();
    SortedIsSortedPermutation(LexLe, subjects);
    SubjectsCover(entries, key);
    SortedMembers(subjects);
    forall i, j | 0 <= i < j < |names|
      ensures LexLt(names[i], names[j])
    {
      assert LexLe(names[i], names[j]);
      OccurOnce(names, i, j);
    }
  }

  lemma OccurOnce(names: seq<string>, i: nat, j: nat)
    requires OnceEach(names) && i < j < |names|
    ensures names[i] != names[j]
  {
    var x := names[i];
    assert names == names[..j] + names[j..];
    assert multiset(names)[x] == multiset(names[..j])[x] + multiset(names[j..])[x];
    assert names[..j][i] == x && names[j..][0] == names[j];
    assert x in names[..j] && names[j] in names[j..];
  }

  lemma EvaluationAt(history: seq<Entry>, kind: Kind, key: KeyFn, name: string, e: Entry)
    requires Reads(key, kind) && e in history && key(e.outcome) == name
    ensures var own := Own(history, kind, name);
            var figures := Figures(name, TallyOf(history, key, name));
            own != [] && figures.name == name && Reports(figures, own)
  {
    OwnOccurs(history, kind, name);
    TallyIsOwn(history, kind, key, name);
    FiguresReport(name, Own(history, kind, name));
  }

  /** The evaluations computed for a journal are exact for every strategy, or for every agent role. */
  lemma EvaluationsExactly(history: seq<Entry>, kind: Kind, key: KeyFn)
    requires Reads(key, kind)
    ensures EvaluatesExactly(history, kind, Evaluations(history, key))
  {
    var names, es := Sorted(LexLe, Subjects(history, key)), Evaluations(history, key);
    SortedSubjects(history, key);
    forall i | 0 <= i < |es|
      ensures es[i].name == names[i] && Own(history, kind, names[i]) != []
      ensures Reports(es[i], Own(history, kind, names[i]))
    {
      assert names[i] in names;
      var e :| e in history && key(e.outcome) == names[i];
      EvaluationAt(history, kind, key, names[i], e);
    }
    forall entry | entry in history
      ensures exists i :: 0 <= i < |es| && es[i].name == SubjectOf(entry.outcome, kind)
    {
      SubjectIsNamed(history, key, entry);
      var i :| 0 <= i < |names| && names[i] == key(entry.outcome);
      assert es[i].name == names[i];
    }
  }

  lemma SubjectIsNamed(history: seq<Entry>, key: KeyFn, entry: Entry)
    requires entry in history
    ensures key(entry.outcome) in Sorted(LexLe, Subjects(history, key))
  {
    SubjectsCover(history, key);
    SortedMembers(Subjects(history, key));
    var n := key(entry.outcome);
    assert n in Subjects(history, key);
  }

  lemma EvaluationsOfBoth(history: seq<Entry>)
    ensures EvaluatesExactly(history, Strategy, Evaluations(history, ByStrategy))
    ensures EvaluatesExactly(history, Agent, Evaluations(history, ByRole))
  {
    assert Reads(ByStrategy, Strategy) && Reads(ByRole, Agent);
    EvaluationsExactly(history, Strategy, ByStrategy);
    EvaluationsExactly(history, Agent, ByRole);
  }

  /** Every stored record evaluates each strategy and each agent role from exactly its own outcomes. */
  lemma RecordEvaluatesExactly(contexts: seq<Context>, id: string)
    requires id in Run(contexts)
    ensures var r := Run(contexts)[id];
            EvaluatesExactly(r.history, Strategy, r.strategies) && EvaluatesExactly(r.history, Agent, r.agents)
  {
    RunInvariant(contexts);
    var r := Run(contexts)[id];
    EvaluationsOfBoth(r.history);
  }

  // ---------- Metrics ----------

  function Scores(es: seq<Evaluation>): real {
    if es == [] then 0.0 else Scores(es[..|es| - 1]) + es[|es| - 1].score
  }

  /** `name` is that of the first evaluation no other one beats, in the given direction. */
  ghost predicate FirstBest(es: seq<Evaluation>, name: string, highest: bool) {
    exists i :: 0 <= i < |es| && es[i].name == name && Leads(es, i, highest)
  }

  ghost predicate Leads(es: seq<Evaluation>, i: nat, highest: bool)
    requires i < |es|
  {
    && (forall j | 0 <= j < i :: if highest then es[j].score < es[i].score else es[j].score > es[i].score)
    && forall j | i <= j < |es| :: if highest then es[j].score <= es[i].score else es[j].score >= es[i].score
  }

  lemma {:induction false} ScoresAreSum(es: seq<Evaluation>)
    ensures ScoreSum(es) == Scores(es)
  {
    if es != [] {
      ScoresAreSum(es[..|es| - 1]);
    }
  }

  lemma {:induction false} BestLeads(es: seq<Evaluation>) returns (b: nat, w: nat)
    requires es != []
    ensures b < |es| && es[b] == Best(es) && Leads(es, b, true)
    ensures w < |es| && es[w] == Worst(es) && Leads(es, w, false)
  {
    if |es| == 1 {
      b, w := 0, 0;
    } else {
      var n := |es| - 1;
      b, w := BestLeads(es[..n]);
      StillLeads(es, b, true);
      StillLeads(es, w, false);
      if es[n].score > es[b].score {
        b := n;
      }
      if es[n].score < es[w].score {
        w := n;
      }
    }
  }

  /** The leader of all but the last leads the whole, unless the last beats it and so leads itself. */
  lemma StillLeads(es: seq<Evaluation>, i: nat, highest: bool)
    requires i < |es| - 1 && Leads(es[..|es| - 1], i, highest)
    ensures var last := |es| - 1;
            if (if highest then es[last].score > es[i].score else es[last].score < es[i].score)
            then Leads(es, last, highest) else Leads(es, i, highest)
  {
    var front := es[..|es| - 1];
    assert forall j | 0 <= j < |front| :: front[j] == es[j];
  }

  /** The metrics are the rates and averages of the journal, and the improvement of its second half on its first. */
  lemma MetricsExactly(history: seq<Entry>, strategies: seq<Evaluation>, feedback: nat)
    ensures history == [] ==>
              Calculate(history, strategies, feedback) == Metrics(0, 0.0, 0.0, 0.0, "", "", 0.0, feedback)
    ensures history != [] ==>
              var m := Calculate(history, strategies, feedback);
              && m.totalOutcomes == |history| && m.feedbackCount == feedback
              && IsRate(m.winRate, Wins(history) as real, |history|)
              && IsRate(m.averagePnl, Pnl(history), |history|)
              && (strategies == [] ==> m.averageScore == 0.0 && m.bestStrategy == m.worstStrategy == "")
              && (strategies != [] ==>
                    && IsRate(m.averageScore, Scores(strategies), |strategies|)
                    && FirstBest(strategies, m.bestStrategy, true) && FirstBest(strategies, m.worstStrategy, false))
              && (|history| < 2 ==> m.improvementRate == 0.0)
              && (|history| >= 2 ==> exists earlier, recent ::
                    && m.improvementRate == recent - earlier
                    && IsMean(history[..|history| / 2], earlier) && IsMean(history[|history| / 2..], recent))
  {
    if history != [] {
      RatesExactly(history, strategies, feedback);
    }
    if history != [] && strategies != [] {
      ScoreExactly(history, strategies, feedback);
      NamedExactly(history, strategies, feedback);
    }
    if |history| >= 2 {
      MeanIsAverage(history[..|history| / 2]);
      MeanIsAverage(history[|history| / 2..]);
    }
  }

  /** `rate` is `total` over `n`. */
  ghost predicate IsRate(rate: real, total: real, n: nat) {
    rate * (n as real) == total
  }

  lemma QuotientIsRate(total: real, n: nat)
    requires n > 0
    ensures IsRate(total / (n as real), total, n)
  {
    QuotientTimes(total, n as real);
  }

  lemma RatesExactly(history: seq<Entry>, strategies: seq<Evaluation>, feedback: nat)
    requires history != []
    ensures var m := Calculate(history, strategies, feedback);
            IsRate(m.winRate, Wins(history) as real, |history|) && IsRate(m.averagePnl, Pnl(history), |history|)
  {
    JournalIsAll(history);
    QuotientIsRate(Wins(history) as real, |history|);
    QuotientIsRate(Pnl(history), |history|);
  }

  lemma ScoreExactly(history: seq<Entry>, strategies: seq<Evaluation>, feedback: nat)
    requires history != [] && strategies != []
    ensures IsRate(Calculate(history, strategies, feedback).averageScore, Scores(strategies), |strategies|)
  {
    ScoresAreSum(strategies);
    QuotientIsRate(Scores(strategies), |strategies|);
  }

  lemma NamedExactly(history: seq<Entry>, strategies: seq<Evaluation>, feedback: nat)
    requires history != [] && strategies != []
    ensures var m := Calculate(history, strategies, feedback);
            FirstBest(strategies, m.bestStrategy, true) && FirstBest(strategies, m.worstStrategy, false)
  {
    CalculatedNames(history, strategies, feedback);
    var b, w := BestLeads(strategies);
  }

  ghost predicate IsMean(entries: seq<Entry>, mean: real) {
    IsRate(mean, Pnl(entries), |entries|)
  }

  lemma MeanIsAverage(entries: seq<Entry>)
    requires entries != []
    ensures IsMean(entries, AveragePnl(entries))
  {
    JournalIsAll(entries);
    QuotientIsRate(Pnl(entries), |entries|);
  }

  // ---------- The journal against the inputs ----------

  /** The outcome keeps the context's strategy and role; its P&L is the trade's only when the context's is zero. */
  ghost predicate IsOutcomeOf(o: Outcome, c: Context) {
    && o.strategy == c.strategy && o.role == c.role && o.timestamp == c.now
    && (c.realizedPnl != 0.0 || c.tradePnl == None ==> o.pnl == c.realizedPnl)
    && (c.realizedPnl == 0.0 && c.tradePnl.Some? ==> o.pnl == c.tradePnl.value)
    && (o.won <==> o.pnl > 0.0)
    && (match c.decision
        case None => o.direction == Hold && !o.approved
        case Some((direction, approved)) => o.direction == direction && o.approved == approved)
  }

  ghost predicate CancelledWithin(contexts: seq<Context>, id: string) {
    exists c :: c in contexts && c.learningId == id && c.cancel
  }

  /** The inputs for `id` that were learned: neither cancelling nor faulty, and before any cancellation. */
  ghost function LearnedFor(contexts: seq<Context>, id: string): seq<Context> {
    if contexts == [] then []
    else
      var front, c := contexts[..|contexts| - 1], contexts[|contexts| - 1];
      LearnedFor(front, id) +
      if c.learningId == id && !c.cancel && !c.faulty && !CancelledWithin(front, id) then [c] else []
  }

  ghost predicate IsJournalOf(history: seq<Entry>, learned: seq<Context>) {
    && |history| == |learned|
    && forall i | 0 <= i < |history| :: history[i].index == i && IsOutcomeOf(history[i].outcome, learned[i])
  }

  lemma CancelledStep(front: seq<Context>, c: Context, id: string)
    ensures CancelledWithin(front + [c], id) <==> CancelledWithin(front, id) || (c.learningId == id && c.cancel)
  {
    assert forall x :: x in front + [c] <==> x in front || x == c;
  }

  /** What the registry holds for `id`, in terms of the inputs alone. */
  ghost predicate HoldsFor(store: Store, id: string, learned: seq<Context>, cancelled: bool) {
    && (id in store <==> learned != [] || cancelled)
    && (id in store ==>
          && store[id].id == id && store[id].phase == (if cancelled then Cancelled else Evaluated)
          && IsJournalOf(store[id].history, learned))
  }

  /**
   * Over any run a record exists exactly when something was learned or cancelled under its id;
   * its journal is exactly the inputs learned for it before any cancellation, in order.
   */
  lemma {:induction false} JournalIsWhatWasLearned(contexts: seq<Context>, id: string)
    ensures HoldsFor(Run(contexts), id, LearnedFor(contexts, id), CancelledWithin(contexts, id))
  {
    if contexts != [] {
      var front, c := contexts[..|contexts| - 1], contexts[|contexts| - 1];
      assert contexts == front + [c];
      JournalIsWhatWasLearned(front, id);
      JournalIsWhatWasLearned(front, c.learningId);
      CancelledStep(front, c, id);
      LearnStep(Run(front), c, id, LearnedFor(front, id), CancelledWithin(front, id));
    }
  }

  lemma LearnStep(store: Store, c: Context, id: string, learned: seq<Context>, cancelled: bool)
    requires HoldsFor(store, id, learned, cancelled)
    requires c.learningId in store ==> store[c.learningId].id == c.learningId
    ensures HoldsFor(Learn(store, c).1, id,
                     learned + (if c.learningId == id && !c.cancel && !c.faulty && !cancelled then [c] else []),
                     cancelled || (c.learningId == id && c.cancel))
  {
    assert learned + [] == learned;
    if c.learningId == id && !c.cancel && !c.faulty && !cancelled {
      LearnsOneMore(store, c, learned);
    } else if c.learningId == id && c.cancel && !cancelled {
      CancelsFor(store, c, learned);
    } else {
      LeavesAlone(store, c, id, learned, cancelled);
    }
  }

  lemma LearnsOneMore(store: Store, c: Context, learned: seq<Context>)
    requires HoldsFor(store, c.learningId, learned, false) && !c.cancel && !c.faulty
    ensures HoldsFor(Learn(store, c).1, c.learningId, learned + [c], false)
  {
    var r := CurrentRecord(store, c.learningId);
    assert IsJournalOf(r.history, learned);
    var next := Relearned(r, c);
    assert IsOutcomeOf(ToOutcome(c), c);
    assert IsJournalOf(next.history, learned + [c]);
    assert Learn(store, c).1 == store[next.id := next];
  }

  lemma CancelsFor(store: Store, c: Context, learned: seq<Context>)
    requires HoldsFor(store, c.learningId, learned, false) && c.cancel
    ensures HoldsFor(Learn(store, c).1, c.learningId, learned, true)
  {
    var r := CurrentRecord(store, c.learningId);
    assert IsJournalOf(r.history, learned);
    assert Learn(store, c).1 == store[r.id := r.(phase := Cancelled)];
  }

  lemma LeavesAlone(store: Store, c: Context, id: string, learned: seq<Context>, cancelled: bool)
    requires HoldsFor(store, id, learned, cancelled)
    requires c.learningId in store ==> store[c.learningId].id == c.learningId
    requires c.learningId != id || cancelled || (c.faulty && !c.cancel)
    ensures HoldsFor(Learn(store, c).1, id, learned, cancelled)
  {
    var after := Learn(store, c).1;
    assert id in after <==> id in store;
    assert id in store ==> after[id] == store[id];
  }

  /** Cancelling changes nothing of a record but its phase. */
  lemma CancelKeepsTheRest(store: Store, c: Context)
    requires c.cancel && c.learningId in store && store[c.learningId].id == c.learningId
    requires store[c.learningId].phase in {Created, Recording, Evaluated}
    ensures Learn(store, c) == (CancelledResult(store[c.learningId].(phase := Cancelled)),
                                store[c.learningId := store[c.learningId].(phase := Cancelled)])
  {
  }

  /** A successful update stores the advice that its own evaluations call for, and reports their metrics. */
  lemma LearnedReportsExactly(contexts: seq<Context>, c: Context)
    requires Learn(Run(contexts), c).0.Learned?
    ensures var next := Learn(Run(contexts), c).0.record;
            && Learn(Run(contexts), c).0.metrics == Calculate(next.history, next.strategies, |next.feedback|)
            && EvaluatesExactly(next.history, Strategy, next.strategies)
            && EvaluatesExactly(next.history, Agent, next.agents)
            && forall rec :: rec in next.feedback <==>
                 || IsAdvice(rec, Strategy, next.strategies, c.parameters)
                 || IsAdvice(rec, Agent, next.agents, c.parameters)
  {
    var next := Learn(Run(contexts), c).0.record;
    EvaluationsOfBoth(next.history);
    AdvisedExactly(Strategy, next.strategies, c.parameters);
    AdvisedExactly(Agent, next.agents, c.parameters);
  }

  ghost predicate IsAdvice(rec: Recommendation, kind: Kind, es: seq<Evaluation>, p: Parameters) {
    exists e :: e in es && e.samples >= p.minSamples && Advises(rec, kind, e, p)
  }

  /** Advice is about one subject at a time, in the order of the evaluations. */
  ghost predicate InNameOrder(recs: seq<Recommendation>, kind: Kind) {
    && (forall i | 0 <= i < |recs| :: recs[i].kind == kind)
    && forall i, j | 0 <= i < j < |recs| :: LexLt(recs[i].subject, recs[j].subject)
  }

  lemma {:induction false} AdviceInOrder(kind: Kind, es: seq<Evaluation>, p: Parameters)
    requires forall i, j | 0 <= i < j < |es| :: LexLt(es[i].name, es[j].name)
    ensures InNameOrder(Recommendations(kind, es, p), kind)
    ensures forall r | r in Recommendations(kind, es, p) :: exists e :: e in es && e.name == r.subject
  {
    if es != [] {
      var front, last := es[..|es| - 1], es[|es| - 1];
      AdviceInOrder(kind, front, p);
      assert es == front + [last];
      var before := Recommendations(kind, front, p);
      NamedBefore(es, before);
      match Recommend(last.name, kind, last, p)
      case None => assert Recommendations(kind, es, p) == before;
      case Some(r) => OneMoreInOrder(before, kind, r);
    }
  }

  lemma NamedBefore(es: seq<Evaluation>, before: seq<Recommendation>)
    requires es != [] && forall i, j | 0 <= i < j < |es| :: LexLt(es[i].name, es[j].name)
    requires forall r | r in before :: exists e :: e in es[..|es| - 1] && e.name == r.subject
    ensures forall r | r in before :: LexLt(r.subject, es[|es| - 1].name)
  {
    forall r | r in before
      ensures LexLt(r.subject, es[|es| - 1].name)
    {
      var e :| e in es[..|es| - 1] && e.name == r.subject;
      var i :| 0 <= i < |es| - 1 && es[i] == e;
    }
  }

  lemma OneMoreInOrder(before: seq<Recommendation>, kind: Kind, r: Recommendation)
    requires InNameOrder(before, kind) && r.kind == kind && forall x | x in before :: LexLt(x.subject, r.subject)
    ensures InNameOrder(before + [r], kind)
  {
    assert forall i | 0 <= i < |before| :: before[i] in before;
  }

  /** Strategies are advised first, then agents, each in name order and at most once. */
  lemma FeedbackInOrder(contexts: seq<Context>, c: Context) returns (n: nat)
    requires Learn(Run(contexts), c).0.Learned?
    ensures var feedback := Learn(Run(contexts), c).0.record.feedback;
            n <= |feedback| && InNameOrder(feedback[..n], Strategy) && InNameOrder(feedback[n..], Agent)
  {
    var next := Learn(Run(contexts), c).0.record;
    EvaluationsOfBoth(next.history);
    AdviceInOrder(Strategy, next.strategies, c.parameters);
    AdviceInOrder(Agent, next.agents, c.parameters);
    var first := Recommendations(Strategy, next.strategies, c.parameters);
    n := |first|;
    assert next.feedback[..n] == first;
    assert next.feedback[n..] == Recommendations(Agent, next.agents, c.parameters);
  }
}
