/** learning/manager.py, registry.py, journal.py, context.py and state.py. */
module LearningManager {
  import opened Wrappers
  import opened Learning

  datatype Phase = Created | Recording | Evaluated | Completed | Cancelled | Failed

  /** `can_transition` over the legal-transition table. */
  predicate CanTransition(source: Phase, target: Phase) {
    match source
    case Created => target == Recording || target == Cancelled
    case Recording => target != Created
    case Evaluated => target != Created
    case Completed => false
    case Cancelled => false
    case Failed => false
  }

  predicate IsTerminal(p: Phase) {
    p == Completed || p == Cancelled || p == Failed
  }

  datatype Record = Record(
    id: string, phase: Phase, history: seq<Entry>, strategies: seq<Evaluation>, agents: seq<Evaluation>,
    feedback: seq<Recommendation>, outcomeCount: nat)

  /** One completed activity; `faulty` stands for a component raising while it is processed. */
  datatype Context = Context(
    learningId: string, strategy: string, role: string, realizedPnl: real, tradePnl: Option<real>,
    decision: Option<(Direction, bool)>, parameters: Parameters, cancel: bool, now: int, faulty: bool)

  datatype LearnResult = Rejected | CancelledResult(record: Record) | Learned(record: Record, metrics: Metrics)

  type Store = map<string, Record>

  function ToOutcome(c: Context): Outcome {
    var realized := if c.realizedPnl == 0.0 && c.tradePnl.Some? then c.tradePnl.value else c.realizedPnl;
    Outcome(c.strategy, c.role, if c.decision.Some? then c.decision.value.0 else Hold, realized, realized > 0.0,
            c.decision.Some? && c.decision.value.1, c.now)
  }

  function Journalled(history: seq<Entry>, o: Outcome): seq<Entry> {
    history + [Entry(|history|, o)]
  }

  function CurrentRecord(store: Store, id: string): Record {
    if id in store then store[id] else Record(id, Recording, [], [], [], [], 0)
  }

  function Relearned(r: Record, c: Context): Record {
    var history := Journalled(r.history, ToOutcome(c));
    var strategies, agents := Evaluations(history, ByStrategy), Evaluations(history, ByRole);
    Record(r.id, Evaluated, history, strategies, agents,
           Recommendations(Strategy, strategies, c.parameters) + Recommendations(Agent, agents, c.parameters),
           r.outcomeCount + 1)
  }

  /** One `learn` call against the registry. */
  function Learn(store: Store, c: Context): (LearnResult, Store) {
    var r := CurrentRecord(store, c.learningId);
    if IsTerminal(r.phase) then (Rejected, store)
    else if c.cancel then
      var cancelled := r.(phase := Cancelled);
      (CancelledResult(cancelled), store[r.id := cancelled])
    else if c.faulty then (Rejected, store)
    else
      var next := Relearned(r, c);
      (Learned(next, Calculate(next.history, next.strategies, |next.feedback|)), store[next.id := next])
  }

  function Run(contexts: seq<Context>): Store {
    if contexts == [] then map[] else Learn(Run(contexts[..|contexts| - 1]), contexts[|contexts| - 1]).1
  }

  class InMemoryRegistry {
    var records: Store

    constructor ()
      ensures records == map[]
    {
      records := map[];
    }

    method Register(record: Record)
      modifies this
      ensures records == old(records)[record.id := record]
    {
      records := records[record.id := record];
    }

    method Get(id: string) returns (r: Option<Record>)
      ensures r == if id in records then Some(records[id]) else None
    {
      r := if id in records then Some(records[id]) else None;
    }

    method Exists(id: string) returns (b: bool)
      ensures b <==> id in records
    {
      b := id in records;
    }
  }

  class Manager {
    const registry: InMemoryRegistry

    constructor (registry: InMemoryRegistry)
      ensures this.registry == registry
    {
      this.registry := registry;
    }

    method LearnFrom(c: Context) returns (result: LearnResult)
      modifies registry
      ensures (result, registry.records) == Learn(old(registry.records), c)
    {
      var record := Record(c.learningId, Recording, [], [], [], [], 0);
      var known := registry.Exists(c.learningId);
      if known {
        var found := registry.Get(c.learningId);
        record := found.value;
      }
      if IsTerminal(record.phase) {
        return Rejected;
      }
      if c.cancel {
        var cancelled := record.(phase := Cancelled);
        registry.Register(cancelled);
        return CancelledResult(cancelled);
      }
      var next := Recompute(record, c);
      var metrics := Calculate(next.history, next.strategies, |next.feedback|);
      if c.faulty {
        return Rejected;
      }
      registry.Register(next);
      return Learned(next, metrics);
    }
  }

  /** Journal the outcome, evaluate strategies and agents, and recommend. */
  method Recompute(record: Record, c: Context) returns (next: Record)
    ensures next == Relearned(record, c)
  {
    var history := Journalled(record.history, ToOutcome(c));
    var strategies := Evaluate(history, ByStrategy);
    var agents := Evaluate(history, ByRole);
    var feedback := GenerateFeedback(strategies, agents, c.parameters);
    next := record.(phase := Evaluated, history := history, strategies := strategies, agents := agents,
                    feedback := feedback, outcomeCount := record.outcomeCount + 1);
  }

  // ---------- The invariant over every run ----------

  ghost predicate Consistent(id: string, r: Record) {
    && r.id == id
    && (r.phase == Evaluated || r.phase == Cancelled)
    && r.outcomeCount == |r.history|
    && (forall i | 0 <= i < |r.history| ::
          r.history[i].index == i && (r.history[i].outcome.won <==> r.history[i].outcome.pnl > 0.0))
    && r.strategies == Evaluations(r.history, ByStrategy)
    && r.agents == Evaluations(r.history, ByRole)
  }

  ghost predicate Inv(store: Store) {
    forall id | id in store :: Consistent(id, store[id])
  }

  lemma CurrentIsConsistent(store: Store, id: string)
    requires Inv(store)
    ensures var r := CurrentRecord(store, id); Consistent(id, r.(phase := Cancelled)) && r.phase != Created
  {
  }

  lemma LearnKeeps(store: Store, c: Context)
    requires Inv(store)
    ensures Inv(Learn(store, c).1)
  {
    CurrentIsConsistent(store, c.learningId);
    RelearnedIsConsistent(CurrentRecord(store, c.learningId), c);
  }

  lemma RelearnedIsConsistent(r: Record, c: Context)
    requires Consistent(r.id, r.(phase := Cancelled))
    ensures Consistent(r.id, Relearned(r, c))
  {
  }

  lemma {:induction false} RunInvariant(contexts: seq<Context>)
    ensures Inv(Run(contexts))
  {
    if contexts != [] {
      RunInvariant(contexts[..|contexts| - 1]);
      LearnKeeps(Run(contexts[..|contexts| - 1]), contexts[|contexts| - 1]);
    }
  }

  /** Over strategies and over agents, samples, wins and P&L add up to the journal's totals. */
  lemma RecordAddsUp(contexts: seq<Context>, id: string)
    requires id in Run(contexts)
    ensures var r := Run(contexts)[id];
            && SumEvaluations(r.strategies) == SumEvaluations(r.agents) == JournalTally(r.history)
            && JournalTally(r.history).samples == r.outcomeCount
  {
    RunInvariant(contexts);
    var r := Run(contexts)[id];
    EvaluationsAddUp(r.history, ByStrategy);
    EvaluationsAddUp(r.history, ByRole);
    JournalSamples(r.history);
  }

  lemma {:induction false} JournalSamples(entries: seq<Entry>)
    ensures JournalTally(entries).samples == |entries|
  {
    if entries != [] {
      JournalSamples(entries[..|entries| - 1]);
    }
  }

  /** Every write is a legal transition; a rejected update leaves the registry unchanged. */
  lemma {:induction false} WritesAreLegal(contexts: seq<Context>, c: Context)
    ensures var before := Run(contexts);
            var (result, after) := Learn(before, c);
            var r := CurrentRecord(before, c.learningId);
            && (result.Rejected? <==> IsTerminal(r.phase) || (c.faulty && !c.cancel))
            && (result.Rejected? ==> after == before)
            && (!result.Rejected? ==> CanTransition(r.phase, result.record.phase)
                                      && after == before[c.learningId := result.record])
  {
    RunInvariant(contexts);
    CurrentIsConsistent(Run(contexts), c.learningId);
  }

  /** A successful update appends exactly one outcome and never rewrites the journal. */
  lemma {:induction false} JournalOnlyGrows(contexts: seq<Context>, c: Context)
    requires Learn(Run(contexts), c).0.Learned?
    ensures var r := CurrentRecord(Run(contexts), c.learningId);
            var next := Learn(Run(contexts), c).0.record;
            && next.history == r.history + [Entry(r.outcomeCount, ToOutcome(c))]
            && next.outcomeCount == r.outcomeCount + 1
            && JournalTally(next.history) == Counted(JournalTally(r.history), ToOutcome(c))
  {
    RunInvariant(contexts);
    CurrentIsConsistent(Run(contexts), c.learningId);
    var r := CurrentRecord(Run(contexts), c.learningId);
    var next := Learn(Run(contexts), c).0.record;
    assert next.history[..|next.history| - 1] == r.history;
  }

  /**
   * For every registry, whoever filled it, the write of a successful or cancelling update is
   * legal exactly when the update cancels or the record is not in state CREATED.
   */
  lemma WriteLegalExactly(store: Store, c: Context)
    requires !Learn(store, c).0.Rejected?
    ensures var source := CurrentRecord(store, c.learningId).phase;
            CanTransition(source, Learn(store, c).0.record.phase) <==> c.cancel || source != Created
  {
  }

  /** A record placed in the registry as CREATED would be taken to EVALUATED, an illegal step. */
  lemma CreatedRecordBreaksTable(c: Context)
    requires !c.cancel && !c.faulty
    ensures var store: Store := map[c.learningId := Record(c.learningId, Created, [], [], [], [], 0)];
            var result := Learn(store, c).0;
            result.Learned? && !CanTransition(Created, result.record.phase)
  {
  }
}
