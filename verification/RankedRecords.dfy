/** memory/manager.py and dashboard/manager.py: registry-owned records with running counters. */
module RankedRecords {
  import opened Ranking

  datatype Phase = Created | Gathering | Prepared | Completed | Cancelled | Failed

  predicate IsTerminal(p: Phase) {
    p == Completed || p == Cancelled || p == Failed
  }

  /** A planned memory batch or a composed dashboard view. */
  datatype Batch = Batch(items: seq<Item>, entries: seq<Entry>)

  datatype Record = Record(
    id: string, phase: Phase, history: seq<Batch>, batch: Batch, outputs: seq<Output>,
    entryCount: nat, outputCount: nat)

  /** `faulty` stands for a component raising while the input is processed. */
  datatype Context = Context(
    id: string, first: seq<Item>, second: seq<Item>, third: seq<Item>, fourth: seq<Item>,
    threshold: real, maxItems: int, cancel: bool, faulty: bool)

  datatype UpdateResult = Rejected | CancelledResult(record: Record) | Updated(record: Record, metrics: Metrics)

  type Store = map<string, Record>

  const EMPTY_BATCH := Batch([], [])

  function Planned(p: Pipeline, c: Context): Batch {
    var items := Collected(p, c.first + c.second + c.third + c.fourth, c.maxItems);
    Batch(items, Entries(p, c.threshold, items))
  }

  function CurrentRecord(store: Store, id: string): Record {
    if id in store then store[id] else Record(id, Gathering, [], EMPTY_BATCH, [], 0, 0)
  }

  function Advanced(p: Pipeline, r: Record, c: Context): Record {
    var batch := Planned(p, c);
    var outputs := Outputs(batch.entries);
    Record(r.id, Prepared, r.history + [batch], batch, outputs,
           r.entryCount + |batch.entries|, r.outputCount + |outputs|)
  }

  function MetricsOf(r: Record): Metrics {
    Calculate(r.batch.items, r.batch.entries, |r.outputs|, r.entryCount, r.outputCount)
  }

  /** One `remember` (memory) or `render` (dashboard) call against the registry. */
  function Update(p: Pipeline, store: Store, c: Context): (UpdateResult, Store) {
    var r := CurrentRecord(store, c.id);
    if IsTerminal(r.phase) then (Rejected, store)
    else if c.cancel then
      var cancelled := r.(phase := Cancelled);
      (CancelledResult(cancelled), store[r.id := cancelled])
    else if c.faulty then (Rejected, store)
    else
      var next := Advanced(p, r, c);
      (Updated(next, MetricsOf(next)), store[next.id := next])
  }

  function Run(p: Pipeline, contexts: seq<Context>): Store {
    if contexts == [] then map[]
    else Update(p, Run(p, contexts[..|contexts| - 1]), contexts[|contexts| - 1]).1
  }

  class Manager {
    const pipeline: Pipeline
    var records: Store

    constructor (pipeline: Pipeline)
      ensures this.pipeline == pipeline && records == Run(pipeline, [])
    {
      this.pipeline, records := pipeline, map[];
    }

    method Process(c: Context) returns (result: UpdateResult)
      modifies this
      ensures (result, records) == Update(pipeline, old(records), c)
    {
      var record := if c.id in records then records[c.id] else Record(c.id, Gathering, [], EMPTY_BATCH, [], 0, 0);
      if IsTerminal(record.phase) {
        return Rejected;
      }
      if c.cancel {
        var cancelled := record.(phase := Cancelled);
        records := records[cancelled.id := cancelled];
        return CancelledResult(cancelled);
      }
      var items := Collected(pipeline, c.first + c.second + c.third + c.fourth, c.maxItems);
      var batch := Batch(items, Entries(pipeline, c.threshold, items));
      var outputs := Dispatch(batch.entries);
      var next := record.(phase := Prepared, history := record.history + [batch], batch := batch, outputs := outputs,
                          entryCount := record.entryCount + |batch.entries|,
                          outputCount := record.outputCount + |outputs|);
      var metrics := MetricsOf(next);
      if c.faulty {
        return Rejected;
      }
      records := records[next.id := next];
      return Updated(next, metrics);
    }
  }

  method Dispatch(entries: seq<Entry>) returns (outputs: seq<Output>)
    ensures outputs == Outputs(entries)
  {
    outputs := [];
    for i := 0 to |entries|
      invariant outputs == Outputs(entries[..i])
    {
      assert entries[..i + 1][..i] == entries[..i];
      if entries[i].passes {
        outputs := outputs + [OutputOf(entries[i])];
      }
    }
    assert entries[..|entries|] == entries;
  }

  // ---------- The invariant over every run ----------

  function EntriesIn(history: seq<Batch>): nat {
    if history == [] then 0 else EntriesIn(history[..|history| - 1]) + |history[|history| - 1].entries|
  }

  function PassedIn(history: seq<Batch>): nat {
    if history == [] then 0 else PassedIn(history[..|history| - 1]) + Passing(history[|history| - 1].entries)
  }

  /** A batch that some collection of candidates really produces. */
  ghost predicate WellRanked(p: Pipeline, b: Batch) {
    exists candidates, maxItems, threshold ::
      b.items == Collected(p, candidates, maxItems) && b.entries == Entries(p, threshold, b.items)
  }

  ghost predicate Consistent(p: Pipeline, id: string, r: Record) {
    && r.id == id
    && (r.phase == Prepared || r.phase == Cancelled)
    && r.batch == (if r.history == [] then EMPTY_BATCH else r.history[|r.history| - 1])
    && r.outputs == Outputs(r.batch.entries)
    && r.entryCount == EntriesIn(r.history)
    && r.outputCount == PassedIn(r.history)
    && forall i | 0 <= i < |r.history| :: WellRanked(p, r.history[i])
  }

  ghost predicate Inv(p: Pipeline, store: Store) {
    forall id | id in store :: Consistent(p, id, store[id])
  }

  lemma AdvancedConsistent(p: Pipeline, r: Record, c: Context)
    requires Consistent(p, r.id, r.(phase := Cancelled))
    ensures Consistent(p, r.id, Advanced(p, r, c))
  {
    var next := Advanced(p, r, c);
    assert next.history[..|next.history| - 1] == r.history;
    OutputsCount(next.batch.entries);
    assert WellRanked(p, next.batch);
  }

  lemma {:induction false} UpdateKeeps(p: Pipeline, store: Store, c: Context)
    requires Inv(p, store)
    ensures Inv(p, Update(p, store, c).1)
  {
    var r := CurrentRecord(store, c.id);
    assert Consistent(p, c.id, r.(phase := Cancelled));
    AdvancedConsistent(p, r, c);
  }

  lemma {:induction false} RunInvariant(p: Pipeline, contexts: seq<Context>)
    ensures Inv(p, Run(p, contexts))
  {
    if contexts != [] {
      RunInvariant(p, contexts[..|contexts| - 1]);
      UpdateKeeps(p, Run(p, contexts[..|contexts| - 1]), contexts[|contexts| - 1]);
    }
  }

  /** The counters are sums over the append-only history; the metrics describe its last batch. */
  lemma CountersAreHistorySums(p: Pipeline, contexts: seq<Context>, id: string)
    requires id in Run(p, contexts)
    ensures var r := Run(p, contexts)[id];
            var m := MetricsOf(r);
            && m.totalEntries == EntriesIn(r.history) && m.totalOutputs == PassedIn(r.history)
            && m.pending + m.suppressed == |r.batch.entries|
            && m.pending == Passing(r.batch.entries)
            && (r.history != [] ==> r.batch == r.history[|r.history| - 1])
  {
    RunInvariant(p, contexts);
    var r := Run(p, contexts)[id];
    PendingPlusSuppressed(r.batch.items, r.batch.entries, r.entryCount, r.outputCount);
    OutputsCount(r.batch.entries);
  }

  /** In every stored batch the committed entries are a prefix (the visible panels a suffix). */
  lemma StoredBatchesSplit(p: Pipeline, contexts: seq<Context>, id: string, i: nat) returns (n: nat)
    requires id in Run(p, contexts) && i < |Run(p, contexts)[id].history|
    ensures SplitAt(p, Run(p, contexts)[id].history[i].entries, n)
  {
    RunInvariant(p, contexts);
    var b := Run(p, contexts)[id].history[i];
    assert WellRanked(p, b);
    var candidates, maxItems, threshold :|
      b.items == Collected(p, candidates, maxItems) && b.entries == Entries(p, threshold, b.items);
    n := PassingAreContiguous(p, candidates, maxItems, threshold);
  }

  /** A terminal or failing update leaves the registry as it was. */
  lemma {:induction false} RejectedLeavesStore(p: Pipeline, contexts: seq<Context>, c: Context)
    ensures var (result, after) := Update(p, Run(p, contexts), c);
            && (result.Rejected? <==>
                  || (c.id in Run(p, contexts) && Run(p, contexts)[c.id].phase == Cancelled)
                  || (c.faulty && !c.cancel))
            && (result.Rejected? ==> after == Run(p, contexts))
  {
    RunInvariant(p, contexts);
  }
}
