/** What the batches, outputs, metrics and stored records of memory/ and dashboard/ say about their inputs. */
module RankedFigures {
  import opened Orders
  import opened Ranking
  import opened RankedRecords

  // ---------- One batch ----------

  /** Higher priority (memory) or lower score (dashboard) first; ties by source, then by name. */
  ghost predicate NotBehind(p: Pipeline, x: Item, y: Item) {
    match p
    case Memory => x.weight > y.weight || (x.weight == y.weight && NotAfterByName(x, y))
    case Dashboard => x.weight < y.weight || (x.weight == y.weight && NotAfterByName(x, y))
  }

  ghost predicate NotAfterByName(x: Item, y: Item) {
    LexLt(x.source, y.source) || (x.source == y.source && (x.name == y.name || LexLt(x.name, y.name)))
  }

  lemma RanksMeans(p: Pipeline, x: Item, y: Item)
    ensures Ranks(p, x, y) <==> NotBehind(p, x, y)
  {
  }

  /** How many of `n` candidates a limit keeps; a negative limit drops that many from the end. */
  function KeptCount(n: nat, limit: int): nat {
    if limit >= 0 then if limit < n then limit else n
    else if n + limit > 0 then n + limit else 0
  }

  /** `kept` and `dropped` make up the candidates, in rank order, and nothing dropped is ahead of anything kept. */
  ghost predicate IsSelection(p: Pipeline, candidates: seq<Item>, limit: int, kept: seq<Item>, dropped: seq<Item>) {
    && multiset(kept) + multiset(dropped) == multiset(candidates)
    && |kept| == KeptCount(|candidates|, limit)
    && (forall i, j | 0 <= i < j < |kept| :: NotBehind(p, kept[i], kept[j]))
    && forall x, y | x in kept && y in dropped :: NotBehind(p, x, y)
  }

  lemma CollectedIsSelection(p: Pipeline, candidates: seq<Item>, limit: int) returns (dropped: seq<Item>)
    ensures IsSelection(p, candidates, limit, Collected(p, candidates, limit), dropped)
  {
    var kept := Collected(p, candidates, limit);
    dropped := Sorted(RankOrder(p), candidates)[|kept|..];
    NoDroppedOutranksKept(p, candidates, limit);
    SortedLength(p, candidates);
    forall x, y
      ensures Ranks(p, x, y) <==> NotBehind(p, x, y)
    {
      RanksMeans(p, x, y);
    }
    forall i, j | 0 <= i < j < |kept|
      ensures NotBehind(p, kept[i], kept[j])
    {
      assert RankOrder(p)(kept[i], kept[j]);
    }
  }

  lemma SortedLength(p: Pipeline, candidates: seq<Item>)
    ensures |Sorted(RankOrder(p), candidates)| == |candidates|
  {
    RankIsPreorder(p);
    SortedIsSortedPermutation(RankOrder(p), candidates);
  }

  /** An entry passes exactly at the threshold or above, and says where its item goes. */
  ghost predicate IsEntryOf(p: Pipeline, threshold: real, x: Item, e: Entry) {
    && e.item == x && (e.passes <==> x.weight >= threshold)
    && match p
       case Dashboard => e.placement == x.source
       case Memory => e.placement == if x.tag == "working" || x.tag == "episodic" || x.tag == "semantic" then x.tag
                                     else "working"
  }

  lemma EntriesExactly(p: Pipeline, threshold: real, items: seq<Item>)
    ensures var entries := Entries(p, threshold, items);
            |entries| == |items| && forall i | 0 <= i < |items| :: IsEntryOf(p, threshold, items[i], entries[i])
  {
    forall i | 0 <= i < |items|
      ensures IsEntryOf(p, threshold, items[i], Entries(p, threshold, items)[i])
    {
      assert Entries(p, threshold, items)[i] == EntryOf(p, threshold, items[i]);
    }
  }

  ghost predicate IsOutputOf(e: Entry, o: Output) {
    && o.subject == e.item.name && o.source == e.item.source && o.placement == e.placement
    && o.tag == e.item.tag && o.weight == e.item.weight
  }

  ghost predicate AreOutputs(outputs: seq<Output>, passing: seq<Entry>) {
    |outputs| == |passing| && forall i | 0 <= i < |outputs| :: IsOutputOf(passing[i], outputs[i])
  }

  /** The entries that pass, in order: a prefix of the batch in memory, a suffix in the dashboard. */
  function PassingPart(p: Pipeline, entries: seq<Entry>, n: nat): seq<Entry>
    requires n <= |entries|
  {
    if p == Memory then entries[..n] else entries[n..]
  }

  lemma {:induction false} AllPassOutputs(entries: seq<Entry>)
    requires forall i | 0 <= i < |entries| :: entries[i].passes
    ensures AreOutputs(Outputs(entries), entries)
  {
    if entries != [] {
      AllPassOutputs(entries[..|entries| - 1]);
    }
  }

  lemma {:induction false} NonePassOutputs(entries: seq<Entry>)
    requires forall i | 0 <= i < |entries| :: !entries[i].passes
    ensures Outputs(entries) == []
  {
    if entries != [] {
      NonePassOutputs(entries[..|entries| - 1]);
    }
  }

  lemma {:induction false} OutputsConcat(a: seq<Entry>, b: seq<Entry>)
    ensures Outputs(a + b) == Outputs(a) + Outputs(b)
  {
    if b == [] {
      assert a + b == a;
    } else {
      OutputsConcat(a, b[..|b| - 1]);
      assert (a + b)[..|a + b| - 1] == a + b[..|b| - 1];
    }
  }

  /** One output per passing entry, in order, with that entry's fields. */
  lemma OutputsOfSplit(p: Pipeline, entries: seq<Entry>, n: nat)
    requires SplitAt(p, entries, n)
    ensures AreOutputs(Outputs(entries), PassingPart(p, entries, n))
  {
    var a, b := entries[..n], entries[n..];
    assert entries == a + b;
    OutputsConcat(a, b);
    if p == Memory {
      AllPassOutputs(a);
      NonePassOutputs(b);
    } else {
      NonePassOutputs(a);
      AllPassOutputs(b);
    }
  }

  // ---------- Metrics ----------

  function Weights(items: seq<Item>): real {
    if items == [] then 0.0 else Weights(items[..|items| - 1]) + items[|items| - 1].weight
  }

  /** `rate` is `total` over `n`, or zero when there is nothing to divide by. */
  ghost predicate IsRate(rate: real, total: real, n: nat) {
    if n == 0 then rate == 0.0 else rate * (n as real) == total
  }

  lemma QuotientIsRate(total: real, n: nat)
    requires n > 0
    ensures IsRate(total / (n as real), total, n)
  {
    assert total / (n as real) * (n as real) == total;
  }

  /** `name` is that of the first item no other one exceeds, in the given direction. */
  ghost predicate FirstExtreme(items: seq<Item>, name: string, highest: bool) {
    exists i :: 0 <= i < |items| && items[i].name == name && Leads(items, i, highest)
  }

  ghost predicate Leads(items: seq<Item>, i: nat, highest: bool)
    requires i < |items|
  {
    && (forall j | 0 <= j < i :: if highest then items[j].weight < items[i].weight else items[j].weight > items[i].weight)
    && forall j | i <= j < |items| ::
         if highest then items[j].weight <= items[i].weight else items[j].weight >= items[i].weight
  }

  lemma {:induction false} WeightsAreSum(items: seq<Item>)
    ensures WeightSum(items) == Weights(items)
  {
    if items != [] {
      WeightsAreSum(items[..|items| - 1]);
    }
  }

  lemma {:induction false} HeaviestLeads(items: seq<Item>) returns (h: nat)
    requires items != []
    ensures h < |items| && items[h] == Heaviest(items) && Leads(items, h, true)
  {
    var n := |items| - 1;
    if n == 0 {
      h := 0;
    } else {
      h := HeaviestLeads(items[..n]);
      if items[n].weight > items[h].weight {
        h := n;
      }
    }
  }

  lemma {:induction false} LightestLeads(items: seq<Item>) returns (l: nat)
    requires items != []
    ensures l < |items| && items[l] == Lightest(items) && Leads(items, l, false)
  {
    var n := |items| - 1;
    if n == 0 {
      l := 0;
    } else {
      l := LightestLeads(items[..n]);
      if items[n].weight < items[l].weight {
        l := n;
      }
    }
  }

  /** The batch's averages, extremes, ratio and counts, with the cumulative totals passed through. */
  lemma MetricsExactly(items: seq<Item>, entries: seq<Entry>, totalEntries: nat, totalOutputs: nat)
    ensures var m := Calculate(items, entries, |Outputs(entries)|, totalEntries, totalOutputs);
            && m.totalEntries == totalEntries && m.totalOutputs == totalOutputs
            && IsRate(m.averageWeight, Weights(items), |items|)
            && IsRate(m.passRatio, m.pending as real, |entries|)
            && m.pending == |Outputs(entries)| && m.pending + m.suppressed == |entries|
            && (items == [] ==> m.highest == m.lowest == "")
            && (items != [] ==> FirstExtreme(items, m.highest, true) && FirstExtreme(items, m.lowest, false))
  {
    WeightsAreSum(items);
    OutputsCount(entries);
    if items != [] {
      QuotientIsRate(Weights(items), |items|);
      var h := HeaviestLeads(items);
      var l := LightestLeads(items);
    }
    if entries != [] {
      QuotientIsRate(Passing(entries) as real, |entries|);
    }
  }

  // ---------- The records against the inputs ----------

  ghost predicate CancelledWithin(contexts: seq<Context>, id: string) {
    exists c :: c in contexts && c.id == id && c.cancel
  }

  /** The inputs processed for `id`: neither cancelling nor faulty, and before any cancellation. */
  ghost function ProcessedFor(contexts: seq<Context>, id: string): seq<Context> {
    if contexts == [] then []
    else
      var front, c := contexts[..|contexts| - 1], contexts[|contexts| - 1];
      ProcessedFor(front, id) +
      if c.id == id && !c.cancel && !c.faulty && !CancelledWithin(front, id) then [c] else []
  }

  /** The batch selects from all four source lists of its input, under the input's limit and threshold. */
  ghost predicate IsBatchOf(p: Pipeline, b: Batch, c: Context) {
    && (exists dropped :: IsSelection(p, c.first + c.second + c.third + c.fourth, c.maxItems, b.items, dropped))
    && |b.entries| == |b.items|
    && forall i | 0 <= i < |b.items| :: IsEntryOf(p, c.threshold, b.items[i], b.entries[i])
  }

  ghost predicate AreBatchesOf(p: Pipeline, history: seq<Batch>, processed: seq<Context>) {
    |history| == |processed| && forall i | 0 <= i < |history| :: IsBatchOf(p, history[i], processed[i])
  }

  /** What the registry holds for `id`, in terms of the inputs alone. */
  ghost predicate HoldsFor(p: Pipeline, store: Store, id: string, processed: seq<Context>, cancelled: bool) {
    && (id in store <==> processed != [] || cancelled)
    && (id in store ==>
          && store[id].id == id && store[id].phase == (if cancelled then Cancelled else Prepared)
          && AreBatchesOf(p, store[id].history, processed))
  }

  lemma PlannedIsBatch(p: Pipeline, c: Context)
    ensures IsBatchOf(p, Planned(p, c), c)
  {
    var dropped := CollectedIsSelection(p, c.first + c.second + c.third + c.fourth, c.maxItems);
    EntriesExactly(p, c.threshold, Planned(p, c).items);
  }

  /**
   * Over any run a record exists exactly when something was processed or cancelled under its
   * id; its history is exactly the batches of the inputs processed before any cancellation.
   */
  lemma {:induction false} HistoryIsWhatWasProcessed(p: Pipeline, contexts: seq<Context>, id: string)
    ensures HoldsFor(p, Run(p, contexts), id, ProcessedFor(contexts, id), CancelledWithin(contexts, id))
  {
    if contexts != [] {
      var front, c := contexts[..|contexts| - 1], contexts[|contexts| - 1];
      assert contexts == front + [c];
      HistoryIsWhatWasProcessed(p, front, id);
      HistoryIsWhatWasProcessed(p, front, c.id);
      CancelledStep(front, c, id);
      UpdateStep(p, Run(p, front), c, id, ProcessedFor(front, id), CancelledWithin(front, id));
    }
  }

  lemma CancelledStep(front: seq<Context>, c: Context, id: string)
    ensures CancelledWithin(front + [c], id) <==> CancelledWithin(front, id) || (c.id == id && c.cancel)
  {
    assert forall x :: x in front + [c] <==> x in front || x == c;
  }

  lemma UpdateStep(p: Pipeline, store: Store, c: Context, id: string, processed: seq<Context>, cancelled: bool)
    requires HoldsFor(p, store, id, processed, cancelled)
    requires c.id in store ==> store[c.id].id == c.id
    ensures HoldsFor(p, Update(p, store, c).1, id,
                     processed + (if c.id == id && !c.cancel && !c.faulty && !cancelled then [c] else []),
                     cancelled || (c.id == id && c.cancel))
  {
    assert processed + [] == processed;
    if c.id == id && !c.cancel && !c.faulty && !cancelled {
      ProcessesOneMore(p, store, c, processed);
    } else if c.id == id && c.cancel && !cancelled {
      CancelsFor(p, store, c, processed);
    } else {
      LeavesAlone(p, store, c, id, processed, cancelled);
    }
  }

  lemma ProcessesOneMore(p: Pipeline, store: Store, c: Context, processed: seq<Context>)
    requires HoldsFor(p, store, c.id, processed, false) && !c.cancel && !c.faulty
    ensures HoldsFor(p, Update(p, store, c).1, c.id, processed + [c], false)
  {
    var r := CurrentRecord(store, c.id);
    assert AreBatchesOf(p, r.history, processed);
    var next := Advanced(p, r, c);
    PlannedIsBatch(p, c);
    assert AreBatchesOf(p, next.history, processed + [c]);
    assert Update(p, store, c).1 == store[next.id := next];
  }

  lemma CancelsFor(p: Pipeline, store: Store, c: Context, processed: seq<Context>)
    requires HoldsFor(p, store, c.id, processed, false) && c.cancel
    ensures HoldsFor(p, Update(p, store, c).1, c.id, processed, true)
  {
    var r := CurrentRecord(store, c.id);
    assert AreBatchesOf(p, r.history, processed);
    assert Update(p, store, c).1 == store[r.id := r.(phase := Cancelled)];
  }

  lemma LeavesAlone(p: Pipeline, store: Store, c: Context, id: string, processed: seq<Context>, cancelled: bool)
    requires HoldsFor(p, store, id, processed, cancelled)
    requires c.id in store ==> store[c.id].id == c.id
    requires c.id != id || cancelled || (c.faulty && !c.cancel)
    ensures HoldsFor(p, Update(p, store, c).1, id, processed, cancelled)
  {
    var after := Update(p, store, c).1;
    assert id in after <==> id in store;
    assert id in store ==> after[id] == store[id];
  }

  /** Every stored record's outputs are those of the passing entries of its last batch, in order. */
  lemma StoredOutputsExactly(p: Pipeline, contexts: seq<Context>, id: string) returns (n: nat)
    requires id in Run(p, contexts)
    ensures var r := Run(p, contexts)[id];
            SplitAt(p, r.batch.entries, n) && AreOutputs(r.outputs, PassingPart(p, r.batch.entries, n))
  {
    RunInvariant(p, contexts);
    var r := Run(p, contexts)[id];
    if r.history == [] {
      n := 0;
    } else {
      n := StoredBatchesSplit(p, contexts, id, |r.history| - 1);
    }
    OutputsOfSplit(p, r.batch.entries, n);
  }

  /** A result carries the metrics of the record stored with it. */
  lemma UpdatedReportsExactly(p: Pipeline, store: Store, c: Context)
    requires Update(p, store, c).0.Updated?
    ensures var (result, after) := Update(p, store, c);
            var r := result.record;
            && after == store[r.id := r] && r.outputs == Outputs(r.batch.entries)
            && result.metrics == Calculate(r.batch.items, r.batch.entries, |r.outputs|, r.entryCount, r.outputCount)
  {
  }

  /** Cancelling changes nothing of a record but its phase. */
  lemma CancelKeepsTheRest(p: Pipeline, store: Store, c: Context)
    requires c.cancel && c.id in store && store[c.id].id == c.id
    requires store[c.id].phase in {Created, Gathering, Prepared}
    ensures Update(p, store, c) == (CancelledResult(store[c.id].(phase := Cancelled)),
                                    store[c.id := store[c.id].(phase := Cancelled)])
  {
  }
}
