/**
 * The sort-cut-threshold pipeline that memory/ and dashboard/ share: memory ranks the
 * highest priority first, the dashboard the lowest score first.
 */
module Ranking {
  import opened Orders

  datatype Pipeline = Memory | Dashboard

  /** A memory source (tag = category) or a dashboard source (tag = label). */
  datatype Item = Item(name: string, source: string, tag: string, weight: real, samples: int)

  function SignedWeight(p: Pipeline, x: Item): real {
    if p == Memory then -x.weight else x.weight
  }

  /** `(-priority, source, name)` or `(score, source, name)`, compared lexicographically. */
  predicate Ranks(p: Pipeline, x: Item, y: Item) {
    var a, b := SignedWeight(p, x), SignedWeight(p, y);
    a < b || (a == b && (LexLt(x.source, y.source) || (x.source == y.source && LexLe(x.name, y.name))))
  }

  function RankOrder(p: Pipeline): ((Item, Item) -> bool) {
    (x, y) => Ranks(p, x, y)
  }

  lemma RankIsPreorder(p: Pipeline)
    ensures TotalPreorder(RankOrder(p))
  {
    var le := RankOrder(p);
    forall x, y
      ensures le(x, y) || le(y, x)
    {
      LexTotal(x.source, y.source);
      LexTotal(x.name, y.name);
    }
    forall x, y, z | le(x, y) && le(y, z)
      ensures le(x, z)
    {
      RanksTransitive(p, x, y, z);
    }
  }

  lemma RanksTransitive(p: Pipeline, x: Item, y: Item, z: Item)
    requires Ranks(p, x, y) && Ranks(p, y, z)
    ensures Ranks(p, x, z)
  {
    if LexLt(x.source, y.source) && LexLt(y.source, z.source) {
      LexTransitive(x.source, y.source, z.source);
    }
    if LexLt(x.name, y.name) && LexLt(y.name, z.name) {
      LexTransitive(x.name, y.name, z.name);
    }
  }

  /** Python's `s[:k]`: a negative bound drops from the end. */
  function Cut<T>(s: seq<T>, k: int): (r: seq<T>)
    ensures r <= s
    ensures k >= 0 ==> |r| <= k && (|r| == k || r == s)
  {
    if k >= |s| then s
    else if k >= 0 then s[..k]
    else if |s| + k <= 0 then []
    else s[..|s| + k]
  }

  function Collected(p: Pipeline, candidates: seq<Item>, maxItems: int): seq<Item> {
    Cut(Sorted(RankOrder(p), candidates), maxItems)
  }

  /** No dropped item outranks a kept one, and nothing is invented or lost. */
  lemma NoDroppedOutranksKept(p: Pipeline, candidates: seq<Item>, maxItems: int)
    ensures var kept := Collected(p, candidates, maxItems);
            var dropped := Sorted(RankOrder(p), candidates)[|kept|..];
            && multiset(kept) + multiset(dropped) == multiset(candidates)
            && (forall x, y | x in kept && y in dropped :: Ranks(p, x, y))
            && SortedBy(RankOrder(p), kept)
  {
    RankIsPreorder(p);
    SortedIsSortedPermutation(RankOrder(p), candidates);
    var all := Sorted(RankOrder(p), candidates);
    var kept := Collected(p, candidates, maxItems);
    assert all == kept + all[|kept|..];
    forall x, y | x in kept && y in all[|kept|..]
      ensures Ranks(p, x, y)
    {
      var i :| 0 <= i < |kept| && kept[i] == x;
      var j :| |kept| <= j < |all| && all[j] == y;
      assert RankOrder(p)(all[i], all[j]);
    }
  }

  // ---------- Ties keep their input order ----------

  /** The elements of `s` that tie with `x`, in order. */
  function Tied<T>(le: (T, T) -> bool, x: T, s: seq<T>): seq<T> {
    if s == [] then []
    else (if le(s[0], x) && le(x, s[0]) then [s[0]] else []) + Tied(le, x, s[1..])
  }

  lemma {:induction false} InsertTied<T(!new)>(le: (T, T) -> bool, x: T, y: T, s: seq<T>)
    requires TotalPreorder(le)
    ensures Tied(le, x, Insert(le, y, s)) == (if le(y, x) && le(x, y) then [y] else []) + Tied(le, x, s)
  {
    if s == [] || le(y, s[0]) {
      TiedCons(le, x, y, s);
    } else {
      InsertTied(le, x, y, s[1..]);
      TiedCons(le, x, s[0], Insert(le, y, s[1..]));
      TiedApart(le, x, y, s[0]);
    }
  }

  lemma TiedCons<T>(le: (T, T) -> bool, x: T, y: T, s: seq<T>)
    ensures Tied(le, x, [y] + s) == (if le(y, x) && le(x, y) then [y] else []) + Tied(le, x, s)
  {
    assert ([y] + s)[1..] == s;
  }

  /** Elements that tie with the same element tie with each other. */
  lemma TiedApart<T(!new)>(le: (T, T) -> bool, x: T, y: T, z: T)
    requires TotalPreorder(le) && !le(y, z)
    ensures !(le(y, x) && le(x, y) && le(z, x) && le(x, z))
  {
  }

  lemma {:induction false} SortIsStable<T(!new)>(le: (T, T) -> bool, x: T, s: seq<T>)
    requires TotalPreorder(le)
    ensures Tied(le, x, Sorted(le, s)) == Tied(le, x, s)
  {
    if s != [] {
      SortIsStable(le, x, s[1..]);
      InsertTied(le, x, s[0], Sorted(le, s[1..]));
    }
  }

  // ---------- Entries and outputs ----------

  datatype Entry = Entry(item: Item, passes: bool, placement: string)

  /** A memory request or a dashboard widget. */
  datatype Output = Output(subject: string, source: string, placement: string, tag: string, weight: real)

  const MEMORY_SCOPES := {"working", "episodic", "semantic"}

  function Placement(p: Pipeline, x: Item): string {
    if p == Dashboard then x.source
    else if x.tag in MEMORY_SCOPES then x.tag
    else "working"
  }

  function EntryOf(p: Pipeline, threshold: real, x: Item): Entry {
    Entry(x, x.weight >= threshold, Placement(p, x))
  }

  function Entries(p: Pipeline, threshold: real, items: seq<Item>): (r: seq<Entry>)
    ensures |r| == |items| && forall i | 0 <= i < |items| :: r[i] == EntryOf(p, threshold, items[i])
  {
    seq(|items|, i requires 0 <= i < |items| => EntryOf(p, threshold, items[i]))
  }

  function OutputOf(e: Entry): Output {
    Output(e.item.name, e.item.source, e.placement, e.item.tag, e.item.weight)
  }

  /** One output per passing entry, in order. */
  function Outputs(entries: seq<Entry>): seq<Output> {
    if entries == [] then []
    else
      var last := entries[|entries| - 1];
      Outputs(entries[..|entries| - 1]) + if last.passes then [OutputOf(last)] else []
  }

  function Passing(entries: seq<Entry>): nat {
    if entries == [] then 0 else Passing(entries[..|entries| - 1]) + if entries[|entries| - 1].passes then 1 else 0
  }

  lemma {:induction false} OutputsCount(entries: seq<Entry>)
    ensures |Outputs(entries)| == Passing(entries) <= |entries|
  {
    if entries != [] {
      OutputsCount(entries[..|entries| - 1]);
    }
  }

  /** Entries before position n pass (memory), or those from it on (dashboard). */
  ghost predicate SplitAt(p: Pipeline, entries: seq<Entry>, n: int) {
    && 0 <= n <= |entries|
    && forall i | 0 <= i < |entries| :: entries[i].passes <==> if p == Memory then i < n else i >= n
  }

  lemma {:induction false} SplitExists(p: Pipeline, entries: seq<Entry>, n: nat) returns (m: nat)
    requires n <= |entries|
    requires forall i, j | 0 <= i < j < |entries| ::
      if p == Memory then entries[j].passes ==> entries[i].passes else entries[i].passes ==> entries[j].passes
    requires forall i | 0 <= i < n :: entries[i].passes <==> p == Memory
    ensures SplitAt(p, entries, m)
    decreases |entries| - n
  {
    if n == |entries| || entries[n].passes != (p == Memory) {
      m := n;
    } else {
      m := SplitExists(p, entries, n + 1);
    }
  }

  /** The committed entries are a prefix of the batch; the visible panels are a suffix. */
  lemma PassingAreContiguous(p: Pipeline, candidates: seq<Item>, maxItems: int, threshold: real)
    returns (n: nat)
    ensures SplitAt(p, Entries(p, threshold, Collected(p, candidates, maxItems)), n)
  {
    NoDroppedOutranksKept(p, candidates, maxItems);
    var kept := Collected(p, candidates, maxItems);
    var entries := Entries(p, threshold, kept);
    forall i, j | 0 <= i < j < |entries|
      ensures if p == Memory then entries[j].passes ==> entries[i].passes else entries[i].passes ==> entries[j].passes
    {
      assert RankOrder(p)(kept[i], kept[j]);
    }
    n := SplitExists(p, entries, 0);
  }

  // ---------- Metrics ----------

  datatype Metrics = Metrics(
    totalEntries: nat, totalOutputs: nat, averageWeight: real, highest: string, lowest: string,
    passRatio: real, pending: nat, suppressed: int)

  /** `max(items, key=weight)`: the first of the greatest. */
  function Heaviest(items: seq<Item>): Item
    requires items != []
  {
    if |items| == 1 then items[0]
    else
      var h, last := Heaviest(items[..|items| - 1]), items[|items| - 1];
      if last.weight > h.weight then last else h
  }

  function Lightest(items: seq<Item>): Item
    requires items != []
  {
    if |items| == 1 then items[0]
    else
      var l, last := Lightest(items[..|items| - 1]), items[|items| - 1];
      if last.weight < l.weight then last else l
  }

  function WeightSum(items: seq<Item>): real {
    if items == [] then 0.0 else WeightSum(items[..|items| - 1]) + items[|items| - 1].weight
  }

  function PassRatio(entries: seq<Entry>): real {
    if entries == [] then 0.0 else Passing(entries) as real / (|entries| as real)
  }

  function Calculate(items: seq<Item>, entries: seq<Entry>, outputs: nat, totalEntries: nat, totalOutputs: nat): Metrics {
    Metrics(totalEntries, totalOutputs,
            if items == [] then 0.0 else WeightSum(items) / (|items| as real),
            if items == [] then "" else Heaviest(items).name,
            if items == [] then "" else Lightest(items).name,
            PassRatio(entries),
            outputs,
            if entries == [] then 0 else |entries| - Passing(entries))
  }

  lemma {:induction false} FirstIsExtreme(p: Pipeline, items: seq<Item>)
    requires items != [] && SortedBy(RankOrder(p), items)
    ensures (if p == Memory then Heaviest(items) else Lightest(items)) == items[0]
  {
    if |items| > 1 {
      FirstIsExtreme(p, items[..|items| - 1]);
      assert RankOrder(p)(items[0], items[|items| - 1]);
    }
  }

  lemma RatioCounts(entries: seq<Entry>)
    ensures PassRatio(entries) * (|entries| as real) == |Outputs(entries)| as real
    ensures |Outputs(entries)| == Passing(entries)
  {
    OutputsCount(entries);
  }

  /** The best (memory) or worst (dashboard) item named is the first entry of the batch. */
  lemma NamedExtremeIsFirst(
    p: Pipeline, candidates: seq<Item>, maxItems: int, entries: seq<Entry>,
    outputs: nat, totalEntries: nat, totalOutputs: nat)
    requires Collected(p, candidates, maxItems) != []
    ensures var items := Collected(p, candidates, maxItems);
            var m := Calculate(items, entries, outputs, totalEntries, totalOutputs);
            && (if p == Memory then m.highest else m.lowest) == items[0].name
            && forall x | x in items :: if p == Memory then x.weight <= items[0].weight else items[0].weight <= x.weight
  {
    NoDroppedOutranksKept(p, candidates, maxItems);
    var items := Collected(p, candidates, maxItems);
    FirstIsExtreme(p, items);
    forall i | 0 < i < |items|
      ensures if p == Memory then items[i].weight <= items[0].weight else items[0].weight <= items[i].weight
    {
      assert RankOrder(p)(items[0], items[i]);
    }
  }

  /** Pending plus suppressed is the size of the batch, and the ratio is their proportion. */
  lemma {:induction false} PendingPlusSuppressed(
    items: seq<Item>, entries: seq<Entry>, totalEntries: nat, totalOutputs: nat)
    ensures var m := Calculate(items, entries, |Outputs(entries)|, totalEntries, totalOutputs);
            && m.pending + m.suppressed == |entries|
            && m.passRatio * (|entries| as real) == m.pending as real
  {
    RatioCounts(entries);
  }
}
