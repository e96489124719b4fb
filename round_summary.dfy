/**
 * The round summary: a round's results reduced to one entry per scoretaker
 * (the person a scorecard was entered by), with how many scorecards each
 * entered, ordered by count descending and then by name, plus the total and
 * the largest count, and the bar width each entry is drawn with.
 */
module RoundSummary {
  import opened Wrappers
  import Text

  datatype Submitter = Submitter(name: Option<string>)
  datatype RoundResult = RoundResult(id: string, enteredBy: Option<Submitter>, enteredAt: Option<string>)

  /** The `round` field of the response, and its `results` list, may each be missing. */
  datatype RoundPayload = RoundPayload(results: Option<seq<RoundResult>>)
  datatype RoundResponse = RoundResponse(round: Option<RoundPayload>)

  datatype Item = Item(name: string, count: nat)
  datatype Tally = Tally(items: seq<Item>, total: nat, max: nat)

  const Unknown := "Unknown"

  /** The result list a response stands for: `data.round?.results ?? []`. */
  function ResultsOf(resp: RoundResponse): (rs: seq<RoundResult>)
    ensures resp.round.None? ==> rs == []
    ensures resp.round.Some? && resp.round.value.results.Some? ==> rs == resp.round.value.results.value
  {
    match resp.round
    case Some(p) => p.results.GetOr([])
    case None => []
  }

  /** The result carries a submitter name with something other than whitespace in it. */
  predicate HasSubmitterName(r: RoundResult) {
    r.enteredBy.Some? && r.enteredBy.value.name.Some? && !Text.IsBlank(r.enteredBy.value.name.value)
  }

  /** The name a result is attributed to: `r.enteredBy?.name?.trim() || 'Unknown'`. */
  function Scoretaker(r: RoundResult): string {
    match r.enteredBy
    case Some(Submitter(Some(raw))) =>
      var t := Text.Trim(raw);
      if t == [] then Unknown else t
    case _ => Unknown
  }

  /**
   * A result is attributed to its trimmed submitter name when that has anything
   * but whitespace in it, and to "Unknown" otherwise (no submitter, no name, or
   * a blank one), so all such results share one entry.
   */
  lemma ScoretakerAttribution(r: RoundResult)
    ensures Scoretaker(r) != []
    ensures HasSubmitterName(r) ==> Scoretaker(r) == Text.Trim(r.enteredBy.value.name.value)
    ensures !HasSubmitterName(r) ==> Scoretaker(r) == Unknown
  {
    match r.enteredBy
    case Some(Submitter(Some(raw))) => Text.TrimSpec(raw);
    case _ =>
  }

  /** How many of `rs` are attributed to `name`. */
  function CountOf(rs: seq<RoundResult>, name: string): (n: nat)
    ensures n <= |rs|
  {
    if rs == [] then 0
    else CountOf(rs[..|rs| - 1], name) + (if Scoretaker(rs[|rs| - 1]) == name then 1 else 0)
  }

  /** Extending a prefix of the results by one adds one to exactly that result's scoretaker. */
  lemma CountOfStep(results: seq<RoundResult>, i: nat)
    requires i < |results|
    ensures forall k ::
      CountOf(results[..i + 1], k) == CountOf(results[..i], k) + (if Scoretaker(results[i]) == k then 1 else 0)
  {
    assert results[..i + 1][..i] == results[..i];
  }

  /** A name has a count of zero exactly when no result is attributed to it. */
  lemma {:induction false} CountOfZero(rs: seq<RoundResult>, name: string)
    ensures CountOf(rs, name) == 0 <==> forall k :: 0 <= k < |rs| ==> Scoretaker(rs[k]) != name
  {
    if rs != [] {
      var init := rs[..|rs| - 1];
      CountOfZero(init, name);
      assert forall k :: 0 <= k < |init| ==> init[k] == rs[k];
    }
  }

  /** The sort order: `b.count - a.count || a.name.localeCompare(b.name)` is not positive. */
  predicate Before(a: Item, b: Item) {
    a.count > b.count || (a.count == b.count && Text.LexLeq(a.name, b.name))
  }

  ghost predicate Sorted(items: seq<Item>) {
    forall i, j :: 0 <= i < j < |items| ==> Before(items[i], items[j])
  }

  ghost predicate DistinctNames(items: seq<Item>) {
    forall i, j :: 0 <= i < j < |items| ==> items[i].name != items[j].name
  }

  function NamesOf(items: seq<Item>): set<string> {
    set it | it in items :: it.name
  }

  function SumCounts(items: seq<Item>): nat {
    if items == [] then 0 else items[0].count + SumCounts(items[1..])
  }

  /**
   * What the summary of `results` is: one entry per scoretaker, each with its
   * number of results, every result accounted for, counts adding up to the
   * total, entries in sort order, and `max` the largest count (0 for none).
   */
  ghost predicate IsTallyOf(t: Tally, results: seq<RoundResult>) {
    && t.total == |results|
    && DistinctNames(t.items)
    && (forall it :: it in t.items ==> 1 <= it.count == CountOf(results, it.name))
    && (forall k :: 0 <= k < |results| ==> Scoretaker(results[k]) in NamesOf(t.items))
    && SumCounts(t.items) == t.total
    && Sorted(t.items)
    && (forall it :: it in t.items ==> it.count <= t.max)
    && (if t.items == [] then t.max == 0 else exists it :: it in t.items && it.count == t.max)
  }

  /**
   * Every result is counted in exactly one entry: the one named after its
   * scoretaker, so results with equal trimmed names share an entry.
   */
  lemma ResultInOneEntry(results: seq<RoundResult>, t: Tally, k: nat)
    requires IsTallyOf(t, results) && k < |results|
    ensures exists p :: 0 <= p < |t.items| && t.items[p].name == Scoretaker(results[k])
    ensures forall p, q ::
      && 0 <= p < |t.items| && 0 <= q < |t.items|
      && t.items[p].name == Scoretaker(results[k])
      && t.items[q].name == Scoretaker(results[k])
      ==> p == q
  {
    var it :| it in t.items && it.name == Scoretaker(results[k]);
  }

  lemma BeforeTotal(a: Item, b: Item)
    ensures Before(a, b) || Before(b, a)
  {
    Text.LexLeqTotal(a.name, b.name);
  }

  lemma BeforeTransitive(a: Item, b: Item, c: Item)
    requires Before(a, b) && Before(b, c)
    ensures Before(a, c)
  {
    if a.count == b.count == c.count {
      Text.LexLeqTransitive(a.name, b.name, c.name);
    }
  }

  lemma BeforeAntisymmetric(a: Item, b: Item)
    requires Before(a, b) && Before(b, a)
    ensures a.count == b.count && a.name == b.name
  {
    Text.LexLeqAntisymmetric(a.name, b.name);
  }

  /** `items.sort(...)`: an insertion sort in place; the result is ordered and a permutation. */
  method SortItems(a: array<Item>)
    modifies a
    ensures Sorted(a[..])
    ensures multiset(a[..]) == multiset(old(a[..]))
  {
    var i := 0;
    while i < a.Length
      invariant 0 <= i <= a.Length
      invariant forall p, q :: 0 <= p < q < i ==> Before(a[p], a[q])
      invariant multiset(a[..]) == multiset(old(a[..]))
    {
      InsertLast(a, i);
      i := i + 1;
    }
  }

  /**
   * Mid-way through an insertion step: the entry at `j` is on its way left; the
   * entries up to `i` other than it are in order, and it is in order with
   * everything between it and `i`.
   */
  ghost predicate Sinking(s: seq<Item>, i: nat, j: nat)
    requires j <= i < |s|
  {
    && (forall p, q :: 0 <= p < q <= i && p != j && q != j ==> Before(s[p], s[q]))
    && (forall q :: j < q <= i ==> Before(s[j], s[q]))
  }

  /** Swapping the sinking entry with a left neighbour that should follow it moves it one place on. */
  lemma SwapStep(s: seq<Item>, i: nat, j: nat)
    requires 0 < j <= i < |s| && Sinking(s, i, j) && !Before(s[j - 1], s[j])
    ensures Sinking(s[j - 1 := s[j]][j := s[j - 1]], i, j - 1)
  {
    BeforeTotal(s[j - 1], s[j]);
  }

  /** At the end of the step, the sinking entry is in order with everything left of it too. */
  lemma SinkDone(s: seq<Item>, i: nat, j: nat)
    requires j <= i < |s| && Sinking(s, i, j)
    requires j > 0 ==> Before(s[j - 1], s[j])
    ensures forall p, q :: 0 <= p < q <= i ==> Before(s[p], s[q])
  {
    forall p | 0 <= p < j
      ensures Before(s[p], s[j])
    {
      if p < j - 1 {
        BeforeTransitive(s[p], s[j - 1], s[j]);
      }
    }
  }

  /** One insertion step: `a[i]` moves left past the entries that should follow it. */
  method InsertLast(a: array<Item>, i: nat)
    requires i < a.Length
    requires forall p, q :: 0 <= p < q < i ==> Before(a[p], a[q])
    modifies a
    ensures forall p, q :: 0 <= p < q <= i ==> Before(a[p], a[q])
    ensures multiset(a[..]) == multiset(old(a[..]))
    ensures a[i + 1..] == old(a[i + 1..])
  {
    var j := i;
    while j > 0 && !Before(a[j - 1], a[j])
      invariant 0 <= j <= i
      invariant Sinking(a[..], i, j)
      invariant multiset(a[..]) == multiset(old(a[..]))
      invariant a[i + 1..] == old(a[i + 1..])
    {
      SwapStep(a[..], i, j);
      a[j - 1], a[j] := a[j], a[j - 1];
      j := j - 1;
    }
    SinkDone(a[..], i, j);
  }



  lemma HeadIsMember<T>(s: seq<T>)
    ensures s != [] ==> s[0] in s
  {
  }

  /** Every element occurs at most once in a sequence without repetitions. */
  lemma {:induction false} DistinctMultiplicity<T>(s: seq<T>)
    requires forall i, j :: 0 <= i < j < |s| ==> s[i] != s[j]
    ensures forall x :: multiset(s)[x] <= 1
  {
    if s != [] {
      DistinctMultiplicity(s[1..]);
      assert s == [s[0]] + s[1..];
      assert s[0] !in s[1..];
    }
  }

  /** A sequence in which nothing occurs twice has no repetitions. */
  lemma MultiplicityDistinct<T>(s: seq<T>)
    requires forall x :: multiset(s)[x] <= 1
    ensures forall i, j :: 0 <= i < j < |s| ==> s[i] != s[j]
  {
    forall i, j | 0 <= i < j < |s|
      ensures s[i] != s[j]
    {
      assert s == s[..i] + [s[i]] + s[i + 1..j] + [s[j]] + s[j + 1..];
      assert multiset(s)[s[i]] >= multiset([s[i]] + [s[j]])[s[i]];
    }
  }

  /** Reordering keeps names distinct when each entry's count is determined by its name. */
  lemma PermutationKeepsDistinctNames(s: seq<Item>, t: seq<Item>)
    requires multiset(s) == multiset(t)
    requires DistinctNames(s)
    ensures DistinctNames(t)
  {
    DistinctMultiplicity(s);
    MultiplicityDistinct(t);
    forall i, j | 0 <= i < j < |t|
      ensures t[i].name != t[j].name
    {
      assert t[i] in multiset(s) && t[j] in multiset(s);
    }
  }

  /** Results attributed to the names of `items`, counted name by name. */
  function Attributed(rs: seq<RoundResult>, items: seq<Item>): nat {
    if items == [] then 0 else CountOf(rs, items[0].name) + Attributed(rs, items[1..])
  }

  lemma {:induction false} AttributedOfNone(items: seq<Item>)
    ensures Attributed([], items) == 0
  {
    if items != [] { AttributedOfNone(items[1..]); }
  }

  lemma {:induction false} AttributedSnoc(rs: seq<RoundResult>, r: RoundResult, items: seq<Item>)
    requires DistinctNames(items)
    ensures Attributed(rs + [r], items)
         == Attributed(rs, items) + (if Scoretaker(r) in NamesOf(items) then 1 else 0)
  {
    if items != [] {
      AttributedSnoc(rs, r, items[1..]);
      assert (rs + [r])[..|rs|] == rs;
      assert NamesOf(items) == {items[0].name} + NamesOf(items[1..]) by {
        assert forall it :: it in items <==> it == items[0] || it in items[1..];
      }
      assert items[0].name !in NamesOf(items[1..]);
    }
  }

  lemma {:induction false} AttributedCovering(rs: seq<RoundResult>, items: seq<Item>)
    requires DistinctNames(items)
    requires forall k :: 0 <= k < |rs| ==> Scoretaker(rs[k]) in NamesOf(items)
    ensures Attributed(rs, items) == |rs|
  {
    if rs == [] {
      AttributedOfNone(items);
    } else {
      var init := rs[..|rs| - 1];
      AttributedCovering(init, items);
      AttributedSnoc(init, rs[|rs| - 1], items);
      assert init + [rs[|rs| - 1]] == rs;
    }
  }

  lemma {:induction false} SumCountsIsAttributed(results: seq<RoundResult>, items: seq<Item>)
    requires forall it :: it in items ==> it.count == CountOf(results, it.name)
    ensures SumCounts(items) == Attributed(results, items)
  {
    if items != [] {
      SumCountsIsAttributed(results, items[1..]);
    }
  }

  /** Entries with distinct names, true counts and every result covered add up to the number of results. */
  lemma TallySum(results: seq<RoundResult>, items: seq<Item>)
    requires DistinctNames(items)
    requires forall it :: it in items ==> it.count == CountOf(results, it.name)
    requires forall k :: 0 <= k < |results| ==> Scoretaker(results[k]) in NamesOf(items)
    ensures SumCounts(items) == |results|
  {
    SumCountsIsAttributed(results, items);
    AttributedCovering(results, items);
  }

  /** `counter` holds, for every name, how many of `rs` are attributed to it (absent: none). */
  ghost predicate Counts(rs: seq<RoundResult>, counter: map<string, nat>) {
    forall k :: CountOf(rs, k) == if k in counter then counter[k] else 0
  }

  /** `order` lists the keys of `counter` once each, and every counter is positive. */
  ghost predicate KeysListedOnce(counter: map<string, nat>, order: seq<string>) {
    && (forall k :: k in counter ==> counter[k] >= 1)
    && (forall k :: k in counter <==> k in order)
    && (forall p, q :: 0 <= p < q < |order| ==> order[p] != order[q])
  }

  /** `counter.set(key, (counter.get(key) ?? 0) + 1)`. */
  function Bump(counter: map<string, nat>, key: string): map<string, nat> {
    counter[key := (if key in counter then counter[key] else 0) + 1]
  }

  /** Bumping the counter of the next result's scoretaker keeps the counters exact. */
  lemma CountsStep(results: seq<RoundResult>, i: nat, counter: map<string, nat>)
    requires i < |results| && Counts(results[..i], counter)
    ensures Counts(results[..i + 1], Bump(counter, Scoretaker(results[i])))
  {
    CountOfStep(results, i);
  }

  /**
   * The counting loop: one counter per scoretaker name, plus its names, each
   * listed once. Their order is not stated: the sort that follows fixes the
   * final order whatever it is (`TallyDeterministic`).
   */
  method CountNames(results: seq<RoundResult>) returns (counter: map<string, nat>, order: seq<string>)
    ensures forall k :: CountOf(results, k) == if k in counter then counter[k] else 0
    ensures KeysListedOnce(counter, order)
    ensures forall p :: 0 <= p < |results| ==> Scoretaker(results[p]) in counter
  {
    counter := map[];
    order := [];
    for i := 0 to |results|
      invariant Counts(results[..i], counter)
      invariant KeysListedOnce(counter, order)
      invariant forall p :: 0 <= p < i ==> Scoretaker(results[p]) in counter
    {
      var key := Scoretaker(results[i]);
      CountsStep(results, i, counter);
      if key !in counter {
        order := order + [key];
      }
      counter := Bump(counter, key);
    }
    assert results[..|results|] == results;
  }

  /**
   * The counting loop and `Array.from(counter.entries())`: one entry per
   * scoretaker, with its true count.
   */
  method CountByScoretaker(results: seq<RoundResult>) returns (entries: seq<Item>)
    ensures DistinctNames(entries)
    ensures forall it :: it in entries ==> 1 <= it.count == CountOf(results, it.name)
    ensures forall k :: 0 <= k < |results| ==> Scoretaker(results[k]) in NamesOf(entries)
  {
    var counter, order := CountNames(results);
    entries := seq(|order|, j requires 0 <= j < |order| => Item(order[j], counter[order[j]]));
    forall k | 0 <= k < |results|
      ensures Scoretaker(results[k]) in NamesOf(entries)
    {
      assert Scoretaker(results[k]) in order;
      var j :| 0 <= j < |order| && order[j] == Scoretaker(results[k]);
      assert entries[j] in entries;
    }
  }


  /** `items.reduce((m, it) => Math.max(m, it.count), 0)`: the largest count, 0 for no items. */
  method MaxCount(items: seq<Item>) returns (max: nat)
    ensures forall it :: it in items ==> it.count <= max
    ensures if items == [] then max == 0 else exists it :: it in items && it.count == max
  {
    max := 0;
    for j := 0 to |items|
      invariant forall p :: 0 <= p < j ==> items[p].count <= max
      invariant if j == 0 then max == 0 else exists p :: 0 <= p < j && items[p].count == max
    {
      max := if max >= items[j].count then max else items[j].count;
    }
  }

  /** The `grouped` computation: count per scoretaker, sort in place, fold for the maximum. */
  method Group(results: seq<RoundResult>) returns (t: Tally)
    ensures IsTallyOf(t, results)
  {
    var entries := CountByScoretaker(results);
    var a := new Item[|entries|](j requires 0 <= j < |entries| => entries[j]);
    assert a[..] == entries;
    SortItems(a);
    var items := a[..];
    assert forall it :: it in items <==> it in entries by {
      assert forall it :: it in items <==> it in multiset(entries);
    }
    forall k | 0 <= k < |results|
      ensures Scoretaker(results[k]) in NamesOf(items)
    {
      assert Scoretaker(results[k]) in NamesOf(entries);
      var it :| it in entries && it.name == Scoretaker(results[k]);
      assert it in items;
    }
    PermutationKeepsDistinctNames(entries, items);
    TallySum(results, items);
    var max := MaxCount(items);
    t := Tally(items, |results|, max);
  }

  /** The summary view's pipeline on a response: a missing round gives the empty summary. */
  method Summarize(resp: RoundResponse) returns (t: Tally)
    ensures IsTallyOf(t, ResultsOf(resp))
    ensures resp.round.None? ==> t == Tally([], 0, 0)
  {
    t := Group(ResultsOf(resp));
    if resp.round.None? {
      EmptyTally(t);
    }
  }

  /** No results: no entries, total 0 and max 0. */
  lemma EmptyTally(t: Tally)
    requires IsTallyOf(t, [])
    ensures t == Tally([], 0, 0)
  {
    HeadIsMember(t.items);
  }

  /** The first entry has the largest count, and every count lies between 1 and `max`. */
  lemma FirstHasMax(results: seq<RoundResult>, t: Tally)
    requires IsTallyOf(t, results)
    requires results != []
    ensures t.items != [] && t.items[0].count == t.max
    ensures forall i :: 0 <= i < |t.items| ==> 1 <= t.items[i].count <= t.max
  {
    assert Scoretaker(results[0]) in NamesOf(t.items);
    assert t.items != [];
    var it :| it in t.items && it.count == t.max;
    var k :| 0 <= k < |t.items| && t.items[k] == it;
    if 0 < k {
      assert Before(t.items[0], t.items[k]);
    }
    forall i | 0 <= i < |t.items|
      ensures 1 <= t.items[i].count <= t.max
    {
      assert t.items[i] in t.items;
    }
  }

  /** With equal heads and distinct names, sequences with the same entries have tails with the same entries. */
  lemma TailsShareEntries(a: seq<Item>, b: seq<Item>)
    requires a != [] && b != [] && a[0] == b[0]
    requires DistinctNames(a) && DistinctNames(b)
    requires forall x :: x in a <==> x in b
    ensures forall x :: x in a[1..] <==> x in b[1..]
  {
    forall x
      ensures x in a[1..] ==> x in b[1..]
    {
      if x in a[1..] {
        var i :| 0 <= i < |a[1..]| && a[1..][i] == x;
        assert a[i + 1] == x && x.name != a[0].name;
        assert x in b;
        var j :| 0 <= j < |b| && b[j] == x;
        assert j != 0 && b[1..][j - 1] == x;
      }
    }
    forall x
      ensures x in b[1..] ==> x in a[1..]
    {
      if x in b[1..] {
        var i :| 0 <= i < |b[1..]| && b[1..][i] == x;
        assert b[i + 1] == x && x.name != b[0].name;
        assert x in a;
        var j :| 0 <= j < |a| && a[j] == x;
        assert j != 0 && a[1..][j - 1] == x;
      }
    }
  }

  /** Two sorted sequences with distinct names and the same entries are equal. */
  lemma {:induction false} SortedUnique(a: seq<Item>, b: seq<Item>)
    requires Sorted(a) && Sorted(b) && DistinctNames(a) && DistinctNames(b)
    requires forall x :: x in a <==> x in b
    ensures a == b
  {
    if a == [] {
      HeadIsMember(b);
    } else {
      assert a[0] in a;
      assert b != [] && b[0] in b;
      var ka :| 0 <= ka < |a| && a[ka] == b[0];
      var kb :| 0 <= kb < |b| && b[kb] == a[0];
      Text.LexLeqReflexive(a[0].name);
      Text.LexLeqReflexive(b[0].name);
      assert Before(a[0], b[0]) by { if ka != 0 { assert Before(a[0], a[ka]); } }
      assert Before(b[0], a[0]) by { if kb != 0 { assert Before(b[0], b[kb]); } }
      BeforeAntisymmetric(a[0], b[0]);
      assert a[0] == b[0];
      TailsShareEntries(a, b);
      SortedUnique(a[1..], b[1..]);
    }
  }

  /** Every entry of one summary of `results` is an entry of any other. */
  lemma EntriesShared(results: seq<RoundResult>, t: Tally, u: Tally)
    requires IsTallyOf(t, results) && IsTallyOf(u, results)
    ensures forall x :: x in t.items ==> x in u.items
  {
    forall x | x in t.items
      ensures x in u.items
    {
      CountOfZero(results, x.name);
      var k :| 0 <= k < |results| && Scoretaker(results[k]) == x.name;
      assert x.name in NamesOf(u.items);
      var y :| y in u.items && y.name == x.name;
    }
  }

  /** The summary is determined by the result list: two summaries of the same results are equal. */
  lemma TallyDeterministic(results: seq<RoundResult>, t1: Tally, t2: Tally)
    requires IsTallyOf(t1, results) && IsTallyOf(t2, results)
    ensures t1 == t2
  {
    EntriesShared(results, t1, t2);
    EntriesShared(results, t2, t1);
    SortedUnique(t1.items, t2.items);
    if t1.items != [] {
      var it1 :| it1 in t1.items && it1.count == t1.max;
      var it2 :| it2 in t2.items && it2.count == t2.max;
    }
  }

  /**
   * The bar width of an entry, `Math.round(count / max * 100)` percent, and 0
   * when `max` is 0: the integer nearest to `100 * count / max`, halves rounding up.
   */
  function WidthPct(count: nat, max: nat): (w: nat)
    ensures max == 0 ==> w == 0
    ensures max > 0 ==> (2 * w - 1) * max <= 200 * count < (2 * w + 1) * max
  {
    if max > 0 then (200 * count + max) / (2 * max) else 0
  }

  lemma CancelFactor(a: int, b: int, m: int)
    requires m > 0 && a * m <= b * m
    ensures a <= b
  {
  }

  lemma CancelFactorStrict(a: int, b: int, m: int)
    requires m > 0 && a * m < b * m
    ensures a < b
  {
  }

  /** A count no larger than `max` gets a width within [0, 100], and the count `max` itself gets 100. */
  lemma WidthBounds(count: nat, max: nat)
    requires count <= max
    ensures WidthPct(count, max) <= 100
    ensures 0 < count == max ==> WidthPct(count, max) == 100
  {
    var w := WidthPct(count, max);
    if max > 0 {
      assert (2 * w - 1) * max <= 200 * max;
      CancelFactor(2 * w - 1, 200, max);
      if count == max {
        assert 200 * max < (2 * w + 1) * max;
        CancelFactorStrict(200, 2 * w + 1, max);
      }
    }
  }

  /** In a summary every bar lies within [0, 100], and the first (largest) entry's bar is full. */
  lemma TallyWidths(results: seq<RoundResult>, t: Tally)
    requires IsTallyOf(t, results)
    ensures forall i :: 0 <= i < |t.items| ==> WidthPct(t.items[i].count, t.max) <= 100
    ensures t.items != [] ==> WidthPct(t.items[0].count, t.max) == 100
  {
    if results != [] {
      FirstHasMax(results, t);
      forall i | 0 <= i < |t.items|
        ensures WidthPct(t.items[i].count, t.max) <= 100
      {
        WidthBounds(t.items[i].count, t.max);
      }
      WidthBounds(t.items[0].count, t.max);
    } else {
      EmptyTally(t);
    }
  }

  function ExampleResults(): seq<RoundResult> {
    [ RoundResult("1", Some(Submitter(Some("Alice"))), None),
      RoundResult("2", Some(Submitter(Some("Bob"))), None),
      RoundResult("3", Some(Submitter(Some("Alice"))), None),
      RoundResult("4", None, None) ]
  }

  function ExampleTallyValue(): Tally {
    Tally([Item("Alice", 2), Item("Bob", 1), Item("Unknown", 1)], 4, 2)
  }

  lemma ExampleScoretakers()
    ensures var rs := ExampleResults();
      Scoretaker(rs[0]) == "Alice" && Scoretaker(rs[1]) == "Bob"
      && Scoretaker(rs[2]) == "Alice" && Scoretaker(rs[3]) == Unknown
  {
    var rs := ExampleResults();
    assert Text.TrimStart("Alice") == "Alice";
    assert Text.TrimEnd("Alice") == "Alice";
    assert Text.TrimStart("Bob") == "Bob";
    assert Text.TrimEnd("Bob") == "Bob";
  }

  lemma ExampleCounts()
    ensures var rs := ExampleResults();
      CountOf(rs, "Alice") == 2 && CountOf(rs, "Bob") == 1 && CountOf(rs, Unknown) == 1
  {
    var rs := ExampleResults();
    ExampleScoretakers();
    assert rs[..3][..2] == rs[..2] && rs[..2][..1] == rs[..1] && rs[..1][..0] == [];
    assert rs[..|rs| - 1] == rs[..3];
    assert CountOf(rs[..1], "Alice") == 1 && CountOf(rs[..1], "Bob") == 0 && CountOf(rs[..1], Unknown) == 0;
    assert CountOf(rs[..2], "Alice") == 1 && CountOf(rs[..2], "Bob") == 1 && CountOf(rs[..2], Unknown) == 0;
    assert CountOf(rs[..3], "Alice") == 2 && CountOf(rs[..3], "Bob") == 1 && CountOf(rs[..3], Unknown) == 0;
  }

  lemma ExampleShape()
    ensures var items := ExampleTallyValue().items;
      DistinctNames(items) && Sorted(items) && SumCounts(items) == 4
      && NamesOf(items) == {"Alice", "Bob", Unknown}
  {
    var items := ExampleTallyValue().items;
    assert Text.LexLeq("Bob", "Unknown");
    assert "Alice" != "Bob" && "Alice" != Unknown && "Bob" != Unknown;
    assert SumCounts(items[2..]) == 1;
  }

  lemma ExampleIsTally()
    ensures IsTallyOf(ExampleTallyValue(), ExampleResults())
  {
    var rs := ExampleResults();
    var t := ExampleTallyValue();
    ExampleScoretakers();
    ExampleCounts();
    ExampleShape();
    var names := NamesOf(t.items);
    forall k | 0 <= k < |rs|
      ensures Scoretaker(rs[k]) in names
    {
      assert k == 0 || k == 1 || k == 2 || k == 3;
    }
    assert forall it :: it in t.items ==> it == t.items[0] || it == t.items[1] || it == t.items[2];
    assert t.items[0] in t.items && t.items[0].count == t.max;
  }

  /** Alice, Bob, Alice and a result with no submitter summarise as Alice 2, Bob 1, Unknown 1. */
  lemma ExampleTally(t: Tally)
    requires IsTallyOf(t, ExampleResults())
    ensures t == Tally([Item("Alice", 2), Item("Bob", 1), Item("Unknown", 1)], 4, 2)
  {
    ExampleIsTally();
    TallyDeterministic(ExampleResults(), t, ExampleTallyValue());
  }
}
