/** The data behind the two dashboard charts: the expense pie, one slice per
    category carrying the total of its expenses, and the income/expense bars,
    with the colour each slice is drawn in. */
module Charts {
  import opened Wrappers
  import opened Types
  import opened Lists
  import opened Hooks
  import Store

  /** COLORS: the slice colours, used in turn. */
  const Colors: seq<string> :=
    ["#A000FF", "#0FFF80", "#FFAB0F", "#43AA73", "#806C47", "#6B4780", "#94a3b8", "#ef4444", "#3b82f6"]

  /** `COLORS[index % COLORS.length]`: the colour of the slice at `index`. */
  function ColorAt(index: nat): (c: string)
    ensures c in Colors
  {
    Colors[index % |Colors|]
  }

  /** The colours repeat every nine slices, and the first nine slices get
      nine different colours. */
  lemma ColorsCycle(index: nat)
    ensures ColorAt(index + 9) == ColorAt(index)
    ensures index < 9 ==> ColorAt(index) == Colors[index]
  {
    assert |Colors| == 9;
  }

  // ----- BalanceChart -------------------------------------------------------

  /** What BalanceChart renders: nothing, or the two bars. */
  datatype BalanceView = Hidden | Bars(income: int, expense: int)

  function BalanceChart(income: int, expense: int): (v: BalanceView)
    ensures v == Hidden <==> income == 0 && expense == 0
    ensures v.Bars? ==> v.income == income && v.expense == expense
  {
    if income == 0 && expense == 0 then Hidden else Bars(income, expense)
  }

  /** A month with any positive amount shows its bars: the income and expense
      totals cannot both be zero. */
  lemma ActiveMonthShowsBars(txs: seq<Transaction>, t: Transaction)
    requires forall x :: x in txs ==> x.amount >= 0
    requires t in txs && t.amount > 0
    ensures BalanceChart(Lists.Sum(txs, Store.IncomePart), Lists.Sum(txs, Store.ExpensePart)).Bars?
  {
    var i :| 0 <= i < |txs| && txs[i] == t;
    assert forall x :: x in txs ==> Store.IncomePart(x) >= 0 && Store.ExpensePart(x) >= 0;
    if t.meta.txType == Income {
      SumAtLeast(txs, Store.IncomePart, i);
    } else {
      SumAtLeast(txs, Store.ExpensePart, i);
    }
  }

  // ----- ExpensePieChart ----------------------------------------------------

  function IsExpense(t: Transaction): bool {
    t.meta.txType == Expense
  }

  function Amount(t: Transaction): int {
    t.amount
  }

  function OfCategory(k: string): Transaction -> bool {
    (t: Transaction) => t.meta.categoryId == k
  }

  /** The reference total of a category: the sum of the amounts of its
      transactions. */
  function TotalOf(txs: seq<Transaction>, k: string): int {
    Sum(Filter(txs, OfCategory(k)), Amount)
  }

  lemma TotalOfSnoc(txs: seq<Transaction>, t: Transaction, k: string)
    ensures TotalOf(txs + [t], k) == TotalOf(txs, k) + (if t.meta.categoryId == k then t.amount else 0)
  {
    var p := OfCategory(k);
    var before := Filter(txs, p);
    FilterSnoc(txs, t, p);
    assert p(t) == (t.meta.categoryId == k);
    if p(t) {
      assert Filter(txs + [t], p) == before + [t];
      assert (before + [t])[..|before|] == before;
    } else {
      assert Filter(txs + [t], p) == before;
    }
  }

  lemma TotalOfNone(txs: seq<Transaction>, k: string)
    requires forall t :: t in txs ==> t.meta.categoryId != k
    ensures TotalOf(txs, k) == 0
  {
    assert forall t :: t in txs ==> !OfCategory(k)(t);
  }

  /** The position of the first transaction of category `k`, or `|txs|` when
      there is none: where a key of the record was first seen. */
  function FirstSeen(txs: seq<Transaction>, k: string): (n: nat)
    ensures n <= |txs|
    ensures n < |txs| <==> exists t :: t in txs && t.meta.categoryId == k
    ensures n < |txs| ==> txs[n].meta.categoryId == k
    ensures forall j :: 0 <= j < n ==> txs[j].meta.categoryId != k
  {
    match FindIndex(txs, OfCategory(k))
    case Some(i) => assert OfCategory(k)(txs[i]); i
    case None =>
      assert forall j :: 0 <= j < |txs| ==> !OfCategory(k)(txs[j]);
      |txs|
  }

  /** Growing the list does not move a first sighting; a category first seen
      in the new transaction is seen at its position. */
  lemma FirstSeenSnoc(txs: seq<Transaction>, t: Transaction, k: string)
    ensures FirstSeen(txs, k) < |txs| ==> FirstSeen(txs + [t], k) == FirstSeen(txs, k)
    ensures FirstSeen(txs, k) == |txs| && t.meta.categoryId == k ==> FirstSeen(txs + [t], k) == |txs|
  {
    var s := txs + [t];
    var n, m := FirstSeen(txs, k), FirstSeen(s, k);
    if n < |txs| {
      assert s[n] == txs[n];
      assert forall j :: 0 <= j < n ==> s[j] == txs[j];
    } else if t.meta.categoryId == k {
      assert s[|txs|] == t;
      assert forall j :: 0 <= j < |txs| ==> s[j] == txs[j] && txs[j] in txs;
    }
  }

  /** The keys are listed in the order their categories first occur. */
  ghost predicate FirstSeenOrder(txs: seq<Transaction>, keys: seq<string>) {
    forall i, j :: 0 <= i < j < |keys| ==> FirstSeen(txs, keys[i]) < FirstSeen(txs, keys[j])
  }

  /** The `dataMap` record: its keys in insertion order (what `Object.keys`
      returns) and its values. */
  datatype Tally = Tally(keys: seq<string>, values: map<string, int>)

  /** `tally` is the record of `txs`: one key per category that occurs, in
      order of first occurrence, mapped to the category's total. */
  ghost predicate TallyOf(txs: seq<Transaction>, tally: Tally) {
    Distinct(tally.keys)
    && FirstSeenOrder(txs, tally.keys)
    && (forall k :: k in tally.values <==> k in tally.keys)
    && (forall k :: k in tally.values <==> exists t :: t in txs && t.meta.categoryId == k)
    && (forall k :: k in tally.values ==> tally.values[k] == TotalOf(txs, k))
  }

  /** The `reduce` callback: `acc[key] = (acc[key] || 0) + amount`. */
  function Accumulate(acc: Tally, t: Transaction): Tally {
    var k := t.meta.categoryId;
    var before := if k in acc.values then acc.values[k] else 0;
    Tally(if k in acc.values then acc.keys else acc.keys + [k], acc.values[k := before + t.amount])
  }

  /** A new key goes last and only a new key is added. */
  lemma AccumulateKeys(txs: seq<Transaction>, acc: Tally, t: Transaction)
    requires TallyOf(txs, acc)
    ensures var r := Accumulate(acc, t);
      Distinct(r.keys) && forall k :: k in r.values <==> k in r.keys
  {
    var k := t.meta.categoryId;
    if k !in acc.values {
      forall i | 0 <= i < |acc.keys| ensures acc.keys[i] != k {
        assert acc.keys[i] in acc.keys;
      }
    }
  }

  /** The keys are the categories seen so far. */
  lemma AccumulateDomain(txs: seq<Transaction>, acc: Tally, t: Transaction)
    requires TallyOf(txs, acc)
    ensures var r := Accumulate(acc, t);
      forall k :: k in r.values <==> exists x :: x in txs + [t] && x.meta.categoryId == k
  {
    var r := Accumulate(acc, t);
    forall k | k in r.values ensures exists x :: x in txs + [t] && x.meta.categoryId == k {
      if k in acc.values {
        var x :| x in txs && x.meta.categoryId == k;
        assert x in txs + [t];
      } else {
        assert t in txs + [t];
      }
    }
    forall k | exists x :: x in txs + [t] && x.meta.categoryId == k ensures k in r.values {
      var x :| x in txs + [t] && x.meta.categoryId == k;
      if x != t {
        assert x in txs;
      }
    }
  }

  /** The keys stay in order of first occurrence: a new key was first seen
      in the new transaction, after every key already present. */
  lemma AccumulateOrder(txs: seq<Transaction>, acc: Tally, t: Transaction)
    requires TallyOf(txs, acc)
    ensures FirstSeenOrder(txs + [t], Accumulate(acc, t).keys)
  {
    var k := t.meta.categoryId;
    forall i | 0 <= i < |acc.keys| ensures FirstSeen(txs, acc.keys[i]) < |txs| {
      assert acc.keys[i] in acc.keys;
    }
    KeysStillOrdered(txs, t, acc.keys);
    if k !in acc.values {
      FirstSeenSnoc(txs, t, k);
      NewKeyLast(txs, t, acc.keys, k);
    }
  }

  /** Keys already seen keep their order when the list grows. */
  lemma KeysStillOrdered(txs: seq<Transaction>, t: Transaction, keys: seq<string>)
    requires FirstSeenOrder(txs, keys)
    requires forall i :: 0 <= i < |keys| ==> FirstSeen(txs, keys[i]) < |txs|
    ensures FirstSeenOrder(txs + [t], keys)
    ensures forall i :: 0 <= i < |keys| ==> FirstSeen(txs + [t], keys[i]) < |txs|
  {
    forall i | 0 <= i < |keys| ensures FirstSeen(txs + [t], keys[i]) == FirstSeen(txs, keys[i]) {
      FirstSeenSnoc(txs, t, keys[i]);
    }
  }

  /** A key first seen at the end goes after the keys seen before it. */
  lemma NewKeyLast(txs: seq<Transaction>, t: Transaction, keys: seq<string>, k: string)
    requires FirstSeenOrder(txs + [t], keys)
    requires forall i :: 0 <= i < |keys| ==> FirstSeen(txs + [t], keys[i]) < |txs|
    requires FirstSeen(txs + [t], k) == |txs|
    ensures FirstSeenOrder(txs + [t], keys + [k])
  {
    var r := keys + [k];
    forall i, j | 0 <= i < j < |r| ensures FirstSeen(txs + [t], r[i]) < FirstSeen(txs + [t], r[j]) {
      assert r[i] == keys[i];
      if j < |keys| {
        assert r[j] == keys[j];
      }
    }
  }

  /** Each value is its category's total so far. */
  lemma AccumulateValues(txs: seq<Transaction>, acc: Tally, t: Transaction)
    requires TallyOf(txs, acc)
    ensures var r := Accumulate(acc, t);
      forall k :: k in r.values ==> r.values[k] == TotalOf(txs + [t], k)
  {
    var r := Accumulate(acc, t);
    forall k | k in r.values ensures r.values[k] == TotalOf(txs + [t], k) {
      if k !in acc.values {
        TotalOfNone(txs, k);
      }
      AccumulateValueAt(txs, acc, t, k);
    }
  }

  /** The step for one key, given its total before the step. */
  lemma AccumulateValueAt(txs: seq<Transaction>, acc: Tally, t: Transaction, k: string)
    requires k in acc.values ==> acc.values[k] == TotalOf(txs, k)
    requires k !in acc.values ==> TotalOf(txs, k) == 0
    ensures var r := Accumulate(acc, t);
      k in r.values ==> r.values[k] == TotalOf(txs + [t], k)
  {
    TotalOfSnoc(txs, t, k);
  }

  /** One `reduce` step keeps the record exact. */
  lemma AccumulateStep(txs: seq<Transaction>, acc: Tally, t: Transaction)
    requires TallyOf(txs, acc)
    ensures TallyOf(txs + [t], Accumulate(acc, t))
  {
    AccumulateKeys(txs, acc, t);
    AccumulateOrder(txs, acc, t);
    AccumulateDomain(txs, acc, t);
    AccumulateValues(txs, acc, t);
  }

  /** `expenseTx.reduce(...)` from an empty record. */
  function Totals(txs: seq<Transaction>): (r: Tally)
    ensures TallyOf(txs, r)
    decreases |txs|
  {
    if txs == [] then Tally([], map[])
    else
      var init, t := txs[..|txs| - 1], txs[|txs| - 1];
      assert txs == init + [t];
      var acc := Totals(init);
      AccumulateStep(init, acc, t);
      Accumulate(acc, t)
  }

  /** An entry of the pie data. `key` is the category id the entry was made
      from; the source's entries keep only its label. */
  datatype PieSlice = PieSlice(key: string, name: string, value: int)

  function SliceValue(d: PieSlice): int {
    d.value
  }

  function IsPositive(d: PieSlice): bool {
    d.value > 0
  }

  /** `Object.keys(dataMap).map(key => ({ name: getLabel(key), value: dataMap[key] }))`. */
  function Slices(tally: Tally, options: seq<CategoryOption>): (r: seq<PieSlice>)
    requires forall i :: 0 <= i < |tally.keys| ==> tally.keys[i] in tally.values
    ensures |r| == |tally.keys|
    ensures forall i :: 0 <= i < |r| ==> r[i].key == tally.keys[i]
    ensures forall d :: d in r ==>
      d.key in tally.values && d.value == tally.values[d.key] && d.name == GetLabel(options, d.key)
  {
    seq(|tally.keys|, i requires 0 <= i < |tally.keys| =>
      PieSlice(tally.keys[i], GetLabel(options, tally.keys[i]), tally.values[tally.keys[i]]))
  }

  /** The options `useMergedCategories(EXPENSE)` gives the chart. */
  function ExpenseOptions(categories: seq<Category>, labels: map<string, string>): seq<CategoryOption> {
    MergedOptions(categories, Some(Expense), labels)
  }

  /** The record of the expenses. */
  function ExpenseTally(txs: seq<Transaction>): (r: Tally)
    ensures TallyOf(Filter(txs, IsExpense), r)
    ensures forall i :: 0 <= i < |r.keys| ==> r.keys[i] in r.values
  {
    var r := Totals(Filter(txs, IsExpense));
    assert forall i :: 0 <= i < |r.keys| ==> r.keys[i] in r.keys;
    r
  }

  /** The slices before the filter and the sort. */
  function AllSlices(txs: seq<Transaction>, categories: seq<Category>, labels: map<string, string>)
    : seq<PieSlice>
  {
    Slices(ExpenseTally(txs), ExpenseOptions(categories, labels))
  }

  /** `.filter(d => d.value > 0).sort((a, b) => b.value - a.value)`: the
      positive entries, each as often as before, largest first. */
  function Chartable(all: seq<PieSlice>): (r: seq<PieSlice>)
    ensures forall i :: 0 <= i < |r| ==> r[i].value > 0
    ensures forall i, j :: 0 <= i < j < |r| ==> r[i].value >= r[j].value
    ensures forall d :: d in r <==> d in all && d.value > 0
    ensures multiset(r) <= multiset(all)
  {
    ChartableOrder(all);
    ChartableMembers(all);
    SortDesc(Filter(all, IsPositive), SliceValue)
  }

  lemma ChartableOrder(all: seq<PieSlice>)
    ensures var r := SortDesc(Filter(all, IsPositive), SliceValue);
      (forall i :: 0 <= i < |r| ==> r[i].value > 0)
      && forall i, j :: 0 <= i < j < |r| ==> r[i].value >= r[j].value
  {
    var pos := Filter(all, IsPositive);
    var r := SortDesc(pos, SliceValue);
    SortDescMembers(pos, SliceValue);
    forall i | 0 <= i < |r| ensures r[i].value > 0 {
      assert r[i] in r;
    }
    forall i, j | 0 <= i < j < |r| ensures r[i].value >= r[j].value {
      assert SliceValue(r[i]) >= SliceValue(r[j]);
    }
  }

  lemma ChartableMembers(all: seq<PieSlice>)
    ensures var r := SortDesc(Filter(all, IsPositive), SliceValue);
      (forall d :: d in r <==> d in all && d.value > 0) && multiset(r) <= multiset(all)
  {
    var pos := Filter(all, IsPositive);
    SortDescMembers(pos, SliceValue);
  }

  /** The filter and the sort keep ties in the order they had: slices with
      equal totals stay in the order of the record. */
  lemma ChartableTies(all: seq<PieSlice>, rank: PieSlice -> int)
    requires TiesRanked(all, SliceValue, rank)
    ensures TiesRanked(Chartable(all), SliceValue, rank)
  {
    FilterTiesRanked(all, IsPositive, SliceValue, rank);
    SortDescTiesRanked(Filter(all, IsPositive), SliceValue, rank);
  }

  /** The chart's `data`. */
  function PieData(txs: seq<Transaction>, categories: seq<Category>, labels: map<string, string>)
    : seq<PieSlice>
  {
    Chartable(AllSlices(txs, categories, labels))
  }

  /** Every entry of the record becomes one slice: the category's key, its
      label and its total. */
  lemma SliceOfEntry(txs: seq<Transaction>, categories: seq<Category>, labels: map<string, string>, d: PieSlice)
    requires d in AllSlices(txs, categories, labels)
    ensures d.value == TotalOf(Filter(txs, IsExpense), d.key)
    ensures d.name == GetLabel(ExpenseOptions(categories, labels), d.key)
    ensures forall e :: e in AllSlices(txs, categories, labels) && e.key == d.key ==> e == d
  {
    var tally := ExpenseTally(txs);
    SliceKeysUnique(tally, ExpenseOptions(categories, labels), d);
  }

  /** Two slices of a record with distinct keys that share a key are the same slice. */
  lemma SliceKeysUnique(tally: Tally, options: seq<CategoryOption>, d: PieSlice)
    requires forall i :: 0 <= i < |tally.keys| ==> tally.keys[i] in tally.values
    requires Distinct(tally.keys)
    requires d in Slices(tally, options)
    ensures forall e :: e in Slices(tally, options) && e.key == d.key ==> e == d
  {
    var all := Slices(tally, options);
    var m :| 0 <= m < |all| && all[m] == d;
    forall e | e in all && e.key == d.key ensures e == d {
      var n :| 0 <= n < |all| && all[n] == e;
      assert tally.keys[n] == tally.keys[m];
    }
  }

  /** The slices of the record are all different. */
  lemma AllSlicesDistinct(txs: seq<Transaction>, categories: seq<Category>, labels: map<string, string>)
    ensures Distinct(AllSlices(txs, categories, labels))
  {
    var tally := ExpenseTally(txs);
    var all := AllSlices(txs, categories, labels);
    forall i, j | 0 <= i < j < |all| ensures all[i] != all[j] {
      assert all[i].key == tally.keys[i] && all[j].key == tally.keys[j];
    }
  }

  /** The slices are largest first, and each is a category's positive expense
      total under the category's label; no category has two slices, and every
      category whose expenses sum to a positive amount has one. */
  lemma PieDataCorrect(txs: seq<Transaction>, categories: seq<Category>, labels: map<string, string>)
    ensures var r := PieData(txs, categories, labels);
      forall i, j :: 0 <= i < j < |r| ==> r[i].value >= r[j].value
    ensures var r := PieData(txs, categories, labels);
      forall i :: 0 <= i < |r| ==>
        r[i].value > 0 && r[i].value == TotalOf(Filter(txs, IsExpense), r[i].key)
        && r[i].name == GetLabel(ExpenseOptions(categories, labels), r[i].key)
    ensures var r := PieData(txs, categories, labels);
      forall i, j :: 0 <= i < j < |r| ==> r[i].key != r[j].key
    ensures var r := PieData(txs, categories, labels);
      forall k :: TotalOf(Filter(txs, IsExpense), k) > 0 ==> exists i :: 0 <= i < |r| && r[i].key == k
  {
    PieEntries(txs, categories, labels);
    PieKeysDistinct(txs, categories, labels);
    var r := PieData(txs, categories, labels);
    forall k | TotalOf(Filter(txs, IsExpense), k) > 0 ensures exists i :: 0 <= i < |r| && r[i].key == k {
      PositiveTotalHasSlice(txs, categories, labels, k);
    }
  }

  lemma PieEntries(txs: seq<Transaction>, categories: seq<Category>, labels: map<string, string>)
    ensures var r := PieData(txs, categories, labels);
      forall i :: 0 <= i < |r| ==>
        r[i].value == TotalOf(Filter(txs, IsExpense), r[i].key)
        && r[i].name == GetLabel(ExpenseOptions(categories, labels), r[i].key)
  {
    var r := PieData(txs, categories, labels);
    forall i | 0 <= i < |r|
      ensures r[i].value == TotalOf(Filter(txs, IsExpense), r[i].key)
      ensures r[i].name == GetLabel(ExpenseOptions(categories, labels), r[i].key)
    {
      assert r[i] in r;
      SliceOfEntry(txs, categories, labels, r[i]);
    }
  }

  lemma PieKeysDistinct(txs: seq<Transaction>, categories: seq<Category>, labels: map<string, string>)
    ensures var r := PieData(txs, categories, labels);
      forall i, j :: 0 <= i < j < |r| ==> r[i].key != r[j].key
  {
    var r := PieData(txs, categories, labels);
    var all := AllSlices(txs, categories, labels);
    AllSlicesDistinct(txs, categories, labels);
    DistinctOnce(all);
    assert forall x :: multiset(r)[x] <= multiset(all)[x];
    OnceDistinct(r);
    forall i, j | 0 <= i < j < |r| ensures r[i].key != r[j].key {
      assert r[i] in r && r[j] in r;
      SliceOfEntry(txs, categories, labels, r[i]);
    }
  }

  /** A category whose expenses sum to a positive amount keeps its slice
      through the filter and the sort. */
  lemma PositiveTotalHasSlice(txs: seq<Transaction>, categories: seq<Category>, labels: map<string, string>, k: string)
    requires TotalOf(Filter(txs, IsExpense), k) > 0
    ensures exists i :: 0 <= i < |PieData(txs, categories, labels)| && PieData(txs, categories, labels)[i].key == k
  {
    var expenses := Filter(txs, IsExpense);
    var tally := ExpenseTally(txs);
    var all := AllSlices(txs, categories, labels);
    if forall t :: t in expenses ==> t.meta.categoryId != k {
      TotalOfNone(expenses, k);
    }
    assert k in tally.values;
    assert k in tally.keys;
    var m :| 0 <= m < |tally.keys| && tally.keys[m] == k;
    assert all[m].value > 0 && all[m] in all;
    var r := PieData(txs, categories, labels);
    assert all[m] in r;
    var i :| 0 <= i < |r| && r[i] == all[m];
  }

  /** Slices with equal totals are drawn in the order their categories first
      occur among the expenses. */
  lemma PieTiesInFirstSeenOrder(txs: seq<Transaction>, categories: seq<Category>, labels: map<string, string>)
    ensures var r := PieData(txs, categories, labels);
      forall i, j :: 0 <= i < j < |r| && r[i].value == r[j].value ==>
        FirstSeen(Filter(txs, IsExpense), r[i].key) < FirstSeen(Filter(txs, IsExpense), r[j].key)
  {
    var expenses := Filter(txs, IsExpense);
    var rank := (d: PieSlice) => FirstSeen(expenses, d.key);
    var all := AllSlices(txs, categories, labels);
    AllSlicesRanked(txs, categories, labels);
    ChartableTies(all, rank);
    var r := PieData(txs, categories, labels);
    forall i, j | 0 <= i < j < |r| && r[i].value == r[j].value ensures rank(r[i]) < rank(r[j]) {
      assert SliceValue(r[i]) == SliceValue(r[j]);
    }
  }

  /** The slices of the record are in the order their categories first occur. */
  lemma AllSlicesRanked(txs: seq<Transaction>, categories: seq<Category>, labels: map<string, string>)
    ensures var expenses := Filter(txs, IsExpense);
      TiesRanked(AllSlices(txs, categories, labels), SliceValue, (d: PieSlice) => FirstSeen(expenses, d.key))
  {
    var expenses := Filter(txs, IsExpense);
    var rank := (d: PieSlice) => FirstSeen(expenses, d.key);
    var tally := ExpenseTally(txs);
    var all := AllSlices(txs, categories, labels);
    assert FirstSeenOrder(expenses, tally.keys);
    forall i, j | 0 <= i < j < |all| && SliceValue(all[i]) == SliceValue(all[j]) ensures rank(all[i]) < rank(all[j]) {
      assert all[i].key == tally.keys[i] && all[j].key == tally.keys[j];
    }
  }

  /** What ExpensePieChart renders: the placeholder text, or the pie. */
  datatype PieView = Placeholder | Pie(slices: seq<PieSlice>)

  function ExpensePie(txs: seq<Transaction>, categories: seq<Category>, labels: map<string, string>)
    : (v: PieView)
    ensures v.Pie? ==> v.slices == PieData(txs, categories, labels) && v.slices != []
  {
    var data := PieData(txs, categories, labels);
    if |data| == 0 then Placeholder else Pie(data)
  }

  /** The placeholder shows exactly when no category has a positive expense
      total. */
  lemma PlaceholderIffNoSpending(txs: seq<Transaction>, categories: seq<Category>, labels: map<string, string>)
    ensures ExpensePie(txs, categories, labels) == Placeholder <==>
      forall k :: TotalOf(Filter(txs, IsExpense), k) <= 0
  {
    var r := PieData(txs, categories, labels);
    PieDataCorrect(txs, categories, labels);
    if |r| > 0 {
      assert TotalOf(Filter(txs, IsExpense), r[0].key) > 0;
    }
  }

  /** Income never reaches the pie: adding an income transaction leaves the
      data as it was. */
  lemma IncomeIgnored(txs: seq<Transaction>, t: Transaction, categories: seq<Category>, labels: map<string, string>)
    requires t.meta.txType == Income
    ensures PieData(txs + [t], categories, labels) == PieData(txs, categories, labels)
  {
    FilterSnoc(txs, t, IsExpense);
    assert Filter(txs + [t], IsExpense) == Filter(txs, IsExpense) + [];
    assert Filter(txs, IsExpense) + [] == Filter(txs, IsExpense);
  }
}
