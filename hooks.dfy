/** The logic inside the React hooks: browsing months, grouping the history by
    day, merging the built-in and custom categories into one option list with
    a label lookup, and the quick-add form's submit guard and default category. */
module Hooks {
  import opened Wrappers
  import opened Types
  import opened Lists
  import opened Numbers

  // ----- useDateFilters -----------------------------------------------------

  /** A month of the year the way `Date` numbers them: 0 is January. */
  predicate ValidMonth(f: DateFilter) {
    0 <= f.month <= 11
  }

  /** The number of months since January of year 0: the line both buttons walk along. */
  function MonthIndex(f: DateFilter): int {
    f.year * 12 + f.month
  }

  /** `prevMonth`: the month before, wrapping from January to December of the
      year before. */
  function PrevMonth(f: DateFilter): (r: DateFilter)
    ensures ValidMonth(f) ==> ValidMonth(r) && MonthIndex(r) == MonthIndex(f) - 1
    ensures f.month == 0 ==> r == DateFilter(11, f.year - 1)
  {
    var month := f.month - 1;
    if month < 0 then DateFilter(11, f.year - 1) else DateFilter(month, f.year)
  }

  /** `nextMonth`: the month after, wrapping from December to January of the
      year after. */
  function NextMonth(f: DateFilter): (r: DateFilter)
    ensures ValidMonth(f) ==> ValidMonth(r) && MonthIndex(r) == MonthIndex(f) + 1
    ensures f.month == 11 ==> r == DateFilter(0, f.year + 1)
  {
    var month := f.month + 1;
    if month > 11 then DateFilter(0, f.year + 1) else DateFilter(month, f.year)
  }

  /** A valid month is determined by its index. */
  lemma MonthIndexInjective(a: DateFilter, b: DateFilter)
    requires ValidMonth(a) && ValidMonth(b) && MonthIndex(a) == MonthIndex(b)
    ensures a == b
  {
  }

  /** The two buttons undo each other on every valid month. */
  lemma NextUndoesPrev(f: DateFilter)
    requires ValidMonth(f)
    ensures NextMonth(PrevMonth(f)) == f
    ensures PrevMonth(NextMonth(f)) == f
  {
    MonthIndexInjective(NextMonth(PrevMonth(f)), f);
    MonthIndexInjective(PrevMonth(NextMonth(f)), f);
  }

  // ----- useHistoryGrouping -------------------------------------------------

  const MsPerDay: int := 86_400_000

  /** `new Date(date).toISOString().split('T')[0]`: the UTC calendar day of a
      timestamp in milliseconds, as a count of days since the epoch. */
  function DayKey(date: int): (k: int)
    ensures k * MsPerDay <= date < (k + 1) * MsPerDay
  {
    date / MsPerDay
  }

  /** A later timestamp never falls on an earlier day. */
  lemma DayKeyMonotone(a: int, b: int)
    requires a <= b
    ensures DayKey(a) <= DayKey(b)
  {
  }

  /** The transactions of one day. */
  function OnDay(k: int): Transaction -> bool {
    (t: Transaction) => DayKey(t.meta.date) == k
  }

  /** One section of the history: a day and its transactions. */
  datatype DayGroup = DayGroup(dateKey: int, items: seq<Transaction>)

  /** What the grouping promises: days newest first and each listed once, each
      day holding exactly its transactions in their input order, no day empty
      and no transaction's day missing. */
  ghost predicate DayGrouping(txs: seq<Transaction>, groups: seq<DayGroup>) {
    (forall i, j :: 0 <= i < j < |groups| ==> groups[i].dateKey > groups[j].dateKey)
    && (forall i :: 0 <= i < |groups| ==>
          groups[i].items == Filter(txs, OnDay(groups[i].dateKey)) && groups[i].items != [])
    && (forall t :: t in txs ==> exists i :: 0 <= i < |groups| && groups[i].dateKey == DayKey(t.meta.date))
  }

  function KeyOf(k: int): int {
    k
  }

  /** The `groups` record the grouping loop builds, in the order its keys
      were first seen. */
  ghost predicate GroupsSoFar(prefix: seq<Transaction>, items: map<int, seq<Transaction>>, keys: seq<int>) {
    Distinct(keys)
    && (forall k :: k in items <==> k in keys)
    && (forall k :: k in items ==> items[k] == Filter(prefix, OnDay(k)) && items[k] != [])
    && (forall t :: t in prefix ==> DayKey(t.meta.date) in items)
  }

  /** A day's transactions after one more transaction arrives. */
  lemma OnDaySnoc(prefix: seq<Transaction>, t: Transaction, k: int)
    ensures Filter(prefix + [t], OnDay(k))
      == Filter(prefix, OnDay(k)) + (if DayKey(t.meta.date) == k then [t] else [])
  {
    FilterSnoc(prefix, t, OnDay(k));
    assert OnDay(k)(t) == (DayKey(t.meta.date) == k);
  }

  /** A day no transaction falls on has no transactions. */
  lemma OnDayNone(prefix: seq<Transaction>, k: int)
    requires forall t :: t in prefix ==> DayKey(t.meta.date) != k
    ensures Filter(prefix, OnDay(k)) == []
  {
    assert forall x :: x in prefix ==> !OnDay(k)(x);
  }

  /** `if (!groups[key]) groups[key] = []; groups[key].push(tx)`. */
  function Push(items: map<int, seq<Transaction>>, t: Transaction): map<int, seq<Transaction>> {
    var k := DayKey(t.meta.date);
    var day := if k in items then items[k] else [];
    items[k := day + [t]]
  }

  /** The record's key order: a day seen for the first time goes last. */
  function NoteDay(items: map<int, seq<Transaction>>, keys: seq<int>, t: Transaction): seq<int> {
    var k := DayKey(t.meta.date);
    if k in items then keys else keys + [k]
  }

  /** One `forEach` step: `t` is pushed onto its day's list, which is created
      first when the day is new. */
  lemma GroupsStep(prefix: seq<Transaction>, items: map<int, seq<Transaction>>, keys: seq<int>, t: Transaction)
    requires GroupsSoFar(prefix, items, keys)
    ensures GroupsSoFar(prefix + [t], Push(items, t), NoteDay(items, keys, t))
  {
    GroupsStepLists(prefix, items, keys, t);
    GroupsStepKeys(items, keys, t);
    var items' := Push(items, t);
    forall t' | t' in prefix + [t] ensures DayKey(t'.meta.date) in items' {
      if t' != t {
        assert t' in prefix;
      }
    }
  }

  /** The step keeps each day's list equal to that day's transactions so far. */
  lemma GroupsStepLists(prefix: seq<Transaction>, items: map<int, seq<Transaction>>, keys: seq<int>, t: Transaction)
    requires forall k :: k in items ==> items[k] == Filter(prefix, OnDay(k)) && items[k] != []
    requires forall t' :: t' in prefix ==> DayKey(t'.meta.date) in items
    ensures var items' := Push(items, t);
      forall k :: k in items' ==> items'[k] == Filter(prefix + [t], OnDay(k)) && items'[k] != []
  {
    var k := DayKey(t.meta.date);
    if k !in items {
      OnDayNone(prefix, k);
    }
    var items' := Push(items, t);
    forall k' | k' in items' ensures items'[k'] == Filter(prefix + [t], OnDay(k')) && items'[k'] != [] {
      OnDaySnoc(prefix, t, k');
    }
  }

  /** The step keeps the key order free of repeats and in step with the lists. */
  lemma GroupsStepKeys(items: map<int, seq<Transaction>>, keys: seq<int>, t: Transaction)
    requires Distinct(keys)
    requires forall k :: k in items <==> k in keys
    ensures var items', keys' := Push(items, t), NoteDay(items, keys, t);
      Distinct(keys') && forall k :: k in items' <==> k in keys'
  {
    var k := DayKey(t.meta.date);
    if k !in items {
      forall i | 0 <= i < |keys| ensures keys[i] != k {
        assert keys[i] in keys;
      }
    }
  }

  /** The days of `sorted` with their lists, in that order. */
  function Sections(items: map<int, seq<Transaction>>, sorted: seq<int>): (r: seq<DayGroup>)
    requires forall i :: 0 <= i < |sorted| ==> sorted[i] in items
    ensures |r| == |sorted|
    ensures forall i :: 0 <= i < |r| ==> r[i].dateKey == sorted[i]
    ensures forall g :: g in r ==> g.dateKey in items && g.items == items[g.dateKey]
  {
    seq(|sorted|, j requires 0 <= j < |sorted| => DayGroup(sorted[j], items[sorted[j]]))
  }

  /** Sorting distinct keys newest first orders them strictly. */
  lemma SortedKeysStrict(keys: seq<int>)
    requires Distinct(keys)
    ensures var sorted := SortDesc(keys, KeyOf);
      forall i, j :: 0 <= i < j < |sorted| ==> sorted[i] > sorted[j]
  {
    var sorted := SortDesc(keys, KeyOf);
    DistinctOnce(keys);
    OnceDistinct(sorted);
    forall i, j | 0 <= i < j < |sorted| ensures sorted[i] > sorted[j] {
      assert KeyOf(sorted[i]) >= KeyOf(sorted[j]);
    }
  }

  /** The finished record, its keys sorted newest first, is the grouping. */
  lemma SectionsAreGrouping(txs: seq<Transaction>, items: map<int, seq<Transaction>>, keys: seq<int>)
    requires GroupsSoFar(txs, items, keys)
    ensures var sorted := SortDesc(keys, KeyOf);
      (forall i :: 0 <= i < |sorted| ==> sorted[i] in items)
      && DayGrouping(txs, Sections(items, sorted))
  {
    var sorted := SortDesc(keys, KeyOf);
    SortedKeysStrict(keys);
    SortedKeysIn(items, keys);
    SectionsCover(txs, items, keys, sorted);
  }

  /** The sorted keys are the record's keys. */
  lemma SortedKeysIn(items: map<int, seq<Transaction>>, keys: seq<int>)
    requires forall k :: k in items <==> k in keys
    ensures var sorted := SortDesc(keys, KeyOf);
      forall i :: 0 <= i < |sorted| ==> sorted[i] in items
  {
    var sorted := SortDesc(keys, KeyOf);
    forall i | 0 <= i < |sorted| ensures sorted[i] in items {
      assert sorted[i] in multiset(keys);
      assert sorted[i] in keys;
    }
  }

  /** Every transaction's day has a section. */
  lemma SectionsCover(txs: seq<Transaction>, items: map<int, seq<Transaction>>, keys: seq<int>, sorted: seq<int>)
    requires forall k :: k in items <==> k in keys
    requires forall t :: t in txs ==> DayKey(t.meta.date) in items
    requires sorted == SortDesc(keys, KeyOf)
    requires forall i :: 0 <= i < |sorted| ==> sorted[i] in items
    ensures var groups := Sections(items, sorted);
      forall t :: t in txs ==> exists i :: 0 <= i < |groups| && groups[i].dateKey == DayKey(t.meta.date)
  {
    var groups := Sections(items, sorted);
    forall t | t in txs ensures exists i :: 0 <= i < |groups| && groups[i].dateKey == DayKey(t.meta.date) {
      var k := DayKey(t.meta.date);
      assert k in keys;
      assert k in multiset(sorted);
      var i :| 0 <= i < |sorted| && sorted[i] == k;
      assert groups[i].dateKey == k;
    }
  }

  /** `useHistoryGrouping` without the titles: pushes every transaction onto
      the list of its day, then lists the days newest first. */
  method GroupByDay(txs: seq<Transaction>) returns (groups: seq<DayGroup>)
    ensures DayGrouping(txs, groups)
  {
    var items: map<int, seq<Transaction>> := map[];
    var keys: seq<int> := [];
    for i := 0 to |txs|
      invariant GroupsSoFar(txs[..i], items, keys)
    {
      var t := txs[i];
      assert txs[..i + 1] == txs[..i] + [t];
      GroupsStep(txs[..i], items, keys, t);
      items, keys := Push(items, t), NoteDay(items, keys, t);
    }
    assert txs[..|txs|] == txs;
    SectionsAreGrouping(txs, items, keys);
    groups := Sections(items, SortDesc(keys, KeyOf));
  }

  /** Every transaction sits in exactly one group: the group of its own day. */
  lemma OneGroupPerTransaction(txs: seq<Transaction>, groups: seq<DayGroup>, t: Transaction)
    requires DayGrouping(txs, groups)
    requires t in txs
    ensures exists i :: 0 <= i < |groups| && t in groups[i].items
    ensures forall i :: 0 <= i < |groups| ==> (t in groups[i].items <==> groups[i].dateKey == DayKey(t.meta.date))
  {
    var i :| 0 <= i < |groups| && groups[i].dateKey == DayKey(t.meta.date);
    var j :| 0 <= j < |txs| && txs[j] == t;
    assert OnDay(groups[i].dateKey)(txs[j]);
    forall i' | 0 <= i' < |groups| ensures t in groups[i'].items <==> groups[i'].dateKey == DayKey(t.meta.date) {
      if t in groups[i'].items {
        var k :| 0 <= k < |groups[i'].items| && groups[i'].items[k] == t;
        assert OnDay(groups[i'].dateKey)(groups[i'].items[k]);
      }
      if groups[i'].dateKey == DayKey(t.meta.date) {
        assert OnDay(groups[i'].dateKey)(txs[j]);
      }
    }
  }

  // ----- useMergedCategories ------------------------------------------------

  /** An entry of the category picker; `caption` is its `label`. */
  datatype CategoryOption = CategoryOption(value: string, caption: string, isCustom: bool)

  /** `CATEGORY_LABELS[language][key] || key`, where `labels` is the table of
      the current language: the translation, or the key itself when there is
      none or it is empty. */
  function DefaultLabel(labels: map<string, string>, key: string): (l: string)
    ensures l == key || (key in labels && l == labels[key] && l != "")
    ensures key in labels && labels[key] != "" ==> l == labels[key]
  {
    if key in labels && labels[key] != "" then labels[key] else key
  }

  function DefaultOption(labels: map<string, string>, key: string): CategoryOption {
    CategoryOption(key, DefaultLabel(labels, key), false)
  }

  function CustomOption(c: Category): CategoryOption {
    CategoryOption(c.id, c.name, true)
  }

  function OfType(t: TransactionType): Category -> bool {
    (c: Category) => c.txType == t
  }

  /** The custom categories offered: all of them, or only those of the given type. */
  function Customs(categories: seq<Category>, txType: Option<TransactionType>): (r: seq<Category>)
    ensures forall c :: c in r ==> c in categories && (txType.Some? ==> c.txType == txType.value)
    ensures forall c :: c in categories && (txType.None? || c.txType == txType.value) ==> c in r
  {
    match txType
    case None => categories
    case Some(t) =>
      var r := Filter(categories, OfType(t));
      assert forall k :: 0 <= k < |r| ==> OfType(t)(r[k]);
      assert forall k :: 0 <= k < |categories| && OfType(t)(categories[k]) ==> categories[k] in r;
      r
  }

  /** The option stands for a category of the requested type. */
  ghost predicate OfferedCategory(categories: seq<Category>, txType: Option<TransactionType>, o: CategoryOption) {
    exists c :: c in categories && o == CustomOption(c) && (txType.Some? ==> c.txType == txType.value)
  }

  /** The merged option list: every built-in category in declaration order
      under its translated label, then the custom categories. Only the options
      after the built-ins are marked custom, and they are exactly the
      categories of the requested type (all of them when no type is given). */
  function MergedOptions(categories: seq<Category>, txType: Option<TransactionType>,
                         labels: map<string, string>): (r: seq<CategoryOption>)
    ensures |r| == |DefaultCategories| + |Customs(categories, txType)|
    ensures forall i :: 0 <= i < |DefaultCategories| ==>
      r[i].value == DefaultCategories[i] && r[i].caption == DefaultLabel(labels, DefaultCategories[i])
    ensures forall i :: 0 <= i < |r| ==> (r[i].isCustom <==> i >= |DefaultCategories|)
    ensures forall i :: |DefaultCategories| <= i < |r| ==> OfferedCategory(categories, txType, r[i])
    ensures forall c :: c in categories && (txType.None? || c.txType == txType.value) ==> CustomOption(c) in r
  {
    var customs := Customs(categories, txType);
    var defaults := DefaultOptions(labels);
    var r := defaults + CustomOptions(customs);
    assert r[|DefaultCategories|..] == CustomOptions(customs);
    assert forall i :: 0 <= i < |DefaultCategories| ==> r[i] == defaults[i];
    CustomsOffered(categories, txType, customs, r);
    CustomsComplete(categories, txType, customs, r);
    r
  }

  /** The built-in options, in declaration order. */
  function DefaultOptions(labels: map<string, string>): (r: seq<CategoryOption>)
    ensures |r| == |DefaultCategories|
    ensures forall i :: 0 <= i < |r| ==> r[i] == DefaultOption(labels, DefaultCategories[i])
  {
    seq(|DefaultCategories|, i requires 0 <= i < |DefaultCategories| => DefaultOption(labels, DefaultCategories[i]))
  }

  /** The custom options, in the order of the categories. */
  function CustomOptions(customs: seq<Category>): (r: seq<CategoryOption>)
    ensures |r| == |customs|
    ensures forall i :: 0 <= i < |r| ==> r[i] == CustomOption(customs[i])
  {
    seq(|customs|, i requires 0 <= i < |customs| => CustomOption(customs[i]))
  }

  /** Every option after the built-ins comes from a category of the requested type. */
  lemma CustomsOffered(categories: seq<Category>, txType: Option<TransactionType>,
                       customs: seq<Category>, r: seq<CategoryOption>)
    requires customs == Customs(categories, txType)
    requires |r| >= |DefaultCategories| && r[|DefaultCategories|..] == CustomOptions(customs)
    ensures forall i :: |DefaultCategories| <= i < |r| ==> OfferedCategory(categories, txType, r[i])
  {
    var n := |DefaultCategories|;
    forall i | n <= i < |r| ensures OfferedCategory(categories, txType, r[i]) {
      var c := customs[i - n];
      assert r[i] == r[n..][i - n] == CustomOption(c);
      assert c in customs;
    }
  }

  /** Every category of the requested type has an option after the built-ins. */
  lemma CustomsComplete(categories: seq<Category>, txType: Option<TransactionType>,
                        customs: seq<Category>, r: seq<CategoryOption>)
    requires customs == Customs(categories, txType)
    requires |r| >= |DefaultCategories| && r[|DefaultCategories|..] == CustomOptions(customs)
    ensures forall c :: c in categories && (txType.None? || c.txType == txType.value) ==> CustomOption(c) in r
  {
    var n := |DefaultCategories|;
    forall c | c in categories && (txType.None? || c.txType == txType.value) ensures CustomOption(c) in r {
      var k :| 0 <= k < |customs| && customs[k] == c;
      assert r[n + k] == r[n..][k] == CustomOption(c);
    }
  }

  function HasValue(id: string): CategoryOption -> bool {
    (o: CategoryOption) => o.value == id
  }

  /** `getLabel`: the label of the first option whose value is `id`, or `id`
      itself when there is none. */
  function GetLabel(options: seq<CategoryOption>, id: string): (l: string)
    ensures (forall i :: 0 <= i < |options| ==> options[i].value != id) ==> l == id
    ensures (exists i :: 0 <= i < |options| && options[i].value == id) ==>
      exists i :: 0 <= i < |options| && options[i].value == id && l == options[i].caption
        && forall j :: 0 <= j < i ==> options[j].value != id
  {
    match FindIndex(options, HasValue(id))
    case Some(i) =>
      assert forall j :: 0 <= j < i ==> !HasValue(id)(options[j]);
      options[i].caption
    case None =>
      assert forall j :: 0 <= j < |options| ==> !HasValue(id)(options[j]);
      id
  }

  /** A built-in category is always shown under its translated name, whatever
      custom category reuses its key. */
  lemma LabelOfDefault(categories: seq<Category>, txType: Option<TransactionType>,
                       labels: map<string, string>, key: string)
    requires key in DefaultCategories
    ensures GetLabel(MergedOptions(categories, txType, labels), key) == DefaultLabel(labels, key)
  {
    var r := MergedOptions(categories, txType, labels);
    var d :| 0 <= d < |DefaultCategories| && DefaultCategories[d] == key;
    assert r[d].value == key;
    var i :| 0 <= i < |r| && r[i].value == key && GetLabel(r, key) == r[i].caption
      && forall j :: 0 <= j < i ==> r[j].value != key;
    assert i <= d;
  }

  /** The built-in options carry exactly the built-in keys. */
  lemma DefaultValues(categories: seq<Category>, txType: Option<TransactionType>, labels: map<string, string>)
    ensures var r := MergedOptions(categories, txType, labels);
      forall j :: 0 <= j < |DefaultCategories| ==> r[j].value in DefaultCategories
  {
  }

  /** A custom category is shown under its own name, provided its id is not a
      built-in key and no other category shares it. */
  lemma LabelOfCustom(categories: seq<Category>, txType: Option<TransactionType>,
                      labels: map<string, string>, c: Category)
    requires c in categories && (txType.None? || c.txType == txType.value)
    requires c.id !in DefaultCategories
    requires forall d :: d in categories && d.id == c.id ==> d == c
    ensures GetLabel(MergedOptions(categories, txType, labels), c.id) == c.name
  {
    var r := MergedOptions(categories, txType, labels);
    DefaultValues(categories, txType, labels);
    CustomLabelIn(categories, txType, r, c);
  }

  /** The label lookup in a list whose built-in part carries only built-in
      keys and whose remaining options all come from the categories. */
  lemma CustomLabelIn(categories: seq<Category>, txType: Option<TransactionType>,
                      r: seq<CategoryOption>, c: Category)
    requires |r| >= |DefaultCategories|
    requires forall j :: 0 <= j < |DefaultCategories| ==> r[j].value in DefaultCategories
    requires forall i :: |DefaultCategories| <= i < |r| ==> OfferedCategory(categories, txType, r[i])
    requires CustomOption(c) in r && c.id !in DefaultCategories
    requires forall d :: d in categories && d.id == c.id ==> d == c
    ensures GetLabel(r, c.id) == c.name
  {
    var k :| 0 <= k < |r| && r[k] == CustomOption(c);
    assert r[k].value == c.id;
    var i :| 0 <= i < |r| && r[i].value == c.id && GetLabel(r, c.id) == r[i].caption;
    assert i >= |DefaultCategories|;
    assert OfferedCategory(categories, txType, r[i]);
  }

  // ----- useQuickAddForm ----------------------------------------------------

  /** The outcome of `submitTransaction`: nothing happens, `addTransaction` is
      called once with the parsed amount, or it is called with NaN (text that
      is not empty but holds no number). */
  datatype Submission = Ignored | Submitted(amount: int) | SubmittedNaN

  /** The guard `!amount || parseFloat(amount) <= 0` and the call after it.
      NaN fails `<= 0`, so a non-numeric text gets past the guard. */
  function Submit(amountText: string): (r: Submission)
    ensures r == Ignored <==> amountText == "" || (ParseFloat(amountText).Some? && ParseFloat(amountText).value <= 0)
    ensures r.Submitted? ==> r.amount > 0 && ParseFloat(amountText) == Some(r.amount)
  {
    if amountText == "" then Ignored
    else
      match ParseFloat(amountText)
      case None => SubmittedNaN
      case Some(v) => if v <= 0 then Ignored else Submitted(v)
  }

  /** An amount typed as a whole number is submitted exactly when it is
      positive, and then as that number. */
  lemma SubmitTypedAmount(n: int)
    ensures Submit(NumberToString(n)) == if n > 0 then Submitted(n) else Ignored
  {
    ParseFloatOfNumberToString(n);
    if n >= 0 {
      assert NumberToString(n) == NatToString(n);
    }
  }

  /** The category the form switches to when the type changes. */
  function CategoryForType(t: TransactionType): (id: string)
    ensures id in DefaultCategories
    ensures t == Income <==> id == "SALARY"
    ensures t == Expense <==> id == "FOOD"
  {
    assert "SALARY" != "FOOD" by { assert |"SALARY"| == 6 && |"FOOD"| == 4; }
    match t
    case Income => "SALARY"
    case Expense => "FOOD"
  }

  /** The category the form selects for a type is among the options it offers. */
  lemma DefaultSelectionOffered(categories: seq<Category>, t: TransactionType, labels: map<string, string>)
    ensures exists i :: (0 <= i < |MergedOptions(categories, Some(t), labels)|
      && MergedOptions(categories, Some(t), labels)[i].value == CategoryForType(t))
  {
    var r := MergedOptions(categories, Some(t), labels);
    var d :| 0 <= d < |DefaultCategories| && DefaultCategories[d] == CategoryForType(t);
    assert r[d].value == CategoryForType(t);
  }
}
