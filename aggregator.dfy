/**
 * The statistics part of `analyze_consumption`: parse each record's `txdate`,
 * classify its merchant, and compute the total, the per-month, per-category and
 * per-canteen tables and the weekday-by-hour table of dining transactions.
 * Amounts are integer fen; every table sums absolute amounts.
 */
module Aggregator {
  import opened Wrappers
  import opened Calendar
  import opened Timestamp
  import opened Source
  import opened Grouping

  datatype Category = Dining | Market | Other

  /** The label that stands for every merchant that is not a canteen. */
  const OtherLabel: string := "其他"

  const DiningMerchants: seq<string> := [
    "北区新餐厅", "天天风味", "天天餐厅", "天天餐厅吧台", "奥运餐厅一层", "奥运餐厅二层",
    "清真餐厅基本伙", "清真餐厅水吧", "清真餐厅风味组", "美食园", "风味餐厅"
  ]

  const MarketMerchants: seq<string> := ["京客隆超市", "京客隆", "超市"]

  /** The `category` column: exact membership, the dining list checked first. */
  function Classify(mername: string): Category {
    if mername in DiningMerchants then Dining
    else if mername in MarketMerchants then Market
    else Other
  }

  /** The `dining_place` column: the merchant's own name for a canteen, the other-label otherwise. */
  function DiningPlace(mername: string): string {
    if mername in DiningMerchants then mername else OtherLabel
  }

  /** The canteen filter `dining_place != "其他"` keeps exactly the dining transactions, and for
      those the place is the merchant name; a name in both lists is a canteen. */
  lemma CanteenFilterIsDining(mername: string)
    ensures DiningPlace(mername) != OtherLabel <==> Classify(mername) == Dining
    ensures Classify(mername) == Dining ==> DiningPlace(mername) == mername
    ensures Classify(mername) != Dining ==> DiningPlace(mername) == OtherLabel
    ensures mername in DiningMerchants && mername in MarketMerchants ==> Classify(mername) == Dining
  {
    assert OtherLabel !in DiningMerchants;
  }

  /** Three merchants: a canteen, a supermarket and a print shop. */
  lemma ClassifyExamples()
    ensures Classify("天天餐厅") == Dining && DiningPlace("天天餐厅") == "天天餐厅"
    ensures Classify("京客隆超市") == Market && DiningPlace("京客隆超市") == OtherLabel
    ensures Classify("打印店") == Other && DiningPlace("打印店") == OtherLabel
  {
    assert DiningMerchants[2] == "天天餐厅";
    assert MarketMerchants[0] == "京客隆超市";
    assert "京客隆超市" !in DiningMerchants;
  }

  type Stamp = t: DateTime | ValidDateTime(t) witness DateTime(Date(1, 1, 1), 0, 0, 0)

  /** One row of the dataframe after parsing: the instant, the amount in fen and the merchant. */
  datatype Txn = Txn(stamp: Stamp, txamt: int, mername: string)

  function Month(t: Txn): int { t.stamp.date.month }
  function Hour(t: Txn): int { t.stamp.hour }
  function Weekday(t: Txn): int { IsoWeekday(t.stamp.date) }
  function CategoryOf(t: Txn): Category { Classify(t.mername) }
  function PlaceOf(t: Txn): string { DiningPlace(t.mername) }
  function MerchantOf(t: Txn): string { t.mername }
  predicate IsDining(t: Txn) { CategoryOf(t) == Dining }
  predicate IsCanteen(t: Txn) { PlaceOf(t) != OtherLabel }
  function Slot(t: Txn): (int, int) { (Weekday(t), Hour(t)) }

  function Abs(x: int): nat {
    if x < 0 then -x else x
  }

  /** Why the analysis raises: a record list without columns, or a `txdate` that does not parse. */
  datatype Fault = MissingColumns | UnparsableTimestamp(index: nat)

  /** Parse every record; on failure, the index of the first record whose `txdate` does not parse. */
  function ParseAll(records: seq<Record>): (r: Result<seq<Txn>, nat>)
    ensures r.Success? ==> |r.value| == |records| && forall i :: 0 <= i < |records| ==>
      && ParseTimestamp(records[i].txdate) == Some(r.value[i].stamp)
      && r.value[i].txamt == records[i].txamt && r.value[i].mername == records[i].mername
    ensures r.Failure? ==>
      && r.error < |records| && ParseTimestamp(records[r.error].txdate).None?
      && forall i :: 0 <= i < r.error ==> ParseTimestamp(records[i].txdate).Some?
  {
    if records == [] then Success([])
    else match ParseTimestamp(records[0].txdate)
      case None => Failure(0)
      case Some(stamp) =>
        match ParseAll(records[1..])
        case Failure(i) => Failure(i + 1)
        case Success(rest) => Success([Txn(stamp, records[0].txamt, records[0].mername)] + rest)
  }

  /** The two casts of the first `with_columns`: an empty record list has no `txdate` column to
      cast, and one unparsable timestamp fails the whole analysis. */
  function Enrich(records: seq<Record>): (r: Result<seq<Txn>, Fault>)
    ensures r.Failure? <==> records == [] || exists i :: 0 <= i < |records| && ParseTimestamp(records[i].txdate).None?
  {
    if records == [] then Failure(MissingColumns)
    else match ParseAll(records)
      case Failure(i) => Failure(UnparsableTimestamp(i))
      case Success(txns) => Success(txns)
  }

  /** One (key, |txamt|) entry per transaction. */
  function Amounts<K>(txns: seq<Txn>, key: Txn -> K): (entries: seq<(K, int)>)
    ensures |entries| == |txns|
    ensures forall i :: 0 <= i < |txns| ==> entries[i] == (key(txns[i]), Abs(txns[i].txamt))
  {
    if txns == [] then [] else [(key(txns[0]), Abs(txns[0].txamt))] + Amounts(txns[1..], key)
  }

  /** One (key, 1) entry per transaction, for counting. */
  function Ones<K>(txns: seq<Txn>, key: Txn -> K): (entries: seq<(K, int)>)
    ensures |entries| == |txns|
    ensures forall i :: 0 <= i < |txns| ==> entries[i] == (key(txns[i]), 1)
  {
    if txns == [] then [] else [(key(txns[0]), 1)] + Ones(txns[1..], key)
  }

  /** `filter(keep)`. */
  function Where(txns: seq<Txn>, keep: Txn -> bool): (kept: seq<Txn>)
    ensures forall t :: t in kept <==> t in txns && keep(t)
    ensures forall t :: multiset(kept)[t] == if keep(t) then multiset(txns)[t] else 0
  {
    if txns == [] then []
    else
      var rest := Where(txns[1..], keep);
      assert txns == [txns[0]] + txns[1..];
      assert multiset(txns) == multiset{txns[0]} + multiset(txns[1..]);
      (if keep(txns[0]) then [txns[0]] else []) + rest
  }

  lemma WhereStep(txns: seq<Txn>, keep: Txn -> bool)
    requires txns != []
    ensures keep(txns[0]) ==>
      Where(txns, keep) != [] && Where(txns, keep)[0] == txns[0] && Where(txns, keep)[1..] == Where(txns[1..], keep)
    ensures !keep(txns[0]) ==> Where(txns, keep) == Where(txns[1..], keep)
  {
    if keep(txns[0]) {
      assert ([txns[0]] + Where(txns[1..], keep))[1..] == Where(txns[1..], keep);
    }
  }

  /** Sum of |txamt| over all transactions. */
  function TotalConsumption(txns: seq<Txn>): int {
    if txns == [] then 0 else Abs(txns[0].txamt) + TotalConsumption(txns[1..])
  }

  /** Sum of |txamt| over the transactions whose key is `k`. */
  function AmountOf<K(==)>(txns: seq<Txn>, key: Txn -> K, k: K): int {
    if txns == [] then 0
    else (if key(txns[0]) == k then Abs(txns[0].txamt) else 0) + AmountOf(txns[1..], key, k)
  }

  /** Number of dining transactions on ISO weekday `w` in hour `h`. */
  function CountAt(txns: seq<Txn>, w: int, h: int): nat {
    if txns == [] then 0
    else (if IsDining(txns[0]) && Weekday(txns[0]) == w && Hour(txns[0]) == h then 1 else 0)
         + CountAt(txns[1..], w, h)
  }

  /** Some dining transaction falls on ISO weekday `w`. */
  predicate OccursOn(txns: seq<Txn>, w: int) {
    txns != [] && ((IsDining(txns[0]) && Weekday(txns[0]) == w) || OccursOn(txns[1..], w))
  }

  /** Rank of a monthly row: ascending month comes first. */
  function MonthRank(r: (int, int)): int { -r.0 }

  /** Rank of a category or canteen row: larger amount comes first. */
  function AmountRank<K>(r: (K, int)): int { r.1 }

  function MonthlyConsumption(txns: seq<Txn>): seq<(int, int)> {
    SortDesc(GroupSum(Amounts(txns, Month)), MonthRank)
  }

  function CategoryConsumption(txns: seq<Txn>): seq<(Category, int)> {
    SortDesc(GroupSum(Amounts(txns, CategoryOf)), AmountRank)
  }

  function CanteenConsumption(txns: seq<Txn>): seq<(string, int)> {
    SortDesc(GroupSum(Amounts(Where(txns, IsCanteen), PlaceOf)), AmountRank)
  }

  lemma {:induction false} AmountsTotal<K>(txns: seq<Txn>, key: Txn -> K)
    ensures Total(Amounts(txns, key)) == TotalConsumption(txns)
  {
    if txns != [] {
      AmountsTotal(txns[1..], key);
    }
  }

  lemma {:induction false} AmountsKeyTotal<K>(txns: seq<Txn>, key: Txn -> K, k: K)
    ensures KeyTotal(Amounts(txns, key), k) == AmountOf(txns, key, k)
  {
    if txns != [] {
      AmountsKeyTotal(txns[1..], key, k);
    }
  }

  lemma AmountsHasKey<K>(txns: seq<Txn>, key: Txn -> K, k: K)
    ensures HasKey(Amounts(txns, key), k) <==> exists i :: 0 <= i < |txns| && key(txns[i]) == k
  {
    var entries := Amounts(txns, key);
    if HasKey(entries, k) {
      var i :| 0 <= i < |entries| && entries[i].0 == k;
      assert key(txns[i]) == k;
    }
  }

  /** Monthly table: ascending by month, one row per month that occurs (a month number 1..12),
      each row that month's sum, and the rows together the total consumption. */
  lemma MonthlyTable(txns: seq<Txn>)
    ensures var rows := MonthlyConsumption(txns);
      && (forall i, j :: 0 <= i < j < |rows| ==> rows[i].0 < rows[j].0)
      && (forall r :: r in rows ==> 1 <= r.0 <= 12 && r.1 == AmountOf(txns, Month, r.0))
      && (forall m :: HasKey(rows, m) <==> exists i :: 0 <= i < |txns| && Month(txns[i]) == m)
      && Total(rows) == TotalConsumption(txns)
  {
    var entries := Amounts(txns, Month);
    var rows := MonthlyConsumption(txns);
    SortedGroupSpec(entries, MonthRank);
    AmountsTotal(txns, Month);
    AscendingMonths(rows);
    forall m ensures HasKey(rows, m) <==> exists i :: 0 <= i < |txns| && Month(txns[i]) == m {
      AmountsHasKey(txns, Month, m);
    }
    forall r | r in rows ensures 1 <= r.0 <= 12 && r.1 == AmountOf(txns, Month, r.0) {
      MonthlyRow(txns, r);
    }
  }

  lemma AscendingMonths(rows: seq<(int, int)>)
    requires SortedDesc(rows, MonthRank) && UniqueKeys(rows)
    ensures forall i, j :: 0 <= i < j < |rows| ==> rows[i].0 < rows[j].0
  {
    forall i, j | 0 <= i < j < |rows| ensures rows[i].0 < rows[j].0 {
      assert MonthRank(rows[i]) >= MonthRank(rows[j]);
    }
  }

  lemma MonthlyRow(txns: seq<Txn>, r: (int, int))
    requires r in MonthlyConsumption(txns)
    ensures 1 <= r.0 <= 12 && r.1 == AmountOf(txns, Month, r.0)
  {
    var entries := Amounts(txns, Month);
    var rows := MonthlyConsumption(txns);
    SortedGroupSpec(entries, MonthRank);
    AmountsKeyTotal(txns, Month, r.0);
    var j :| 0 <= j < |rows| && rows[j] == r;
    assert HasKey(rows, r.0);
    AmountsHasKey(txns, Month, r.0);
  }

  /** Category table: descending by amount, one row per category that occurs, each row that
      category's sum, and the rows together the total consumption. */
  lemma CategoryTable(txns: seq<Txn>)
    ensures var rows := CategoryConsumption(txns);
      && (forall i, j :: 0 <= i < j < |rows| ==> rows[i].1 >= rows[j].1)
      && UniqueKeys(rows)
      && (forall r :: r in rows ==> r.1 == AmountOf(txns, CategoryOf, r.0))
      && (forall c :: HasKey(rows, c) <==> exists i :: 0 <= i < |txns| && CategoryOf(txns[i]) == c)
      && Total(rows) == TotalConsumption(txns)
  {
    var entries := Amounts(txns, CategoryOf);
    var rows := CategoryConsumption(txns);
    SortedGroupSpec(entries, AmountRank);
    AmountsTotal(txns, CategoryOf);
    forall c ensures HasKey(rows, c) <==> exists i :: 0 <= i < |txns| && CategoryOf(txns[i]) == c {
      AmountsHasKey(txns, CategoryOf, c);
    }
    forall r | r in rows ensures r.1 == AmountOf(txns, CategoryOf, r.0) {
      AmountsKeyTotal(txns, CategoryOf, r.0);
    }
  }

  /** The total equals both the sum of the monthly table and the sum of the category table. */
  lemma TotalsAgree(txns: seq<Txn>)
    ensures Total(MonthlyConsumption(txns)) == TotalConsumption(txns)
    ensures Total(CategoryConsumption(txns)) == TotalConsumption(txns)
  {
    MonthlyTable(txns);
    CategoryTable(txns);
  }

  lemma {:induction false} CanteenAmount(txns: seq<Txn>, name: string)
    requires name in DiningMerchants
    ensures AmountOf(Where(txns, IsCanteen), PlaceOf, name) == AmountOf(txns, MerchantOf, name)
  {
    if txns != [] {
      CanteenAmount(txns[1..], name);
      CanteenFilterIsDining(txns[0].mername);
      WhereStep(txns, IsCanteen);
    }
  }

  lemma {:induction false} CanteenTotal(txns: seq<Txn>)
    ensures TotalConsumption(Where(txns, IsCanteen)) == AmountOf(txns, CategoryOf, Dining)
  {
    if txns != [] {
      CanteenTotal(txns[1..]);
      CanteenFilterIsDining(txns[0].mername);
      WhereStep(txns, IsCanteen);
    }
  }

  /** Canteen table: descending by amount, never an other-label row; one row per canteen that
      occurs, each row the sum over that merchant's transactions; the rows together the dining
      category's sum. */
  lemma CanteenTable(txns: seq<Txn>)
    ensures var rows := CanteenConsumption(txns);
      && (forall i, j :: 0 <= i < j < |rows| ==> rows[i].1 >= rows[j].1)
      && UniqueKeys(rows)
      && (forall r :: r in rows ==> r.0 != OtherLabel && r.0 in DiningMerchants && r.1 == AmountOf(txns, MerchantOf, r.0))
      && (forall i :: 0 <= i < |txns| && txns[i].mername in DiningMerchants ==> HasKey(rows, txns[i].mername))
      && Total(rows) == AmountOf(txns, CategoryOf, Dining)
  {
    var canteen := Where(txns, IsCanteen);
    var entries := Amounts(canteen, PlaceOf);
    var rows := CanteenConsumption(txns);
    SortedGroupSpec(entries, AmountRank);
    AmountsTotal(canteen, PlaceOf);
    CanteenTotal(txns);
    forall r | r in rows ensures r.0 != OtherLabel && r.0 in DiningMerchants && r.1 == AmountOf(txns, MerchantOf, r.0) {
      CanteenRow(txns, r);
    }
    forall i | 0 <= i < |txns| && txns[i].mername in DiningMerchants ensures HasKey(rows, txns[i].mername) {
      CanteenCovered(txns, i);
    }
  }

  lemma CanteenRow(txns: seq<Txn>, r: (string, int))
    requires r in CanteenConsumption(txns)
    ensures r.0 != OtherLabel && r.0 in DiningMerchants && r.1 == AmountOf(txns, MerchantOf, r.0)
  {
    var canteen := Where(txns, IsCanteen);
    var entries := Amounts(canteen, PlaceOf);
    var rows := CanteenConsumption(txns);
    SortedGroupSpec(entries, AmountRank);
    var k :| 0 <= k < |rows| && rows[k] == r;
    assert HasKey(rows, r.0);
    AmountsHasKey(canteen, PlaceOf, r.0);
    var i :| 0 <= i < |canteen| && PlaceOf(canteen[i]) == r.0;
    assert canteen[i] in canteen;
    CanteenFilterIsDining(canteen[i].mername);
    AmountsKeyTotal(canteen, PlaceOf, r.0);
    CanteenAmount(txns, r.0);
  }

  lemma CanteenCovered(txns: seq<Txn>, i: int)
    requires 0 <= i < |txns| && txns[i].mername in DiningMerchants
    ensures HasKey(CanteenConsumption(txns), txns[i].mername)
  {
    var canteen := Where(txns, IsCanteen);
    var entries := Amounts(canteen, PlaceOf);
    SortedGroupSpec(entries, AmountRank);
    var t := txns[i];
    CanteenFilterIsDining(t.mername);
    assert t in txns;
    assert t in canteen;
    var j :| 0 <= j < |canteen| && canteen[j] == t;
    AmountsHasKey(canteen, PlaceOf, t.mername);
  }

  // ---- The weekday-by-hour table ----

  /** A row of the pivot: the weekday index and one cell per hour column. */
  datatype PivotRow = PivotRow(weekday: int, cells: map<int, int>)

  /** The pivoted table: its hour columns and its rows. */
  datatype PivotTable = PivotTable(hours: set<int>, rows: seq<PivotRow>)

  predicate WellFormed(t: PivotTable) {
    forall i :: 0 <= i < |t.rows| ==> t.rows[i].cells.Keys == t.hours
  }

  /** The weekdays from `w` to 7 on which some dining transaction falls, ascending. */
  function WeekdaysFrom(txns: seq<Txn>, w: int): (ws: seq<int>)
    requires 1 <= w <= 8
    ensures Increasing(ws)
    ensures forall x :: x in ws <==> w <= x <= 7 && OccursOn(txns, x)
    decreases 8 - w
  {
    if w == 8 then []
    else
      var rest := WeekdaysFrom(txns, w + 1);
      if OccursOn(txns, w) then
        forall i | 0 <= i < |rest|
          ensures w < rest[i]
        {
          assert rest[i] in rest;
        }
        [w] + rest
      else rest
  }

  /** The pivot's index after `sort("weekday")`: the weekdays that occur among dining transactions. */
  function PresentWeekdays(txns: seq<Txn>): seq<int> {
    WeekdaysFrom(txns, 1)
  }

  /** The value a grouped table holds for key `k`, or 0 where the pivot has a null (`fill_null(0)`). */
  function Lookup<K(==)>(rows: seq<(K, int)>, k: K): int {
    if rows == [] then 0 else if rows[0].0 == k then rows[0].1 else Lookup(rows[1..], k)
  }

  /** `group_by(["weekday", "hour"]).agg(len)` over the dining transactions. */
  function SlotCounts(txns: seq<Txn>): seq<((int, int), int)> {
    GroupSum(Ones(Where(txns, IsDining), Slot))
  }

  /** The hours that appear in some (weekday, hour) group: the columns the pivot creates. */
  function CountedHours(counts: seq<((int, int), int)>): set<int> {
    set r | r in counts :: r.0.1
  }

  /** `pivot(index="weekday", on="hour").fill_null(0).sort("weekday")`: a column per hour that
      occurs, a row per weekday that occurs. */
  function Pivot(txns: seq<Txn>): (t: PivotTable)
    ensures WellFormed(t)
  {
    var counts := SlotCounts(txns);
    var hours := CountedHours(counts);
    var ws := PresentWeekdays(txns);
    PivotTable(hours, seq(|ws|, i requires 0 <= i < |ws| =>
      PivotRow(ws[i], map h | h in hours :: Lookup(counts, (ws[i], h)))))
  }

  /** The hours 0..n-1. */
  function Hours(n: nat): (hs: set<int>)
    ensures forall h :: h in hs <==> 0 <= h < n
  {
    if n == 0 then {} else Hours(n - 1) + {n - 1}
  }

  /** The hour columns the heatmap selects, "0" to "23". */
  function HourColumns(): set<int> {
    Hours(24)
  }

  /** The table with a zero column `hour` added. */
  function WithZeroColumn(t: PivotTable, hour: int): PivotTable {
    PivotTable(t.hours + {hour}, seq(|t.rows|, i requires 0 <= i < |t.rows| =>
      t.rows[i].(cells := t.rows[i].cells[hour := 0])))
  }

  /** The loop that adds every missing hour column 0..23 as a column of zeros. */
  method FillMissingHours(t: PivotTable) returns (filled: PivotTable)
    requires WellFormed(t)
    ensures WellFormed(filled) && filled.hours == t.hours + HourColumns()
    ensures |filled.rows| == |t.rows|
    ensures forall i :: 0 <= i < |t.rows| ==> filled.rows[i].weekday == t.rows[i].weekday
    ensures forall i, h :: 0 <= i < |t.rows| && h in filled.hours ==>
      filled.rows[i].cells[h] == if h in t.hours then t.rows[i].cells[h] else 0
  {
    var existing := t.hours;
    filled := t;
    for hour := 0 to 24
      invariant WellFormed(filled) && filled.hours == t.hours + Hours(hour)
      invariant |filled.rows| == |t.rows|
      invariant forall i :: 0 <= i < |t.rows| ==> filled.rows[i].weekday == t.rows[i].weekday
      invariant forall i, h :: 0 <= i < |t.rows| && h in filled.hours ==>
        filled.rows[i].cells[h] == if h in t.hours then t.rows[i].cells[h] else 0
    {
      if hour !in existing {
        filled := WithZeroColumn(filled, hour);
      }
    }
  }

  /** `filled` is `t` with a zero column for every missing hour 0..23. */
  predicate FilledFrom(filled: PivotTable, t: PivotTable) {
    && WellFormed(t) && WellFormed(filled) && filled.hours == t.hours + HourColumns()
    && |filled.rows| == |t.rows|
    && (forall i :: 0 <= i < |t.rows| ==> filled.rows[i].weekday == t.rows[i].weekday)
    && (forall i, h :: 0 <= i < |t.rows| && h in filled.hours ==>
          filled.rows[i].cells[h] == if h in t.hours then t.rows[i].cells[h] else 0)
  }

  /** `select(hour_columns).to_numpy()`: the rows' cells for the hours 0..23, in order. */
  function Matrix(t: PivotTable): seq<seq<int>>
    requires forall i :: 0 <= i < |t.rows| ==> HourColumns() <= t.rows[i].cells.Keys
  {
    seq(|t.rows|, i requires 0 <= i < |t.rows| =>
      seq(24, h requires 0 <= h < 24 => assert h in HourColumns(); t.rows[i].cells[h]))
  }

  /** Reference heatmap: a row per weekday that occurs, ascending, holding the dining counts of hours 0..23. */
  function HeatmapMatrix(txns: seq<Txn>): seq<seq<int>> {
    var ws := PresentWeekdays(txns);
    seq(|ws|, i requires 0 <= i < |ws| => seq(24, h => CountAt(txns, ws[i], h)))
  }

  lemma {:induction false} SlotEntries(txns: seq<Txn>, w: int, h: int)
    ensures KeyTotal(Ones(Where(txns, IsDining), Slot), (w, h)) == CountAt(txns, w, h)
  {
    if txns != [] {
      SlotEntries(txns[1..], w, h);
      WhereStep(txns, IsDining);
      var kept := Where(txns, IsDining);
      if IsDining(txns[0]) {
        var ones := Ones(kept, Slot);
        assert ones[1..] == Ones(kept[1..], Slot);
      }
    }
  }

  lemma HasKeyTail<K>(rows: seq<(K, int)>, k: K)
    requires rows != [] && rows[0].0 != k
    ensures HasKey(rows, k) <==> HasKey(rows[1..], k)
  {
    if HasKey(rows, k) {
      var i :| 0 <= i < |rows| && rows[i].0 == k;
      assert rows[1..][i - 1].0 == k;
    }
    if HasKey(rows[1..], k) {
      var i :| 0 <= i < |rows[1..]| && rows[1..][i].0 == k;
      assert rows[i + 1].0 == k;
    }
  }

  /** `Lookup` finds the value of a row with key `k`, and is 0 when there is none. */
  lemma {:induction false} LookupFinds<K>(rows: seq<(K, int)>, k: K)
    ensures HasKey(rows, k) ==> exists r :: r in rows && r.0 == k && Lookup(rows, k) == r.1
    ensures !HasKey(rows, k) ==> Lookup(rows, k) == 0
  {
    if rows != [] {
      LookupFinds(rows[1..], k);
      if rows[0].0 == k {
        assert rows[0] in rows;
      } else {
        HasKeyTail(rows, k);
        if HasKey(rows[1..], k) {
          var r :| r in rows[1..] && r.0 == k && Lookup(rows[1..], k) == r.1;
          assert r in rows;
        }
      }
    }
  }

  lemma {:induction false} KeyTotalAbsent<K>(entries: seq<(K, int)>, k: K)
    requires !HasKey(entries, k)
    ensures KeyTotal(entries, k) == 0
  {
    if entries != [] {
      HasKeyTail(entries, k);
      KeyTotalAbsent(entries[1..], k);
    }
  }

  /** Each pivot cell, and each cell a filled-in column supplies, is the dining count of its slot. */
  lemma PivotCell(txns: seq<Txn>, w: int, h: int)
    ensures var counts := SlotCounts(txns);
      && Lookup(counts, (w, h)) == CountAt(txns, w, h)
      && (h !in CountedHours(counts) ==> CountAt(txns, w, h) == 0)
  {
    var entries := Ones(Where(txns, IsDining), Slot);
    var counts := SlotCounts(txns);
    GroupSumSpec(entries);
    LookupFinds(counts, (w, h));
    SlotEntries(txns, w, h);
    if !HasKey(counts, (w, h)) {
      KeyTotalAbsent(entries, (w, h));
    }
    if h !in CountedHours(counts) {
      forall i | 0 <= i < |counts| ensures counts[i].0 != (w, h) {
        assert counts[i] in counts;
      }
    }
  }

  /** Filling and selecting the hour columns of the pivot gives the reference heatmap. */
  lemma FilledPivotIsHeatmap(txns: seq<Txn>, filled: PivotTable)
    requires FilledFrom(filled, Pivot(txns))
    ensures forall i :: 0 <= i < |filled.rows| ==> HourColumns() <= filled.rows[i].cells.Keys
    ensures Matrix(filled) == HeatmapMatrix(txns)
  {
    var t := Pivot(txns);
    var ws := PresentWeekdays(txns);
    var m := Matrix(filled);
    var hm := HeatmapMatrix(txns);
    forall i | 0 <= i < |m| ensures m[i] == hm[i] {
      forall h | 0 <= h < 24 ensures m[i][h] == hm[i][h] {
        var w := ws[i];
        assert h in HourColumns() && h in filled.hours;
        assert m[i][h] == filled.rows[i].cells[h];
        PivotCell(txns, w, h);
        if h in t.hours {
          assert t.rows[i].cells[h] == Lookup(SlotCounts(txns), (w, h));
        }
      }
    }
  }

  /** The heatmap's rows: ascending weekdays, exactly those with a dining transaction, each with
      24 cells holding the dining counts of hours 0..23. */
  lemma HeatmapShape(txns: seq<Txn>)
    ensures var ws := PresentWeekdays(txns); var m := HeatmapMatrix(txns);
      && |m| == |ws| <= 7
      && Increasing(ws)
      && (forall w :: w in ws <==> 1 <= w <= 7 && OccursOn(txns, w))
      && (forall i :: 0 <= i < |m| ==> |m[i]| == 24)
      && (forall i, h :: 0 <= i < |m| && 0 <= h < 24 ==> m[i][h] == CountAt(txns, ws[i], h))
  {
    var ws := PresentWeekdays(txns);
    forall i | 0 <= i < |ws| ensures 1 <= ws[i] <= 7 {
      assert ws[i] in ws;
    }
    IncreasingBounded(ws);
  }

  lemma {:induction false} IncreasingBounded(ws: seq<int>)
    requires forall i :: 0 <= i < |ws| ==> 1 <= ws[i] <= 7
    requires Increasing(ws)
    ensures |ws| <= 7
  {
    if |ws| > 7 {
      StrictlyIncreasingSpread(ws, 7);
    }
  }

  lemma {:induction false} StrictlyIncreasingSpread(ws: seq<int>, n: nat)
    requires n < |ws|
    requires Increasing(ws)
    ensures ws[n] >= ws[0] + n
  {
    if n > 0 {
      StrictlyIncreasingSpread(ws, n - 1);
    }
  }

  // ---- Row labels of the heatmap ----

  /** The weekday the plot's y-axis labels assign to matrix row `row`: 周一 (1) for row 0, up to 周日 (7). */
  function LabelledWeekday(row: int): int {
    row + 1
  }

  lemma {:induction false} CountAtAbsent(txns: seq<Txn>, w: int, h: int)
    requires !OccursOn(txns, w)
    ensures CountAt(txns, w, h) == 0
  {
    if txns != [] {
      CountAtAbsent(txns[1..], w, h);
    }
  }

  /** A dining transaction on Tuesday 2024-03-05 at 08:10. */
  function TuesdayBreakfast(): Txn {
    Txn(DateTime(Date(2024, 3, 5), 8, 10, 0), -1250, "天天餐厅")
  }

  lemma TuesdayIsTuesday()
    ensures Weekday(TuesdayBreakfast()) == 2 && IsDining(TuesdayBreakfast())
  {
    assert DaysBeforeYear(2024) == 738885;
    assert DaysBeforeMonth(2024, 3) == 60 by {
      assert DaysBeforeMonth(2024, 1) == 0;
      assert DaysBeforeMonth(2024, 2) == 31;
    }
    assert DiningMerchants[2] == "天天餐厅";
  }

  /** As written, the matrix has a row only for weekdays with a dining transaction while the labels
      name seven rows from Monday: one Tuesday breakfast yields a single row, labelled Monday, whose
      hour-8 cell is 1 although no dining happened on a Monday. */
  lemma MislabelledHeatmapRow()
    ensures var txns := [TuesdayBreakfast()]; var m := HeatmapMatrix(txns);
      && PresentWeekdays(txns) == [2]
      && |m| == 1 && m[0][8] == 1
      && CountAt(txns, LabelledWeekday(0), 8) == 0
  {
    var txns := [TuesdayBreakfast()];
    TuesdayIsTuesday();
    assert OccursOn(txns, 2);
    assert WeekdaysFrom(txns, 8) == [];
    assert WeekdaysFrom(txns, 3) == [];
    assert WeekdaysFrom(txns, 2) == [2];
    assert WeekdaysFrom(txns, 1) == [2];
  }

  /** The heatmap as its labels read it: row i holds the dining counts of weekday i + 1 for the
      hours 0..23, a row of zeros where that weekday has no dining transaction. */
  function WeekHeatmap(txns: seq<Txn>): (m: seq<seq<int>>)
    ensures |m| == 7 && forall i :: 0 <= i < 7 ==> |m[i]| == 24
  {
    seq(7, i => seq(24, h => CountAt(txns, LabelledWeekday(i), h)))
  }

  /** The position of weekday `w` among the matrix rows, or -1. */
  function RowOf(ws: seq<int>, w: int): (j: int)
    ensures -1 <= j < |ws|
    ensures j >= 0 ==> ws[j] == w
    ensures j == -1 ==> w !in ws
  {
    if ws == [] then -1
    else if ws[0] == w then 0
    else var j := RowOf(ws[1..], w); if j == -1 then -1 else j + 1
  }

  /** Put each matrix row at the position its weekday label names, zeros for weekdays without a row. */
  function Reindex(ws: seq<int>, matrix: seq<seq<int>>): (m: seq<seq<int>>)
    requires |ws| == |matrix|
    ensures |m| == 7
  {
    seq(7, i => var j := RowOf(ws, LabelledWeekday(i)); if j == -1 then seq(24, h => 0) else matrix[j])
  }

  /** Reindexing the as-written matrix by its weekdays gives the labelled heatmap: every row sits
      under its own weekday's label. */
  lemma ReindexedHeatmap(txns: seq<Txn>)
    ensures Reindex(PresentWeekdays(txns), HeatmapMatrix(txns)) == WeekHeatmap(txns)
  {
    var ws := PresentWeekdays(txns);
    var m := Reindex(ws, HeatmapMatrix(txns));
    var wh := WeekHeatmap(txns);
    forall i | 0 <= i < 7 ensures m[i] == wh[i] {
      var w := LabelledWeekday(i);
      var j := RowOf(ws, w);
      if j == -1 {
        forall h | 0 <= h < 24 ensures CountAt(txns, w, h) == 0 {
          CountAtAbsent(txns, w, h);
        }
      }
    }
  }

  lemma {:induction false} AllWeekdaysFrom(txns: seq<Txn>, w: int)
    requires 1 <= w <= 8
    requires forall x :: w <= x <= 7 ==> OccursOn(txns, x)
    ensures var ws := WeekdaysFrom(txns, w); |ws| == 8 - w && forall i :: 0 <= i < |ws| ==> ws[i] == w + i
    decreases 8 - w
  {
    if w < 8 {
      AllWeekdaysFrom(txns, w + 1);
      assert OccursOn(txns, w);
      var rest := WeekdaysFrom(txns, w + 1);
      var ws := WeekdaysFrom(txns, w);
      assert ws == [w] + rest;
      forall i | 0 < i < |ws| ensures ws[i] == w + i {
        assert ws[i] == rest[i - 1];
      }
    }
  }

  /** When dining happens on every weekday, the as-written matrix already has its seven rows in
      label order. */
  lemma FullWeekIsLabelled(txns: seq<Txn>)
    requires forall w :: 1 <= w <= 7 ==> OccursOn(txns, w)
    ensures HeatmapMatrix(txns) == WeekHeatmap(txns)
  {
    AllWeekdaysFrom(txns, 1);
    var ws := PresentWeekdays(txns);
    var m := HeatmapMatrix(txns);
    var wh := WeekHeatmap(txns);
    assert |ws| == 7;
    forall i | 0 <= i < 7 ensures m[i] == wh[i] {
      assert ws[i] == LabelledWeekday(i);
    }
  }

  /** A supermarket purchase on the same Tuesday at 19:00. */
  function TuesdayShopping(): Txn {
    Txn(DateTime(Date(2024, 3, 5), 19, 0, 0), -3000, "京客隆超市")
  }

  lemma PaddedYear()
    ensures Padded(2024, 4) == "2024"
  {
    assert Padded(2, 1) == "2";
    assert Padded(20, 2) == "20";
    assert Padded(202, 3) == "202";
  }

  lemma PaddedTwo(n: nat)
    requires n < 100
    ensures Padded(n, 2) == [DigitChar(n / 10), DigitChar(n % 10)]
  {
    var tens := n / 10;
    assert tens < 10;
    assert tens % 10 == tens && tens / 10 == 0;
    assert Padded(tens, 1) == [DigitChar(tens)];
  }

  lemma TuesdayText()
    ensures DateText(Date(2024, 3, 5)) == "2024-03-05"
  {
    PaddedYear();
    PaddedTwo(3);
    PaddedTwo(5);
  }

  lemma ParseBreakfast()
    ensures ParseTimestamp("2024-03-05 08:10:00") == Some(TuesdayBreakfast().stamp)
  {
    var t := TuesdayBreakfast().stamp;
    TuesdayText();
    PaddedTwo(8);
    PaddedTwo(10);
    PaddedTwo(0);
    var text := FormatTimestamp(t);
    assert text == "2024-03-05" + " " + "08" + ":" + "10" + ":" + "00";
    assert text == "2024-03-05 08:10:00";
    ParseFormatted(t);
    assert ParseTimestamp(text) == Some(t);
  }

  lemma ParseShopping()
    ensures ParseTimestamp("2024-03-05 19:00:00") == Some(TuesdayShopping().stamp)
  {
    var t := TuesdayShopping().stamp;
    TuesdayText();
    PaddedTwo(19);
    PaddedTwo(0);
    var text := FormatTimestamp(t);
    assert text == "2024-03-05" + " " + "19" + ":" + "00" + ":" + "00";
    assert text == "2024-03-05 19:00:00";
    ParseFormatted(t);
    assert ParseTimestamp(text) == Some(t);
  }

  /** Two records of one Tuesday: 12.50 at a canteen in the morning, 30.00 at the supermarket in
      the evening. */
  lemma TwoRecordExample()
    ensures var records := [Record("2024-03-05 08:10:00", -1250, "天天餐厅"),
                            Record("2024-03-05 19:00:00", -3000, "京客隆超市")];
      Enrich(records) == Success([TuesdayBreakfast(), TuesdayShopping()])
  {
    var records := [Record("2024-03-05 08:10:00", -1250, "天天餐厅"),
                    Record("2024-03-05 19:00:00", -3000, "京客隆超市")];
    ParseBreakfast();
    ParseShopping();
    var rest := records[1..];
    assert rest == [records[1]] && rest[1..] == [];
    assert rest[0].txdate == "2024-03-05 19:00:00";
    assert ParseTimestamp(rest[0].txdate) == Some(TuesdayShopping().stamp);
    assert ParseAll(rest[1..]) == Success([]);
    assert Txn(TuesdayShopping().stamp, rest[0].txamt, rest[0].mername) == TuesdayShopping();
    assert ParseAll(rest) == Success([TuesdayShopping()] + []);
    assert [TuesdayShopping()] + [] == [TuesdayShopping()];
    assert ParseAll(records[1..]) == Success([TuesdayShopping()]);
    assert records[0].txdate == "2024-03-05 08:10:00";
    assert ParseTimestamp(records[0].txdate) == Some(TuesdayBreakfast().stamp);
    assert Txn(TuesdayBreakfast().stamp, records[0].txamt, records[0].mername) == TuesdayBreakfast();
    assert ParseAll(records) == Success([TuesdayBreakfast()] + [TuesdayShopping()]);
    assert [TuesdayBreakfast()] + [TuesdayShopping()] == [TuesdayBreakfast(), TuesdayShopping()];
  }

  lemma GroupOne<K(!new)>(a: (K, int))
    ensures GroupSum([a]) == [a]
  {
    assert [a][1..] == [];
    assert Keys([a]) == [a.0];
    assert KeyTotal([a], a.0) == a.1;
  }

  lemma GroupTwo<K(!new)>(a: (K, int), b: (K, int))
    requires a.0 != b.0
    ensures GroupSum([a, b]) == [a, b]
  {
    assert [a, b][1..] == [b];
    assert Keys([b]) == [b.0];
    assert Keys([a, b]) == [a.0, b.0];
    assert KeyTotal([b], a.0) == 0 + KeyTotal([b][1..], a.0);
    assert KeyTotal([b], b.0) == b.1 + KeyTotal([b][1..], b.0);
    assert KeyTotal([a, b], a.0) == a.1;
    assert KeyTotal([a, b], b.0) == b.1;
  }

  lemma GroupSame<K(!new)>(a: (K, int), b: (K, int))
    requires a.0 == b.0
    ensures GroupSum([a, b]) == [(a.0, a.1 + b.1)]
  {
    assert [a, b][1..] == [b] && [b][1..] == [];
    assert Keys([b]) == [b.0];
    assert Keys([a, b]) == [a.0];
    assert KeyTotal([b], a.0) == b.1 + KeyTotal([b][1..], a.0);
    assert KeyTotal([a, b], a.0) == a.1 + b.1;
  }

  lemma SortTwo<K>(a: (K, int), b: (K, int), rank: ((K, int)) -> int)
    ensures SortDesc([a, b], rank) == if rank(a) >= rank(b) then [a, b] else [b, a]
  {
    assert [a, b][1..] == [b];
    assert SortDesc([b], rank) == [b];
  }

  /** The tables of the two transactions: 42.50 in total, all of it in March; 30.00 at the
      supermarket ahead of 12.50 for dining; one canteen row; one Tuesday 08:00 dining. */
  lemma TwoTransactionTables()
    ensures var txns := [TuesdayBreakfast(), TuesdayShopping()];
      && TotalConsumption(txns) == 4250
      && MonthlyConsumption(txns) == [(3, 4250)]
      && CategoryConsumption(txns) == [(Market, 3000), (Dining, 1250)]
      && CanteenConsumption(txns) == [("天天餐厅", 1250)]
      && WeekHeatmap(txns)[1][8] == 1
  {
    TwoMonthly();
    TwoCategories();
    TwoCanteens();
    TwoHeatmap();
  }

  lemma TwoHeatmap()
    ensures TotalConsumption([TuesdayBreakfast(), TuesdayShopping()]) == 4250
    ensures WeekHeatmap([TuesdayBreakfast(), TuesdayShopping()])[1][8] == 1
  {
    var txns := [TuesdayBreakfast(), TuesdayShopping()];
    assert txns[1..] == [TuesdayShopping()];
    TuesdayIsTuesday();
    assert CountAt(txns[1..], 2, 8) == 0;
    assert WeekHeatmap(txns)[1][8] == CountAt(txns, 2, 8);
  }

  lemma TwoMonthly()
    ensures MonthlyConsumption([TuesdayBreakfast(), TuesdayShopping()]) == [(3, 4250)]
  {
    var txns := [TuesdayBreakfast(), TuesdayShopping()];
    assert txns[1..] == [TuesdayShopping()];
    assert Amounts(txns, Month) == [(3, 1250), (3, 3000)];
    GroupSame((3, 1250), (3, 3000));
    assert SortDesc([(3, 4250)], MonthRank) == [(3, 4250)];
  }

  lemma TwoCategories()
    ensures CategoryConsumption([TuesdayBreakfast(), TuesdayShopping()]) == [(Market, 3000), (Dining, 1250)]
  {
    var txns := [TuesdayBreakfast(), TuesdayShopping()];
    ClassifyExamples();
    assert txns[1..] == [TuesdayShopping()];
    assert Amounts(txns, CategoryOf) == [(Dining, 1250), (Market, 3000)];
    GroupTwo((Dining, 1250), (Market, 3000));
    SortTwo((Dining, 1250), (Market, 3000), AmountRank);
  }

  lemma TwoCanteens()
    ensures CanteenConsumption([TuesdayBreakfast(), TuesdayShopping()]) == [("天天餐厅", 1250)]
  {
    var txns := [TuesdayBreakfast(), TuesdayShopping()];
    ClassifyExamples();
    assert txns[1..] == [TuesdayShopping()];
    CanteenFilterIsDining(TuesdayBreakfast().mername);
    CanteenFilterIsDining(TuesdayShopping().mername);
    WhereStep(txns, IsCanteen);
    WhereStep(txns[1..], IsCanteen);
    assert Where(txns, IsCanteen) == [TuesdayBreakfast()];
    assert Amounts([TuesdayBreakfast()], PlaceOf) == [("天天餐厅", 1250)];
    GroupOne(("天天餐厅", 1250));
    assert SortDesc([("天天餐厅", 1250)], AmountRank) == [("天天餐厅", 1250)];
  }

  /** The statistics `analyze_consumption` computes before it plots and writes them. `pivotWeekdays`
      and `pivotMatrix` are the pivot's index and the matrix the plot draws under seven fixed labels;
      `heatmap` is the same counts with row i under weekday i + 1. */
  datatype Report = Report(
    total: int,
    monthly: seq<(int, int)>,
    categories: seq<(Category, int)>,
    canteens: seq<(string, int)>,
    pivotWeekdays: seq<int>,
    pivotMatrix: seq<seq<int>>,
    heatmap: seq<seq<int>>)

  /** The statistics of a list of collected records, or the fault that makes the analysis raise. */
  method AnalyzeConsumption(records: seq<Record>) returns (result: Result<Report, Fault>)
    ensures result.Failure? <==> Enrich(records).Failure?
    ensures result.Failure? ==> result.error == Enrich(records).error
    ensures result.Success? ==>
      var txns := Enrich(records).value;
      result.value == Report(TotalConsumption(txns), MonthlyConsumption(txns), CategoryConsumption(txns),
                             CanteenConsumption(txns), PresentWeekdays(txns), HeatmapMatrix(txns),
                             WeekHeatmap(txns))
  {
    var parsed := Enrich(records);
    if parsed.Failure? {
      return Failure(parsed.error);
    }
    var txns := parsed.value;
    var pivot := Pivot(txns);
    var filled := FillMissingHours(pivot);
    FilledPivotIsHeatmap(txns, filled);
    var matrix := Matrix(filled);
    var weekdays := seq(|filled.rows|, i requires 0 <= i < |filled.rows| => filled.rows[i].weekday);
    assert weekdays == PresentWeekdays(txns);
    ReindexedHeatmap(txns);
    var heatmap := Reindex(weekdays, matrix);
    result := Success(Report(TotalConsumption(txns), MonthlyConsumption(txns), CategoryConsumption(txns),
                             CanteenConsumption(txns), weekdays, matrix, heatmap));
  }
}
