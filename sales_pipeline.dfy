/**
 * The stages the sales report routes hand to the document store, given their
 * meaning over the `sales` collection seen as a sequence of records:
 * `$match` on one field, `$group` by one field summing `amount`, the two
 * `$project` shapes, the two `$sort` orders, and `distinct` of one field.
 */
module SalesPipeline {
  import StringOrder

  /** One document of the `sales` collection, reduced to the fields the reports read. */
  datatype Sale = Sale(region: string, category: string, salesperson: string, amount: int)

  /** The document fields that a `$match`, a `$group` key or a `distinct` names. */
  datatype Field = Region | Category | Salesperson

  function FieldValue(s: Sale, f: Field): string
  {
    match f
    case Region => s.region
    case Category => s.category
    case Salesperson => s.salesperson
  }

  /** The values field `f` takes across the records. */
  ghost function Values(records: seq<Sale>, f: Field): set<string>
  {
    set s | s in records :: FieldValue(s, f)
  }

  // ---------------------------------------------------------------- $match

  /** `{ $match: { f: v } }`: the records whose field `f` is exactly `v`, in store order. */
  function Match(records: seq<Sale>, f: Field, v: string): (r: seq<Sale>)
    ensures forall s :: s in r <==> s in records && FieldValue(s, f) == v
  {
    if records == [] then []
    else
      var n := |records| - 1;
      assert records == records[..n] + [records[n]];
      Match(records[..n], f, v) + (if FieldValue(records[n], f) == v then [records[n]] else [])
  }

  /** `$match` only drops records: it never yields more than it was given. */
  lemma {:induction false} MatchShrinks(records: seq<Sale>, f: Field, v: string)
    ensures |Match(records, f, v)| <= |records|
    decreases |records|
  {
    if records != [] {
      MatchShrinks(records[..|records| - 1], f, v);
    }
  }

  /** Matching distributes over concatenation, so the stage keeps store order. */
  lemma {:induction false} MatchConcat(a: seq<Sale>, b: seq<Sale>, f: Field, v: string)
    ensures Match(a + b, f, v) == Match(a, f, v) + Match(b, f, v)
    decreases |b|
  {
    if b == [] {
      assert a + b == a;
    } else {
      var n := |b| - 1;
      assert (a + b)[..|a + b| - 1] == a + b[..n];
      MatchConcat(a, b[..n], f, v);
    }
  }

  /** Matching twice on the same condition is matching once. */
  lemma {:induction false} MatchIdempotent(records: seq<Sale>, f: Field, v: string)
    ensures Match(Match(records, f, v), f, v) == Match(records, f, v)
    decreases |records|
  {
    if records != [] {
      var n := |records| - 1;
      MatchIdempotent(records[..n], f, v);
      MatchConcat(Match(records[..n], f, v), if FieldValue(records[n], f) == v then [records[n]] else [], f, v);
    }
  }

  /** A record whose field is not `v` can be taken out anywhere without changing the match. */
  lemma MatchSkipsOther(before: seq<Sale>, s: Sale, after: seq<Sale>, f: Field, v: string)
    requires FieldValue(s, f) != v
    ensures Match(before + [s] + after, f, v) == Match(before + after, f, v)
  {
    calc {
      Match(before + [s] + after, f, v);
      { MatchConcat(before + [s], after, f, v); }
      Match(before + [s], f, v) + Match(after, f, v);
      { MatchConcat(before, [s], f, v); assert [s][..0] == []; }
      Match(before, f, v) + Match(after, f, v);
      { MatchConcat(before, after, f, v); }
      Match(before + after, f, v);
    }
  }

  // ------------------------------------------------------------------ $sum

  /** `{ $sum: '$amount' }` over the records. */
  function SumAmounts(records: seq<Sale>): (total: int)
    ensures (forall i :: 0 <= i < |records| ==> records[i].amount >= 0) ==> total >= 0
  {
    if records == [] then 0 else SumAmounts(records[..|records| - 1]) + records[|records| - 1].amount
  }

  lemma {:induction false} SumConcat(a: seq<Sale>, b: seq<Sale>)
    ensures SumAmounts(a + b) == SumAmounts(a) + SumAmounts(b)
    decreases |b|
  {
    if b == [] {
      assert a + b == a;
    } else {
      var n := |b| - 1;
      assert (a + b)[..|a + b| - 1] == a + b[..n];
      SumConcat(a, b[..n]);
    }
  }

  // ---------------------------------------------------------------- $group

  /** A `$group` output document `{ _id, totalSales }`. */
  datatype Group = Group(id: string, totalSales: int)

  /** The keys of the groups. */
  function Ids(gs: seq<Group>): set<string>
  {
    if gs == [] then {} else {gs[0].id} + Ids(gs[1..])
  }

  lemma {:induction false} IdsMembership(gs: seq<Group>, k: string)
    ensures k in Ids(gs) <==> exists i :: 0 <= i < |gs| && gs[i].id == k
  {
    if gs != [] {
      IdsMembership(gs[1..], k);
      if k in Ids(gs[1..]) {
        var i :| 0 <= i < |gs[1..]| && gs[1..][i].id == k;
        assert gs[i + 1].id == k;
      }
      if exists i :: 0 <= i < |gs| && gs[i].id == k {
        var i :| 0 <= i < |gs| && gs[i].id == k;
        if i > 0 {
          assert gs[1..][i - 1].id == k;
        }
      }
    }
  }

  predicate UniqueIds(gs: seq<Group>)
  {
    forall i, j :: 0 <= i < j < |gs| ==> gs[i].id != gs[j].id
  }

  /** The summed totals of the groups keyed `k`: with unique ids, that group's total, or 0. */
  function TotalFor(gs: seq<Group>, k: string): int
  {
    if gs == [] then 0 else (if gs[0].id == k then gs[0].totalSales else 0) + TotalFor(gs[1..], k)
  }

  /** The sum of every group's total. */
  function GrandTotal(gs: seq<Group>): int
  {
    if gs == [] then 0 else gs[0].totalSales + GrandTotal(gs[1..])
  }

  /** Adds one record's amount to the accumulator of its key, opening that accumulator on first sight. */
  function Accumulate(gs: seq<Group>, k: string, a: int): (r: seq<Group>)
    ensures |r| == if k in Ids(gs) then |gs| else |gs| + 1
  {
    if gs == [] then [Group(k, a)]
    else if gs[0].id == k then [Group(k, gs[0].totalSales + a)] + gs[1..]
    else [gs[0]] + Accumulate(gs[1..], k, a)
  }

  /** Accumulating opens a group for `k` if there was none and keeps every other key. */
  lemma {:induction false} AccumulateIds(gs: seq<Group>, k: string, a: int)
    ensures Ids(Accumulate(gs, k, a)) == Ids(gs) + {k}
  {
    if gs != [] {
      var r := Accumulate(gs, k, a);
      if gs[0].id == k {
        assert r[1..] == gs[1..];
      } else {
        assert r[1..] == Accumulate(gs[1..], k, a);
        AccumulateIds(gs[1..], k, a);
      }
    }
  }

  /** Accumulating never creates a second group for a key. */
  lemma {:induction false} AccumulateUnique(gs: seq<Group>, k: string, a: int)
    requires UniqueIds(gs)
    ensures UniqueIds(Accumulate(gs, k, a))
  {
    var r := Accumulate(gs, k, a);
    if gs == [] {
    } else if gs[0].id == k {
      assert forall i :: 0 < i < |r| ==> r[i] == gs[i];
    } else {
      AccumulateUnique(gs[1..], k, a);
      AccumulateIds(gs[1..], k, a);
      var rest := Accumulate(gs[1..], k, a);
      assert r == [gs[0]] + rest;
      forall j | 0 <= j < |rest| ensures rest[j].id != gs[0].id {
        IdsMembership(rest, rest[j].id);
        if rest[j].id != k {
          IdsMembership(gs[1..], rest[j].id);
          var m :| 0 <= m < |gs[1..]| && gs[1..][m].id == rest[j].id;
          assert gs[m + 1].id == rest[j].id;
        }
      }
    }
  }

  /** Accumulating adds the amount to key `k`'s total and to no other key's. */
  lemma {:induction false} AccumulateTotalFor(gs: seq<Group>, k: string, a: int, k': string)
    ensures TotalFor(Accumulate(gs, k, a), k') == TotalFor(gs, k') + (if k' == k then a else 0)
  {
    if gs != [] {
      var r := Accumulate(gs, k, a);
      if gs[0].id == k {
        assert r[1..] == gs[1..];
      } else {
        assert r[1..] == Accumulate(gs[1..], k, a);
        AccumulateTotalFor(gs[1..], k, a, k');
      }
    }
  }

  /** Accumulating adds the amount to the grand total. */
  lemma {:induction false} AccumulateGrandTotal(gs: seq<Group>, k: string, a: int)
    ensures GrandTotal(Accumulate(gs, k, a)) == GrandTotal(gs) + a
  {
    if gs != [] {
      var r := Accumulate(gs, k, a);
      if gs[0].id == k {
        assert r[1..] == gs[1..];
      } else {
        assert r[1..] == Accumulate(gs[1..], k, a);
        AccumulateGrandTotal(gs[1..], k, a);
      }
    }
  }

  /**
   * `{ $group: { _id: '$f', totalSales: { $sum: '$amount' } } }`: one group per
   * distinct value of `f`, holding the sum of the amounts of the records with
   * that value. The store does not promise an order for the groups; this
   * definition lists them by first occurrence.
   */
  function GroupBy(records: seq<Sale>, f: Field): (groups: seq<Group>)
    ensures |groups| <= |records|
  {
    if records == [] then []
    else
      var n := |records| - 1;
      Accumulate(GroupBy(records[..n], f), FieldValue(records[n], f), records[n].amount)
  }

  /** `_id` is the group key: no two groups share it. */
  lemma {:induction false} GroupByUnique(records: seq<Sale>, f: Field)
    ensures UniqueIds(GroupBy(records, f))
  {
    if records != [] {
      var n := |records| - 1;
      GroupByUnique(records[..n], f);
      AccumulateUnique(GroupBy(records[..n], f), FieldValue(records[n], f), records[n].amount);
    }
  }

  /** There is a group for exactly the values the field takes. */
  lemma {:induction false} GroupByIds(records: seq<Sale>, f: Field)
    ensures Ids(GroupBy(records, f)) == Values(records, f)
  {
    if records != [] {
      var n := |records| - 1;
      assert records == records[..n] + [records[n]];
      assert Values(records, f) == Values(records[..n], f) + {FieldValue(records[n], f)};
      GroupByIds(records[..n], f);
      AccumulateIds(GroupBy(records[..n], f), FieldValue(records[n], f), records[n].amount);
    }
  }

  /** The total kept for key `k` is the `$sum` of the amounts of the records whose field is `k`. */
  lemma {:induction false} GroupByTotalFor(records: seq<Sale>, f: Field, k: string)
    ensures TotalFor(GroupBy(records, f), k) == SumAmounts(Match(records, f, k))
  {
    if records != [] {
      var n := |records| - 1;
      var last := records[n];
      GroupByTotalFor(records[..n], f, k);
      AccumulateTotalFor(GroupBy(records[..n], f), FieldValue(last, f), last.amount, k);
      SumConcat(Match(records[..n], f, k), if FieldValue(last, f) == k then [last] else []);
    }
  }

  /** Grouping neither loses nor invents an amount. */
  lemma {:induction false} GroupByGrandTotal(records: seq<Sale>, f: Field)
    ensures GrandTotal(GroupBy(records, f)) == SumAmounts(records)
  {
    if records != [] {
      var n := |records| - 1;
      GroupByGrandTotal(records[..n], f);
      AccumulateGrandTotal(GroupBy(records[..n], f), FieldValue(records[n], f), records[n].amount);
    }
  }

  /** With unique ids, a group's own total is the total recorded for its key. */
  lemma {:induction false} TotalForMember(gs: seq<Group>, i: nat)
    requires UniqueIds(gs) && i < |gs|
    ensures TotalFor(gs, gs[i].id) == gs[i].totalSales
  {
    if i == 0 {
      TotalForAbsent(gs[1..], gs[0].id);
    } else {
      TotalForMember(gs[1..], i - 1);
    }
  }

  lemma {:induction false} TotalForAbsent(gs: seq<Group>, k: string)
    requires forall g :: g in gs ==> g.id != k
    ensures TotalFor(gs, k) == 0
  {
    if gs != [] {
      TotalForAbsent(gs[1..], k);
    }
  }

  // -------------------------------------------------------------- $project

  /** A region report row: `{ salesperson, totalSales }`, with `_id` dropped. */
  datatype SalespersonRow = SalespersonRow(salesperson: string, totalSales: int)

  /** A category report row: `{ category, totalSales }`, with `_id` dropped. */
  datatype CategoryRow = CategoryRow(category: string, totalSales: int)

  /** `{ $project: { _id: 0, salesperson: '$_id', totalSales: 1 } }` */
  function ProjectSalesperson(gs: seq<Group>): (rows: seq<SalespersonRow>)
    ensures |rows| == |gs|
  {
    if gs == [] then [] else [SalespersonRow(gs[0].id, gs[0].totalSales)] + ProjectSalesperson(gs[1..])
  }

  /** `{ $project: { _id: 0, category: '$_id', totalSales: 1 } }` */
  function ProjectCategory(gs: seq<Group>): (rows: seq<CategoryRow>)
    ensures |rows| == |gs|
  {
    if gs == [] then [] else [CategoryRow(gs[0].id, gs[0].totalSales)] + ProjectCategory(gs[1..])
  }

  /** Renaming `_id` keeps every group: one row per group, same key, same total, same order. */
  lemma {:induction false} ProjectSalespersonRows(gs: seq<Group>)
    ensures |ProjectSalesperson(gs)| == |gs|
    ensures forall i :: 0 <= i < |gs| ==> ProjectSalesperson(gs)[i] == SalespersonRow(gs[i].id, gs[i].totalSales)
  {
    if gs != [] {
      ProjectSalespersonRows(gs[1..]);
    }
  }

  lemma {:induction false} ProjectCategoryRows(gs: seq<Group>)
    ensures |ProjectCategory(gs)| == |gs|
    ensures forall i :: 0 <= i < |gs| ==> ProjectCategory(gs)[i] == CategoryRow(gs[i].id, gs[i].totalSales)
  {
    if gs != [] {
      ProjectCategoryRows(gs[1..]);
    }
  }

  // ----------------------------------------------------------------- $sort

  /** Ascending by salesperson: no row is followed by one whose name sorts before it. */
  predicate SortedBySalesperson(rows: seq<SalespersonRow>)
  {
    forall i, j :: 0 <= i < j < |rows| ==> !StringOrder.Less(rows[j].salesperson, rows[i].salesperson)
  }

  predicate StrictlySortedBySalesperson(rows: seq<SalespersonRow>)
  {
    forall i, j :: 0 <= i < j < |rows| ==> StringOrder.Less(rows[i].salesperson, rows[j].salesperson)
  }

  function InsertBySalesperson(x: SalespersonRow, rows: seq<SalespersonRow>): (r: seq<SalespersonRow>)
    ensures multiset(r) == multiset(rows) + multiset{x}
  {
    if rows == [] then [x]
    else if !StringOrder.Less(rows[0].salesperson, x.salesperson) then [x] + rows
    else
      assert rows == [rows[0]] + rows[1..];
      [rows[0]] + InsertBySalesperson(x, rows[1..])
  }

  /** `{ $sort: { salesperson: 1 } }` */
  function SortBySalesperson(rows: seq<SalespersonRow>): (r: seq<SalespersonRow>)
    ensures multiset(r) == multiset(rows)
  {
    if rows == [] then []
    else
      assert rows == [rows[0]] + rows[1..];
      InsertBySalesperson(rows[0], SortBySalesperson(rows[1..]))
  }

  lemma {:induction false} InsertBySalespersonSorted(x: SalespersonRow, rows: seq<SalespersonRow>)
    requires SortedBySalesperson(rows)
    ensures SortedBySalesperson(InsertBySalesperson(x, rows))
  {
    if rows != [] {
      if !StringOrder.Less(rows[0].salesperson, x.salesperson) {
        forall j | 0 < j < |rows| ensures !StringOrder.Less(rows[j].salesperson, x.salesperson) {
          StringOrder.NotLessTransitive(x.salesperson, rows[0].salesperson, rows[j].salesperson);
        }
      } else {
        InsertBySalespersonSorted(x, rows[1..]);
        var tail := InsertBySalesperson(x, rows[1..]);
        StringOrder.LessAsymmetric(rows[0].salesperson, x.salesperson);
        forall j | 0 <= j < |tail| ensures !StringOrder.Less(tail[j].salesperson, rows[0].salesperson) {
          assert tail[j] in multiset(rows[1..]) + multiset{x};
        }
      }
    }
  }

  /** The `$sort` stage sorts any input. */
  lemma {:induction false} SortBySalespersonSorted(rows: seq<SalespersonRow>)
    ensures SortedBySalesperson(SortBySalesperson(rows))
  {
    if rows != [] {
      SortBySalespersonSorted(rows[1..]);
      InsertBySalespersonSorted(rows[0], SortBySalesperson(rows[1..]));
    }
  }

  lemma {:induction false} InsertBySalespersonStrict(x: SalespersonRow, rows: seq<SalespersonRow>)
    requires StrictlySortedBySalesperson(rows)
    requires forall y :: y in rows ==> y.salesperson != x.salesperson
    ensures StrictlySortedBySalesperson(InsertBySalesperson(x, rows))
  {
    if rows != [] {
      if !StringOrder.Less(rows[0].salesperson, x.salesperson) {
        StringOrder.LessTotal(x.salesperson, rows[0].salesperson);
        forall j | 0 < j < |rows| ensures StringOrder.Less(x.salesperson, rows[j].salesperson) {
          StringOrder.LessTransitive(x.salesperson, rows[0].salesperson, rows[j].salesperson);
        }
      } else {
        InsertBySalespersonStrict(x, rows[1..]);
        var tail := InsertBySalesperson(x, rows[1..]);
        forall j | 0 <= j < |tail| ensures StringOrder.Less(rows[0].salesperson, tail[j].salesperson) {
          assert tail[j] in multiset(rows[1..]) + multiset{x};
        }
      }
    }
  }

  /** Sorting rows whose names are all different leaves them strictly ascending. */
  lemma {:induction false} SortBySalespersonStrict(rows: seq<SalespersonRow>)
    requires forall i, j :: 0 <= i < j < |rows| ==> rows[i].salesperson != rows[j].salesperson
    ensures StrictlySortedBySalesperson(SortBySalesperson(rows))
  {
    if rows != [] {
      SortBySalespersonStrict(rows[1..]);
      var sorted := SortBySalesperson(rows[1..]);
      forall y | y in sorted ensures y.salesperson != rows[0].salesperson {
        assert y in multiset(rows[1..]);
      }
      InsertBySalespersonStrict(rows[0], sorted);
    }
  }

  /** In a strictly ascending sequence every other row sorts after the first. */
  lemma FirstIsLeast(a: seq<SalespersonRow>, x: SalespersonRow)
    requires StrictlySortedBySalesperson(a) && x in a
    ensures x == a[0] || StringOrder.Less(a[0].salesperson, x.salesperson)
  {
  }

  /** Two strictly ascending orderings of the same rows start with the same row. */
  lemma SameFirst(a: seq<SalespersonRow>, b: seq<SalespersonRow>)
    requires StrictlySortedBySalesperson(a) && StrictlySortedBySalesperson(b)
    requires multiset(a) == multiset(b) && a != []
    ensures b != [] && a[0] == b[0]
  {
    assert a[0] in multiset(b);
    assert b[0] in multiset(a);
    FirstIsLeast(b, a[0]);
    FirstIsLeast(a, b[0]);
    if a[0] != b[0] {
      StringOrder.LessAsymmetric(a[0].salesperson, b[0].salesperson);
    }
  }

  /** Dropping the first row keeps rows strictly ascending. */
  lemma StrictlySortedTail(a: seq<SalespersonRow>)
    requires StrictlySortedBySalesperson(a) && a != []
    ensures StrictlySortedBySalesperson(a[1..])
  {
  }

  /** Two strictly ascending orderings of the same rows are the same sequence. */
  lemma {:induction false} StrictlySortedUnique(a: seq<SalespersonRow>, b: seq<SalespersonRow>)
    requires StrictlySortedBySalesperson(a) && StrictlySortedBySalesperson(b)
    requires multiset(a) == multiset(b)
    ensures a == b
  {
    if a != [] {
      SameFirst(a, b);
      StrictlySortedTail(a);
      StrictlySortedTail(b);
      assert a == [a[0]] + a[1..] && b == [b[0]] + b[1..];
      assert multiset(a[1..]) == multiset(a) - multiset{a[0]};
      assert multiset(b[1..]) == multiset(b) - multiset{b[0]};
      StrictlySortedUnique(a[1..], b[1..]);
    }
  }

  /** Ascending by total sales. */
  predicate SortedByTotal(rows: seq<CategoryRow>)
  {
    forall i, j :: 0 <= i < j < |rows| ==> rows[i].totalSales <= rows[j].totalSales
  }

  function InsertByTotal(x: CategoryRow, rows: seq<CategoryRow>): (r: seq<CategoryRow>)
    ensures multiset(r) == multiset(rows) + multiset{x}
  {
    if rows == [] then [x]
    else if x.totalSales <= rows[0].totalSales then [x] + rows
    else
      assert rows == [rows[0]] + rows[1..];
      [rows[0]] + InsertByTotal(x, rows[1..])
  }

  /** `{ $sort: { totalSales: 1 } }`; rows with equal totals come in no promised order. */
  function SortByTotal(rows: seq<CategoryRow>): (r: seq<CategoryRow>)
    ensures multiset(r) == multiset(rows)
  {
    if rows == [] then []
    else
      assert rows == [rows[0]] + rows[1..];
      InsertByTotal(rows[0], SortByTotal(rows[1..]))
  }

  lemma {:induction false} InsertByTotalSorted(x: CategoryRow, rows: seq<CategoryRow>)
    requires SortedByTotal(rows)
    ensures SortedByTotal(InsertByTotal(x, rows))
  {
    if rows != [] && x.totalSales > rows[0].totalSales {
      InsertByTotalSorted(x, rows[1..]);
      var tail := InsertByTotal(x, rows[1..]);
      forall j | 0 <= j < |tail| ensures rows[0].totalSales <= tail[j].totalSales {
        assert tail[j] in multiset(rows[1..]) + multiset{x};
      }
    }
  }

  lemma {:induction false} SortByTotalSorted(rows: seq<CategoryRow>)
    ensures SortedByTotal(SortByTotal(rows))
  {
    if rows != [] {
      SortByTotalSorted(rows[1..]);
      InsertByTotalSorted(rows[0], SortByTotal(rows[1..]));
    }
  }

  // -------------------------------------------------------------- distinct

  /** `distinct(f)`: each value of the field once. The store promises no order; this lists first occurrences. */
  function Distinct(records: seq<Sale>, f: Field): (vs: seq<string>)
    ensures forall i, j :: 0 <= i < j < |vs| ==> vs[i] != vs[j]
    ensures forall v :: v in vs <==> v in Values(records, f)
  {
    if records == [] then []
    else
      var n := |records| - 1;
      var v := FieldValue(records[n], f);
      assert records == records[..n] + [records[n]];
      assert Values(records, f) == Values(records[..n], f) + {v};
      var seen := Distinct(records[..n], f);
      if v in seen then seen else seen + [v]
  }
}
