/**
 * The four sales report routes as functions of the `sales` collection:
 * GET /regions, GET /regions/:region, GET /categories and
 * GET /categories/:category, each the composition of the stages its
 * route spells out, with the properties the reports promise.
 */
module SalesReports {
  import opened SalesPipeline
  import StringOrder

  // ---------------------------------------------------------------- routes

  /** GET /regions: `distinct('region')`. */
  function DistinctRegions(records: seq<Sale>): (regions: seq<string>)
    ensures forall i, j :: 0 <= i < j < |regions| ==> regions[i] != regions[j]
    ensures forall v :: v in regions <==> exists s :: s in records && s.region == v
  {
    Distinct(records, Region)
  }

  /** GET /categories: `distinct('category')`. */
  function DistinctCategories(records: seq<Sale>): (categories: seq<string>)
    ensures forall i, j :: 0 <= i < j < |categories| ==> categories[i] != categories[j]
    ensures forall v :: v in categories <==> exists s :: s in records && s.category == v
  {
    Distinct(records, Category)
  }

  /** GET /regions/:region: `$match` region, `$group` by salesperson, `$project`, `$sort` by salesperson. */
  function SalesByRegion(records: seq<Sale>, region: string): (rows: seq<SalespersonRow>)
    ensures |rows| <= |records|
  {
    MatchShrinks(records, Region, region);
    var projected := ProjectSalesperson(GroupBy(Match(records, Region, region), Salesperson));
    assert |SortBySalesperson(projected)| == |multiset(projected)|;
    SortBySalesperson(projected)
  }

  /** GET /categories/:category: `$match` category, `$group` by category, `$project`, `$sort` by total. */
  function SalesByCategory(records: seq<Sale>, category: string): (rows: seq<CategoryRow>)
    ensures |rows| <= |records|
  {
    MatchShrinks(records, Category, category);
    var projected := ProjectCategory(GroupBy(Match(records, Category, category), Category));
    assert |SortByTotal(projected)| == |multiset(projected)|;
    SortByTotal(projected)
  }

  /** What one salesperson sold in one region: the amounts of the records carrying both. */
  function SalesOf(records: seq<Sale>, region: string, salesperson: string): int
  {
    SumAmounts(Match(Match(records, Region, region), Salesperson, salesperson))
  }

  /** The sum of the `totalSales` column of a region report. */
  function RowsTotal(rows: seq<SalespersonRow>): int
  {
    if rows == [] then 0 else rows[0].totalSales + RowsTotal(rows[1..])
  }

  // ------------------------------------------------------ region report

  /** The rows are strictly ascending by salesperson, so no salesperson has two rows. */
  lemma RegionReportStrictlySorted(records: seq<Sale>, region: string)
    ensures StrictlySortedBySalesperson(SalesByRegion(records, region))
    ensures forall i, j :: 0 <= i < j < |SalesByRegion(records, region)| ==>
              SalesByRegion(records, region)[i].salesperson != SalesByRegion(records, region)[j].salesperson
  {
    var groups := GroupBy(Match(records, Region, region), Salesperson);
    GroupByUnique(Match(records, Region, region), Salesperson);
    ProjectSalespersonRows(groups);
    SortBySalespersonStrict(ProjectSalesperson(groups));
    var rows := SalesByRegion(records, region);
    forall i, j | 0 <= i < j < |rows| ensures rows[i].salesperson != rows[j].salesperson {
      StringOrder.LessIrreflexive(rows[i].salesperson);
    }
  }

  /** Each row's total is what that salesperson sold in the region. */
  lemma RegionReportRowTotals(records: seq<Sale>, region: string)
    ensures forall row :: row in SalesByRegion(records, region) ==>
              row.totalSales == SalesOf(records, region, row.salesperson)
  {
    var matched := Match(records, Region, region);
    var groups := GroupBy(matched, Salesperson);
    GroupByUnique(matched, Salesperson);
    ProjectSalespersonRows(groups);
    forall row | row in SalesByRegion(records, region)
      ensures row.totalSales == SalesOf(records, region, row.salesperson)
    {
      assert row in multiset(ProjectSalesperson(groups));
      var i :| 0 <= i < |groups| && ProjectSalesperson(groups)[i] == row;
      TotalForMember(groups, i);
      GroupByTotalFor(matched, Salesperson, groups[i].id);
    }
  }

  /** A salesperson has a row exactly when some record of the region names them. */
  lemma RegionReportSalespeople(records: seq<Sale>, region: string, salesperson: string)
    ensures (exists row :: row in SalesByRegion(records, region) && row.salesperson == salesperson)
        <==> (exists s :: s in records && s.region == region && s.salesperson == salesperson)
  {
    var matched := Match(records, Region, region);
    var groups := GroupBy(matched, Salesperson);
    var rows := SalesByRegion(records, region);
    GroupByIds(matched, Salesperson);
    IdsMembership(groups, salesperson);
    ProjectSalespersonRows(groups);
    if exists row :: row in rows && row.salesperson == salesperson {
      var row :| row in rows && row.salesperson == salesperson;
      assert row in multiset(ProjectSalesperson(groups));
      var i :| 0 <= i < |groups| && ProjectSalesperson(groups)[i] == row;
      assert salesperson in Values(matched, Salesperson);
    }
    if exists s :: s in records && s.region == region && s.salesperson == salesperson {
      var s :| s in records && s.region == region && s.salesperson == salesperson;
      assert FieldValue(s, Salesperson) in Values(matched, Salesperson);
      var i :| 0 <= i < |groups| && groups[i].id == salesperson;
      assert ProjectSalesperson(groups)[i] in multiset(rows);
    }
  }

  lemma {:induction false} InsertRowsTotal(x: SalespersonRow, rows: seq<SalespersonRow>)
    ensures RowsTotal(InsertBySalesperson(x, rows)) == x.totalSales + RowsTotal(rows)
  {
    if rows != [] && StringOrder.Less(rows[0].salesperson, x.salesperson) {
      InsertRowsTotal(x, rows[1..]);
      assert InsertBySalesperson(x, rows)[1..] == InsertBySalesperson(x, rows[1..]);
    }
  }

  lemma {:induction false} SortRowsTotal(rows: seq<SalespersonRow>)
    ensures RowsTotal(SortBySalesperson(rows)) == RowsTotal(rows)
  {
    if rows != [] {
      SortRowsTotal(rows[1..]);
      InsertRowsTotal(rows[0], SortBySalesperson(rows[1..]));
    }
  }

  lemma {:induction false} ProjectRowsTotal(gs: seq<Group>)
    ensures RowsTotal(ProjectSalesperson(gs)) == GrandTotal(gs)
  {
    if gs != [] {
      ProjectRowsTotal(gs[1..]);
      assert ProjectSalesperson(gs)[1..] == ProjectSalesperson(gs[1..]);
    }
  }

  /** The report's totals add up to everything sold in the region. */
  lemma RegionReportTotal(records: seq<Sale>, region: string)
    ensures RowsTotal(SalesByRegion(records, region)) == SumAmounts(Match(records, Region, region))
  {
    var groups := GroupBy(Match(records, Region, region), Salesperson);
    SortRowsTotal(ProjectSalesperson(groups));
    ProjectRowsTotal(groups);
    GroupByGrandTotal(Match(records, Region, region), Salesperson);
  }

  /** A region with no records gives an empty report, and only such a region does. */
  lemma RegionReportEmpty(records: seq<Sale>, region: string)
    ensures SalesByRegion(records, region) == [] <==> forall s :: s in records ==> s.region != region
  {
    var matched := Match(records, Region, region);
    var groups := GroupBy(matched, Salesperson);
    ProjectSalespersonRows(groups);
    GroupByIds(matched, Salesperson);
    var rows := SalesByRegion(records, region);
    assert |rows| == |groups| by {
      assert |multiset(rows)| == |multiset(ProjectSalesperson(groups))|;
    }
    if s :| s in records && s.region == region {
      assert s.salesperson in Values(matched, Salesperson);
    }
    if groups != [] {
      IdsMembership(groups, groups[0].id);
    }
  }

  /** Records of other regions never affect the report, wherever they sit in the collection. */
  lemma RegionReportIgnoresOtherRegions(before: seq<Sale>, s: Sale, after: seq<Sale>, region: string)
    requires s.region != region
    ensures SalesByRegion(before + [s] + after, region) == SalesByRegion(before + after, region)
  {
    MatchSkipsOther(before, s, after, Region, region);
  }

  /** Only the records of the region reach the grouping stage. */
  lemma RegionReportOnlyMatching(records: seq<Sale>, region: string)
    ensures SalesByRegion(Match(records, Region, region), region) == SalesByRegion(records, region)
  {
    MatchIdempotent(records, Region, region);
  }

  /** Permuting a sequence does not change how often an element occurs in it, so names stay unique. */
  lemma UniqueNamesPermutation(a: seq<SalespersonRow>, b: seq<SalespersonRow>)
    requires multiset(a) == multiset(b)
    requires forall i, j :: 0 <= i < j < |a| ==> a[i].salesperson != a[j].salesperson
    ensures forall i, j :: 0 <= i < j < |b| ==> b[i].salesperson != b[j].salesperson
  {
    forall i, j | 0 <= i < j < |b| ensures b[i].salesperson != b[j].salesperson {
      if b[i].salesperson == b[j].salesperson {
        assert b[i] in multiset(a) && b[j] in multiset(a);
        var p :| 0 <= p < |a| && a[p] == b[i];
        var q :| 0 <= q < |a| && a[q] == b[j];
        if p == q {
          assert b == b[..j] + b[j..];
          assert b[i] in b[..j] && b[j] in b[j..];
          assert multiset(b)[b[i]] >= 2 by {
            assert multiset(b) == multiset(b[..j]) + multiset(b[j..]);
          }
          AtMostOnce(a, p);
          assert false;
        }
      }
    }
  }

  /** In rows with unique names, each row occurs once. */
  lemma {:induction false} AtMostOnce(a: seq<SalespersonRow>, p: nat)
    requires p < |a|
    requires forall i, j :: 0 <= i < j < |a| ==> a[i].salesperson != a[j].salesperson
    ensures multiset(a)[a[p]] == 1
  {
    assert a == a[..p] + [a[p]] + a[p + 1..];
    assert a[p] !in a[..p] && a[p] !in a[p + 1..];
    assert multiset(a) == multiset(a[..p]) + multiset{a[p]} + multiset(a[p + 1..]);
  }

  /**
   * The store emits `$group` results in no promised order, and `$project`
   * renames them one by one; whatever order the rows reach `$sort` in, the
   * region report is the same.
   */
  lemma RegionReportIndependentOfGroupOrder(records: seq<Sale>, region: string, rows: seq<SalespersonRow>)
    requires multiset(rows) == multiset(ProjectSalesperson(GroupBy(Match(records, Region, region), Salesperson)))
    ensures SortBySalesperson(rows) == SalesByRegion(records, region)
  {
    MatchShrinks(records, Region, region);
    var projected := ProjectSalesperson(GroupBy(Match(records, Region, region), Salesperson));
    GroupByUnique(Match(records, Region, region), Salesperson);
    ProjectSalespersonRows(GroupBy(Match(records, Region, region), Salesperson));
    UniqueNamesPermutation(projected, rows);
    SortBySalespersonStrict(projected);
    SortBySalespersonStrict(rows);
    StrictlySortedUnique(SortBySalesperson(rows), SalesByRegion(records, region));
  }

  // ---------------------------------------------------- category report

  /**
   * The category report has one row, `{ category, totalSales }` with the sum of
   * the category's amounts, when some record has the category, and none otherwise.
   */
  lemma CategoryReportShape(records: seq<Sale>, category: string)
    ensures |SalesByCategory(records, category)| <= 1
    ensures SalesByCategory(records, category) == [] <==> forall s :: s in records ==> s.category != category
    ensures SalesByCategory(records, category) != [] ==>
              SalesByCategory(records, category)[0] == CategoryRow(category, SumAmounts(Match(records, Category, category)))
  {
    var matched := Match(records, Category, category);
    var groups := GroupBy(matched, Category);
    GroupByUnique(matched, Category);
    GroupByIds(matched, Category);
    ProjectCategoryRows(groups);
    var rows := SalesByCategory(records, category);
    assert |rows| == |groups| by {
      assert |multiset(rows)| == |multiset(ProjectCategory(groups))|;
    }
    forall i | 0 <= i < |groups| ensures groups[i].id == category {
      IdsMembership(groups, groups[i].id);
    }
    if |groups| >= 2 {
      assert false;
    }
    if s :| s in records && s.category == category {
      assert category in Values(matched, Category);
    }
    if groups != [] {
      assert rows[0] in multiset(ProjectCategory(groups));
      assert rows[0] == ProjectCategory(groups)[0];
      TotalForMember(groups, 0);
      GroupByTotalFor(matched, Category, category);
      MatchIdempotent(records, Category, category);
    }
  }

  /** The category report is ascending by total sales. */
  lemma CategoryReportSorted(records: seq<Sale>, category: string)
    ensures SortedByTotal(SalesByCategory(records, category))
  {
    SortByTotalSorted(ProjectCategory(GroupBy(Match(records, Category, category), Category)));
  }

  /** Records of other categories never affect the category report. */
  lemma CategoryReportIgnoresOtherCategories(before: seq<Sale>, s: Sale, after: seq<Sale>, category: string)
    requires s.category != category
    ensures SalesByCategory(before + [s] + after, category) == SalesByCategory(before + after, category)
  {
    MatchSkipsOther(before, s, after, Category, category);
  }

  // ------------------------------------------------------------ examples

  /** Two north-region sales by Alice and Bob: one row each, ordered by name rather than by amount. */
  lemma RegionReportExample()
    ensures SalesByRegion([Sale("north", "accessories", "Alice", 20), Sale("north", "electronics", "Bob", 15)], "north")
         == [SalespersonRow("Alice", 20), SalespersonRow("Bob", 15)]
  {
    var alice, bob := Sale("north", "accessories", "Alice", 20), Sale("north", "electronics", "Bob", 15);
    var records := [alice, bob];
    assert records[..1] == [alice] && [alice][..0] == [];
    assert Match([alice], Region, "north") == [alice];
    assert Match(records, Region, "north") == records;
    assert GroupBy([alice], Salesperson) == [Group("Alice", 20)];
    assert Accumulate([Group("Alice", 20)], "Bob", 15) == [Group("Alice", 20), Group("Bob", 15)];
    assert GroupBy(records, Salesperson) == [Group("Alice", 20), Group("Bob", 15)];
    var rows := [SalespersonRow("Alice", 20), SalespersonRow("Bob", 15)];
    assert ProjectSalesperson([Group("Alice", 20), Group("Bob", 15)]) == rows;
    assert rows[1..] == [rows[1]];
    assert SortBySalesperson([rows[1]]) == [rows[1]];
    assert StringOrder.Less("Alice", "Bob");
    StringOrder.LessAsymmetric("Alice", "Bob");
  }

  /** Two accessories sales of 10 and 25 and one electronics sale: a single row summing to 35. */
  lemma CategoryReportExample()
    ensures SalesByCategory([Sale("east", "accessories", "Ann", 10), Sale("west", "accessories", "Bo", 25),
                             Sale("east", "electronics", "Ann", 5)], "accessories")
         == [CategoryRow("accessories", 35)]
  {
    var first, second, third := Sale("east", "accessories", "Ann", 10), Sale("west", "accessories", "Bo", 25),
                                Sale("east", "electronics", "Ann", 5);
    var records := [first, second, third];
    assert records[..2] == [first, second] && [first, second][..1] == [first] && [first][..0] == [];
    assert Match([first], Category, "accessories") == [first];
    assert Match([first, second], Category, "accessories") == [first, second];
    assert Match(records, Category, "accessories") == [first, second];
    assert GroupBy([first], Category) == [Group("accessories", 10)];
    assert GroupBy([first, second], Category) == [Group("accessories", 35)];
    assert ProjectCategory([Group("accessories", 35)]) == [CategoryRow("accessories", 35)];
  }
}
