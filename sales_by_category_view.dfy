/**
 * The sales-by-category chart component: a form with one required
 * `category` control, the list of categories to pick from, and the
 * `totalSales` column of the last category report, which the chart draws.
 */
module SalesByCategoryView {
  import opened JsValues
  import SalesPipeline
  import SalesReports

  /** `data.map((s: any) => s.totalSales)`: each row's `totalSales`, in row order. */
  function TotalsOf(data: seq<Object>): (totals: seq<Value>)
    ensures |totals| == |data|
    ensures forall i :: 0 <= i < |data| ==> totals[i] == Get(data[i], "totalSales")
  {
    if data == [] then [] else [Get(data[0], "totalSales")] + TotalsOf(data[1..])
  }

  /** The JSON body the category route sends: each row as `{ category, totalSales }`. */
  function ReportBody(rows: seq<SalesPipeline.CategoryRow>): (body: seq<Object>)
    ensures |body| == |rows|
    ensures forall i :: 0 <= i < |rows| ==>
              body[i].Keys == {"category", "totalSales"} &&
              Get(body[i], "category") == Str(rows[i].category) && Get(body[i], "totalSales") == Num(rows[i].totalSales)
  {
    if rows == [] then []
    else [map["category" := Str(rows[0].category), "totalSales" := Num(rows[0].totalSales)]] + ReportBody(rows[1..])
  }

  /**
   * End to end: after the category report for `category` arrives, `totalSales`
   * holds the category's summed amount when some sale has that category, and
   * nothing (so no chart) otherwise.
   */
  lemma ChartDataOfReport(records: seq<SalesPipeline.Sale>, category: string)
    ensures TotalsOf(ReportBody(SalesReports.SalesByCategory(records, category))) ==
              if exists s :: s in records && s.category == category
              then [Num(SalesPipeline.SumAmounts(SalesPipeline.Match(records, SalesPipeline.Category, category)))]
              else []
  {
    SalesReports.CategoryReportShape(records, category);
  }

  class SalesByCategoryComponent {
    /** The chart's data: the `totalSales` of each row of the last report. */
    var totalSales: seq<Value>
    /** The chart's one label. */
    var selectedCategory: string
    /** The options of the category select. */
    var categories: seq<string>
    /** `categoryForm.controls['category'].value`. */
    var category: Option<string>

    /** A fresh component: nothing to chart, no categories yet, and a form that is not valid. */
    constructor()
      ensures totalSales == [] && selectedCategory == "" && categories == [] && category == None
      ensures !FormValid() && !ShowsChart()
    {
      totalSales := [];
      selectedCategory := "";
      categories := [];
      category := None;
    }

    /** `Validators.required`: the control holds a non-empty value. */
    predicate FormValid()
      reads this
    {
      category.Some? && category.value != ""
    }

    /** The template draws the chart exactly when `totalSales` is not empty. */
    predicate ShowsChart()
      reads this
    {
      |totalSales| > 0
    }

    /** The constructor's GET of the categories: they become the select's options. */
    method OnCategoriesLoaded(data: seq<string>)
      modifies this
      ensures categories == data
      ensures totalSales == old(totalSales) && selectedCategory == old(selectedCategory) && category == old(category)
    {
      categories := data;
    }

    /** Picking an option of the select sets the control's value. */
    method Select(option: string)
      modifies this
      ensures category == Some(option)
      ensures FormValid() <==> option != ""
      ensures totalSales == old(totalSales) && selectedCategory == old(selectedCategory) && categories == old(categories)
    {
      category := Some(option);
    }

    /**
     * onSubmit: the path parameter of the request it sends. The handler does
     * not consult the form's validity, so with nothing selected it asks for
     * the category "null".
     */
    method Submit() returns (parameter: string)
      ensures category.None? ==> parameter == "null"
      ensures category.Some? ==> parameter == category.value
    {
      parameter := Interpolate(category);
    }

    /** onSubmit's response handler: the chart data becomes the rows' totals; nothing else changes. */
    method OnReport(data: seq<Object>)
      modifies this
      ensures totalSales == TotalsOf(data)
      ensures ShowsChart() <==> data != []
      ensures selectedCategory == old(selectedCategory) && categories == old(categories) && category == old(category)
    {
      totalSales := TotalsOf(data);
    }
  }

  /** A fresh form submitted with nothing selected is still not valid, and its request names "null". */
  method SubmitWithNothingSelected() returns (valid: bool, parameter: string)
    ensures !valid
    ensures parameter == "null"
  {
    var component := new SalesByCategoryComponent();
    parameter := component.Submit();
    valid := component.FormValid();
  }
}
