/**
 * The sales-data table component: it keeps the rows of the last response in
 * `salesData` and, before showing them, adds to every row the two keys the
 * table's headers name, 'Total Sales' and 'Sales Person'.
 */
module SalesDataView {
  import opened JsValues

  const TotalSalesHeader := "Total Sales"
  const SalesPersonHeader := "Sales Person"

  /**
   * One turn of the alias loop on a row:
   * 'Total Sales' gets the row's `totalSales`, then 'Sales Person' its
   * `salesperson` (either is `undefined` when the row lacks the key).
   */
  function WithAliases(row: Object): (r: Object)
    ensures Get(r, TotalSalesHeader) == Get(row, "totalSales")
    ensures Get(r, SalesPersonHeader) == Get(row, "salesperson")
    ensures r.Keys == row.Keys + {TotalSalesHeader, SalesPersonHeader}
    ensures forall k :: k != TotalSalesHeader && k != SalesPersonHeader ==> Get(r, k) == Get(row, k)
  {
    var withTotal := row[TotalSalesHeader := Get(row, "totalSales")];
    withTotal[SalesPersonHeader := Get(withTotal, "salesperson")]
  }

  /** Adding the aliases a second time changes nothing. */
  lemma WithAliasesIdempotent(row: Object)
    ensures WithAliases(WithAliases(row)) == WithAliases(row)
  {
  }

  class SalesDataComponent {
    /** The rows on display (`salesData: any[]`). */
    var salesData: array<Object>

    constructor()
      ensures salesData.Length == 0
      ensures !ShowsTable()
    {
      salesData := new Object[0];
    }

    /** The template shows the table exactly when there are rows. */
    predicate ShowsTable()
      reads this
    {
      salesData.Length > 0
    }

    /** The constructor's initial GET of the sales data: the rows are kept as they arrive. */
    method OnSalesDataLoaded(data: array<Object>)
      modifies this
      ensures salesData == data
      ensures ShowsTable() <==> data.Length > 0
    {
      salesData := data;
    }

    /**
     * onSubmit's response handler: keep the response rows and give each of
     * them, in place, the two header aliases.
     */
    method OnReport(data: array<Object>)
      modifies this, data
      ensures salesData == data
      ensures forall i :: 0 <= i < data.Length ==> data[i] == WithAliases(old(data[i]))
      ensures ShowsTable() <==> data.Length > 0
    {
      salesData := data;
      var i := 0;
      while i < salesData.Length
        invariant salesData == data
        invariant 0 <= i <= data.Length
        invariant forall k :: 0 <= k < i ==> data[k] == WithAliases(old(data[k]))
        invariant forall k :: i <= k < data.Length ==> data[k] == old(data[k])
      {
        var row := salesData[i];
        row := row[TotalSalesHeader := Get(row, "totalSales")];
        row := row[SalesPersonHeader := Get(row, "salesperson")];
        salesData[i] := row;
        i := i + 1;
      }
    }
  }

  /** Handling the same response twice leaves the rows as handling it once. */
  method ReportTwice(rows: seq<Object>) returns (once: seq<Object>, twice: seq<Object>)
    ensures once == twice
    ensures |once| == |rows|
    ensures forall i :: 0 <= i < |rows| ==> Get(once[i], TotalSalesHeader) == Get(rows[i], "totalSales")
  {
    var data := new Object[|rows|](i requires 0 <= i < |rows| => rows[i]);
    var component := new SalesDataComponent();
    component.OnReport(data);
    once := data[..];
    component.OnReport(data);
    twice := data[..];
    forall i | 0 <= i < |rows| ensures twice[i] == once[i] {
      WithAliasesIdempotent(once[i]);
    }
  }
}
