/**
  calculateProfit (app/page.tsx): the total cost of the material rows, the
  profit against the final item's price, and the profit flag; plus the
  summary panel's visibility rule. Numbers are exact reals.
 */
module Profit {
  import opened Sanitizer
  import opened Decimal
  import opened Materials

  datatype ProfitResult = ProfitResult(totalCost: real, profit: real, isProfit: bool)

  /** The summary the page starts with, before any calculation. */
  const InitialProfit := ProfitResult(0.0, 0.0, false)

  /** One row's cost, `(parseFloat(price) || 0) * (parseFloat(quantity) || 0)`. */
  function RowCost(m: Material): real
  {
    Parse(m.price) * Parse(m.quantity)
  }

  /** The reference total: the sum of the row costs. */
  function SumCosts(ms: seq<Material>): real
  {
    if ms == [] then 0.0 else RowCost(ms[0]) + SumCosts(ms[1..])
  }

  /** `materials.reduce((sum, m) => sum + cost(m), acc)`: a left fold from the accumulator. */
  function FoldCost(acc: real, ms: seq<Material>): real
    decreases ms
  {
    if ms == [] then acc else FoldCost(acc + RowCost(ms[0]), ms[1..])
  }

  /** The left fold from acc is acc plus the sum of the row costs. */
  lemma {:induction false} FoldCostIsSum(acc: real, ms: seq<Material>)
    ensures FoldCost(acc, ms) == acc + SumCosts(ms)
    decreases ms
  {
    if ms != [] {
      FoldCostIsSum(acc + RowCost(ms[0]), ms[1..]);
    }
  }

  /**
    calculateProfit: the total cost is the sum of the row costs (0 for no
    rows), the profit is the parsed final price minus that total, and the
    flag is set exactly when the profit is strictly positive.
   */
  function CalculateProfit(finalPrice: string, ms: seq<Material>): (r: ProfitResult)
    ensures r.totalCost == SumCosts(ms)
    ensures r.profit == Parse(finalPrice) - SumCosts(ms)
    ensures r.isProfit <==> SumCosts(ms) < Parse(finalPrice)
  {
    var totalCost := FoldCost(0.0, ms);
    FoldCostIsSum(0.0, ms);
    var profitAmount := Parse(finalPrice) - totalCost;
    ProfitResult(totalCost, profitAmount, profitAmount > 0.0)
  }

  /** The summary panel is shown only while the last total cost is positive. */
  predicate ShowsSummary(r: ProfitResult)
  {
    r.totalCost > 0.0
  }

  /** Before the first calculation the summary is all zero, not a profit, and hidden. */
  lemma InitialSummaryHidden()
    ensures InitialProfit.totalCost == 0.0 && InitialProfit.profit == 0.0
    ensures !InitialProfit.isProfit && !ShowsSummary(InitialProfit)
  {
  }

  lemma {:induction false} SumCostsAppend(a: seq<Material>, b: seq<Material>)
    ensures SumCosts(a + b) == SumCosts(a) + SumCosts(b)
  {
    if a == [] {
      assert a + b == b;
    } else {
      assert (a + b)[0] == a[0];
      assert (a + b)[1..] == a[1..] + b;
      SumCostsAppend(a[1..], b);
    }
  }

  /** With valid stored numbers every row costs at least 0, so the total is never negative. */
  lemma {:induction false} SumCostsNonNegative(ms: seq<Material>)
    requires NumericFieldsValid(ms)
    ensures SumCosts(ms) >= 0.0
  {
    if ms != [] {
      assert NumericFieldsValid(ms[1..]) by {
        forall i | 0 <= i < |ms[1..]| ensures ValidNumeric(ms[1..][i].price) && ValidNumeric(ms[1..][i].quantity) {
          assert ms[1..][i] == ms[i + 1];
        }
      }
      SumCostsNonNegative(ms[1..]);
      RowCostNonNegative(ms[0]);
    }
  }

  /** A row whose price and quantity hold only [0-9.] never costs less than 0. */
  lemma RowCostNonNegative(m: Material)
    requires AllNumericChars(m.price) && AllNumericChars(m.quantity)
    ensures RowCost(m) >= 0.0
  {
  }

  /** A blank row costs 0. */
  lemma BlankRowCostsNothing(id: int)
    ensures RowCost(BlankRow(id)) == 0.0
  {
  }

  /**
    On every list the editor can reach, the total is never negative, and so
    a profit is never larger than the final item's parsed price.
   */
  lemma ReachableTotalsAreNonNegative(finalPrice: string, es: seq<Edit>)
    ensures CalculateProfit(finalPrice, Run(InitialMaterials, es)).totalCost >= 0.0
    ensures CalculateProfit(finalPrice, Run(InitialMaterials, es)).profit <= Parse(finalPrice)
  {
    ReachableListsHaveValidNumbers(es);
    SumCostsNonNegative(Run(InitialMaterials, es));
  }

  /** A blank row costs nothing, so adding a row never changes the total. */
  lemma AddMaterialKeepsTotal(ms: seq<Material>)
    ensures SumCosts(AddMaterial(ms)) == SumCosts(ms)
  {
    var blank := BlankRow(|ms| + 1);
    SumCostsAppend(ms, [blank]);
    BlankRowCostsNothing(|ms| + 1);
    assert SumCosts([blank]) == RowCost(blank) + SumCosts([]);
  }

  /** Renaming a row never changes the total. */
  lemma {:induction false} RenameKeepsTotal(ms: seq<Material>, id: int, value: string)
    ensures SumCosts(UpdateMaterial(ms, id, Name, value)) == SumCosts(ms)
  {
    if ms != [] {
      var head := if ms[0].id == id then UpdateRow(ms[0], Name, value) else ms[0];
      var tail := UpdateMaterial(ms[1..], id, Name, value);
      assert UpdateMaterial(ms, id, Name, value) == [head] + tail;
      assert ([head] + tail)[0] == head && ([head] + tail)[1..] == tail;
      RenameKeepsTotal(ms[1..], id, value);
      assert RowCost(head) == RowCost(ms[0]) by {
        assert head.price == ms[0].price && head.quantity == ms[0].quantity;
      }
    }
  }

  /** Two rows 10 x 2 and 5 x 4 against a price of 100: cost 40, profit 60. */
  lemma ProfitExample()
    ensures var r := CalculateProfit("100", [Material(1, "", "10", "2"), Material(2, "", "5", "4")]);
      r.totalCost == 40.0 && r.profit == 60.0 && r.isProfit && ShowsSummary(r)
  {
    var ms := [Material(1, "", "10", "2"), Material(2, "", "5", "4")];
    assert Parse("10") == 10.0;
    assert Parse("2") == 2.0;
    assert Parse("5") == 5.0;
    assert Parse("4") == 4.0;
    assert Parse("100") == 100.0;
    assert ms[1..][1..] == [];
  }

  /** Blank fields count as 0: the profit is the whole price, but the panel stays hidden. */
  lemma BlankRowsExample()
    ensures var r := CalculateProfit("50", [BlankRow(1)]);
      r.totalCost == 0.0 && r.profit == 50.0 && r.isProfit && !ShowsSummary(r)
  {
    assert Parse("") == 0.0;
    ParseNatural("50");
    assert DigitsValue("50") == 50;
  }

  /** Breaking even is not a profit. */
  lemma BreakEvenExample()
    ensures var r := CalculateProfit("30", [Material(1, "", "10", "3")]);
      r.totalCost == 30.0 && r.profit == 0.0 && !r.isProfit
  {
    assert Parse("10") == 10.0;
    assert Parse("3") == 3.0;
    ParseNatural("30");
    assert DigitsValue("30") == 30;
  }
}
