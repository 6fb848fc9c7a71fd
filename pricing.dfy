/** The order total: the sum of price times amount, taken over the positions
    of a create payload or over the lines an order holds after an update. */
module Pricing {
  import opened Models
  import opened Validation
  import opened OrderLines

  /** The product of every position resolves. */
  predicate PositionsPriced(ps: seq<Position>, products: map<Id, Product>) {
    forall i :: 0 <= i < |ps| ==> ps[i].product in products
  }

  /** The create total: price times amount summed over the positions, in payload order. */
  function PositionsTotal(ps: seq<Position>, products: map<Id, Product>): Cents
    requires PositionsPriced(ps, products)
  {
    if ps == [] then 0
    else products[ps[0].product].price * ps[0].amount + PositionsTotal(ps[1..], products)
  }

  /** With non-negative prices and positive amounts the total is non-negative. */
  lemma {:induction false} PositionsTotalNonNegative(ps: seq<Position>, products: map<Id, Product>)
    requires PositionsPriced(ps, products)
    requires forall i :: 0 <= i < |ps| ==> AmountValid(ps[i].amount)
    requires ProductsValid(products)
    ensures PositionsTotal(ps, products) >= 0
  {
    if ps != [] {
      assert products[ps[0].product].price * ps[0].amount >= 0;
      PositionsTotalNonNegative(ps[1..], products);
    }
  }

  /** The product of every line in `ks` resolves. */
  ghost predicate LinesPriced(ks: set<Id>, lines: map<Id, OrderLine>, products: map<Id, Product>) {
    forall k :: k in ks ==> k in lines && lines[k].product in products
  }

  function LineCost(l: OrderLine, products: map<Id, Product>): Cents
    requires l.product in products
  {
    products[l.product].price * l.amount
  }

  /** The update total: price times amount summed over a set of lines
      (the order the rows come back in does not matter). */
  ghost function SumLines(ks: set<Id>, lines: map<Id, OrderLine>, products: map<Id, Product>): Cents
    requires LinesPriced(ks, lines, products)
    decreases ks
  {
    if ks == {} then 0
    else
      var k :| k in ks;
      LineCost(lines[k], products) + SumLines(ks - {k}, lines, products)
  }

  /** The sum may be peeled at any line, whichever the definition picked. */
  lemma {:induction false} SumLinesPick(ks: set<Id>, lines: map<Id, OrderLine>, products: map<Id, Product>, j: Id)
    requires LinesPriced(ks, lines, products) && j in ks
    ensures SumLines(ks, lines, products) == LineCost(lines[j], products) + SumLines(ks - {j}, lines, products)
    decreases ks
  {
    var k :| k in ks && SumLines(ks, lines, products) ==
                        LineCost(lines[k], products) + SumLines(ks - {k}, lines, products);
    if k != j {
      SumLinesPick(ks - {k}, lines, products, j);
      SumLinesPick(ks - {j}, lines, products, k);
      assert ks - {k} - {j} == ks - {j} - {k};
    }
  }

  /** With non-negative prices and positive amounts an order total is
      non-negative, so the order_sum bound holds after every update. */
  lemma {:induction false} SumLinesNonNegative(ks: set<Id>, lines: map<Id, OrderLine>, products: map<Id, Product>)
    requires LinesPriced(ks, lines, products)
    requires ProductsValid(products)
    requires forall k :: k in ks ==> AmountValid(lines[k].amount)
    ensures SumLines(ks, lines, products) >= 0
    decreases ks
  {
    if ks != {} {
      var k :| k in ks;
      SumLinesPick(ks, lines, products, k);
      assert LineCost(lines[k], products) >= 0;
      SumLinesNonNegative(ks - {k}, lines, products);
    }
  }

  /** The sum over a bulk-inserted block of lines is the create total of
      the positions they came from. */
  lemma {:induction false} SumNewLines(lines: map<Id, OrderLine>, ps: seq<Position>, oid: Id, base: Id,
                                       products: map<Id, Product>)
    requires PositionsPriced(ps, products)
    requires HoldsBlock(lines, ps, oid, base)
    ensures LinesPriced(IdRange(base, |ps|), lines, products)
    ensures SumLines(IdRange(base, |ps|), lines, products) == PositionsTotal(ps, products)
    decreases |ps|
  {
    if ps != [] {
      assert base in IdRange(base, |ps|);
      assert HoldsBlock(lines, ps[1..], oid, base + 1) by {
        forall k | k in IdRange(base + 1, |ps| - 1)
          ensures k in lines && lines[k] == OrderLine(ps[1..][k - (base + 1)].product, oid, ps[1..][k - (base + 1)].amount)
        {
          assert k in IdRange(base, |ps|);
          assert ps[1..][k - (base + 1)] == ps[k - base];
        }
      }
      SumNewLines(lines, ps[1..], oid, base + 1, products);
      assert IdRange(base, |ps|) - {base} == IdRange(base + 1, |ps| - 1);
      SumLinesPick(IdRange(base, |ps|), lines, products, base);
    }
  }

  /** A new order is priced consistently: the create total of its positions
      equals the total an update recomputes from the lines the create wrote. */
  lemma CreatedOrderTotal(lines: map<Id, OrderLine>, ps: seq<Position>, oid: Id, products: map<Id, Product>)
    requires PositionsPriced(ps, products)
    requires forall k :: k in lines ==> k < oid && lines[k].order != oid
    ensures var all := lines + NewLines(ps, oid, oid + 1);
      && LinesPriced(LinesOf(all, oid), all, products)
      && SumLines(LinesOf(all, oid), all, products) == PositionsTotal(ps, products)
  {
    var all := lines + NewLines(ps, oid, oid + 1);
    CreatedLinesAreThePositions(lines, ps, oid);
    NewLinesBlock(lines, ps, oid, oid + 1);
    SumNewLines(all, ps, oid, oid + 1, products);
  }

  /** The re-pricing query of an update: walk the lines of order `oid` and
      add price times amount, at the prices the products have now. */
  method OrderTotal(lines: map<Id, OrderLine>, products: map<Id, Product>, oid: Id) returns (total: Cents)
    requires LinesPriced(LinesOf(lines, oid), lines, products)
    ensures total == SumLines(LinesOf(lines, oid), lines, products)
  {
    var todo := LinesOf(lines, oid);
    total := 0;
    while todo != {}
      invariant todo <= LinesOf(lines, oid)
      invariant total + SumLines(todo, lines, products) == SumLines(LinesOf(lines, oid), lines, products)
      decreases todo
    {
      var k :| k in todo;
      SumLinesPick(todo, lines, products, k);
      total := total + LineCost(lines[k], products);
      todo := todo - {k};
    }
  }
}
