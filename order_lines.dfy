/** The rows an order write puts into the order/product join table: the
    bulk insert of a create, and the upsert-by-product of an update. */
module OrderLines {
  import opened Models
  import opened Validation

  /** The lines of order `oid`. */
  function LinesOf(lines: map<Id, OrderLine>, oid: Id): (ks: set<Id>)
    ensures forall k :: k in ks <==> k in lines && lines[k].order == oid
  {
    set k | k in lines && lines[k].order == oid
  }

  /** The rows the create's bulk insert writes: position i becomes line
      `base + i` of order `oid` (built up to the last position). */
  function NewLines(ps: seq<Position>, oid: Id, base: Id): (m: map<Id, OrderLine>)
    ensures m.Keys == IdRange(base, |ps|)
    decreases |ps|
  {
    if ps == [] then map[]
    else
      var n := |ps| - 1;
      assert IdRange(base, |ps|) == IdRange(base, n) + {base + n};
      NewLines(ps[..n], oid, base)[base + n := OrderLine(ps[n].product, oid, ps[n].amount)]
  }

  /** Line `k` of the block is the position `k - base`. */
  lemma {:induction false} NewLinesAt(ps: seq<Position>, oid: Id, base: Id, k: Id)
    requires base <= k < base + |ps|
    ensures k in NewLines(ps, oid, base)
    ensures NewLines(ps, oid, base)[k] == OrderLine(ps[k - base].product, oid, ps[k - base].amount)
    decreases |ps|
  {
    var n := |ps| - 1;
    if k != base + n {
      NewLinesAt(ps[..n], oid, base, k);
      assert ps[..n][k - base] == ps[k - base];
    }
  }

  /** Lines `base`, `base + 1`, ... of `lines` are the positions `ps` of order `oid`. */
  ghost predicate HoldsBlock(lines: map<Id, OrderLine>, ps: seq<Position>, oid: Id, base: Id) {
    forall k :: k in IdRange(base, |ps|) ==>
      k in lines && lines[k] == OrderLine(ps[k - base].product, oid, ps[k - base].amount)
  }

  /** Added to any table, the block is there unchanged. */
  lemma NewLinesBlock(lines: map<Id, OrderLine>, ps: seq<Position>, oid: Id, base: Id)
    ensures HoldsBlock(lines + NewLines(ps, oid, base), ps, oid, base)
  {
    forall k | k in IdRange(base, |ps|)
      ensures k in lines + NewLines(ps, oid, base)
      ensures (lines + NewLines(ps, oid, base))[k] == OrderLine(ps[k - base].product, oid, ps[k - base].amount)
    {
      NewLinesAt(ps, oid, base, k);
    }
  }

  /** A freshly created order whose ids follow every id in use owns exactly
      the new lines, one per position. */
  lemma CreatedLinesAreThePositions(lines: map<Id, OrderLine>, ps: seq<Position>, oid: Id)
    requires forall k :: k in lines ==> k < oid && lines[k].order != oid
    ensures LinesOf(lines + NewLines(ps, oid, oid + 1), oid) == IdRange(oid + 1, |ps|)
  {
    var all := lines + NewLines(ps, oid, oid + 1);
    forall k | k in IdRange(oid + 1, |ps|) ensures k in LinesOf(all, oid) {
      NewLinesAt(ps, oid, oid + 1, k);
    }
  }

  predicate Matches(l: OrderLine, oid: Id, pid: Id) {
    l.order == oid && l.product == pid
  }

  /** Whether order `oid` already has a line for product `pid`. */
  predicate HasLine(lines: map<Id, OrderLine>, oid: Id, pid: Id) {
    exists k :: k in lines && Matches(lines[k], oid, pid)
  }

  /** The tables an upsert works on: the lines and the next free id. */
  datatype LineTable = LineTable(lines: map<Id, OrderLine>, next: Id)

  /** One turn of the update loop: overwrite the amount of the order's line
      for this product, or else insert a new line under the next free id. */
  function UpsertOne(t: LineTable, oid: Id, p: Position): LineTable {
    if HasLine(t.lines, oid, p.product) then
      t.(lines := map k | k in t.lines ::
                    if Matches(t.lines[k], oid, p.product) then t.lines[k].(amount := p.amount) else t.lines[k])
    else
      LineTable(t.lines[t.next := OrderLine(p.product, oid, p.amount)], t.next + 1)
  }

  /** The whole update loop over a positions payload, in payload order. */
  function Upsert(t: LineTable, oid: Id, ps: seq<Position>): LineTable
    decreases |ps|
  {
    if ps == [] then t else Upsert(UpsertOne(t, oid, ps[0]), oid, ps[1..])
  }

  /** The amount the last position naming `pid` carries. */
  function LastAmount(ps: seq<Position>, pid: Id): int
    requires pid in ProductsOf(ps)
  {
    if pid in ProductsOf(ps[1..]) then LastAmount(ps[1..], pid) else ps[0].amount
  }

  /** Every id in use is below the next free one. */
  ghost predicate FreshLines(t: LineTable) {
    forall k :: k in t.lines ==> k < t.next
  }

  /** When the line for (oid, pid) is known, the comprehension in UpsertOne
      overwrites exactly that one row. */
  lemma UpsertOneAt(t: LineTable, oid: Id, p: Position, k: Id)
    requires UniqueLines(t.lines) && k in t.lines && Matches(t.lines[k], oid, p.product)
    ensures UpsertOne(t, oid, p) == t.(lines := t.lines[k := t.lines[k].(amount := p.amount)])
  {
    var u := UpsertOne(t, oid, p);
    var expected := t.lines[k := t.lines[k].(amount := p.amount)];
    assert u.lines.Keys == expected.Keys;
    forall j | j in u.lines ensures u.lines[j] == expected[j] {
      if j != k {
        assert !Matches(t.lines[j], oid, p.product);
      }
    }
  }

  /** What one turn of the loop keeps: ids and their (order, product) are
      kept, rows of other (order, product) pairs are untouched, a new row is
      the order's line for the position's product, and uniqueness and
      freshness hold again. */
  lemma UpsertOneFrame(t: LineTable, oid: Id, p: Position)
    requires FreshLines(t) && UniqueLines(t.lines)
    ensures var u := UpsertOne(t, oid, p);
      && FreshLines(u) && UniqueLines(u.lines) && t.next <= u.next
      && (forall k :: k in t.lines ==> k in u.lines && u.lines[k].order == t.lines[k].order &&
                                       u.lines[k].product == t.lines[k].product)
      && (forall k :: k in t.lines && !Matches(t.lines[k], oid, p.product) ==> u.lines[k] == t.lines[k])
      && (forall k :: k in u.lines && k !in t.lines ==>
            t.next <= k < u.next && Matches(u.lines[k], oid, p.product))
      && (forall k :: k in u.lines && Matches(u.lines[k], oid, p.product) ==> u.lines[k].amount == p.amount)
      && HasLine(u.lines, oid, p.product)
  {
    var u := UpsertOne(t, oid, p);
    if HasLine(t.lines, oid, p.product) {
      var k :| k in t.lines && Matches(t.lines[k], oid, p.product);
      UpsertOneAt(t, oid, p, k);
      assert u.lines[k].amount == p.amount;
    } else {
      assert Matches(u.lines[t.next], oid, p.product);
    }
  }

  /** The update loop's frame: lines are never removed nor moved to another
      order or product; only lines of this order for a product of the
      payload change; new lines belong to this order, name a product of the
      payload and take fresh ids; at most one line per (order, product)
      remains. */
  lemma {:induction false} UpsertFrame(t: LineTable, oid: Id, ps: seq<Position>)
    requires FreshLines(t) && UniqueLines(t.lines)
    ensures var u := Upsert(t, oid, ps);
      && FreshLines(u) && UniqueLines(u.lines) && t.next <= u.next
      && (forall k :: k in t.lines ==> k in u.lines && u.lines[k].order == t.lines[k].order &&
                                       u.lines[k].product == t.lines[k].product)
      && (forall k :: k in t.lines && !(t.lines[k].order == oid && t.lines[k].product in ProductsOf(ps)) ==>
            u.lines[k] == t.lines[k])
      && (forall k :: k in u.lines && k !in t.lines ==>
            t.next <= k < u.next && u.lines[k].order == oid && u.lines[k].product in ProductsOf(ps))
    decreases |ps|
  {
    if ps != [] {
      var t1 := UpsertOne(t, oid, ps[0]);
      UpsertOneFrame(t, oid, ps[0]);
      UpsertFrame(t1, oid, ps[1..]);
      assert ProductsOf(ps) == [ps[0].product] + ProductsOf(ps[1..]);
    }
  }

  /** After the update loop, the order has a line for every product of the
      payload, and that line carries the amount of the last position naming
      the product (a repeated product ends with the later amount). */
  lemma {:induction false} UpsertAmounts(t: LineTable, oid: Id, ps: seq<Position>, pid: Id)
    requires FreshLines(t) && UniqueLines(t.lines)
    requires pid in ProductsOf(ps)
    ensures var u := Upsert(t, oid, ps);
      && HasLine(u.lines, oid, pid)
      && forall k :: k in u.lines && Matches(u.lines[k], oid, pid) ==> u.lines[k].amount == LastAmount(ps, pid)
    decreases |ps|
  {
    var t1 := UpsertOne(t, oid, ps[0]);
    UpsertOneFrame(t, oid, ps[0]);
    if pid in ProductsOf(ps[1..]) {
      UpsertAmounts(t1, oid, ps[1..], pid);
    } else {
      assert ProductsOf(ps) == [ps[0].product] + ProductsOf(ps[1..]);
      assert ps[0].product == pid;
      UpsertFrame(t1, oid, ps[1..]);
      var u := Upsert(t1, oid, ps[1..]);
      var k :| k in t1.lines && Matches(t1.lines[k], oid, pid);
      assert k in u.lines && Matches(u.lines[k], oid, pid);
    }
  }

  /** The amounts the loop writes come from the payload, so the lower bound
      on amounts and the references to orders and products survive it. */
  lemma {:induction false} UpsertKeepsRows(t: LineTable, oid: Id, ps: seq<Position>,
                                           orders: map<Id, Order>, products: map<Id, Product>)
    requires FreshLines(t) && UniqueLines(t.lines)
    requires oid in orders
    requires forall i :: 0 <= i < |ps| ==> PositionValid(ps[i], products)
    requires forall k :: k in t.lines ==>
               AmountValid(t.lines[k].amount) && t.lines[k].order in orders && t.lines[k].product in products
    ensures var u := Upsert(t, oid, ps);
      forall k :: k in u.lines ==>
        AmountValid(u.lines[k].amount) && u.lines[k].order in orders && u.lines[k].product in products
    decreases |ps|
  {
    if ps != [] {
      var t1 := UpsertOne(t, oid, ps[0]);
      UpsertOneFrame(t, oid, ps[0]);
      assert PositionValid(ps[0], products);
      forall k | k in t1.lines
        ensures AmountValid(t1.lines[k].amount) && t1.lines[k].order in orders && t1.lines[k].product in products
      {
        if k in t.lines && !Matches(t.lines[k], oid, ps[0].product) {
          assert t1.lines[k] == t.lines[k];
        }
      }
      UpsertKeepsRows(t1, oid, ps[1..], orders, products);
      assert Upsert(t, oid, ps) == Upsert(t1, oid, ps[1..]);
    }
  }
}
