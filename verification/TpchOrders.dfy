/** The TPC-H generator's orders and line items (`bench.rs`). */
module TpchOrders {
  import opened TpchPartsupp
  import opened TpchRandom

  /** Year, month and day. */
  type Date = (int, int, int)

  predicate IsDate(d: Date) {
    1992 <= d.0 <= 1998 && 1 <= d.1 <= 12 && 1 <= d.2 <= 28
  }

  datatype Line = Line(
    order: nat, part: int, supplier: int, number: nat, quantity: real, price: real, discount: real, tax: real,
    returnFlag: nat, status: nat, shipDate: Date, commitDate: Date, receiptDate: Date, shipMode: nat,
    shipInstruct: nat, comment: string)
  {
    /** What the line adds to the total of its order. */
    function Charge(): real {
      price * (1.0 - discount) * (1.0 + tax)
    }

    predicate InRange(parts: nat, suppliers: nat) {
      && 1 <= part <= parts && 1 <= supplier <= suppliers
      && 1.0 <= quantity <= 50.0
      && quantity / 50.0 <= price <= 40.0 * quantity
      && 0.0 <= discount <= 0.1 && 0.0 <= tax <= 0.08
      && returnFlag < 3 && status < 2 && shipMode < 7 && shipInstruct < 4 && 10 <= |comment| <= 40
      && IsDate(shipDate) && IsDate(commitDate) && IsDate(receiptDate)
    }
  }

  /** The line-item table, one sequence a column. */
  datatype Lines = Lines(
    orders: seq<nat>, parts: seq<int>, suppliers: seq<int>, numbers: seq<nat>, quantities: seq<real>,
    prices: seq<real>, discounts: seq<real>, taxes: seq<real>, returnFlags: seq<nat>, statuses: seq<nat>,
    shipDates: seq<Date>, commitDates: seq<Date>, receiptDates: seq<Date>, shipModes: seq<nat>,
    shipInstructs: seq<nat>, comments: seq<string>)
  {
    predicate Rectangular() {
      && |orders| == |parts| == |suppliers| == |numbers| == |quantities| == |prices| == |discounts| == |taxes|
      && |orders| == |returnFlags| == |statuses| == |shipDates| == |commitDates| == |receiptDates|
      && |orders| == |shipModes| == |shipInstructs| == |comments|
    }

    function Row(i: nat): Line
      requires Rectangular() && i < |orders|
    {
      Line(orders[i], parts[i], suppliers[i], numbers[i], quantities[i], prices[i], discounts[i], taxes[i],
           returnFlags[i], statuses[i], shipDates[i], commitDates[i], receiptDates[i], shipModes[i],
           shipInstructs[i], comments[i])
    }

    ghost function Rows(): (rows: seq<Line>)
      requires Rectangular()
      ensures |rows| == |orders|
    {
      seq(|orders|, i requires 0 <= i < |orders| => Row(i))
    }

    function Push(line: Line): Lines {
      Lines(orders + [line.order], parts + [line.part], suppliers + [line.supplier], numbers + [line.number],
            quantities + [line.quantity], prices + [line.price], discounts + [line.discount], taxes + [line.tax],
            returnFlags + [line.returnFlag], statuses + [line.status], shipDates + [line.shipDate],
            commitDates + [line.commitDate], receiptDates + [line.receiptDate], shipModes + [line.shipMode],
            shipInstructs + [line.shipInstruct], comments + [line.comment])
    }

    /** Pushing onto every column adds one row. */
    lemma RowsPushed(line: Line)
      requires Rectangular()
      ensures Push(line).Rectangular() && Push(line).Rows() == Rows() + [line]
    {
      forall i | 0 <= i < |orders|
        ensures Push(line).Row(i) == Row(i)
      {
      }
    }
  }

  /** The orders table, one sequence a column. */
  datatype Orders = Orders(
    keys: seq<nat>, customers: seq<int>, statuses: seq<nat>, totals: seq<real>, dates: seq<Date>,
    priorities: seq<nat>, clerks: seq<int>, shipPriorities: seq<int>, comments: seq<string>)
  {
    predicate Rectangular(n: nat) {
      && |keys| == |customers| == |statuses| == |totals| == |dates| == n
      && |priorities| == |clerks| == |shipPriorities| == |comments| == n
    }

    /** Orders are keyed by position, refer to customers that exist and carry the sum of their lines. */
    ghost predicate Agrees(n: nat, customerCount: nat, rows: seq<Line>) {
      && Rectangular(n)
      && forall i :: 0 <= i < n ==>
           keys[i] == i + 1 && 1 <= customers[i] <= customerCount && totals[i] == OrderTotal(rows, i + 1)
    }

    predicate InRange(n: nat)
      requires Rectangular(n)
    {
      forall i :: 0 <= i < n ==>
        && statuses[i] < 3 && priorities[i] < 5 && 1 <= clerks[i] <= 1000 && shipPriorities[i] == 0
        && IsDate(dates[i]) && 20 <= |comments[i]| <= 70
    }
  }

  // ---- The lines of an order ----

  function OrderTotal(rows: seq<Line>, key: nat): real {
    if rows == [] then 0.0
    else
      var last := rows[|rows| - 1];
      OrderTotal(rows[..|rows| - 1], key) + if last.order == key then last.Charge() else 0.0
  }

  predicate Starts(line: Line, key: nat) {
    line.order == key && line.number == 1
  }

  predicate Continues(prev: Line, line: Line) {
    line.order == prev.order && line.number == prev.number + 1
  }

  /** The rows list orders 1 to `orders` in sequence, each with its lines numbered from 1. */
  ghost predicate Numbered(rows: seq<Line>, orders: nat) {
    && orders == (if rows == [] then 0 else rows[|rows| - 1].order)
    && (rows != [] ==> Starts(rows[0], 1))
    && (forall i :: 0 < i < |rows| ==>
          Continues(rows[i - 1], rows[i]) || Starts(rows[i], rows[i - 1].order + 1))
    && (forall i :: 0 <= i < |rows| ==> 1 <= rows[i].number <= 7)
  }

  ghost predicate InRange(rows: seq<Line>, parts: nat, suppliers: nat) {
    forall i :: 0 <= i < |rows| ==> rows[i].InRange(parts, suppliers)
  }

  /** The lines of order `key` are the `n` rows from `start` on. */
  ghost predicate Block(rows: seq<Line>, key: nat, start: nat, n: nat) {
    && start + n <= |rows|
    && (forall i :: 0 <= i < |rows| ==> (rows[i].order == key <==> start <= i < start + n))
    && (forall i :: start <= i < start + n ==> rows[i].number == i - start + 1)
  }

  lemma BlockPushed(rows: seq<Line>, line: Line, key: nat, start: nat, n: nat)
    requires Block(rows, key, start, n)
    requires line.order == key ==> start + n == |rows| && line.number == n + 1
    ensures Block(rows + [line], key, start, if line.order == key then n + 1 else n)
  {
  }

  lemma NumberedInit(rows: seq<Line>, orders: nat)
    requires Numbered(rows, orders) && |rows| > 1
    ensures var prev, last := rows[|rows| - 2], rows[|rows| - 1];
      Numbered(rows[..|rows| - 1], prev.order) && orders == last.order && (Continues(prev, last) || Starts(last, prev.order + 1))
  {
  }

  /** Every order has between one and seven lines, stored together and numbered without gaps. */
  lemma {:induction false} OrderHasBlock(rows: seq<Line>, orders: nat, key: nat) returns (start: nat, n: nat)
    requires Numbered(rows, orders) && 1 <= key <= orders
    ensures 1 <= n <= 7 && Block(rows, key, start, n)
    ensures key == orders ==> start + n == |rows| && n == rows[|rows| - 1].number
    decreases |rows|
  {
    if |rows| == 1 {
      start, n := 0, 1;
    } else {
      var init, prev, last := rows[..|rows| - 1], rows[|rows| - 2], rows[|rows| - 1];
      assert rows == init + [last];
      assert 1 <= last.number <= 7;
      NumberedInit(rows, orders);
      OrdersBelow(init, prev.order);
      hide Numbered;
      if key <= prev.order {
        start, n := OrderHasBlock(init, prev.order, key);
      } else {
        start, n := |init|, 0;
        assert Block(init, key, start, n);
      }
      hide Block;
      BlockPushed(init, last, key, start, n);
      n := if last.order == key then n + 1 else n;
    }
  }

  lemma OrdersBelow(rows: seq<Line>, orders: nat)
    requires Numbered(rows, orders)
    ensures forall i :: 0 <= i < |rows| ==> 1 <= rows[i].order <= orders
    decreases |rows|
  {
    if |rows| > 1 {
      var init := rows[..|rows| - 1];
      assert Numbered(init, init[|init| - 1].order);
      OrdersBelow(init, init[|init| - 1].order);
    }
  }

  /** Order and line number together identify a line. */
  lemma LineKeysDiffer(rows: seq<Line>, orders: nat, i: nat, j: nat)
    requires Numbered(rows, orders) && i < |rows| && j < |rows| && i != j
    ensures rows[i].order != rows[j].order || rows[i].number != rows[j].number
  {
    OrdersBelow(rows, orders);
    var start, n := OrderHasBlock(rows, orders, rows[i].order);
  }

  /** The discounted prices of the lines with their taxes, added up. */
  function Sum(rows: seq<Line>): real {
    if rows == [] then 0.0
    else
      var Line(_, _, _, _, _, price, discount, tax, _, _, _, _, _, _, _, _) := rows[|rows| - 1];
      Sum(rows[..|rows| - 1]) + (1.0 + tax) * (price - discount * price)
  }

  lemma ChargeIs(line: Line)
    ensures line.Charge() == (1.0 + line.tax) * (line.price - line.discount * line.price)
  {
    var discounted := line.price * (1.0 - line.discount);
    assert discounted == line.price - line.discount * line.price;
    assert line.Charge() == discounted * (1.0 + line.tax) == (1.0 + line.tax) * discounted;
  }

  /** The total of an order is the sum over its own lines. */
  lemma {:induction false} TotalIsBlockSum(rows: seq<Line>, key: nat, start: nat, n: nat)
    requires Block(rows, key, start, n)
    ensures OrderTotal(rows, key) == Sum(rows[start..start + n])
    decreases |rows|
  {
    hide Line.Charge;
    if rows != [] {
      var init := rows[..|rows| - 1];
      if n > 0 && start + n == |rows| {
        assert Block(init, key, start, n - 1);
        TotalIsBlockSum(init, key, start, n - 1);
        ChargeIs(rows[|rows| - 1]);
        assert rows[start..start + n][..n - 1] == init[start..start + n - 1];
      } else if n == 0 {
        assert Block(init, key, 0, 0);
        TotalIsBlockSum(init, key, 0, 0);
      } else {
        assert Block(init, key, start, n);
        TotalIsBlockSum(init, key, start, n);
        assert rows[start..start + n] == init[start..start + n];
      }
    }
  }

  /** A line counts towards its own order only. */
  lemma TotalPushed(rows: seq<Line>, line: Line, key: nat)
    ensures OrderTotal(rows + [line], key) == OrderTotal(rows, key) + if line.order == key then line.Charge() else 0.0
  {
    assert (rows + [line])[..|rows|] == rows;
  }

  lemma TotalOfNewOrder(rows: seq<Line>, orders: nat)
    requires Numbered(rows, orders)
    ensures OrderTotal(rows, orders + 1) == 0.0
  {
    OrdersBelow(rows, orders);
    TotalIsBlockSum(rows, orders + 1, 0, 0);
  }

  // ---- The generator ----

  method GenLine(rng: Rng, order: nat, number: nat, partCount: nat, supplierCount: nat) returns (line: Line)
    requires partCount >= 1 && supplierCount >= 1
    modifies rng
    ensures line.order == order && line.number == number && line.InRange(partCount, supplierCount)
  {
    hide Price;
    var part := rng.NextRange(1, partCount);
    var supplier := rng.NextRange(1, supplierCount);
    var quantity := rng.NextRange(1, 50);
    var cents := rng.NextRange(100, 200000);
    PriceInRange(cents, quantity);
    var discount := rng.NextRange(0, 10);
    var tax := rng.NextRange(0, 8);
    var returnFlag := rng.Pick(3);
    var status := rng.Pick(2);
    var y1, m1, d1 := rng.GenDate(1992, 1998);
    var y2, m2, d2 := rng.GenDate(1992, 1998);
    var y3, m3, d3 := rng.GenDate(1992, 1998);
    var shipMode := rng.Pick(7);
    var shipInstruct := rng.Pick(4);
    var comment := rng.GenString(10, 40);
    line := Line(order, part, supplier, number, quantity as real, Price(cents, quantity),
                 discount as real / 100.0, tax as real / 100.0, returnFlag, status,
                 (y1, m1, d1), (y2, m2, d2), (y3, m3, d3), shipMode, shipInstruct, comment);
  }

  function Price(cents: int, quantity: int): real {
    cents as real / 100.0 * quantity as real / 50.0
  }

  lemma PriceInRange(cents: int, quantity: int)
    requires 100 <= cents <= 200000 && 0 <= quantity
    ensures quantity as real / 50.0 <= Price(cents, quantity) <= 40.0 * quantity as real
  {
    var each, above, below := cents as real / 100.0, cents as real / 100.0 - 1.0, 2000.0 - cents as real / 100.0;
    Product(above, quantity as real);
    Product(below, quantity as real);
    assert each * quantity as real == above * quantity as real + quantity as real;
    assert each * quantity as real == 2000.0 * quantity as real - below * quantity as real;
  }

  lemma Product(a: real, b: real)
    requires a >= 0.0 && b >= 0.0
    ensures a * b >= 0.0
  {
  }

  lemma NumberedPushed(rows: seq<Line>, orders: nat, line: Line)
    requires Numbered(rows, orders) && 1 <= line.number <= 7
    requires Starts(line, orders + 1) || (rows != [] && Continues(rows[|rows| - 1], line))
    ensures Numbered(rows + [line], line.order)
  {
  }

  /** What holds between the tables after `n` complete orders. */
  ghost predicate Generated(o: Orders, l: Lines, n: nat, scale: real) {
    && l.Rectangular()
    && o.Agrees(n, CustomerCount(scale), l.Rows()) && o.InRange(n)
    && Numbered(l.Rows(), n)
    && InRange(l.Rows(), PartCount(scale), SupplierCount(scale))
  }

  ghost predicate LastIs(rows: seq<Line>, order: nat, number: nat) {
    rows != [] && rows[|rows| - 1].order == order && rows[|rows| - 1].number == number
  }

  lemma NoRows(parts: nat, suppliers: nat)
    ensures Numbered([], 0) && InRange([], parts, suppliers)
  {
  }

  /** The inner loop: the lines of order `order`, pushed behind those of the orders before it. */
  method GenLines(rng: Rng, before: Lines, order: nat, items: nat, partCount: nat, supplierCount: nat)
      returns (l: Lines, total: real)
    requires order >= 1 && 1 <= items <= 7 && partCount >= 1 && supplierCount >= 1
    requires before.Rectangular() && Numbered(before.Rows(), order - 1)
    requires InRange(before.Rows(), partCount, supplierCount)
    modifies rng
    ensures l.Rectangular() && Numbered(l.Rows(), order) && InRange(l.Rows(), partCount, supplierCount)
    ensures total == OrderTotal(l.Rows(), order)
    ensures forall key :: 1 <= key < order ==> OrderTotal(l.Rows(), key) == OrderTotal(before.Rows(), key)
  {
    hide OrderTotal, Numbered;
    l, total := before, 0.0;
    TotalOfNewOrder(l.Rows(), order - 1);
    for number := 1 to items + 1
      invariant l.Rectangular() && InRange(l.Rows(), partCount, supplierCount)
      invariant Numbered(l.Rows(), if number == 1 then order - 1 else order)
      invariant number > 1 ==> LastIs(l.Rows(), order, number - 1)
      invariant total == OrderTotal(l.Rows(), order)
      invariant forall key :: 1 <= key < order ==> OrderTotal(l.Rows(), key) == OrderTotal(before.Rows(), key)
    {
      var line := GenLine(rng, order, number, partCount, supplierCount);
      total := total + line.price * (1.0 - line.discount) * (1.0 + line.tax);
      NumberedPushed(l.Rows(), if number == 1 then order - 1 else order, line);
      forall key: nat
        ensures OrderTotal(l.Rows() + [line], key)
             == OrderTotal(l.Rows(), key) + if line.order == key then line.Charge() else 0.0
      {
        TotalPushed(l.Rows(), line, key);
      }
      l.RowsPushed(line);
      l := l.Push(line);
    }
  }

  method GenOrdersAndLineitem(scale: real) returns (o: Orders, l: Lines)
    ensures Generated(o, l, OrderCount(scale), scale)
  {
    hide OrderTotal, Numbered, CountAt, InRange;
    var orderCount, customerCount := OrderCount(scale), CustomerCount(scale);
    var rng := new Rng(700);
    o := Orders([], [], [], [], [], [], [], [], []);
    l := Lines([], [], [], [], [], [], [], [], [], [], [], [], [], [], [], []);
    NoRows(PartCount(scale), SupplierCount(scale));
    assert l.Rows() == [];
    for i := 1 to orderCount + 1
      invariant Generated(o, l, i - 1, scale)
    {
      var customer := rng.NextRange(1, customerCount);
      var year, month, day := rng.GenDate(1992, 1998);
      var status := rng.Pick(3);
      var priority := rng.Pick(5);
      var clerk := rng.NextRange(1, 1000);
      var items := rng.NextRange(1, 7);
      var total: real;
      l, total := GenLines(rng, l, i, items, PartCount(scale), SupplierCount(scale));
      var comment := rng.GenString(20, 70);
      o := Orders(o.keys + [i], o.customers + [customer], o.statuses + [status], o.totals + [total],
                  o.dates + [(year, month, day)], o.priorities + [priority], o.clerks + [clerk],
                  o.shipPriorities + [0], o.comments + [comment]);
    }
  }

  /** Every generated order carries the sum of its one to seven lines, which refer to existing parts and suppliers. */
  lemma OrdersAgreeWithLines(o: Orders, l: Lines, scale: real, i: nat) returns (start: nat, n: nat)
    requires Generated(o, l, OrderCount(scale), scale) && i < OrderCount(scale)
    ensures 1 <= n <= 7 && Block(l.Rows(), o.keys[i], start, n)
    ensures o.totals[i] == Sum(l.Rows()[start..start + n])
  {
    hide Sum, OrderTotal, InRange, Line.InRange, Orders.InRange;
    start, n := OrderHasBlock(l.Rows(), OrderCount(scale), i + 1);
    TotalIsBlockSum(l.Rows(), i + 1, start, n);
  }

  /** Every generated line belongs to an order of the table. */
  lemma LinesReferToOrders(o: Orders, l: Lines, scale: real, k: nat)
    requires Generated(o, l, OrderCount(scale), scale) && k < |l.orders|
    ensures 1 <= l.orders[k] <= OrderCount(scale) && o.keys[l.orders[k] - 1] == l.orders[k]
  {
    hide Numbered, OrderTotal;
    OrdersBelow(l.Rows(), OrderCount(scale));
    assert l.Rows()[k].order == l.orders[k];
  }

  // ---- Lines and the part-supplier table ----

  /** Some row of the part-supplier table has these two keys. */
  ghost predicate Listed(t: PartSupp, n: nat, part: int, supplier: int)
    requires t.Length(n)
  {
    exists i :: 0 <= i < n && t.partKeys[i] == part && t.suppKeys[i] == supplier
  }

  /** The offset of the supplier from the part is one of the four that the part's stride reaches. */
  predicate IsReached(part: nat, supplier: int, suppliers: nat)
    requires part >= 1 && suppliers >= 1
  {
    exists j :: 0 <= j < 4 && Divides(suppliers, supplier - 1 - (part + j * Stride(part, suppliers)))
  }

  /**
   The keys of a line are drawn independently. They refer to a row of the part-supplier table, as the
   compound foreign key of the specification wants, exactly when the stride reaches the supplier.
   */
  lemma LineIsListedIff(t: PartSupp, parts: nat, suppliers: nat, line: Line)
    requires suppliers >= 1 && t.Length(4 * parts) && t.KeysAre(4 * parts, suppliers)
    requires line.InRange(parts, suppliers)
    ensures Listed(t, 4 * parts, line.part, line.supplier) <==> IsReached(line.part, line.supplier, suppliers)
  {
    hide SupplierKey, Divides, Stride;
    forall j | 0 <= j < 4
      ensures SupplierKey(line.part, j, suppliers) == line.supplier <==>
        Divides(suppliers, line.supplier - 1 - (line.part + j * Stride(line.part, suppliers)))
    {
      KeyIsIff(line.part, j, line.supplier, suppliers);
    }
    if j :| 0 <= j < 4 && Divides(suppliers, line.supplier - 1 - (line.part + j * Stride(line.part, suppliers))) {
      RowOf(line.part, j);
      var i := 4 * (line.part - 1) + j;
      assert t.partKeys[i] == line.part && t.suppKeys[i] == line.supplier;
    }
    if i :| 0 <= i < 4 * parts && t.partKeys[i] == line.part && t.suppKeys[i] == line.supplier {
      assert SupplierKey(line.part, i % 4, suppliers) == line.supplier;
    }
  }

  lemma KeyIsIff(part: nat, j: nat, supplier: nat, suppliers: nat)
    requires part >= 1 && 1 <= supplier <= suppliers
    ensures SupplierKey(part, j, suppliers) == supplier <==>
      Divides(suppliers, supplier - 1 - (part + j * Stride(part, suppliers)))
  {
    hide Stride;
    SameRemainderIff(suppliers, part + j * Stride(part, suppliers), supplier - 1);
    QuotientIsUnique(suppliers, supplier - 1, 0, supplier - 1);
  }

  /** Of five suppliers or more, every part leaves one out that a line can draw. */
  lemma SomeSupplierIsUnlisted(t: PartSupp, parts: nat, suppliers: nat, part: nat) returns (supplier: nat)
    requires suppliers >= 5 && t.Length(4 * parts) && t.KeysAre(4 * parts, suppliers) && 1 <= part <= parts
    ensures 1 <= supplier <= suppliers && !Listed(t, 4 * parts, part, supplier)
  {
    hide SupplierKey;
    var a, b := SupplierKey(part, 0, suppliers), SupplierKey(part, 1, suppliers);
    var c, d := SupplierKey(part, 2, suppliers), SupplierKey(part, 3, suppliers);
    supplier := if 1 !in {a, b, c, d} then 1 else if 2 !in {a, b, c, d} then 2 else if 3 !in {a, b, c, d} then 3
      else if 4 !in {a, b, c, d} then 4 else 5;
    forall i | 0 <= i < 4 * parts && t.partKeys[i] == part
      ensures t.suppKeys[i] in {a, b, c, d}
    {
      assert t.suppKeys[i] == SupplierKey(part, i % 4, suppliers);
    }
  }
}
