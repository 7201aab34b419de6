/** The TPC-H generator's part-supplier table (`bench.rs`). */
module TpchPartsupp {
  import opened TpchRandom

  /** How far apart the suppliers of a part are placed. */
  function Stride(pk: nat, suppliers: nat): nat
    requires pk >= 1 && suppliers >= 1
  {
    suppliers / 4 + (pk - 1) / suppliers
  }

  function SupplierKey(pk: nat, j: nat, suppliers: nat): nat
    requires pk >= 1 && suppliers >= 1
  {
    (pk + j * Stride(pk, suppliers)) % suppliers + 1
  }

  datatype PartSupp = PartSupp(
    partKeys: seq<nat>, suppKeys: seq<nat>, availQtys: seq<int>, supplyCosts: seq<real>, comments: seq<string>)
  {
    predicate Length(n: nat) {
      |partKeys| == |suppKeys| == |availQtys| == |supplyCosts| == |comments| == n
    }

    /** Row `i` is supplier `i % 4` of part `i / 4 + 1`. */
    predicate KeysAre(n: nat, suppliers: nat)
      requires suppliers >= 1 && Length(n)
    {
      forall i :: 0 <= i < n ==> partKeys[i] == i / 4 + 1 && suppKeys[i] == SupplierKey(i / 4 + 1, i % 4, suppliers)
    }

    predicate AmountsInRange(n: nat)
      requires Length(n)
    {
      forall i :: 0 <= i < n ==>
        1 <= availQtys[i] <= 9999 && 1.0 <= supplyCosts[i] <= 1000.0 && 50 <= |comments[i]| <= 150
    }

    /** The keys refer to existing parts and suppliers. */
    predicate InRange(parts: nat, suppliers: nat)
      requires Length(4 * parts)
    {
      && AmountsInRange(4 * parts)
      && forall i :: 0 <= i < 4 * parts ==> 1 <= partKeys[i] <= parts && 1 <= suppKeys[i] <= suppliers
    }
  }

  method GenPartsupp(scale: real) returns (t: PartSupp)
    ensures t.Length(4 * PartCount(scale)) && t.KeysAre(4 * PartCount(scale), SupplierCount(scale))
    ensures t.InRange(PartCount(scale), SupplierCount(scale))
  {
    hide SupplierKey;
    var parts, suppliers := PartCount(scale), SupplierCount(scale);
    var rng := new Rng(600);
    t := PartSupp([], [], [], [], []);
    for pk := 1 to parts + 1
      invariant t.Length(4 * (pk - 1)) && t.KeysAre(4 * (pk - 1), suppliers)
      invariant t.AmountsInRange(4 * (pk - 1))
    {
      for j := 0 to 4
        invariant t.Length(4 * (pk - 1) + j) && t.KeysAre(4 * (pk - 1) + j, suppliers)
        invariant t.AmountsInRange(4 * (pk - 1) + j)
      {
        RowOf(pk, j);
        var qty := rng.NextRange(1, 9999);
        var cost := rng.NextRange(100, 100000);
        var comment := rng.GenString(50, 150);
        t := PartSupp(t.partKeys + [pk], t.suppKeys + [SupplierKey(pk, j, suppliers)], t.availQtys + [qty],
                      t.supplyCosts + [cost as real / 100.0], t.comments + [comment]);
      }
    }
    forall i | 0 <= i < 4 * parts
      ensures 1 <= t.partKeys[i] <= parts && 1 <= t.suppKeys[i] <= suppliers
    {
      SupplierKeyInRange(i / 4 + 1, i % 4, suppliers);
    }
  }

  lemma RowOf(pk: nat, j: nat)
    requires pk >= 1 && j < 4
    ensures (4 * (pk - 1) + j) / 4 + 1 == pk && (4 * (pk - 1) + j) % 4 == j
  {
  }

  lemma SupplierKeyInRange(pk: nat, j: nat, suppliers: nat)
    requires pk >= 1 && suppliers >= 1
    ensures 1 <= SupplierKey(pk, j, suppliers) <= suppliers
  {
  }

  // ---- When the suppliers of a part differ ----

  predicate Divides(s: nat, n: int)
    requires s >= 1
  {
    n % s == 0
  }

  /** Quotient and remainder are the only pair that reconstructs the number. */
  lemma QuotientIsUnique(s: nat, n: int, q: int, r: int)
    requires s >= 1 && n == q * s + r && 0 <= r < s
    ensures n / s == q && n % s == r
  {
    var k := n / s - q;
    assert k * s == n / s * s - q * s;
    MultipleGrows(s, k);
  }

  lemma MultipleGrows(s: nat, k: int)
    ensures k >= 1 ==> k * s >= s
    ensures k <= -1 ==> k * s + s <= 0
  {
    if k >= 1 {
      assert (k - 1) * s >= 0;
    } else if k <= -1 {
      assert (-1 - k) * s >= 0;
    }
  }

  /** Two numbers leave the same remainder exactly when their difference is a multiple. */
  lemma SameRemainderIff(s: nat, a: int, b: int)
    requires s >= 1
    ensures a % s == b % s <==> Divides(s, b - a)
  {
    var qa, qb := a / s, b / s;
    if a % s == b % s {
      assert b - a == (qb - qa) * s;
      QuotientIsUnique(s, b - a, qb - qa, 0);
    }
    if Divides(s, b - a) {
      var q := (b - a) / s;
      assert b == (qa + q) * s + a % s;
      QuotientIsUnique(s, b, qa + q, a % s);
    }
  }

  predicate SuppliersDiffer(pk: nat, suppliers: nat)
    requires pk >= 1 && suppliers >= 1
  {
    forall i, j :: 0 <= i < j < 4 ==> SupplierKey(pk, i, suppliers) != SupplierKey(pk, j, suppliers)
  }

  lemma KeysEqualIff(pk: nat, i: nat, j: nat, suppliers: nat)
    requires pk >= 1 && suppliers >= 1
    ensures SupplierKey(pk, i, suppliers) == SupplierKey(pk, j, suppliers) <==>
      Divides(suppliers, (j - i) * Stride(pk, suppliers))
  {
    hide Stride;
    var d := Stride(pk, suppliers);
    SameRemainderIff(suppliers, pk + i * d, pk + j * d);
    assert pk + j * d - (pk + i * d) == (j - i) * d;
  }

  predicate RepeatsAt(suppliers: nat, d: nat)
    requires suppliers >= 1
  {
    Divides(suppliers, d) || Divides(suppliers, 2 * d) || Divides(suppliers, 3 * d)
  }

  /** The four suppliers of a part differ exactly when the supplier count divides none of d, 2d and 3d. */
  lemma SuppliersDifferIff(pk: nat, suppliers: nat)
    requires pk >= 1 && suppliers >= 1
    ensures SuppliersDiffer(pk, suppliers) <==> !RepeatsAt(suppliers, Stride(pk, suppliers))
  {
    hide SupplierKey, Divides, Stride;
    var d := Stride(pk, suppliers);
    assert 1 * d == d;
    forall i, j | 0 <= i < j < 4
      ensures SupplierKey(pk, i, suppliers) == SupplierKey(pk, j, suppliers) <==>
        Divides(suppliers, (j - i) * d)
    {
      KeysEqualIff(pk, i, j, suppliers);
    }
    forall j | 1 <= j < 4
      ensures SupplierKey(pk, 0, suppliers) == SupplierKey(pk, j, suppliers) <==> Divides(suppliers, j * d)
    {
      KeysEqualIff(pk, 0, j, suppliers);
    }
  }

  // ---- When the suppliers of every part differ ----

  /** The least stride, from a quarter of the suppliers on, at which suppliers repeat. */
  function FirstBadStride(suppliers: nat): nat {
    if suppliers % 3 == 0 then suppliers / 3 else if suppliers % 2 == 0 then suppliers / 2 else suppliers
  }

  lemma GoodStrides(suppliers: nat, d: nat)
    requires suppliers >= 1 && 1 <= d < FirstBadStride(suppliers)
    ensures !RepeatsAt(suppliers, d)
  {
    hide Divides;
    SmallMultiples(suppliers, d);
    SmallMultiples(suppliers, 2 * d);
    SmallMultiples(suppliers, 3 * d);
  }

  lemma SmallMultiples(s: nat, n: nat)
    requires s >= 1 && 0 < n < 3 * s
    ensures Divides(s, n) ==> n == s || n == 2 * s
  {
    if n < s {
      QuotientIsUnique(s, n, 0, n);
    } else if n < 2 * s {
      QuotientIsUnique(s, n, 1, n - s);
    } else {
      QuotientIsUnique(s, n, 2, n - 2 * s);
    }
  }

  lemma BadStride(suppliers: nat)
    requires suppliers >= 1
    ensures RepeatsAt(suppliers, FirstBadStride(suppliers))
  {
    QuotientIsUnique(suppliers, suppliers, 1, 0);
  }

  /**
   * Every part of the table has four different suppliers, so that part and supplier together identify a row,
   * exactly when the stride of the last part stays below the first bad one.
   */
  lemma TableSuppliersDifferIff(parts: nat, suppliers: nat)
    requires parts >= 1 && suppliers >= 4
    ensures (forall pk :: 1 <= pk <= parts ==> SuppliersDiffer(pk, suppliers)) <==>
      Stride(parts, suppliers) < FirstBadStride(suppliers)
  {
    hide SuppliersDiffer, RepeatsAt, Divides;
    var bad := FirstBadStride(suppliers);
    if Stride(parts, suppliers) < bad {
      forall pk | 1 <= pk <= parts
        ensures SuppliersDiffer(pk, suppliers)
      {
        StrideGrows(pk, parts, suppliers);
        GoodStrides(suppliers, Stride(pk, suppliers));
        SuppliersDifferIff(pk, suppliers);
      }
    } else {
      var pk := (bad - suppliers / 4) * suppliers + 1;
      FirstPartAt(parts, suppliers, bad);
      BadStride(suppliers);
      SuppliersDifferIff(pk, suppliers);
      assert !SuppliersDiffer(pk, suppliers);
    }
  }

  lemma StrideGrows(pk: nat, parts: nat, suppliers: nat)
    requires 1 <= pk <= parts && suppliers >= 4
    ensures 1 <= Stride(pk, suppliers) <= Stride(parts, suppliers)
  {
    DivisionGrows(pk - 1, parts - 1, suppliers);
  }

  lemma DivisionGrows(a: nat, b: nat, s: nat)
    requires a <= b && s >= 1
    ensures a / s <= b / s
  {
    var k := a / s - b / s;
    MultipleGrows(s, k);
    assert k * s == a / s * s - b / s * s;
  }

  /** The first part placed with a given stride. */
  lemma FirstPartAt(parts: nat, suppliers: nat, d: nat)
    requires parts >= 1 && suppliers >= 1 && suppliers / 4 <= d <= Stride(parts, suppliers)
    ensures 1 <= (d - suppliers / 4) * suppliers + 1 <= parts
    ensures Stride((d - suppliers / 4) * suppliers + 1, suppliers) == d
  {
    var q := d - suppliers / 4;
    QuotientIsUnique(suppliers, q * suppliers, q, 0);
    var last := (parts - 1) / suppliers;
    MultipleGrows(suppliers, last - q);
    assert (last - q) * suppliers == last * suppliers - q * suppliers;
  }

  /** At whole scale factors the rows are identified by part and supplier only from 80, or from 240, on. */
  lemma WholeScaleSuppliersDifferIff(scale: nat)
    requires scale >= 1
    ensures PartCount(scale as real) == 200000 * scale && SupplierCount(scale as real) == 100 * scale
    ensures (forall pk :: 1 <= pk <= 200000 * scale ==> SuppliersDiffer(pk, 100 * scale)) <==>
      scale >= (if scale % 3 == 0 then 240 else 80)
  {
    hide SuppliersDiffer;
    var parts, suppliers := 200000 * scale, 100 * scale;
    TableSuppliersDifferIff(parts, suppliers);
    assert parts - 1 == 1999 * suppliers + (suppliers - 1);
    QuotientIsUnique(suppliers, parts - 1, 1999, suppliers - 1);
    assert Stride(parts, suppliers) == 25 * scale + 1999;
  }

  /** Every smaller scale factor leaves ten suppliers, and some part then repeats one. */
  lemma SmallScaleSuppliersRepeat(scale: real)
    requires scale < 0.11
    ensures SupplierCount(scale) == 10
    ensures exists pk :: 1 <= pk <= PartCount(scale) && !SuppliersDiffer(pk, 10)
  {
    hide SuppliersDiffer;
    TableSuppliersDifferIff(PartCount(scale), 10);
    DivisionGrows(99, PartCount(scale) - 1, 10);
  }
}
