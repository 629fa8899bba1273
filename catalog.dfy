/**
  The persisted product catalog: one dictionary from product name to a record
  with a price, a stock count and a coupon. Python dictionaries keep insertion
  order, the JSON document keeps it too, and the menu lists products in it, so
  the catalog is a map together with the order of its names.
 */
module Catalog {
  import opened Wrappers

  /** One record: `{"preco": ..., "estoque": ..., "cupom": ...}`. */
  datatype Product = Product(price: string, stock: int, coupon: string)

  datatype Catalog = Catalog(names: seq<string>, products: map<string, Product>) {

    /** Every name listed once, and exactly the names that have a record. */
    ghost predicate Valid() {
      && (forall i, j :: 0 <= i < j < |names| ==> names[i] != names[j])
      && (forall n :: n in products <==> n in names)
    }

    /** Every listed name has a record. */
    ghost predicate Listed() {
      forall n :: n in names ==> n in products
    }

    /**
      `dados[name] = p`: the record for `name` becomes `p`, replacing any
      earlier one; a new name goes last, an existing name keeps its place.
     */
    function Put(name: string, p: Product): (r: Catalog)
      ensures Valid() ==> r.Valid()
      ensures r.products.Keys == products.Keys + {name}
      ensures r.products[name] == p
      ensures forall n :: n in products && n != name ==> r.products[n] == products[n]
      ensures |names| <= |r.names| && r.names[..|names|] == names
      ensures name in products ==> r.names == names
    {
      if name in products then Catalog(names, products[name := p])
      else Catalog(names + [name], products[name := p])
    }

    /** `dados[name]["estoque"] = stock`, for a name that has a record. */
    function SetStock(name: string, stock: int): (r: Catalog)
      requires name in products
      ensures Valid() ==> r.Valid()
      ensures r.names == names && r.products.Keys == products.Keys
      ensures r.products[name] == products[name].(stock := stock)
      ensures forall n :: n in products && n != name ==> r.products[n] == products[n]
    {
      Put(name, products[name].(stock := stock))
    }
  }

  /** The document `{}`. */
  const Empty := Catalog([], map[])

  lemma EmptyValid()
    ensures Empty.Valid() && Empty.products.Keys == {}
  {
  }

  /** Re-adding a name: the record stored is the last one given, and the name is still listed once. */
  lemma PutLastWins(c: Catalog, name: string, p: Product, q: Product)
    ensures c.Put(name, p).Put(name, q) == c.Put(name, q)
  {
    var first := c.Put(name, p);
    assert first.products == c.products[name := p];
    assert first.names == if name in c.products then c.names else c.names + [name];
    assert c.products[name := p][name := q] == c.products[name := q];
  }

  ghost predicate NonNegative(c: Catalog) {
    forall n :: n in c.products ==> c.products[n].stock >= 0
  }

  /** Why a sale was refused: the name has no record (a KeyError), or its stock is not positive. */
  datatype SaleError = NotFound | OutOfStock

  /**
    One confirmed sale of `name`: fails when the name has no record or its
    stock is zero or less; otherwise that stock goes down by exactly one and
    nothing else changes.
   */
  function Sell(c: Catalog, name: string): (r: Result<Catalog, SaleError>)
    ensures r.Success? <==> name in c.products && c.products[name].stock > 0
    ensures r.Failure? ==> r.error == if name in c.products then OutOfStock else NotFound
    ensures r.Success? && c.Valid() ==> r.value.Valid()
    ensures r.Success? ==> && r.value.names == c.names
                           && r.value.products.Keys == c.products.Keys
                           && r.value.products[name] == c.products[name].(stock := c.products[name].stock - 1)
                           && forall n :: n in c.products && n != name ==> r.value.products[n] == c.products[n]
  {
    if name !in c.products then Failure(NotFound)
    else if c.products[name].stock <= 0 then Failure(OutOfStock)
    else Success(c.SetStock(name, c.products[name].stock - 1))
  }

  /** A sale never takes a stock below zero. */
  lemma SellKeepsNonNegative(c: Catalog, name: string)
    requires NonNegative(c)
    ensures Sell(c, name).Success? ==> NonNegative(Sell(c, name).value)
  {
  }

  /** `n` confirmations in a row on the same name: the catalog after them and how many succeeded. */
  function SellTimes(c: Catalog, name: string, n: nat): (r: (Catalog, nat))
    ensures c.Valid() ==> r.0.Valid()
    ensures r.1 <= n
    ensures name in c.products ==> name in r.0.products
    decreases n
  {
    if n == 0 then (c, 0)
    else
      match Sell(c, name)
      case Success(next) =>
        var (last, sold) := SellTimes(next, name, n - 1);
        (last, sold + 1)
      case Failure(_) => SellTimes(c, name, n - 1)
  }

  function Min(a: int, b: int): int {
    if a <= b then a else b
  }

  /**
    `n` confirmations on a product with stock `s`: exactly `min(n, s)` succeed
    (none when `s` is not positive), the stock ends at `s` minus that, and
    every other product and field is as before.
   */
  lemma {:induction false} SellTimesCount(c: Catalog, name: string, n: nat)
    requires name in c.products
    ensures var s := c.products[name].stock;
            SellTimes(c, name, n).1 == if s <= 0 then 0 else Min(n, s)
    ensures SellTimes(c, name, n).0.products[name]
              == c.products[name].(stock := c.products[name].stock - SellTimes(c, name, n).1)
    ensures SellTimesOthersKept(c, name, SellTimes(c, name, n).0)
    decreases n
  {
    SellTimesKeepsOthers(c, name, n);
    if n > 0 {
      var sale := Sell(c, name);
      if sale.Success? {
        var next := sale.value;
        SellTimesCount(next, name, n - 1);
        var later := SellTimes(next, name, n - 1);
        assert SellTimes(c, name, n) == (later.0, later.1 + 1);
        assert next.products[name].stock == c.products[name].stock - 1;
      } else {
        SellTimesCount(c, name, n - 1);
        assert SellTimes(c, name, n) == SellTimes(c, name, n - 1);
      }
    }
  }

  /** Repeated confirmations of one product leave every other product, and the order, as they were. */
  lemma {:induction false} SellTimesKeepsOthers(c: Catalog, name: string, n: nat)
    ensures SellTimesOthersKept(c, name, SellTimes(c, name, n).0)
    decreases n
  {
    if n > 0 {
      var sale := Sell(c, name);
      if sale.Success? {
        SellTimesKeepsOthers(sale.value, name, n - 1);
      } else {
        SellTimesKeepsOthers(c, name, n - 1);
      }
    }
  }

  /** `last` has the names, order and records of `c`, except perhaps the record of `name`. */
  ghost predicate SellTimesOthersKept(c: Catalog, name: string, last: Catalog) {
    && last.names == c.names
    && last.products.Keys == c.products.Keys
    && forall m :: m in c.products && m != name ==> last.products[m] == c.products[m]
  }

  /** `for p in dados: dados[p]["estoque"] = 0`: every stock zero, names, order, prices and coupons kept. */
  function Zeroed(c: Catalog): (r: Catalog)
    ensures c.Valid() ==> r.Valid()
    ensures r.names == c.names && r.products.Keys == c.products.Keys
    ensures forall n :: n in c.products ==> && r.products[n].stock == 0
                                            && r.products[n].price == c.products[n].price
                                            && r.products[n].coupon == c.products[n].coupon
  {
    Catalog(c.names, map n | n in c.products :: c.products[n].(stock := 0))
  }

  /** The reset loop of the stock-reset command, over the names in catalog order. */
  method ResetAll(c: Catalog) returns (r: Catalog)
    requires c.Valid()
    ensures r == Zeroed(c)
  {
    r := c;
    var i := 0;
    while i < |c.names|
      invariant 0 <= i <= |c.names|
      invariant r.names == c.names && r.products.Keys == c.products.Keys
      invariant forall n :: n in c.products ==>
                  r.products[n] == if n in c.names[..i] then c.products[n].(stock := 0) else c.products[n]
    {
      assert c.names[..i + 1] == c.names[..i] + [c.names[i]];
      r := r.SetStock(c.names[i], 0);
      i := i + 1;
    }
    assert c.names[..i] == c.names;
  }

  /** Resetting twice is resetting once. */
  lemma ZeroedIdempotent(c: Catalog)
    ensures Zeroed(Zeroed(c)) == Zeroed(c)
  {
    assert Zeroed(Zeroed(c)).products == Zeroed(c).products;
  }

  /** After a reset every confirmation is refused until a product is re-added. */
  lemma ZeroedRefusesSales(c: Catalog, name: string)
    ensures NonNegative(Zeroed(c))
    ensures Sell(Zeroed(c), name).Failure?
  {
  }
}
