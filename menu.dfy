/**
  The product menu of the storefront panel and what choosing one of its
  options does. An option's value defaults to its caption (the label shown), so the value of a
  product's option is the product's name; an empty catalog gets one
  placeholder option whose value is "0".
 */
module Menu {
  import opened Catalog
  import Decimal
  import opened Wrappers

  datatype SelectOption = SelectOption(caption: string, description: string, value: string)

  /** The placeholder shown when there are no products. */
  const Placeholder := SelectOption("Sem produtos", "Nenhum cadastrado", "0")

  /**
    The description line of a product's option: the price after "Preço: ",
    then " | Estoque: " and the stock as `str()` writes it.
   */
  function Describe(p: Product): (r: string)
    ensures |DescriptionHead(p)| < |r| && r[..|DescriptionHead(p)|] == DescriptionHead(p)
    ensures r[|DescriptionHead(p)|..] == Decimal.Show(p.stock)
  {
    var head := DescriptionHead(p);
    assert (head + Decimal.Show(p.stock))[|head|..] == Decimal.Show(p.stock);
    head + Decimal.Show(p.stock)
  }

  function DescriptionHead(p: Product): string {
    "Preço: " + p.price + " | Estoque: "
  }

  /** The stock shown in a description reads back, through `int()`, as the product's stock. */
  lemma DescriptionShowsStock(p: Product)
    ensures Decimal.Parse(Describe(p)[|DescriptionHead(p)|..]) == Some(p.stock)
  {
    Decimal.ParseShow(p.stock);
  }

  /** A product's option: captioned with its name and, the value defaulting to the caption, valued with it too. */
  function OptionFor(name: string, p: Product): (o: SelectOption)
    ensures o.caption == name && o.value == o.caption
    ensures o.description == Describe(p)
  {
    SelectOption(name, Describe(p), name)
  }

  /**
    The options of the menu for catalog `c`: one per product in catalog order,
    captioned with its name and valued with its name, or the placeholder alone
    when the catalog is empty.
   */
  function Options(c: Catalog): (r: seq<SelectOption>)
    requires c.Listed()
    ensures |r| == if c.names == [] then 1 else |c.names|
    ensures c.names == [] ==> r[0] == Placeholder
    ensures forall i :: 0 <= i < |c.names| ==> && r[i].caption == c.names[i]
                                                && r[i].value == c.names[i]
                                                && r[i].description == Describe(c.products[c.names[i]])
  {
    if c.names == [] then [Placeholder]
    else seq(|c.names|, i requires 0 <= i < |c.names| => OptionFor(c.names[i], c.products[c.names[i]]))
  }

  /** The option-building loop of the menu's construction. */
  method BuildOptions(c: Catalog) returns (options: seq<SelectOption>)
    requires c.Listed()
    ensures options == Options(c)
  {
    options := [];
    var i := 0;
    while i < |c.names|
      invariant 0 <= i <= |c.names|
      invariant |options| == i
      invariant forall k :: 0 <= k < i ==> options[k] == OptionFor(c.names[k], c.products[c.names[k]])
    {
      var name := c.names[i];
      options := options + [OptionFor(name, c.products[name])];
      i := i + 1;
    }
    if options == [] {
      options := options + [Placeholder];
    }
  }

  /** What choosing a menu value asks for: nothing (the value "0") or a ticket for a product name. */
  datatype Choice = NothingToSell | Ticket(product: string)

  /** The menu's callback: the value "0" is answered with "no product available". */
  function Choose(value: string): (r: Choice)
    ensures r == NothingToSell <==> value == "0"
    ensures r.Ticket? ==> r.product == value
  {
    if value == "0" then NothingToSell else Ticket(value)
  }

  /** Choosing the placeholder never asks for a ticket. */
  lemma PlaceholderSellsNothing(c: Catalog)
    requires c.names == []
    ensures Choose(Options(c)[0].value) == NothingToSell
  {
  }

  /**
    Choosing option `i` of a non-empty catalog asks for a ticket for product
    `c.names[i]`, which that same catalog holds, unless the product is
    literally named "0".
   */
  lemma ChosenOptionNamesProduct(c: Catalog, i: nat)
    requires c.Listed() && i < |c.names|
    ensures c.names[i] != "0" ==> Choose(Options(c)[i].value) == Ticket(c.names[i])
    ensures Choose(Options(c)[i].value).Ticket? ==> Choose(Options(c)[i].value).product in c.products
  {
  }

  /**
    A product named "0" is listed, yet choosing it is answered like the
    placeholder: no ticket can be opened for it.
   */
  lemma ProductNamedZeroUnreachable(c: Catalog)
    requires c.Valid() && "0" in c.products
    ensures exists i :: 0 <= i < |Options(c)| && Options(c)[i].caption == "0" && Choose(Options(c)[i].value) == NothingToSell
  {
    var i :| 0 <= i < |c.names| && c.names[i] == "0";
    assert Options(c)[i].caption == "0";
  }

  /** The menu lists no name twice. */
  lemma OptionsDistinct(c: Catalog)
    requires c.Valid() && c.names != []
    ensures forall i, j :: 0 <= i < j < |Options(c)| ==> Options(c)[i].value != Options(c)[j].value
  {
  }
}
