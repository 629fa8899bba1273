/**
  The storefront's handlers over the catalog file. Each handler loads the
  whole document, changes it and saves it whole; there is no `await` between
  the load and the save, so on the bot's single event loop each handler's
  change is atomic. Channels are not modelled beyond a ticket object that
  exists while its channel does.
 */
module Storefront {
  import opened Wrappers
  import opened Catalog
  import Decimal
  import Access
  import Menu

  /** The outcome of adding a product. */
  datatype AddOutcome = AddDenied | InvalidStock | Added

  /** The outcome of the confirm button. */
  datatype ConfirmOutcome = ConfirmDenied | Refused(reason: SaleError) | Sold

  /** The catalog file: `None` while it does not exist yet. */
  class Store {
    var file: Option<Catalog>

    ghost predicate Valid()
      reads this
    {
      file.Some? ==> file.value.Valid()
    }

    /** What a load returns in the current state. */
    function Current(): (c: Catalog)
      reads this
      requires Valid()
      ensures c.Valid()
      ensures file.None? ==> c == Empty
    {
      if file.Some? then file.value else Empty
    }

    constructor ()
      ensures Valid() && file == None
    {
      file := None;
    }

    /** `carregar`: a missing file is first created holding `{}`; then the document is read. */
    method Load() returns (c: Catalog)
      requires Valid()
      modifies this
      ensures Valid()
      ensures c == old(Current()) && file == Some(c)
      ensures old(file).None? ==> c == Empty
      ensures old(file).Some? ==> c == old(file).value
    {
      if file.None? {
        file := Some(Empty);
      }
      c := file.value;
    }

    /** `salvar`: the document is overwritten whole. */
    method Save(c: Catalog)
      requires c.Valid()
      modifies this
      ensures Valid() && file == Some(c)
    {
      file := Some(c);
    }

    /** A saved catalog is what the next load returns. */
    method SaveThenLoad(c: Catalog) returns (d: Catalog)
      requires c.Valid()
      modifies this
      ensures Valid() && d == c && file == Some(c)
    {
      Save(c);
      d := Load();
    }

    /** The product menu's construction: loads the catalog and builds its options. */
    method RenderMenu() returns (options: seq<Menu.SelectOption>)
      requires Valid()
      modifies this
      ensures Valid() && file == Some(old(Current()))
      ensures options == Menu.Options(old(Current()))
    {
      var c := Load();
      options := Menu.BuildOptions(c);
    }

    /**
      The add-product form's submission: the stock text goes through `int()`,
      which raises before anything is stored; otherwise the record is stored
      under its name, replacing an earlier one. A negative stock is accepted.
     */
    method SubmitProduct(name: string, price: string, stockText: string, coupon: string) returns (o: AddOutcome)
      requires Valid()
      modifies this
      ensures Valid() && o != AddDenied
      ensures o == InvalidStock <==> Decimal.Parse(stockText).None?
      ensures o == InvalidStock ==> file == Some(old(Current()))
      ensures o == Added ==> file == Some(old(Current()).Put(name, Product(price, Decimal.Parse(stockText).value, coupon)))
    {
      var c := Load();
      var stock := Decimal.Parse(stockText);
      if stock.None? {
        return InvalidStock;
      }
      c := c.Put(name, Product(price, stock.value, coupon));
      Save(c);
      o := Added;
    }

    /**
      The add button followed by the form: only an administrator gets the
      form; anyone else is refused with the catalog file untouched.
     */
    method AddProduct(roles: seq<int>, name: string, price: string, stockText: string, coupon: string)
      returns (o: AddOutcome)
      requires Valid()
      modifies this
      ensures Valid()
      ensures o == AddDenied <==> !Access.IsAdmin(roles)
      ensures o == AddDenied ==> file == old(file)
      ensures o == InvalidStock <==> Access.IsAdmin(roles) && Decimal.Parse(stockText).None?
      ensures o == InvalidStock ==> file == Some(old(Current()))
      ensures o == Added ==> file == Some(old(Current()).Put(name, Product(price, Decimal.Parse(stockText).value, coupon)))
    {
      if !Access.IsAdmin(roles) {
        return AddDenied;
      }
      o := SubmitProduct(name, price, stockText, coupon);
    }

    /**
      Choosing a menu value: "0" is answered without reading the catalog;
      any other value is looked up first, and a name with no record fails
      there (a KeyError) before any channel is created. Otherwise a ticket
      channel named after the customer is opened for that product.
     */
    method ChooseProduct(value: string, userName: string) returns (t: Ticket?)
      requires Valid()
      modifies this
      ensures Valid()
      ensures value == "0" ==> file == old(file)
      ensures value != "0" ==> file == Some(old(Current()))
      ensures t != null <==> value != "0" && value in old(Current()).products
      ensures t != null ==> fresh(t) && t.open && t.product == value && t.channel == "ticket-" + userName
    {
      match Menu.Choose(value)
      case NothingToSell =>
        return null;
      case Ticket(product) =>
        var c := Load();
        if product !in c.products {
          return null;
        }
        t := new Ticket(product, "ticket-" + userName);
    }

    /** The stock-reset command: every stock set to zero. It checks no role. */
    method ResetStock()
      requires Valid()
      modifies this
      ensures Valid() && file == Some(Zeroed(old(Current())))
    {
      var c := Load();
      c := ResetAll(c);
      Save(c);
    }

    /** The clear-products command: the document `{}` is written. It checks no role. */
    method ClearProducts()
      requires Valid()
      modifies this
      ensures Valid() && file == Some(Empty)
    {
      Save(Empty);
    }
  }

  /**
    A purchase ticket: a channel with confirm and close buttons bound to one
    product name. It is open while its channel exists; the platform delivers
    no button press from a deleted channel.
   */
  class Ticket {
    const product: string
    const channel: string
    var open: bool

    constructor (product: string, channel: string)
      ensures this.product == product && this.channel == channel && open
    {
      this.product := product;
      this.channel := channel;
      open := true;
    }

    /**
      The confirm button: refused for a non-administrator without reading
      the catalog; otherwise one sale of the product is attempted on the
      catalog as stored now. The ticket stays open either way.
     */
    method Confirm(store: Store, roles: seq<int>) returns (o: ConfirmOutcome)
      requires open && store.Valid()
      modifies store
      ensures store.Valid() && open
      ensures o == ConfirmDenied <==> !Access.IsAdmin(roles)
      ensures o == ConfirmDenied ==> store.file == old(store.file)
      ensures Access.IsAdmin(roles) ==>
                var sale := Sell(old(store.Current()), product);
                && store.file == Some(sale.GetOr(old(store.Current())))
                && o == if sale.Success? then Sold else Refused(sale.error)
    {
      if !Access.IsAdmin(roles) {
        return ConfirmDenied;
      }
      var c := store.Load();
      if product !in c.products {
        return Refused(NotFound);
      }
      if c.products[product].stock <= 0 {
        return Refused(OutOfStock);
      }
      c := c.SetStock(product, c.products[product].stock - 1);
      store.Save(c);
      o := Sold;
    }

    /** The close button: an administrator deletes the channel; anyone else changes nothing. */
    method Close(roles: seq<int>) returns (closed: bool)
      requires open
      modifies this
      ensures closed <==> Access.IsAdmin(roles)
      ensures open <==> !closed
    {
      if !Access.IsAdmin(roles) {
        return false;
      }
      open := false;
      closed := true;
    }
  }
}
