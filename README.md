# Storefront catalog and tickets

A model of the catalog core of a chat-platform sales bot (`main.py`).
Administrators add products to one flat catalog: a dictionary from product
name to a record holding a price (free text), a stock count and a coupon,
stored whole in a JSON file. A panel shows a menu with one option per
product; choosing one opens a private "ticket" channel for that product, in
which an administrator confirms a sale (the stock goes down by one) or
closes the ticket (the channel is deleted). Two text commands reset every
stock to zero and remove every product.

Modules:

- `Wrappers` (`wrappers.dfy`): `Option` and `Result`.
- `Decimal` (`decimal.dfy`): Python's base-10 `int(text)` as `Parse` (None where it raises) and `str(n)` as `Show`, with the round trip `Parse(Show(n)) == Some(n)`.
- `Access` (`access.dfy`): the administrator predicate over a member's role ids.
- `Catalog` (`catalog.dfy`): the document as a value (a map plus the insertion order of its names, which the menu and the JSON file keep), storing a record, one sale, repeated sales, and the stock reset with its loop.
- `Menu` (`menu.dfy`): the menu options, the loop that builds them, and the choice a menu value stands for.
- `Storefront` (`storefront.dfy`): class `Store` holds the catalog file (`None` while the file does not exist) and has one method per handler, each a load, a change and a save; class `Ticket` is one ticket channel bound to a product name, open until an administrator closes it.

Each handler's load-change-save runs with no `await` between the load and the save, so on the bot's single event loop it is atomic, and the model runs each one as one step.

Behaviour of the code that the model keeps, some of it surprising:

- there is one catalog, not one per channel;
- stock may be negative, because `int()` accepts a minus sign (main.py:102);
- a confirm never ends a ticket, so the same ticket can sell again while stock lasts (`Catalog.SellTimesCount` counts the sales);
- adding a name that exists replaces its record, with no error;
- the reset and clear commands check no role (main.py:239-251);
- confirming a product that was removed after the ticket opened raises a KeyError, which the model reports as `Refused(NotFound)` with the catalog unchanged.

## Model

| member | source | states |
|---|---|---|
| `Decimal.Parse` | main.py:102 | `int(text)` succeeds only on text that has something left after stripping whitespace, and yields a negative number only when that text starts with a minus sign |
| `Decimal.ParseShow` | main.py:102 | `int(str(n)) == n` for every integer, negative ones included |
| `Decimal.Show` | main.py:134 | `str(n)` of the stock starts with a minus sign exactly when n is negative, ends with a digit, and is a lone digit when it has one character (its digits are `NatText`'s, and `ParseShow` reads it back) |
| `Decimal.SeparatorRejected` | main.py:102 | `int()` does not skip the separator characters \x1c-\x1f: a stock text "\x1c5" raises |
| `Decimal.NatTextValue` | main.py:134 | the digits `str(n)` writes for a natural number spell exactly `n` |
| `Decimal.NatText` | main.py:134 | `str(n)` of a natural number is a non-empty run of decimal digits |
| `Decimal.NegativeAccepted` | main.py:102 | `int("-1")` is -1: the stock field accepts negative numbers |
| `Decimal.NoDigitRejected` | main.py:102 | text without any digit (the empty field, a word) makes `int()` raise |
| `Access.IsAdmin` | main.py:39-40 | a member is an administrator exactly when one of its role ids is the administrator role id |
| `Catalog.Catalog.Put` | main.py:100-104 | storing a record under a name keeps a well-formed catalog well-formed (every name listed once), makes that name hold exactly the new record, leaves every other record as it was, keeps existing names in place and adds a new name last |
| `Catalog.Catalog.SetStock` | main.py:198 | changing one product's stock changes that field only: names, order, other products, price and coupon are kept |
| `Catalog.EmptyValid` | main.py:29-31 | the document written when no file exists is a well-formed catalog with no products |
| `Catalog.PutLastWins` | main.py:100-104 | adding the same name twice leaves exactly what adding it once with the second record leaves |
| `Catalog.Sell` | main.py:194-199 | a sale succeeds exactly when the product has a record with stock above zero; then that stock drops by exactly one and nothing else changes; otherwise the reason is a missing record or no stock |
| `Catalog.SellKeepsNonNegative` | main.py:195-198 | a sale never turns a catalog with no negative stock into one with a negative stock |
| `Catalog.SellTimes` | main.py:194-199 | n successive confirmations of one product, each on the catalog the previous one left, keep a well-formed catalog well-formed and succeed at most n times |
| `Catalog.SellTimesCount` | main.py:194-199 | n confirmations on a product with stock s: exactly min(n, s) succeed (none if s is not positive), the stock ends at s minus that, and everything else is unchanged |
| `Catalog.SellTimesKeepsOthers` | main.py:194-199 | repeated confirmations of one product leave the order and every other product's record as they were |
| `Catalog.Zeroed` | main.py:242-243 | the reset catalog has every stock zero and the same names, order, prices and coupons |
| `Catalog.ResetAll` | main.py:242-243 | the reset loop over the names in catalog order yields the reset catalog |
| `Catalog.ZeroedIdempotent` | main.py:240-244 | resetting a reset catalog changes nothing |
| `Catalog.ZeroedRefusesSales` | main.py:195-196 | after a reset no stock is negative and every confirmation is refused |
| `Menu.Describe` | main.py:134 | an option's description is "Preço: " and the price, then " \| Estoque: ", then exactly `str()` of the stock |
| `Menu.DescriptionShowsStock` | main.py:134 | the stock text at the end of a description reads back through `int()` as the product's stock |
| `Menu.OptionFor` | main.py:135 | a product's option is captioned with its name, its value defaults to the caption, and its description is the product's description line |
| `Menu.Options` | main.py:130-140 | the menu has one option per product in catalog order, captioned and valued with the product's name and described by its price and stock; an empty catalog gets the single placeholder option |
| `Menu.BuildOptions` | main.py:131-138 | the option-building loop, with the placeholder appended when no option was added, yields exactly the menu's options |
| `Menu.Choose` | main.py:143-147 | the value "0", and only it, is answered with "no product available"; any other value asks for a ticket for that name |
| `Menu.PlaceholderSellsNothing` | main.py:137-145 | choosing the placeholder of an empty catalog never asks for a ticket |
| `Menu.ChosenOptionNamesProduct` | main.py:133-147 | choosing a product's option asks for a ticket for that very product (unless it is named "0"), and any ticket asked for names a product of the catalog the menu was built from |
| `Menu.ProductNamedZeroUnreachable` | main.py:135-145 | a product named "0" is listed, yet choosing its option is answered like the placeholder |
| `Menu.OptionsDistinct` | main.py:133-135 | no two options of a non-empty menu carry the same value |
| `Storefront.Store.Load` | main.py:28-33 | a missing file is created holding the empty catalog, which is returned; an existing document is returned as stored |
| `Storefront.Store.Save` | main.py:35-37 | the stored document becomes exactly the given catalog |
| `Storefront.Store.SaveThenLoad` | main.py:28-37 | loading after saving a catalog returns that catalog |
| `Storefront.Store.RenderMenu` | main.py:129-140 | the menu is built from the catalog as loaded, and the only change to the file is its creation when missing |
| `Storefront.Store.SubmitProduct` | main.py:98-106 | a stock text `int()` rejects stores nothing (the file is at most created); otherwise the record with the parsed stock is stored under the name, replacing an earlier one, and nothing else changes |
| `Storefront.Store.AddProduct` | main.py:121-124 | a non-administrator is refused and the file is untouched; an administrator's submission behaves as the form's submission |
| `Storefront.Store.ChooseProduct` | main.py:142-165 | the value "0" opens nothing and does not touch the file; another value opens a ticket, on a fresh open channel named after the customer and bound to that name, exactly when the loaded catalog has that name |
| `Storefront.Store.ResetStock` | main.py:239-245 | without any role check, the file afterwards holds the reset catalog |
| `Storefront.Store.ClearProducts` | main.py:248-251 | without any role check, the file afterwards holds the empty catalog |
| `Storefront.Ticket.constructor` | main.py:178-183 | a new ticket is open and bound to the chosen product name |
| `Storefront.Ticket.Confirm` | main.py:190-202 | a non-administrator is refused and the file is untouched; an administrator's press performs one sale on the catalog as stored now, stores its result only when it succeeds, and reports success or the reason; the ticket stays open either way |
| `Storefront.Ticket.Close` | main.py:209-212 | an administrator's press closes the ticket; anyone else's leaves it open |

## Left out

- Platform transport and rendering: modals, views and buttons, embeds, ephemeral replies, channel permission overwrites and the ticket category; a channel is modelled only as a `Ticket` object that is open until closed.
- The ticket's embed (product, price, stock, coupon shown as "Nenhum" when empty) and the confirmation message: rendering only.
- The panel form and its colour and image handling (main.py:50-83) and the `vendas` command that offers it (main.py:216-236): presentation only.
- The platform's own limits on a menu (at most 25 options, bounded caption and description lengths), which make a panel with more products fail when sent: they belong to the platform, not to this code.
- JSON encoding and file I/O: the document is a state field, and a save followed by a load is taken to return the same ordered dictionary, as Python's `json` module does for string keys, strings and integers. A file that exists but is not valid JSON or lacks a field is not modelled.
- `Decimal.Parse`: non-ASCII decimal digits and non-ASCII whitespace, which Python's `int()` also accepts, are not modelled; the text is taken as ASCII.
- Concurrency between handlers: each handler's load-change-save has no `await` inside it, so each is modelled as one atomic step.
- Bot start-up, token handling and the keep-alive web server (main.py:15-24, 255; keep_alive.py).
- The panel and its menu are built once, when the panel is posted; later catalog changes reach a menu only through the lookup on choosing. The model takes any menu value as input to `Storefront.Store.ChooseProduct` for that reason, stale ones included.
