# Vending-machine storefront: cart, tender and payment state

This project models the client-side purchase state of a vending-machine web storefront, written in Dafny:

- the **cart store**: a list of `{id, name, price, quantity}` lines keyed by product id;
- the **money store**: the coins and banknotes inserted during a payment, kept as `{value, count}` entries keyed by face value, plus a running `total`;
- the pure part of the **payment modal**:
  - the denomination buttons;
  - the purchase request it builds from the two stores;
  - the state changes that follow a response or a cancel.

The modal store (the `showModal` / `showChangeModal` flags) and the transaction store (the latest receipt) are fields of `Payment.Session`. The backend is a function parameter. It maps the request to what awaiting the HTTP call yields: a response, an HTTP-client error, or any other thrown value.

Files:

- `seqs.dfy`: `Wrappers.Option`, plus the `filter` / `find` / key-uniqueness helpers both stores use.
- `cart.dfy`: module `Cart`.
- `money.dfy`: module `Money`.
- `payment.dfy`: module `Payment`.

Every store update is a pure function from the old state to the new one, as in the source. Prices and amounts are whole THB (`int`).

The invariants are predicates:

- `Cart.WellFormed`: one line per product id, and every quantity positive.
- `Money.WellFormed`: one entry per face value, no negative count, and `total` equal to the sum of `value * count`.

Lemmas show which operations preserve these invariants, and under which conditions.

Three behaviours of the program are easy to misread:

- Closing the receipt modal only clears its flag (`components/change-modal.tsx`). It does not clear the cart or reset the money. That modal is outside this model.
- A rejected payment raises a warning titled with the server's `message`, or `"Error"` when that message is missing or empty (`components/payment-modal.tsx:73`).
- `updateQuantity` sets the quantity with no lower bound, so it can leave a line with zero or negative units in the cart. `Cart.UpdateQuantityCanEmptyLine` exhibits this.

## Model

| member | source | states |
|---|---|---|
| `Seqs.Filter` | stores/use-cart-store.ts:43-46 | Array `filter`: every element of the result passes the test, and a value occurs in the result exactly when it occurs in the input and passes the test. |
| `Seqs.FilterOrder` | stores/use-cart-store.ts:43-46 | `filter` keeps each passing value's multiplicity, drops every failing value, and keeps the survivors in their original relative order. |
| `Seqs.Find` | stores/use-money-store.ts:25-27 | Array `find`: it returns the first element that satisfies the test, and none exactly when no element does. |
| `Cart.TotalPrice` | components/payment-modal.tsx:35-37 | The displayed cart price is the sum of `price * quantity` over the lines, computed by a left fold from 0. With positive prices and quantities it is positive exactly when the cart is non-empty. |
| `Cart.PriceFold` | components/payment-modal.tsx:35-37 | The `reduce` loop from any starting sum ends at that sum plus the sum of `price * quantity`. |
| `Cart.AddToCart` | stores/use-cart-store.ts:25-40 | If the id is already in the cart, the item's quantity is added to that line and nothing else changes, including the length. Otherwise the item is appended at the end. |
| `Cart.AddToCartEffect` | stores/use-cart-store.ts:25-40 | Ids stay pairwise distinct. The units of `item.id` grow by `item.quantity`, and those of every other product are unchanged. The price grows by those units at the existing line's unit price. Positivity is kept for a positive quantity. |
| `Cart.AddToExisting` | stores/use-cart-store.ts:27-35 | When a line with the item's id exists: ids stay unique, the product gains exactly `item.quantity` units, other products are unchanged, and the price grows by those units at the line's unit price. |
| `Cart.AddNewLine` | stores/use-cart-store.ts:38-39 | When no line has the item's id: ids stay unique, the product's units become `item.quantity`, other products are unchanged, and the price grows by `item.quantity * item.price`. |
| `Cart.RemoveFromCart` | stores/use-cart-store.ts:43-46 | No line with the id remains. Every other line survives with its multiplicity and in its relative order. |
| `Cart.RemoveFromCartEffect` | stores/use-cart-store.ts:43-46 | Unique ids stay unique, and positive quantities stay positive. The product's units drop to 0, and every other product's units are unchanged. |
| `Cart.UpdateQuantity` | stores/use-cart-store.ts:49-54 | The lines with the id get quantity `q`. Ids, names, prices, length and order are unchanged. |
| `Cart.UpdateQuantityEffect` | stores/use-cart-store.ts:49-54 | The units of the id become `q` when the id is present, and every other product is untouched. Positivity is kept only for `q > 0`. |
| `Cart.UpdateQuantityCanEmptyLine` | stores/use-cart-store.ts:49-54 | Setting quantity 0 leaves a line with no units in a well-formed cart, because no bound is enforced. |
| `Cart.IncrementQuantity` | stores/use-cart-store.ts:57-62 | The matching line gains exactly one unit and everything else is unchanged. An absent id leaves the cart as it was. |
| `Cart.IncrementQuantityEffect` | stores/use-cart-store.ts:57-62 | The product gains one unit when present. The price grows by its unit price. Uniqueness and positivity are kept. |
| `Cart.DecrementQuantity` | stores/use-cart-store.ts:65-74 | Afterwards every quantity is positive. A line of another product survives exactly when it had units. A line for the id appears exactly when it is the old line with one unit fewer and still has units. The survivors of the decremented cart keep their multiplicities and their relative order. |
| `Cart.DecrementQuantityEffect` | stores/use-cart-store.ts:65-74 | On a well-formed cart, the product loses exactly one unit when present: its line is dropped at the last unit. The price falls by its unit price, the cart stays well-formed, and an absent id changes nothing. |
| `Cart.ClearCart` | stores/use-cart-store.ts:77 | The cart is empty. |
| `Cart.ClearIdempotent` | stores/use-cart-store.ts:77 | Clearing twice gives the same result as clearing once: the empty cart. |
| `Cart.RunKeepsWellFormed` | stores/use-cart-store.ts:25-77 | Any sequence of shopper actions keeps the cart well-formed. Here, shopper actions are adds and updates with positive quantities, plus removes, increments, decrements and clears. |
| `Cart.IncrementDecrementScenario` | stores/use-cart-store.ts:57-74 | One line at 10 THB x 2 becomes 3 units and 30 THB after an increment. Three decrements then empty the cart. |
| `Money.ResetMoney` | stores/use-money-store.ts:73 | The total is 0, there are no entries, every count is 0, and the store is well-formed. |
| `Money.Existing` | stores/use-money-store.ts:25-27 | `find` by face value returns the first entry of that value, and returns none exactly when no entry has it. With duplicate values, `deductMoney`'s guard reads the count of that first entry. |
| `Money.AddMoney` | stores/use-money-store.ts:23-45 | The total grows by exactly `value * count`. The count is merged into the existing entry for the value, or `{value, count}` is appended at the end. |
| `Money.AddMoneyEffect` | stores/use-money-store.ts:23-45 | Face values stay distinct. Exactly `count` pieces of `value` are added and nothing else changes. `total == Σ value * count` is kept, and with a non-negative count the whole invariant is kept. |
| `Money.AcceptsMeans` | stores/use-money-store.ts:51-58 | In a unique-valued store, the deduction guard passes exactly when an entry for the value exists and holds at least `count` pieces. |
| `Money.DeductMoney` | stores/use-money-store.ts:49-70 | A rejected request returns the state unchanged. An accepted one lowers the total by exactly `value * count` and leaves no entry with a count of 0 or less. |
| `Money.Take` | stores/use-money-store.ts:62-68 | After the map-then-filter, every count is positive. |
| `Money.TakeOrder` | stores/use-money-store.ts:62-68 | Each entry of the decremented list with a positive count keeps its multiplicity, every other entry is dropped, and the survivors keep their relative order. |
| `Money.DeductMoneyOrder` | stores/use-money-store.ts:49-70 | After an accepted deduction, the entries are exactly the survivors of the decremented list, with their multiplicities and in their original order. |
| `Money.TakeKeepsOthers` | stores/use-money-store.ts:62-68 | An entry of another value is in the result exactly when it was in the input and held pieces. |
| `Money.DeductMoneyKeepsOthers` | stores/use-money-store.ts:49-70 | After an accepted deduction, an entry of another value is in the store exactly when it was there before and held pieces. |
| `Money.TakeViews` | stores/use-money-store.ts:60-68 | Taking at most the pieces held from the one entry for the value does four things: it keeps values unique, keeps counts non-negative, lowers the sum by exactly `value * count`, and takes exactly `count` pieces of that value and none of any other. |
| `Money.DeductMoneyEffect` | stores/use-money-store.ts:49-70 | On a well-formed store, a deduction keeps the store well-formed. An accepted deduction takes exactly `count` pieces of the value and nothing else. |
| `Money.InsertionOrderScenario` | stores/use-money-store.ts:23-45 | Starting from empty, `addMoney(20, 1)` then `addMoney(5, 2)` gives total 30 and entries `[{20, 1}, {5, 2}]` in insertion order. |
| `Money.NegativeCountBreaksTotal` | stores/use-money-store.ts:23-70 | `addMoney` with a negative count, then an accepted deduction, leaves a total that no longer equals the entries' sum. This is why the invariant requires non-negative counts. |
| `Payment.TappableValues` | components/payment-modal.tsx:103-119 | The tappable face values are exactly 1, 5, 10, 20, 50, 100, 500 and 1000, and all are positive. |
| `Payment.HandleSelection` | components/payment-modal.tsx:45-48 | A tap raises the total by exactly the tapped face value. |
| `Payment.TapStep` | components/payment-modal.tsx:45-48 | A tap adds exactly one piece of the tapped value and none of any other. It keeps the store well-formed and made only of tappable values. |
| `Payment.TenderedTotal` | components/payment-modal.tsx:45-48 | After any taps on a reset store, the total is the sum of the tapped values. |
| `Payment.TenderedInvariant` | components/payment-modal.tsx:103-126 | After any taps on a reset store, the store is well-formed. Its total is the sum of the taps, and it holds one piece per tap of each value. Only tappable values with positive counts appear. |
| `Payment.LineItems` | components/payment-modal.tsx:51-56 | Entry i of the request's products is `{productId: cart[i].id, quantity: cart[i].quantity}`, in the same order and with the same length as the cart. |
| `Payment.BuildRequest` | components/payment-modal.tsx:50-58 | The products match the cart line by line. `totalPaid` is the money store's total, and `denominations` is its entry list unchanged. |
| `Payment.RequestMatchesStores` | components/payment-modal.tsx:50-58 | The request asks for each product's units in the cart. Its paid total equals the sum of its entries when the store is well-formed. It names each product once when the cart does. |
| `Payment.TenderedRequest` | components/payment-modal.tsx:50-58 | Given a well-formed cart and tapped money, the request has these properties: `totalPaid` equals the sum of the taps and of the entries. Entries are unique, tappable and positive. Product ids are distinct, with positive quantities. |
| `Payment.HandlePay` | components/payment-modal.tsx:50-81 | Only a 201 response closes the payment modal, opens the change modal and stores the response as the transaction. Cart and money are untouched. Any other outcome leaves the state unchanged. An HTTP error raises a warning titled with the server's message, or "Error" when that message is missing or empty. No other outcome raises anything. |
| `Payment.PayChangesOnlyOnCreated` | components/payment-modal.tsx:63-80 | A payment changes the state only on a 201 response, and it never changes the cart or the money. |
| `Payment.HandleCancel` | components/payment-modal.tsx:83-88 | Cancel resets the money store to no entries and total 0, and closes the payment modal. Cart, change-modal flag and transaction are unchanged. |

## Left out

- HTTP transport and the purchase endpoint: these are foreign network calls, so the backend's answer is a function parameter of `Payment.HandlePay`.
- Console logging and the popup's rendering: `console.log`, `console.warn` and `console.error` are side effects with no effect on state. The popup appears only as its title.
- Fractional prices and JavaScript number semantics: `parseFloat` prices and floating-point `price * quantity` are not modelled. Amounts are unbounded integers, so no precision or 2^53 limit applies.
- Timers of the receipt modal: the 5-second reveal and the 30-second countdown in `components/change-modal.tsx` are timer-driven rendering.
- The money reset when the payment modal's visibility changes: it is an effect in `app/(home)/cart.tsx`, which is not part of this model. `Payment.Tendered` starts from a reset store to reflect that.
- Single-flight payment: nothing in the source prevents a second Pay tap while a request is in flight, and the model has no notion of time.
- The `subMenuPage` / `setSubMenuPage` fields of both stores are unused by the purchase flow.
- Admin product and inventory management, the catalogue, styling and routing: these are UI and CRUD glue over backend endpoints.
- Money.DeductMoney, Money.Take: their own contracts give only the total and positive counts. Which entries remain, how often and in what order is stated by `Money.TakeOrder` and `Money.DeductMoneyOrder`, and per value by `Money.DeductMoneyKeepsOthers` and `Money.DeductMoneyEffect`. Those statements are separate lemmas because they make the solver's proofs about the counts and the sum run out of resources.
- Money.AddMoneyEffect: the count and sum statements assume distinct face values. With duplicate entries, `map` would add the pieces to each duplicate, while `total` grows only once.
- Cart.AddToCartEffect: the per-product statements assume distinct ids, for the same reason as `Money.AddMoneyEffect`.
