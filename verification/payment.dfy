/**
 The payment modal: the cart price it shows, the denomination buttons that
 feed the money store, the purchase request it builds from the two stores,
 and the store and modal changes that follow a response or a cancel. The
 modal store (two visibility flags) and the transaction store (the latest
 receipt) are plain fields of `Session`. The backend is a parameter: a
 function from the request to what the HTTP call yields.
 */
module Payment {
  import opened Wrappers
  import Cart
  import Money

  /** The coin buttons, in THB. */
  const Coins: seq<int> := [1, 5, 10]

  /** The banknote buttons, in THB. */
  const Banknotes: seq<int> := [20, 50, 100, 500, 1000]

  /** A face value the modal offers a button for. */
  predicate Tappable(v: int)
  {
    v in Coins || v in Banknotes
  }

  /** Exactly eight face values can be tapped, all positive. */
  lemma TappableValues(v: int)
    ensures Tappable(v) <==> v in {1, 5, 10, 20, 50, 100, 500, 1000}
    ensures Tappable(v) ==> v > 0
  {
  }

  /** `handleSelection`: tapping a button inserts one piece of that face value. */
  function HandleSelection(m: Money.Tender, v: int): (r: Money.Tender)
    ensures r.total == m.total + v
  {
    Money.AddMoney(m, v, 1)
  }

  /** The money inserted since the modal opened on a reset store: one piece per tap, in tap order. */
  function Tendered(taps: seq<int>): Money.Tender
  {
    if |taps| == 0 then Money.ResetMoney()
    else HandleSelection(Tendered(taps[..|taps| - 1]), taps[|taps| - 1])
  }

  function SumOf(taps: seq<int>): int
  {
    if |taps| == 0 then 0 else SumOf(taps[..|taps| - 1]) + taps[|taps| - 1]
  }

  /** Every entry of the store is a tappable face value holding at least one piece. */
  predicate OnlyTapped(ds: seq<Money.Denomination>)
  {
    forall i :: 0 <= i < |ds| ==> Tappable(ds[i].value) && ds[i].count > 0
  }

  /**
   Whatever buttons are tapped, the money store stays well-formed, its total is
   the sum of the tapped values, it holds one piece per tap of each value, and
   only tappable values with a positive count appear in it.
   */
  lemma TenderedInvariant(taps: seq<int>)
    requires forall i :: 0 <= i < |taps| ==> Tappable(taps[i])
    ensures Money.WellFormed(Tendered(taps))
    ensures Tendered(taps).total == SumOf(taps)
    ensures forall v :: Money.CountOf(Tendered(taps).denominations, v) == multiset(taps)[v]
    ensures OnlyTapped(Tendered(taps).denominations)
  {
    TenderedWellFormed(taps);
    TenderedTotal(taps);
    TenderedCounts(taps);
  }

  lemma {:induction false} TenderedTotal(taps: seq<int>)
    ensures Tendered(taps).total == SumOf(taps)
  {
    if |taps| > 0 {
      TenderedTotal(taps[..|taps| - 1]);
    }
  }

  lemma {:induction false} TenderedWellFormed(taps: seq<int>)
    requires forall i :: 0 <= i < |taps| ==> Tappable(taps[i])
    ensures Money.WellFormed(Tendered(taps))
    ensures OnlyTapped(Tendered(taps).denominations)
  {
    if |taps| > 0 {
      var init := taps[..|taps| - 1];
      var v := taps[|taps| - 1];
      assert forall i :: 0 <= i < |init| ==> init[i] == taps[i];
      TenderedWellFormed(init);
      assert Tendered(taps) == HandleSelection(Tendered(init), v);
      TapStep(Tendered(init), v);
    }
  }

  lemma {:induction false} TenderedCounts(taps: seq<int>)
    requires forall i :: 0 <= i < |taps| ==> Tappable(taps[i])
    ensures forall v :: Money.CountOf(Tendered(taps).denominations, v) == multiset(taps)[v]
  {
    if |taps| > 0 {
      var init := taps[..|taps| - 1];
      var v := taps[|taps| - 1];
      assert taps == init + [v];
      assert forall i :: 0 <= i < |init| ==> init[i] == taps[i];
      TenderedCounts(init);
      TenderedWellFormed(init);
      assert Tendered(taps) == HandleSelection(Tendered(init), v);
      Money.AddMoneyEffect(Tendered(init), v, 1);
      assert multiset(taps) == multiset(init) + multiset{v};
    }
  }

  /** One tap keeps the store well-formed and made of tapped values, adding one piece of `v`. */
  lemma TapStep(m: Money.Tender, v: int)
    requires Money.WellFormed(m) && OnlyTapped(m.denominations) && Tappable(v)
    ensures Money.WellFormed(HandleSelection(m, v))
    ensures OnlyTapped(HandleSelection(m, v).denominations)
    ensures forall w :: (Money.CountOf(HandleSelection(m, v).denominations, w) ==
      Money.CountOf(m.denominations, w) + (if w == v then 1 else 0))
  {
    Money.AddMoneyEffect(m, v, 1);
    var r := HandleSelection(m, v);
    if !Money.HasValue(m.denominations, v) {
      assert forall i :: 0 <= i < |m.denominations| ==> r.denominations[i] == m.denominations[i];
    }
  }

  // ---------------------------------------------------------------------------
  // The purchase request
  // ---------------------------------------------------------------------------

  datatype LineItem = LineItem(productId: string, quantity: int)

  datatype PurchaseRequest = PurchaseRequest(
    products: seq<LineItem>,
    totalPaid: int,
    denominations: seq<Money.Denomination>)

  /** The request's products: one `{productId, quantity}` per cart line, in cart order. */
  function LineItems(c: Cart.Items): (r: seq<LineItem>)
    ensures |r| == |c|
    ensures forall i :: 0 <= i < |c| ==> r[i] == LineItem(c[i].id, c[i].quantity)
  {
    if |c| == 0 then [] else [LineItem(c[0].id, c[0].quantity)] + LineItems(c[1..])
  }

  /**
   The request `handlePay` sends: one line per cart line, in cart order, and
   the money store's total and entries as they stand.
   */
  function BuildRequest(c: Cart.Items, m: Money.Tender): (r: PurchaseRequest)
    ensures |r.products| == |c|
    ensures forall i :: 0 <= i < |c| ==> r.products[i].productId == c[i].id && r.products[i].quantity == c[i].quantity
    ensures r.totalPaid == m.total && r.denominations == m.denominations
  {
    PurchaseRequest(LineItems(c), m.total, m.denominations)
  }

  /** Units of product `id` the request asks for. */
  function Requested(items: seq<LineItem>, id: string): int
  {
    if |items| == 0 then 0
    else (if items[0].productId == id then items[0].quantity else 0) + Requested(items[1..], id)
  }

  /**
   The request says what the stores hold: it asks for each product's units in
   the cart, its paid total is backed by its entries when the money store is
   well-formed, and it names each product once when the cart does.
   */
  lemma {:induction false} RequestMatchesStores(c: Cart.Items, m: Money.Tender)
    ensures forall id :: Requested(BuildRequest(c, m).products, id) == Cart.QuantityOf(c, id)
    ensures Money.WellFormed(m) ==> BuildRequest(c, m).totalPaid == Money.Sum(BuildRequest(c, m).denominations)
    ensures Cart.UniqueIds(c) ==> forall i, j :: 0 <= i < j < |c| ==>
      BuildRequest(c, m).products[i].productId != BuildRequest(c, m).products[j].productId
  {
    forall id ensures Requested(LineItems(c), id) == Cart.QuantityOf(c, id) {
      RequestedQuantity(c, id);
    }
    if Cart.UniqueIds(c) {
      forall i, j | 0 <= i < j < |c|
        ensures BuildRequest(c, m).products[i].productId != BuildRequest(c, m).products[j].productId
      {
        assert Cart.Id(c[i]) != Cart.Id(c[j]);
      }
    }
  }

  lemma {:induction false} RequestedQuantity(c: Cart.Items, id: string)
    ensures Requested(LineItems(c), id) == Cart.QuantityOf(c, id)
  {
    if |c| > 0 {
      assert LineItems(c)[1..] == LineItems(c[1..]);
      RequestedQuantity(c[1..], id);
    }
  }

  // ---------------------------------------------------------------------------
  // The outcome of a payment
  // ---------------------------------------------------------------------------

  datatype ValidatedProduct = ValidatedProduct(productId: string, productName: string, quantity: int, price: int)

  datatype ChangeEntry = ChangeEntry(denomination: int, quantity: int)

  /** The receipt the backend returns for a completed purchase. */
  datatype Transaction = Transaction(
    transactionId: string,
    timestamp: string,
    validatedProducts: seq<ValidatedProduct>,
    totalCost: int,
    totalPaid: int,
    change: seq<ChangeEntry>)

  /** The client-side purchase state: both stores, both modal flags and the stored receipt. */
  datatype Session = Session(
    cart: Cart.Items,
    money: Money.Tender,
    showPayment: bool,
    showChange: bool,
    transaction: Option<Transaction>)

  /**
   What awaiting the purchase call yields: a response (any 2xx), an HTTP
   client error carrying the body's `message` if there was one, or any other
   thrown value.
   */
  datatype Outcome =
    | Responded(status: int, body: Transaction)
    | HttpError(message: Option<string>)
    | Unexpected

  /** The state after `handlePay`, with the title of the warning popup it raised, if any. */
  datatype Paid = Paid(session: Session, alert: Option<string>)

  /**
   `handlePay`: send the request built from the stores; only a 201 response
   closes the payment modal, opens the change modal and stores the receipt.
   An HTTP error raises a warning titled with the server's message (or
   "Error" when it is missing or empty) and changes nothing; any other
   response or error changes nothing and raises nothing.
   */
  function HandlePay(s: Session, backend: PurchaseRequest -> Outcome): (r: Paid)
    ensures var o := backend(BuildRequest(s.cart, s.money));
      o.Responded? && o.status == 201 ==>
        r.session == Session(s.cart, s.money, false, true, Some(o.body)) && r.alert == None
    ensures var o := backend(BuildRequest(s.cart, s.money));
      !(o.Responded? && o.status == 201) ==> r.session == s
    ensures var o := backend(BuildRequest(s.cart, s.money));
      o.HttpError? ==>
        r.alert.Some? &&
        (o.message.Some? && o.message.value != "" ==> r.alert.value == o.message.value) &&
        (o.message.None? || o.message.value == "" ==> r.alert.value == "Error")
    ensures var o := backend(BuildRequest(s.cart, s.money));
      !o.HttpError? ==> r.alert == None
  {
    match backend(BuildRequest(s.cart, s.money))
    case Responded(status, body) =>
      if status == 201 then
        Paid(s.(showPayment := false, showChange := true, transaction := Some(body)), None)
      else
        Paid(s, None)
    case HttpError(message) =>
      Paid(s, Some(if message.Some? && message.value != "" then message.value else "Error"))
    case Unexpected =>
      Paid(s, None)
  }

  /** The payment modal only ever changes the state by moving to the receipt. */
  lemma PayChangesOnlyOnCreated(s: Session, backend: PurchaseRequest -> Outcome)
    ensures HandlePay(s, backend).session != s ==>
      backend(BuildRequest(s.cart, s.money)).Responded? && backend(BuildRequest(s.cart, s.money)).status == 201
    ensures HandlePay(s, backend).session.cart == s.cart && HandlePay(s, backend).session.money == s.money
  {
  }

  /** `handleCancel`: empty the money store and close the payment modal; nothing else changes. */
  function HandleCancel(s: Session): (r: Session)
    ensures Money.WellFormed(r.money) && r.money.total == 0 && |r.money.denominations| == 0
    ensures !r.showPayment
    ensures r.cart == s.cart && r.showChange == s.showChange && r.transaction == s.transaction
  {
    s.(money := Money.ResetMoney(), showPayment := false)
  }

  /**
   From an open modal whose money was tapped in, the request reaching the
   backend is well-formed: the paid total is the sum of the taps and of the
   entries, every entry is a tappable value with a positive count, and the
   products are the cart's, each once.
   */
  lemma {:induction false} TenderedRequest(c: Cart.Items, taps: seq<int>)
    requires Cart.WellFormed(c)
    requires forall i :: 0 <= i < |taps| ==> Tappable(taps[i])
    ensures var req := BuildRequest(c, Tendered(taps));
      req.totalPaid == SumOf(taps) &&
      req.totalPaid == Money.Sum(req.denominations) &&
      Money.UniqueValues(req.denominations) &&
      OnlyTapped(req.denominations) &&
      (forall i, j :: 0 <= i < j < |req.products| ==> req.products[i].productId != req.products[j].productId) &&
      (forall i :: 0 <= i < |req.products| ==> req.products[i].quantity > 0)
  {
    TenderedInvariant(taps);
    RequestMatchesStores(c, Tendered(taps));
    var req := BuildRequest(c, Tendered(taps));
    forall i | 0 <= i < |req.products| ensures req.products[i].quantity > 0 {
      assert Cart.Positive(c[i]);
    }
  }
}
