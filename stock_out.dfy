/** The stock-out page of src/pages/StockOut.jsx: the form state, the
    available stock of the chosen product, the client-side sufficiency
    check, the submit handler and the state of the submit button. */
module StockOut {
  import opened Js
  import opened Records
  import opened StockForm
  import Seqs
  import Db

  /** `selectedProduct?.currentStock ?? 0`. */
  function Available(products: seq<Product>, productId: Option<int>): (r: real)
    ensures Find(products, SelectedId(productId)).None? ==> r == 0.0
    ensures Find(products, SelectedId(productId)).Some? ==>
              r == Find(products, SelectedId(productId)).value.currentStock
  {
    match Find(products, SelectedId(productId))
    case Some(p) => p.currentStock
    case None => 0.0
  }

  /** `loading || !productId || available <= 0`. */
  predicate SubmitDisabled(loading: bool, productId: Option<int>, available: real)
    ensures loading || productId.None? ==> SubmitDisabled(loading, productId, available)
    ensures available <= 0.0 ==> SubmitDisabled(loading, productId, available)
    ensures !SubmitDisabled(loading, productId, available) ==> !loading && productId.Some? && available > 0.0
  {

    loading || productId.None? || available <= 0.0
  }

  /** An enabled button means a product of the list is chosen and has
      stock. */
  lemma EnabledMeansStock(products: seq<Product>, productId: Option<int>, loading: bool)
    requires !SubmitDisabled(loading, productId, Available(products, productId))
    ensures !loading && productId.Some?
    ensures Find(products, productId.value).Some?
    ensures Find(products, productId.value).value.currentStock > 0.0
  {
  }

  /** When the page's product list is what the store holds, the page's
      check is the store's: a quantity passes the page exactly when
      `addTransaction` accepts the payload, and a product missing from
      the list is refused by both. */
  lemma ClientCheckAgrees(products: seq<Product>, store: map<int, Product>, pid: int,
                          quantity: real, price: PriceField, note: string, date: int)
    requires forall i :: 0 <= i < |products| ==>
               products[i].id in store && store[products[i].id] == products[i]
    requires forall k :: k in store ==> exists i :: 0 <= i < |products| && products[i].id == k
    requires quantity > 0.0
    ensures quantity <= Available(products, Some(pid))
            <==> CheckPosting(store, Payload(pid, "OUT", quantity, price, note, date)).None?
  {
    if pid in store {
      var i :| 0 <= i < |products| && products[i].id == pid;
      assert Find(products, pid).Some?;
    }
  }

  class Page {
    var products: seq<Product>
    var productId: Option<int>
    var quantity: Option<real>
    var price: PriceField
    var note: string
    var date: int
    var loading: bool
    var message: Message

    /** The page as first shown: the products loaded from the store,
        nothing chosen, the date set to `date`. */
    constructor (ledger: Db.Ledger, date: int)
      requires ledger.Valid()
      ensures forall p :: p in products <==> ledger.HasProduct(p)
      ensures Seqs.Pairwise(products, NameOrder)
      ensures productId == None && quantity == None && price == Blank && note == ""
      ensures this.date == date && !loading && message == NoMessage
    {
      var loaded := ledger.GetProducts();
      products := loaded;
      productId := None;
      quantity := None;
      price := Blank;
      note := "";
      this.date := date;
      loading := false;
      message := NoMessage;
    }

    /** The effect on `[productId, selectedProduct]`: the price field takes
        the chosen product's price, overwriting what was there. */
    method SelectionEffect()
      modifies this
      ensures price == match Find(products, SelectedId(productId))
                       case Some(p) => Prefilled(p.price)
                       case None => old(price)
      ensures products == old(products) && productId == old(productId)
      ensures quantity == old(quantity) && note == old(note) && date == old(date)
      ensures loading == old(loading) && message == old(message)
    {
      var selected := Find(products, SelectedId(productId));
      if selected.Some? {
        price := Prefilled(selected.value.price);
      }
    }

    /** Loading the products again; the reloaded list gives a new
        selected product, so the selection effect runs again. */
    method Reload(ledger: Db.Ledger)
      requires ledger.Valid()
      modifies this
      ensures forall p :: p in products <==> ledger.HasProduct(p)
      ensures price == match Find(products, SelectedId(productId))
                       case Some(p) => Prefilled(p.price)
                       case None => old(price)
      ensures productId == old(productId) && quantity == old(quantity) && note == old(note)
      ensures date == old(date) && loading == old(loading) && message == old(message)
    {
      products := ledger.GetProducts();
      SelectionEffect();
    }

    /** The success branch: the message, the cleared fields, the price
        reset from the product chosen at submit time, and the reload. */
    method Succeeded(ledger: Db.Ledger, selected: Option<Product>)
      requires ledger.Valid()
      modifies this
      ensures message == Success && quantity == None && note == ""
      ensures forall p :: p in products <==> ledger.HasProduct(p)
      ensures price == match Find(products, SelectedId(productId))
                       case Some(p) => Prefilled(p.price)
                       case None => PriceAfterPost(selected)
      ensures productId == old(productId) && date == old(date) && loading == old(loading)
    {
      message := Success;
      quantity := None;
      note := "";
      price := PriceAfterPost(selected);
      Reload(ledger);
    }

    /** Choosing a product in the select. */
    method Select(id: Option<int>)
      modifies this
      ensures productId == id
      ensures price == match Find(products, SelectedId(id))
                       case Some(p) => Prefilled(p.price)
                       case None => old(price)
      ensures products == old(products) && quantity == old(quantity) && note == old(note)
      ensures date == old(date) && loading == old(loading) && message == old(message)
    {
      productId := id;
      SelectionEffect();
    }

    /** `handleSubmit` at time `now`. An ignored submit changes nothing; a
        quantity above the available stock only sets the low-stock message;
        otherwise the form is posted. */
    method Submit(ledger: Db.Ledger, now: int)
      requires ledger.Valid()
      modifies this, ledger
      ensures ledger.Valid()
      ensures Ignored(old(productId), old(quantity)) ==>
                unchanged(this) && unchanged(ledger)
      ensures !Ignored(old(productId), old(quantity))
              && old(quantity).value > Available(old(products), old(productId)) ==>
                && message == LowStock && unchanged(ledger)
                && products == old(products) && productId == old(productId)
                && quantity == old(quantity) && price == old(price) && note == old(note)
                && loading == old(loading)
      ensures !Ignored(old(productId), old(quantity))
              && old(quantity).value <= Available(old(products), old(productId)) ==>
                var payload := Payload(old(productId).value, "OUT", old(quantity).value,
                                       old(price), old(note), old(date));
                && Db.Posted(old(ledger.products), old(ledger.transactions), old(ledger.nextTxId),
                             ledger.products, ledger.transactions, payload, now)
                && message == (match CheckPosting(old(ledger.products), payload)
                               case None => Success
                               case Some(e) => Failed(e))
                && !loading
      ensures !Ignored(old(productId), old(quantity))
              && old(quantity).value <= Available(old(products), old(productId))
              && message == Success ==>
                && quantity == None && note == ""
                && (forall p :: p in products <==> ledger.HasProduct(p))
                && price == match Find(products, SelectedId(productId))
                            case Some(p) => Prefilled(p.price)
                            case None => PriceAfterPost(Find(old(products), SelectedId(productId)))
      ensures !Ignored(old(productId), old(quantity))
              && old(quantity).value <= Available(old(products), old(productId))
              && message != Success ==>
                && products == old(products) && quantity == old(quantity)
                && note == old(note) && price == old(price)
      ensures productId == old(productId) && date == old(date)
    {

      if Ignored(productId, quantity) {
        return;
      }
      if quantity.value > Available(products, productId) {
        message := LowStock;
        return;
      }
      Post(ledger, now);
    }

    /** The rest of `handleSubmit`, once the checks pass: the payload goes
        to `addTransaction`, whose outcome becomes the message; on success
        the quantity and note are cleared, the price is reset from the
        chosen product and the products are reloaded. */
    method Post(ledger: Db.Ledger, now: int)
      requires ledger.Valid()
      requires !Ignored(productId, quantity)
      modifies this, ledger
      ensures ledger.Valid()
      ensures var payload := Payload(old(productId).value, "OUT", old(quantity).value,
                                     old(price), old(note), old(date));
              && Db.Posted(old(ledger.products), old(ledger.transactions), old(ledger.nextTxId),
                           ledger.products, ledger.transactions, payload, now)
              && message == (match CheckPosting(old(ledger.products), payload)
                             case None => Success
                             case Some(e) => Failed(e))
      ensures !loading && productId == old(productId) && date == old(date)
      ensures message == Success ==>
                && quantity == None && note == ""
                && (forall p :: p in products <==> ledger.HasProduct(p))
                && price == match Find(products, SelectedId(productId))
                            case Some(p) => Prefilled(p.price)
                            case None => PriceAfterPost(Find(old(products), SelectedId(productId)))
      ensures message != Success ==>
                && products == old(products) && quantity == old(quantity)
                && note == old(note) && price == old(price)
    {
      var payload := Payload(productId.value, "OUT", quantity.value, price, note, date);
      var selected := Find(products, SelectedId(productId));
      message := NoMessage;
      loading := true;
      var r := ledger.AddTransaction(payload, now);
      match r {
        case Ok(_) =>
          Succeeded(ledger, selected);
        case Err(e) =>
          message := Failed(e);
      }
      loading := false;
    }
  }
}
