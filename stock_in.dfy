/** The stock-in page of src/pages/StockIn.jsx: the form state, the price
    prefill when a product is chosen, and the submit handler. */
module StockIn {
  import opened Js
  import opened Records
  import opened StockForm
  import Seqs
  import Db

  /** The price after the selection effect: the chosen product's price,
      but only when the field is falsy; text the user typed is kept. */
  function Prefill(products: seq<Product>, productId: Option<int>, price: PriceField): (r: PriceField)
    ensures PriceTruthy(price) ==> r == price
    ensures Find(products, SelectedId(productId)).None? ==> r == price
    ensures !PriceTruthy(price) && Find(products, SelectedId(productId)).Some? ==>
              r == Prefilled(Find(products, SelectedId(productId)).value.price)
  {
    match Find(products, SelectedId(productId))
    case Some(p) => if PriceTruthy(price) then price else Prefilled(p.price)
    case None => price
  }

  /** Choosing products one after another never overwrites a price the
      user typed. */
  lemma PrefillKeepsTyped(products: seq<Product>, id1: Option<int>, id2: Option<int>, v: real)
    ensures Prefill(products, id2, Prefill(products, id1, Typed(v))) == Typed(v)
  {
  }

  /** Prefilling is idempotent: running the effect again changes nothing.
      A prefilled price of 0 leaves the field falsy, so the effect fills it
      again, with the same 0. */
  lemma PrefillIdempotent(products: seq<Product>, productId: Option<int>, price: PriceField)
    ensures var once := Prefill(products, productId, price);
            Prefill(products, productId, once) == once
  {
  }


  class Page {
    var products: seq<Product>
    var productId: Option<int>
    var quantity: Option<real>
    var price: PriceField
    var note: string
    var date: int
    var loading: bool
    var message: Message

    /** The page as first shown: the products loaded from the store,
        nothing chosen, the date set to `date`. */
    constructor (ledger: Db.Ledger, date: int)
      requires ledger.Valid()
      ensures forall p :: p in products <==> ledger.HasProduct(p)
      ensures Seqs.Pairwise(products, NameOrder)
      ensures productId == None && quantity == None && price == Blank && note == ""
      ensures this.date == date && !loading && message == NoMessage
    {
      var loaded := ledger.GetProducts();
      products := loaded;
      productId := None;
      quantity := None;
      price := Blank;
      note := "";
      this.date := date;
      loading := false;
      message := NoMessage;
    }

    /** Choosing a product in the select, followed by the effect on
        `[productId, selectedProduct]`. */
    method Select(id: Option<int>)
      modifies this
      ensures productId == id
      ensures price == Prefill(products, id, old(price))
      ensures products == old(products) && quantity == old(quantity) && note == old(note)
      ensures date == old(date) && loading == old(loading) && message == old(message)
    {
      productId := id;
      var selected := Find(products, SelectedId(productId));
      if selected.Some? && !PriceTruthy(price) {
        price := Prefilled(selected.value.price);
      }
    }

    /** The success branch: the message, the cleared fields and the price
        reset from the product chosen at submit time. */
    method Succeeded(selected: Option<Product>)
      modifies this
      ensures message == Success && quantity == None && note == ""
      ensures price == PriceAfterPost(selected)
      ensures products == old(products) && productId == old(productId)
      ensures date == old(date) && loading == old(loading)
    {
      message := Success;
      quantity := None;
      note := "";
      price := PriceAfterPost(selected);
    }

    /** `handleSubmit` at time `now`. An ignored submit changes nothing;
        otherwise the form is posted. */
    method Submit(ledger: Db.Ledger, now: int)
      requires ledger.Valid()
      modifies this, ledger
      ensures ledger.Valid()
      ensures Ignored(old(productId), old(quantity)) ==>
                unchanged(this) && unchanged(ledger)
      ensures !Ignored(old(productId), old(quantity)) ==>
                var payload := Payload(old(productId).value, "IN", old(quantity).value,
                                       old(price), old(note), old(date));
                && Db.Posted(old(ledger.products), old(ledger.transactions), old(ledger.nextTxId),
                             ledger.products, ledger.transactions, payload, now)
                && message == (match CheckPosting(old(ledger.products), payload)
                               case None => Success
                               case Some(e) => Failed(e))
                && !loading
      ensures !Ignored(old(productId), old(quantity)) && message == Success ==>
                quantity == None && note == ""
                && price == PriceAfterPost(Find(products, SelectedId(productId)))
      ensures !Ignored(old(productId), old(quantity)) && message != Success ==>
                quantity == old(quantity) && note == old(note) && price == old(price)
      ensures products == old(products) && productId == old(productId) && date == old(date)
    {

      if Ignored(productId, quantity) {
        return;
      }
      Post(ledger, now);
    }

    /** The rest of `handleSubmit`: the payload goes to `addTransaction`,
        whose outcome becomes the message; on success the quantity and note
        are cleared and the price is reset from the chosen product (the
        product list is not reloaded). */
    method Post(ledger: Db.Ledger, now: int)
      requires ledger.Valid()
      requires !Ignored(productId, quantity)
      modifies this, ledger
      ensures ledger.Valid()
      ensures var payload := Payload(old(productId).value, "IN", old(quantity).value,
                                     old(price), old(note), old(date));
              && Db.Posted(old(ledger.products), old(ledger.transactions), old(ledger.nextTxId),
                           ledger.products, ledger.transactions, payload, now)
              && message == (match CheckPosting(old(ledger.products), payload)
                             case None => Success
                             case Some(e) => Failed(e))
      ensures !loading && products == old(products) && productId == old(productId) && date == old(date)
      ensures message == Success ==>
                quantity == None && note == ""
                && price == PriceAfterPost(Find(products, SelectedId(productId)))
      ensures message != Success ==>
                quantity == old(quantity) && note == old(note) && price == old(price)
    {
      var payload := Payload(productId.value, "IN", quantity.value, price, note, date);
      var selected := Find(products, SelectedId(productId));
      message := NoMessage;
      loading := true;
      var r := ledger.AddTransaction(payload, now);
      match r {
        case Ok(_) =>
          Succeeded(selected);
        case Err(e) =>
          message := Failed(e);
      }
      loading := false;
    }
  }

  /** A stock-in posting of a product the store holds is always accepted,
      and it raises the product's stock by the quantity typed. */
  lemma StockInAccepted(store: map<int, Product>, pid: int, quantity: real, price: PriceField,
                        note: string, date: int, next: int, now: int)
    requires pid in store
    ensures CheckPosting(store, Payload(pid, "IN", quantity, price, note, date)).None?
    ensures var payload := Payload(pid, "IN", quantity, price, note, date);
            var t := PostedRecord(next, store[pid], payload, now);
            PostedProduct(store[pid], t, now).currentStock == store[pid].currentStock + quantity
  {
  }
}
