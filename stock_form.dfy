/** What the stock-in and stock-out pages (src/pages/StockIn.jsx,
    src/pages/StockOut.jsx) have in common: the form fields, the product
    lookup, the guard that ignores a submit, and the `addTransaction`
    payload built from the fields. */
module StockForm {
  import opened Js
  import opened JsStrings
  import opened Records

  /** The price input. Its state is `''`, text the user typed (a number
      input, so always numeric), or the product's price, which the page
      stores as a number. A typed "0" is truthy; a prefilled 0 is not. */
  datatype PriceField = Blank | Typed(v: real) | Prefilled(v: real)

  predicate PriceTruthy(f: PriceField) {
    f.Typed? || (f.Prefilled? && f.v != 0.0)
  }

  /** The outcome shown above the form. */
  datatype Message = NoMessage | Success | LowStock | Failed(error: PostError)

  /** `pricePerUnit ? Number(pricePerUnit) : undefined`. */
  function PriceArg(f: PriceField): (r: Option<real>)
    ensures r.None? <==> !PriceTruthy(f)
    ensures r.Some? ==> r.value == f.v
  {
    if PriceTruthy(f) then Some(f.v) else None
  }

  /** `note.trim() || undefined`. */
  function NoteArg(note: string): (r: Option<string>)
    ensures r.None? <==> AllSpace(note)
    ensures r.Some? ==> r.value == Trim(note) && r.value != []
  {
    TrimEmptyIffAllSpace(note);
    if Trim(note) == [] then None else Some(Trim(note))
  }

  /** `Number(productId)`: the chosen id, and for the empty selection
      `Number('') == 0`, which no stored product has. */
  function SelectedId(productId: Option<int>): (r: int)
    ensures productId.Some? ==> r == productId.value
    ensures productId.None? ==> r < 1
  {
    productId.GetOr(0)
  }

  /** With nothing chosen, no product of the list is selected, since
      stored ids start at 1. */
  lemma EmptySelectionFindsNothing(products: seq<Product>)
    requires forall i :: 0 <= i < |products| ==> 1 <= products[i].id
    ensures Find(products, SelectedId(None)).None?
  {
  }

  /** `products.find((p) => p.id === id)`: the first product with that id. */
  function Find(products: seq<Product>, id: int): (r: Option<Product>)
    ensures r.None? <==> forall i :: 0 <= i < |products| ==> products[i].id != id
    ensures r.Some? ==> exists i :: 0 <= i < |products| && products[i] == r.value
                          && r.value.id == id
                          && forall j :: 0 <= j < i ==> products[j].id != id
  {
    if products == [] then None
    else if products[0].id == id then Some(products[0])
    else
      var r := Find(products[1..], id);
      assert forall i :: 0 < i < |products| ==> products[i] == products[1..][i - 1];
      if r.Some? then
        var i :| 0 <= i < |products[1..]| && products[1..][i] == r.value && r.value.id == id
                 && forall j :: 0 <= j < i ==> products[1..][j].id != id;
        assert products[i + 1] == r.value;
        r
      else r
  }

  /** `!productId || !quantity || Number(quantity) <= 0`: submit does
      nothing without a product, without a quantity, or with a quantity
      that is not positive. */
  predicate Ignored(productId: Option<int>, quantity: Option<real>) {
    productId.None? || quantity.None? || quantity.value <= 0.0
  }

  /** A submit the guard lets through posts a chosen product and a
      positive quantity, which the ledger stores as given; one without a
      product or a quantity, or with a quantity of 0 or less, is ignored. */
  lemma GuardPassesPositive(productId: Option<int>, quantity: Option<real>, p: Product, kind: string,
                            price: PriceField, note: string, date: int, id: int, now: int)
    ensures productId.None? || quantity.None? ==> Ignored(productId, quantity)
    ensures quantity.Some? && quantity.value <= 0.0 ==> Ignored(productId, quantity)
    ensures !Ignored(productId, quantity) ==>
              && productId.Some? && quantity.Some?
              && PostedRecord(id, p, Payload(p.id, kind, quantity.value, price, note, date), now).quantity
                 == quantity.value > 0.0
  {
  }

  /** The argument the page passes to `addTransaction`. */
  function Payload(productId: int, kind: string, quantity: real, price: PriceField,
                   note: string, date: int): (r: TxInput)
    ensures r.productId == productId && r.kind == kind
  {
    TxInput(productId, kind, Some(quantity), PriceArg(price), NoteArg(note), Some(date))
  }

  /** `selectedProduct?.price ?? ''`: the price field after a successful
      submit. */
  function PriceAfterPost(selected: Option<Product>): (r: PriceField)
    ensures selected.None? <==> r == Blank
    ensures selected.Some? ==> r == Prefilled(selected.value.price)

  {
    match selected
    case Some(p) => Prefilled(p.price)
    case None => Blank
  }

  /** What the ledger stores for a posting made from the form: the
      quantity typed, the note trimmed (empty when blank), the price typed
      or prefilled when the field is truthy and otherwise NaN, which makes
      the total NaN too, and the chosen date. */
  lemma StoredFromForm(id: int, p: Product, kind: string, quantity: real, price: PriceField,
                       note: string, date: int, now: int)
    requires quantity > 0.0
    ensures var t := PostedRecord(id, p, Payload(p.id, kind, quantity, price, note, date), now);
            && t.quantity == quantity && t.quantity > 0.0
            && t.note == Trim(note)
            && t.pricePerUnit == (if PriceTruthy(price) then Finite(price.v) else NaN)
            && (t.totalValue.NaN? <==> !PriceTruthy(price))
            && t.date == date
  {
    TrimEmptyIffAllSpace(note);
  }

  /** The page cannot reach the product's price through an empty field:
      a blank field, or a prefilled price of 0, stores NaN and not the
      product's price. */
  lemma FalsyPriceIsNotProductPrice(id: int, p: Product, kind: string, quantity: real,
                                    note: string, date: int, now: int)
    ensures PostedRecord(id, p, Payload(p.id, kind, quantity, Blank, note, date), now).pricePerUnit == NaN
    ensures PostedRecord(id, p, Payload(p.id, kind, quantity, Prefilled(0.0), note, date), now).totalValue == NaN
    ensures PostedRecord(id, p, Payload(p.id, kind, quantity, Typed(0.0), note, date), now).totalValue == Finite(0.0)
  {
  }
}
