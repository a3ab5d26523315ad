/** The records of the stock ledger (src/db.js) and the pure rules that
    build and combine them: how a new or edited product is stored, how a
    posting is checked, recorded and applied to the stock, how a query
    filter selects transactions, and the orders the queries return. */
module Records {
  import opened Js
  import opened JsStrings
  import Calendar
  import Seqs

  /** The movement direction of a transaction. */
  datatype TxType = IN | OUT

  function TypeName(k: TxType): string {
    match k
    case IN => "IN"
    case OUT => "OUT"
  }

  /** `tx.type === 'OUT' ? 'OUT' : 'IN'`: only the exact text "OUT" is an
      outgoing movement; anything else, including no type, is incoming. */
  function NormalizeType(s: string): (k: TxType)
    ensures k == OUT <==> s == "OUT"
    ensures s == "IN" || s == "OUT" ==> TypeName(k) == s
  {
    if s == "OUT" then OUT else IN
  }

  datatype Product = Product(
    id: int,
    name: string,
    unit: string,
    currentStock: real,
    minStock: real,
    price: real,
    createdAt: int,
    updatedAt: int)

  /** A stored transaction. `productName` is a snapshot taken at posting
      time; `totalValue` is computed once and stored. */
  datatype Transaction = Transaction(
    id: int,
    productId: int,
    productName: string,
    kind: TxType,
    quantity: real,
    pricePerUnit: Num,
    totalValue: Num,
    note: string,
    date: int,
    createdAt: int)

  /** The argument of `addProduct`; `None` is a field left undefined (or, for
      numbers, one that is not numeric). */
  datatype ProductInput = ProductInput(
    name: string,
    unit: Option<string>,
    currentStock: Option<real>,
    minStock: Option<real>,
    price: Option<real>)

  /** The argument of `updateProduct`; `None` is a field that is null or
      undefined, which keeps the stored value. */
  datatype ProductUpdate = ProductUpdate(
    name: Option<string>,
    unit: Option<string>,
    currentStock: Option<real>,
    minStock: Option<real>,
    price: Option<real>)

  /** The argument of `addTransaction`. */
  datatype TxInput = TxInput(
    productId: int,
    kind: string,
    quantity: Option<real>,
    pricePerUnit: Option<real>,
    note: Option<string>,
    date: Option<int>)

  /** The two errors `addTransaction` throws. */
  datatype PostError =
    | ProductNotFound
    | InsufficientStock(available: real, unit: string, requested: real)

  /** The argument of `getTransactions`: `kind == ""` is no type given. */
  datatype TxFilter = TxFilter(
    kind: string,
    productId: Option<int>,
    dateFrom: Option<int>,
    dateTo: Option<int>)

  const DefaultUnit: string := "copë"

  /** `product.unit || 'copë'`: a missing or empty unit is the default. */
  function UnitOrDefault(u: Option<string>): (r: string)
    ensures r != []
    ensures u.Some? && u.value != [] ==> r == u.value
    ensures u.None? || u.value == [] ==> r == DefaultUnit
  {
    match u
    case Some(s) => if s == [] then DefaultUnit else s
    case None => DefaultUnit
  }

  /** The record `addProduct` stores under `id` at time `now`. */
  function NewProduct(id: int, input: ProductInput, now: int): (p: Product)
    ensures p.id == id
    ensures p.name == Trim(input.name)
    ensures p.unit == UnitOrDefault(input.unit) && p.unit != []
    ensures p.currentStock == NumberOrZero(input.currentStock)
    ensures p.minStock == NumberOrZero(input.minStock)
    ensures p.price == NumberOrZero(input.price)
    ensures p.createdAt == p.updatedAt == now
  {
    Product(id, Trim(input.name), UnitOrDefault(input.unit),
            NumberOrZero(input.currentStock), NumberOrZero(input.minStock),
            NumberOrZero(input.price), now, now)
  }

  /** The record `updateProduct` stores: every field given replaces the old
      one (a name trimmed, a unit even when empty), every field not given
      keeps it, and `updatedAt` becomes `now`. */
  function MergeUpdate(p: Product, u: ProductUpdate, now: int): (r: Product)
    ensures r.id == p.id && r.createdAt == p.createdAt && r.updatedAt == now
    ensures r.name == (if u.name.Some? then Trim(u.name.value) else p.name)
    ensures r.unit == u.unit.GetOr(p.unit)
    ensures r.currentStock == u.currentStock.GetOr(p.currentStock)
    ensures r.minStock == u.minStock.GetOr(p.minStock)
    ensures r.price == u.price.GetOr(p.price)
  {
    p.(name := if u.name.Some? then Trim(u.name.value) else p.name,
       unit := u.unit.GetOr(p.unit),
       currentStock := u.currentStock.GetOr(p.currentStock),
       minStock := u.minStock.GetOr(p.minStock),
       price := u.price.GetOr(p.price),
       updatedAt := now)
  }

  /** Applying the same edit twice stores the same record as applying it
      once (a trimmed name trims to itself). */
  lemma MergeUpdateIdempotent(p: Product, u: ProductUpdate, now: int)
    ensures MergeUpdate(MergeUpdate(p, u, now), u, now) == MergeUpdate(p, u, now)
  {
    var once := MergeUpdate(p, u, now);
    var twice := MergeUpdate(once, u, now);
    if u.name.Some? {
      TrimIdempotent(u.name.value);
    }
    assert twice.name == once.name;
    assert twice.unit == once.unit && twice.currentStock == once.currentStock;
    assert twice.minStock == once.minStock && twice.price == once.price;
  }

  /** An edit that gives no field changes only `updatedAt`. */
  lemma EmptyUpdateOnlyTouches(p: Product, now: int)
    ensures MergeUpdate(p, ProductUpdate(None, None, None, None, None), now) == p.(updatedAt := now)
  {
  }

  /** The low-stock rule: a positive minimum and a stock below it. A
      minimum of 0 switches the alert off, and a product with a minimum
      and nothing in stock is always low. */
  predicate IsLow(p: Product)
    ensures IsLow(p) ==> p.currentStock < p.minStock
    ensures p.minStock <= 0.0 ==> !IsLow(p)
    ensures p.minStock > 0.0 && p.currentStock <= 0.0 ==> IsLow(p)
  {
    p.minStock > 0.0 && p.currentStock < p.minStock
  }

  /** `Number(tx.pricePerUnit) ?? product.price`. `Number(...)` is never
      null or undefined, so the fallback is never taken: an omitted price
      is NaN whatever the product's price. */
  function ResolvePrice(given: Option<real>, fallback: real): (r: Num)
    ensures r == ToNumber(given)
    ensures r.NaN? <==> given.None?
  {
    ToNumber(given)
  }

  /** The new stock after a posting: up for IN, down for OUT. */
  function PostStock(stock: real, kind: TxType, q: real): (r: real)
    ensures kind == IN ==> r - stock == q
    ensures kind == OUT ==> stock - r == q
  {
    if kind == IN then stock + q else stock - q
  }

  /** Why `addTransaction` rejects `input` against the product table, or
      `None` when it accepts it: an unknown product, then an OUT for more
      than the stock. */
  function CheckPosting(products: map<int, Product>, input: TxInput): (r: Option<PostError>)
    ensures r == Some(ProductNotFound) <==> input.productId !in products
    ensures r.None? <==>
              input.productId in products
              && !(NormalizeType(input.kind) == OUT
                   && products[input.productId].currentStock < NumberOrZero(input.quantity))
  {
    if input.productId !in products then Some(ProductNotFound)
    else
      var p := products[input.productId];
      var q := NumberOrZero(input.quantity);
      if NormalizeType(input.kind) == OUT && p.currentStock < q then
        Some(InsufficientStock(p.currentStock, p.unit, q))
      else None
  }

  /** The transaction record `addTransaction` writes under `id` for
      product `p`. */
  function PostedRecord(id: int, p: Product, input: TxInput, now: int): (t: Transaction)
    ensures t.id == id && t.productId == p.id && t.productName == p.name
    ensures t.kind == NormalizeType(input.kind)
    ensures t.quantity == NumberOrZero(input.quantity)
    ensures t.pricePerUnit == ResolvePrice(input.pricePerUnit, p.price)
    ensures t.totalValue == Times(t.quantity, t.pricePerUnit)
    ensures t.note == input.note.GetOr("")
    ensures t.date == input.date.GetOr(now) && t.createdAt == now
  {
    var q := NumberOrZero(input.quantity);
    var price := ResolvePrice(input.pricePerUnit, p.price);
    Transaction(id, p.id, p.name, NormalizeType(input.kind), q, price, Times(q, price),
                input.note.GetOr(""), input.date.GetOr(now), now)
  }

  /** The product record after the posting of `t` at `now`. */
  function PostedProduct(p: Product, t: Transaction, now: int): (r: Product)
    ensures r.currentStock == PostStock(p.currentStock, t.kind, t.quantity)
    ensures r.updatedAt == now
    ensures r.id == p.id && r.name == p.name && r.unit == p.unit
    ensures r.minStock == p.minStock && r.price == p.price && r.createdAt == p.createdAt
  {
    p.(currentStock := PostStock(p.currentStock, t.kind, t.quantity), updatedAt := now)
  }

  /** Sum of the quantities of the IN transactions of `s`. */
  function SumIn(s: seq<Transaction>): real {
    if s == [] then 0.0
    else SumIn(s[..|s| - 1]) + (if s[|s| - 1].kind == IN then s[|s| - 1].quantity else 0.0)
  }

  /** Sum of the quantities of the OUT transactions of `s`. */
  function SumOut(s: seq<Transaction>): real {
    if s == [] then 0.0
    else SumOut(s[..|s| - 1]) + (if s[|s| - 1].kind == OUT then s[|s| - 1].quantity else 0.0)
  }

  /** The stock reached from `stock` by applying the postings of `s` one
      after the other. */
  function Replay(stock: real, s: seq<Transaction>): real
    decreases |s|
  {
    if s == [] then stock else Replay(PostStock(stock, s[0].kind, s[0].quantity), s[1..])
  }

  /** The sums can also be taken from the front. */
  lemma {:induction false} SumsFromFront(s: seq<Transaction>)
    requires s != []
    ensures SumIn(s) == (if s[0].kind == IN then s[0].quantity else 0.0) + SumIn(s[1..])
    ensures SumOut(s) == (if s[0].kind == OUT then s[0].quantity else 0.0) + SumOut(s[1..])
  {
    if |s| > 1 {
      var init := s[..|s| - 1];
      SumsFromFront(init);
      assert init[1..] == s[1..][..|s[1..]| - 1];
      assert init[0] == s[0];
    }
  }

  /** Replaying postings one by one ends at the opening stock plus every
      IN quantity minus every OUT quantity. */
  lemma {:induction false} ReplayIsNet(stock: real, s: seq<Transaction>)
    ensures Replay(stock, s) == stock + SumIn(s) - SumOut(s)
    decreases |s|
  {
    if s != [] {
      SumsFromFront(s);
      ReplayIsNet(PostStock(stock, s[0].kind, s[0].quantity), s[1..]);
    }
  }

  /** Replaying `s` and then `t` is replaying `s + t`. */
  lemma {:induction false} ReplayConcat(stock: real, s: seq<Transaction>, t: seq<Transaction>)
    ensures Replay(stock, s + t) == Replay(Replay(stock, s), t)
    decreases |s|
  {
    if s != [] {
      assert (s + t)[0] == s[0] && (s + t)[1..] == s[1..] + t;
      ReplayConcat(PostStock(stock, s[0].kind, s[0].quantity), s[1..], t);
    } else {
      assert s + t == t;
    }
  }

  // The filter of `getTransactions`

  /** `filters.type` is truthy. */
  predicate TypeGiven(f: TxFilter) {
    f.kind != []
  }

  /** `filters.productId` is truthy (0 is not). */
  predicate ProductGiven(f: TxFilter) {
    f.productId.Some? && f.productId.value != 0
  }

  /** The index lookup: by type when a type is given (the product id is then
      ignored), else by product id when one is given, else everything. */
  predicate Selected(f: TxFilter, t: Transaction)
    ensures TypeGiven(f) ==>
              (Selected(f, t) <==> (f.kind == "IN" && t.kind == IN) || (f.kind == "OUT" && t.kind == OUT))
    ensures !TypeGiven(f) && ProductGiven(f) ==> (Selected(f, t) <==> t.productId == f.productId.value)
    ensures !TypeGiven(f) && !ProductGiven(f) ==> Selected(f, t)
  {
    if TypeGiven(f) then TypeName(t.kind) == f.kind
    else if ProductGiven(f) then t.productId == f.productId.value
    else true
  }

  /** `filters.dateFrom || filters.dateTo`: the date window applies. */
  predicate DateFiltered(f: TxFilter) {
    f.dateFrom.Some? || f.dateTo.Some?
  }

  /** The date window: from the raw `dateFrom` instant (0 when absent) to
      the end of the local day of `dateTo` (unbounded when absent). Every
      instant from `dateFrom` up to `dateTo` is inside, and nothing a day
      or more after `dateTo` is. */
  predicate InWindow(f: TxFilter, offset: int, t: Transaction)
    ensures !DateFiltered(f) ==> InWindow(f, offset, t)
    ensures InWindow(f, offset, t) && DateFiltered(f) ==> f.dateFrom.GetOr(0) <= t.date
    ensures InWindow(f, offset, t) && f.dateTo.Some? ==> t.date < f.dateTo.value + Calendar.DayMs
    ensures f.dateTo.Some? && f.dateFrom.GetOr(0) <= t.date <= f.dateTo.value ==> InWindow(f, offset, t)
  {
    !DateFiltered(f)
    || (f.dateFrom.GetOr(0) <= t.date
        && (f.dateTo.None? || t.date <= Calendar.EndOfDay(f.dateTo.value, offset)))
  }

  /** A transaction `getTransactions(f)` returns. An empty filter returns
      everything; a type given returns only that type; a product given
      without a type returns only that product's postings. */
  predicate Matches(f: TxFilter, offset: int, t: Transaction)
    ensures f == TxFilter("", None, None, None) ==> Matches(f, offset, t)
    ensures Matches(f, offset, t) && TypeGiven(f) ==> TypeName(t.kind) == f.kind
    ensures Matches(f, offset, t) && !TypeGiven(f) && ProductGiven(f) ==> t.productId == f.productId.value
  {

    Selected(f, t) && InWindow(f, offset, t)
  }

  /** When a type is given, the product id has no effect on the result. */
  lemma TypeBeatsProductId(f: TxFilter, productId: Option<int>, offset: int, t: Transaction)
    requires TypeGiven(f)
    ensures Matches(f, offset, t) <==> Matches(f.(productId := productId), offset, t)
  {
  }

  /** With only `dateTo`, the lower bound is the instant 0, not minus
      infinity: transactions dated before 1970 drop out. */
  lemma OnlyDateToExcludesBeforeEpoch(f: TxFilter, offset: int, t: Transaction)
    requires f.dateFrom.None? && f.dateTo.Some? && t.date < 0
    ensures !Matches(f, offset, t)
  {
  }

  /** Every transaction dated on the `dateTo` day, up to its last
      millisecond, is inside the window; nothing later is. */
  lemma WindowEndsWithDay(f: TxFilter, offset: int, t: Transaction)
    requires f.dateTo.Some? && f.dateFrom.GetOr(0) <= t.date
    ensures InWindow(f, offset, t) <==> t.date <= Calendar.EndOfDay(f.dateTo.value, offset)
  {
  }

  // Orders

  /** The comparator `(a, b) => new Date(b.date) - new Date(a.date)`:
      `a` may come first when it is not older. */
  predicate NewerOrSame(a: Transaction, b: Transaction) {
    a.date >= b.date
  }

  lemma NewerOrSameIsTotalPreorder()
    ensures Seqs.TotalPreorder(NewerOrSame)
  {
  }

  /** Lexicographic order of strings by character code, as the store
      compares index keys. */
  predicate LexLe(a: string, b: string) {
    a == [] || (b != [] && (a[0] < b[0] || (a[0] == b[0] && LexLe(a[1..], b[1..]))))
  }

  lemma {:induction false} LexLeTotal(a: string, b: string)
    ensures LexLe(a, b) || LexLe(b, a)
  {
    if a != [] && b != [] && a[0] == b[0] {
      LexLeTotal(a[1..], b[1..]);
    }
  }

  lemma {:induction false} LexLeTransitive(a: string, b: string, c: string)
    requires LexLe(a, b) && LexLe(b, c)
    ensures LexLe(a, c)
  {
    if a != [] && b != [] && c != [] && a[0] == b[0] == c[0] {
      LexLeTransitive(a[1..], b[1..], c[1..]);
    }
  }

  /** The order of `orderBy('name')`. */
  predicate NameOrder(a: Product, b: Product) {
    LexLe(a.name, b.name)
  }

  lemma NameOrderIsTotalPreorder()
    ensures Seqs.TotalPreorder(NameOrder)
  {
    forall a: Product, b: Product ensures NameOrder(a, b) || NameOrder(b, a) {
      LexLeTotal(a.name, b.name);
    }
    forall a: Product, b: Product, c: Product | NameOrder(a, b) && NameOrder(b, c)
      ensures NameOrder(a, c)
    {
      LexLeTransitive(a.name, b.name, c.name);
    }
  }

  /** Primary-key order of products. */
  predicate ProductIdBefore(a: Product, b: Product) {
    a.id < b.id
  }

  /** Primary-key order of transactions. */
  predicate TxIdBefore(a: Transaction, b: Transaction) {
    a.id < b.id
  }
}
