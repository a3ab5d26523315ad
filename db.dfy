/** The stock ledger of src/db.js: a store with two tables, products and
    transactions, each keyed by an auto-increment id, and the operations
    on them. Each operation runs to completion before the next starts;
    the writes inside one operation are performed one after the other. */
module Db {
  import opened Js
  import opened Records
  import Seqs

  /** What `addTransaction(input)` does to the tables `p0`/`t0` (next
      transaction id `next`), giving `p1`/`t1`: a rejected posting leaves
      both unchanged; an accepted one adds one transaction under `next` and
      moves the stock of its product, and touches nothing else. */
  ghost predicate Posted(p0: map<int, Product>, t0: map<int, Transaction>, next: int,
                         p1: map<int, Product>, t1: map<int, Transaction>,
                         input: TxInput, now: int)
  {
    match CheckPosting(p0, input)
    case Some(_) => p1 == p0 && t1 == t0
    case None =>
      var p := p0[input.productId];
      var t := PostedRecord(next, p, input, now);
      t1 == t0[next := t] && p1 == p0[input.productId := PostedProduct(p, t, now)]
  }

  /** A posting that `Posted` describes: on acceptance, the new record is
      stored under the next id with the product's name at posting time and
      a creation time equal to the product's new `updatedAt`; the
      product's stock moves by the quantity, up for IN and down for OUT,
      never below 0 for an OUT; no other product changes. */
  lemma PostedEffects(p0: map<int, Product>, t0: map<int, Transaction>, next: int,
                      p1: map<int, Product>, t1: map<int, Transaction>, input: TxInput, now: int)
    requires Posted(p0, t0, next, p1, t1, input, now)
    ensures p1.Keys == p0.Keys
    ensures forall k :: k in p0 && k != input.productId ==> p1[k] == p0[k]
    ensures CheckPosting(p0, input).Some? ==> p1 == p0 && t1 == t0
    ensures CheckPosting(p0, input).None? ==>
              var old_ := p0[input.productId];
              var q := NumberOrZero(input.quantity);
              && t1.Keys == t0.Keys + {next}
              && t1[next].productName == old_.name
              && t1[next].createdAt == p1[input.productId].updatedAt == now
              && p1[input.productId].currentStock
                 == (if input.kind == "OUT" then old_.currentStock - q else old_.currentStock + q)
              && (input.kind == "OUT" ==> p1[input.productId].currentStock >= 0.0)
  {
  }

  /** An OUT of exactly the stock on hand is accepted and leaves 0. */
  lemma ExactOutAccepted(products: map<int, Product>, input: TxInput)
    requires input.productId in products && input.kind == "OUT"
    requires input.quantity == Some(products[input.productId].currentStock)
    ensures CheckPosting(products, input).None?
    ensures PostStock(products[input.productId].currentStock, OUT,
                      NumberOrZero(input.quantity)) == 0.0
  {
  }

  /** `t` is the record stored under its own id. */
  ghost predicate StoredIn(transactions: map<int, Transaction>, t: Transaction) {
    t.id in transactions && transactions[t.id] == t
  }

  /** Ids start at 1, are below the next id and match their records. */
  ghost predicate Keyed(products: map<int, Product>, transactions: map<int, Transaction>,
                        nextProductId: int, nextTxId: int)
  {
    && 1 <= nextProductId && 1 <= nextTxId
    && (forall k :: k in products ==> 1 <= k < nextProductId && products[k].id == k)
    && (forall k :: k in transactions ==> 1 <= k < nextTxId && transactions[k].id == k)
  }

  /** Every transaction belongs to an existing product. */
  ghost predicate Linked(products: map<int, Product>, transactions: map<int, Transaction>) {
    forall k :: k in transactions ==> transactions[k].productId in products
  }

  /** Every product's stock is its opening stock plus the IN quantities
      minus the OUT quantities of its journal. */
  ghost predicate Balanced(products: map<int, Product>, opening: map<int, real>,
                           journal: map<int, seq<Transaction>>)
  {
    && opening.Keys == products.Keys && journal.Keys == products.Keys
    && (forall k :: k in products ==>
          products[k].currentStock == opening[k] + SumIn(journal[k]) - SumOut(journal[k]))
  }

  /** The postings in a product's journal are stored transactions of that
      product. */
  ghost predicate Journaled(transactions: map<int, Transaction>, journal: map<int, seq<Transaction>>) {
    forall k, i :: k in journal && 0 <= i < |journal[k]| ==>
      journal[k][i].productId == k && StoredIn(transactions, journal[k][i])
  }

  /** An accepted posting keeps ids, links, balances and journals
      consistent: its product's journal grows by the new record. */
  lemma PostingKeepsBalance(products: map<int, Product>, transactions: map<int, Transaction>,
                            nextProductId: int, nextTxId: int,
                            opening: map<int, real>, journal: map<int, seq<Transaction>>,
                            input: TxInput, now: int)
    requires Keyed(products, transactions, nextProductId, nextTxId)
    requires Linked(products, transactions)
    requires Balanced(products, opening, journal)
    requires Journaled(transactions, journal)
    requires CheckPosting(products, input).None?
    ensures var p := products[input.productId];
            var t := PostedRecord(nextTxId, p, input, now);
            var products' := products[input.productId := PostedProduct(p, t, now)];
            var transactions' := transactions[nextTxId := t];
            var journal' := journal[input.productId := journal[input.productId] + [t]];
            && Keyed(products', transactions', nextProductId, nextTxId + 1)
            && Linked(products', transactions')
            && Balanced(products', opening, journal')
            && Journaled(transactions', journal')
  {
    var pid := input.productId;
    var p := products[pid];
    var t := PostedRecord(nextTxId, p, input, now);
    var transactions': map<int, Transaction> := transactions[nextTxId := t];
    var before: seq<Transaction> := journal[pid];
    var journal': map<int, seq<Transaction>> := journal[pid := before + [t]];
    assert (before + [t])[..|before|] == before;
    forall k: int, i: int | k in journal' && 0 <= i < |journal'[k]|
      ensures journal'[k][i].productId == k && StoredIn(transactions', journal'[k][i])
    {
      if k == pid && i < |before| {
        assert journal'[k][i] == before[i];
      }
    }
  }

  class Ledger {
    var products: map<int, Product>
    var transactions: map<int, Transaction>
    var nextProductId: int
    var nextTxId: int

    /** For each product, the stock it had when it was created or when an
        edit last set it, and the postings made since then, oldest first. */
    ghost var opening: map<int, real>
    ghost var journal: map<int, seq<Transaction>>

    ghost predicate Stored(t: Transaction)
      reads this
    {
      StoredIn(transactions, t)
    }

    ghost predicate HasProduct(p: Product)
      reads this
    {
      p.id in products && products[p.id] == p
    }

    /** Ids are consistent with the counters, transactions point at
        products, and each product's stock is the net of its journal. */
    ghost predicate Valid()
      reads this
    {
      && Keyed(products, transactions, nextProductId, nextTxId)
      && Linked(products, transactions)
      && Balanced(products, opening, journal)
      && Journaled(transactions, journal)
    }

    /** An empty store (schema version 1). */
    constructor ()
      ensures Valid()
      ensures products == map[] && transactions == map[]
      ensures nextProductId == 1 && nextTxId == 1
      ensures opening == map[] && journal == map[]
    {
      products, transactions := map[], map[];
      nextProductId, nextTxId := 1, 1;
      opening, journal := map[], map[];
    }

    /** `addProduct(input)` at time `now`: stores the new record under a
        fresh id and returns that id. */
    method AddProduct(input: ProductInput, now: int) returns (id: int)
      requires Valid()
      modifies this
      ensures Valid()
      ensures id == old(nextProductId) && id !in old(products)
      ensures products == old(products)[id := NewProduct(id, input, now)]
      ensures transactions == old(transactions) && nextTxId == old(nextTxId)
      ensures nextProductId == old(nextProductId) + 1
      ensures opening == old(opening)[id := NumberOrZero(input.currentStock)]
      ensures journal == old(journal)[id := []]
    {
      id := nextProductId;
      products := products[id := NewProduct(id, input, now)];
      nextProductId := nextProductId + 1;
      opening := opening[id := NumberOrZero(input.currentStock)];
      journal := journal[id := []];
    }

    /** `updateProduct(id, u)` at time `now`: nothing happens for an unknown
        id; otherwise only that product's record changes, to the merge of
        the edit over it. */
    method UpdateProduct(id: int, u: ProductUpdate, now: int)
      requires Valid()
      modifies this
      ensures Valid()
      ensures id !in old(products) ==> products == old(products)
      ensures id in old(products) ==> products == old(products)[id := MergeUpdate(old(products)[id], u, now)]
      ensures transactions == old(transactions)
      ensures nextProductId == old(nextProductId) && nextTxId == old(nextTxId)
      ensures id in old(products) && u.currentStock.Some? ==>
                opening == old(opening)[id := u.currentStock.value] && journal == old(journal)[id := []]
      ensures id !in old(products) || u.currentStock.None? ==>
                opening == old(opening) && journal == old(journal)
    {
      if id !in products {
        return;
      }
      var existing := products[id];
      products := products[id := MergeUpdate(existing, u, now)];
      if u.currentStock.Some? {
        // an explicit stock is a correction: it opens a new balance
        opening := opening[id := u.currentStock.value];
        journal := journal[id := []];
      }
    }

    /** `deleteProduct(id)`: first removes every transaction of the product,
        then the product; two separate writes, in that order. */
    method DeleteProduct(id: int)
      requires Valid()
      modifies this
      ensures Valid()
      ensures transactions == map k | k in old(transactions) && old(transactions)[k].productId != id
                                :: old(transactions)[k]
      ensures products == old(products) - {id}
      ensures forall k :: k in transactions ==> transactions[k].productId != id
      ensures nextProductId == old(nextProductId) && nextTxId == old(nextTxId)
      ensures opening == old(opening) - {id} && journal == old(journal) - {id}
    {
      transactions := map k | k in transactions && transactions[k].productId != id :: transactions[k];
      products := products - {id};
      opening := opening - {id};
      journal := journal - {id};
    }

    /** `addTransaction(input)` at time `now`. It looks the product up,
        coerces the quantity, resolves the price, computes the total,
        normalises the type and checks the stock for an OUT; then it writes
        the transaction and, as a second write, the product's new stock. */
    method AddTransaction(input: TxInput, now: int) returns (r: Result<int, PostError>)
      requires Valid()
      modifies this
      ensures Valid()
      ensures Posted(old(products), old(transactions), old(nextTxId), products, transactions, input, now)
      ensures r == match CheckPosting(old(products), input)
                   case Some(e) => Err(e)
                   case None => Ok(old(nextTxId))
      ensures r.Ok? ==> r.value !in old(transactions)
      ensures r.Ok? && NormalizeType(input.kind) == OUT ==> products[input.productId].currentStock >= 0.0
      ensures nextProductId == old(nextProductId)
      ensures nextTxId == old(nextTxId) + (if r.Ok? then 1 else 0)
      ensures r.Ok? ==> opening == old(opening)

                        && journal == old(journal)[input.productId :=
                                                   old(journal)[input.productId] + [transactions[r.value]]]
      ensures r.Err? ==> opening == old(opening) && journal == old(journal)
    {
      if input.productId !in products {
        return Err(ProductNotFound);
      }
      var product := products[input.productId];
      var quantity := NumberOrZero(input.quantity);
      var pricePerUnit := ResolvePrice(input.pricePerUnit, product.price);
      var totalValue := Times(quantity, pricePerUnit);
      var kind := NormalizeType(input.kind);
      if kind == OUT && product.currentStock < quantity {
        return Err(InsufficientStock(product.currentStock, product.unit, quantity));
      }
      var date := input.date.GetOr(now);
      var id := nextTxId;
      var tx := Transaction(id, product.id, product.name, kind, quantity, pricePerUnit,
                            totalValue, input.note.GetOr(""), date, now);
      var newStock := if kind == IN then product.currentStock + quantity
                      else product.currentStock - quantity;
      assert tx == PostedRecord(id, product, input, now);
      Commit(input, now, tx, product.(currentStock := newStock, updatedAt := now));
      r := Ok(id);
    }

    /** The writes of an accepted posting: the record under the next id,
        then the product with its new stock; the journal of the product
        records the posting. */
    method Commit(input: TxInput, now: int, tx: Transaction, updated: Product)
      requires Valid()
      requires CheckPosting(products, input).None?
      requires tx == PostedRecord(nextTxId, products[input.productId], input, now)
      requires updated == PostedProduct(products[input.productId], tx, now)
      modifies this
      ensures Valid()
      ensures Posted(old(products), old(transactions), old(nextTxId), products, transactions, input, now)
      ensures nextTxId == old(nextTxId) + 1 && nextProductId == old(nextProductId)
      ensures opening == old(opening)
      ensures journal == old(journal)[input.productId := old(journal)[input.productId] + [tx]]
    {
      PostingKeepsBalance(products, transactions, nextProductId, nextTxId,
                          opening, journal, input, now);
      transactions := transactions[nextTxId := tx];
      nextTxId := nextTxId + 1;
      products := products[input.productId := updated];
      journal := journal[input.productId := journal[input.productId] + [tx]];
    }

    /** The transaction table in primary-key order. */
    method TransactionsById() returns (list: seq<Transaction>)
      requires Valid()
      ensures Seqs.Pairwise(list, TxIdBefore)
      ensures forall t :: t in list <==> Stored(t)
    {
      list := [];
      var k := 1;
      while k < nextTxId
        invariant 1 <= k <= nextTxId
        invariant Seqs.Pairwise(list, TxIdBefore)
        invariant forall t :: t in list ==> Stored(t) && t.id < k
        invariant forall t :: Stored(t) && t.id < k ==> t in list
      {
        if k in transactions {
          list := list + [transactions[k]];
        }
        k := k + 1;
      }
    }

    /** The product table in primary-key order. */
    method ProductsById() returns (list: seq<Product>)
      requires Valid()
      ensures Seqs.Pairwise(list, ProductIdBefore)
      ensures forall p :: p in list <==> HasProduct(p)
    {
      list := [];
      var k := 1;
      while k < nextProductId
        invariant 1 <= k <= nextProductId
        invariant Seqs.Pairwise(list, ProductIdBefore)
        invariant forall p :: p in list ==> HasProduct(p) && p.id < k
        invariant forall p :: HasProduct(p) && p.id < k ==> p in list
      {
        if k in products {
          list := list + [products[k]];
        }
        k := k + 1;
      }
    }

    /** `getProducts()`: every product once, ordered by name. */
    method GetProducts() returns (list: seq<Product>)
      requires Valid()
      ensures Seqs.Pairwise(list, NameOrder)
      ensures Seqs.NoDup(list)
      ensures forall p :: p in list <==> HasProduct(p)
    {
      var all := ProductsById();
      Seqs.PairwiseIrreflexiveNoDup(all, ProductIdBefore);
      list := Seqs.Sort(all, NameOrder);
      NameOrderIsTotalPreorder();
      Seqs.SortOrdered(all, NameOrder);
      Seqs.SortNoDup(all, NameOrder);
    }

    /** `getTransactions(f)`, with local-time offset `offset`: every
        transaction the filter selects, once, newest first. The type index
        is used when a type is given, else the product index when a product
        id is given, else the date order; then the date window; then, for
        the two index paths, a sort by date. */
    method GetTransactions(f: TxFilter, offset: int) returns (list: seq<Transaction>)
      requires Valid()
      ensures Seqs.Pairwise(list, NewerOrSame)
      ensures Seqs.NoDup(list)
      ensures forall t :: t in list <==> Stored(t) && Matches(f, offset, t)
    {
      var all := TransactionsById();
      Seqs.PairwiseIrreflexiveNoDup(all, TxIdBefore);
      NewerOrSameIsTotalPreorder();
      if TypeGiven(f) || ProductGiven(f) {
        list := Seqs.Filter(all, (t: Transaction) => Selected(f, t));
        Seqs.FilterIsSubsequence(all, (t: Transaction) => Selected(f, t));
        Seqs.SubsequenceNoDup(list, all);
      } else {
        list := Seqs.Sort(all, NewerOrSame);
        Seqs.SortOrdered(all, NewerOrSame);
        Seqs.SortNoDup(all, NewerOrSame);
      }
      if DateFiltered(f) {
        var before := list;
        list := Seqs.Filter(before, (t: Transaction) => InWindow(f, offset, t));
        Seqs.FilterIsSubsequence(before, (t: Transaction) => InWindow(f, offset, t));
        Seqs.SubsequenceNoDup(list, before);
        if !(TypeGiven(f) || ProductGiven(f)) {
          Seqs.SubsequencePairwise(list, before, NewerOrSame);
        }
      }
      if TypeGiven(f) || ProductGiven(f) {
        var before := list;
        list := Seqs.Sort(before, NewerOrSame);
        Seqs.SortOrdered(before, NewerOrSame);
        Seqs.SortNoDup(before, NewerOrSame);
      }
    }

    /** `getRecentTransactions(limit)` (10 when no limit is given): the
        newest transactions, newest first, at most `limit` of them, and all
        of them when there are fewer; none left out is newer than one
        returned. */
    method GetRecentTransactions(limit: Option<nat>) returns (list: seq<Transaction>)
      requires Valid()
      ensures |list| <= limit.GetOr(10)
      ensures Seqs.Pairwise(list, NewerOrSame)
      ensures Seqs.NoDup(list)
      ensures forall t :: t in list ==> Stored(t)
      ensures |list| < limit.GetOr(10) ==> forall t :: Stored(t) ==> t in list
      ensures forall t, i :: Stored(t) && t !in list && 0 <= i < |list| ==> list[i].date >= t.date
    {
      var n := limit.GetOr(10);
      var all := TransactionsById();
      Seqs.PairwiseIrreflexiveNoDup(all, TxIdBefore);
      NewerOrSameIsTotalPreorder();
      var sorted := Seqs.Sort(all, NewerOrSame);
      Seqs.SortOrdered(all, NewerOrSame);
      Seqs.SortNoDup(all, NewerOrSame);
      var m := if n < |sorted| then n else |sorted|;
      list := sorted[..m];
      assert forall q :: 0 <= q < m ==> sorted[q] in list;
      forall t, i | Stored(t) && t !in list && 0 <= i < |list| ensures list[i].date >= t.date {
        var j :| 0 <= j < |sorted| && sorted[j] == t;
        assert NewerOrSame(sorted[i], sorted[j]);
      }
    }

    /** `getLowStockProducts()`: exactly the products the low-stock rule
        flags, in primary-key order. */
    method GetLowStockProducts() returns (list: seq<Product>)
      requires Valid()
      ensures forall p :: p in list <==> HasProduct(p) && IsLow(p)
      ensures Seqs.Pairwise(list, ProductIdBefore)
      ensures Seqs.NoDup(list)
    {
      var all := ProductsById();
      list := Seqs.Filter(all, IsLow);
      Seqs.FilterIsSubsequence(all, IsLow);
      Seqs.SubsequencePairwise(list, all, ProductIdBefore);
      Seqs.PairwiseIrreflexiveNoDup(list, ProductIdBefore);
    }

  }

  /** In every valid state, each product's stock is what replaying its
      postings one by one from its opening stock gives, which is the
      opening stock plus the IN quantities minus the OUT quantities. */
  lemma StockIsReplay(l: Ledger, k: int)
    requires l.Valid() && k in l.products
    ensures l.products[k].currentStock == Replay(l.opening[k], l.journal[k])
  {
    ReplayIsNet(l.opening[k], l.journal[k]);
  }
}
