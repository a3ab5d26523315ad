/** The dashboard of src/pages/Dashboard.jsx: the stock valuation over the
    product list and the low-stock alert, which shows the first five
    low-stock products and how many more there are. */
module Dashboard {
  import opened Js
  import opened Records
  import Seqs
  import Db

  /** `products.reduce((sum, p) => sum + p.currentStock * (p.price || 0), 0)`.
      A stored price is a number, so `p.price || 0` is the price itself.
      An empty list is worth 0 and a single product its stock times its
      price. */
  function Valuation(products: seq<Product>): (r: real)
    ensures products == [] ==> r == 0.0
    ensures |products| == 1 ==> r == Worth(products[0])
  {
    if products == [] then 0.0
    else Valuation(products[..|products| - 1]) + Worth(products[|products| - 1])
  }

  /** A store whose stocks and prices are not negative is not worth less
      than 0. */
  lemma {:induction false} ValuationNonNegative(products: seq<Product>)
    requires NoneNegative(products)
    ensures Valuation(products) >= 0.0
    decreases |products|
  {
    if products != [] {
      var init := products[..|products| - 1];
      assert NoneNegative(init) by {
        forall i | 0 <= i < |init| ensures init[i].currentStock >= 0.0 && init[i].price >= 0.0 {
          assert init[i] == products[i];
        }
      }
      ValuationNonNegative(init);
      var last := products[|products| - 1];
      assert last.currentStock >= 0.0 && last.price >= 0.0;
      assert Worth(last) >= 0.0;
    }
  }

  /** Every product has a stock and a price that are not negative. */
  predicate NoneNegative(products: seq<Product>) {
    forall i :: 0 <= i < |products| ==> products[i].currentStock >= 0.0 && products[i].price >= 0.0
  }

  /** What one product adds to the valuation. */

  function Worth(p: Product): real {
    p.currentStock * p.price
  }

  /** The value of a list appended to another is the sum of the two. */
  lemma {:induction false} ValuationConcat(a: seq<Product>, b: seq<Product>)
    ensures Valuation(a + b) == Valuation(a) + Valuation(b)
    decreases |b|
  {
    if b == [] {
      assert a + b == a;
    } else {
      assert (a + b)[..|a + b| - 1] == a + b[..|b| - 1];
      ValuationConcat(a, b[..|b| - 1]);
    }
  }

  /** An empty store is worth 0, and a product priced 0 adds nothing. */
  lemma ValuationOfNothing(products: seq<Product>, p: Product)
    requires p.price == 0.0
    ensures Valuation([]) == 0.0
    ensures Valuation(products + [p]) == Valuation(products)
  {
    assert (products + [p])[..|products + [p]| - 1] == products;
  }

  /** Appending one product adds its worth. */
  lemma ValuationOfOne(pre: seq<Product>, x: Product)
    ensures Valuation(pre + [x]) == Valuation(pre) + Worth(x)
  {
    assert (pre + [x])[..|pre + [x]| - 1] == pre;
  }

  /** Taking the product at `i` out of the list takes its value out of
      the valuation. */
  lemma ValuationRemoveAt(b: seq<Product>, i: int)
    requires 0 <= i < |b|
    ensures Valuation(b) == Valuation(b[..i] + b[i + 1..]) + Worth(b[i])
  {
    var pre, x, post := b[..i], b[i], b[i + 1..];
    Seqs.SplitAt(b, i);
    ValuationOfOne(pre, x);
    ValuationConcat(pre + [x], post);
    ValuationConcat(pre, post);
  }

  /** The valuation does not depend on the order of the list. */
  lemma {:induction false} ValuationPermutation(a: seq<Product>, b: seq<Product>)
    requires multiset(a) == multiset(b)
    ensures Valuation(a) == Valuation(b)
    decreases |a|
  {
    if a == [] {
      assert |b| == |multiset(b)| == 0;
    } else {
      var x := a[|a| - 1];
      var init := a[..|a| - 1];
      assert x in multiset(b);
      var i :| 0 <= i < |b| && b[i] == x;
      var rest := b[..i] + b[i + 1..];
      Seqs.RemoveAtMultiset(b, i);
      assert a == init + [x];
      assert multiset(a) == multiset(init) + multiset{x};
      assert multiset(init) == multiset(a) - multiset{x};
      assert multiset(rest) == multiset(b) - multiset{x};
      ValuationPermutation(init, rest);
      ValuationRemoveAt(b, i);
    }
  }

  /** Any two listings of the same products, each product once, have the
      same value: the valuation is a property of the store. */
  lemma ValuationOfStore(a: seq<Product>, b: seq<Product>)
    requires Seqs.NoDup(a) && Seqs.NoDup(b)
    requires forall p :: p in a <==> p in b
    ensures Valuation(a) == Valuation(b)
  {
    Seqs.SameMembersPermutation(a, b);
    ValuationPermutation(a, b);
  }

  /** `lowStock.slice(0, 5)`. */
  function Preview(low: seq<Product>): (r: seq<Product>)
    ensures |r| == if |low| < 5 then |low| else 5
    ensures r == low[..|r|]
  {
    if |low| <= 5 then low else low[..5]
  }

  /** The `+k` line: present, with `k = length - 5`, only when there are
      more than five. */
  function MoreCount(low: seq<Product>): (r: Option<nat>)
    ensures r.Some? <==> |low| > 5
  {
    if |low| > 5 then Some(|low| - 5) else None
  }

  /** The alert accounts for every low-stock product: the shown ones are
      the first ones, and the `+k` line counts the rest. */
  lemma AlertCountsAll(low: seq<Product>)
    ensures |Preview(low)| + MoreCount(low).GetOr(0) == |low|
    ensures low == Preview(low) + low[|Preview(low)|..]
    ensures MoreCount(low).Some? ==> MoreCount(low).value == |low[|Preview(low)|..]|
  {
  }

  /** What the dashboard shows. */
  datatype View = View(
    products: seq<Product>,
    recent: seq<Transaction>,
    low: seq<Product>,
    totalValue: real,
    preview: seq<Product>,
    more: Option<nat>)

  /** `load` and the derived values: the products in name order, the 8
      newest transactions, the low-stock products, the total value of the
      store and the alert. */
  method Load(ledger: Db.Ledger) returns (v: View)
    requires ledger.Valid()
    ensures forall p :: p in v.products <==> ledger.HasProduct(p)
    ensures Seqs.NoDup(v.products) && Seqs.Pairwise(v.products, NameOrder)
    ensures |v.recent| <= 8 && forall t :: t in v.recent ==> ledger.Stored(t)
    ensures Seqs.Pairwise(v.recent, NewerOrSame) && Seqs.NoDup(v.recent)
    ensures |v.recent| < 8 ==> forall t :: ledger.Stored(t) ==> t in v.recent
    ensures forall t, i :: ledger.Stored(t) && t !in v.recent && 0 <= i < |v.recent| ==>
              v.recent[i].date >= t.date
    ensures forall p :: p in v.low <==> ledger.HasProduct(p) && IsLow(p)
    ensures Seqs.Pairwise(v.low, ProductIdBefore) && Seqs.NoDup(v.low)

    ensures v.totalValue == Valuation(v.products)
    ensures v.preview == Preview(v.low) && v.more == MoreCount(v.low)
    ensures forall p :: p in v.preview ==> IsLow(p) && ledger.HasProduct(p)
  {
    var products := ledger.GetProducts();
    var recent := ledger.GetRecentTransactions(Some(8));
    var low := ledger.GetLowStockProducts();
    v := View(products, recent, low, Valuation(products), Preview(low), MoreCount(low));
    forall p | p in v.preview ensures IsLow(p) && ledger.HasProduct(p) {
      assert p in low;
    }
  }
}
