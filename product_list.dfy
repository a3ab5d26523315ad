/** The product list page of src/pages/ProductList.jsx: the search box
    filter over the products the ledger returns, and the low-stock mark of
    each row. */
module ProductList {
  import opened JsStrings
  import opened Records
  import Seqs
  import Db

  /** `p.name.toLowerCase().includes(q) || (p.unit && p.unit.toLowerCase().includes(q))`
      with `q` the lower-cased search. */
  predicate NameOrUnitHit(search: string, p: Product) {
    Includes(Lower(p.name), Lower(search))
    || (p.unit != [] && Includes(Lower(p.unit), Lower(search)))
  }

  /** The predicate of `filtered`: an empty search keeps everything. */
  predicate Hit(search: string, p: Product) {
    search == [] || NameOrUnitHit(search, p)
  }

  /** `products.filter(...)`: the rows shown for `search`. */
  function Search(products: seq<Product>, search: string): (r: seq<Product>)
    ensures |r| <= |products|
    ensures forall p :: p in r ==> p in products
  {
    Seqs.Filter(products, (p: Product) => Hit(search, p))
  }

  /** An empty search shows every product, in order. */
  lemma EmptySearchShowsAll(products: seq<Product>)
    ensures Search(products, "") == products
  {
    Seqs.FilterAll(products, (p: Product) => Hit("", p));
  }


  /** With a non-empty search, a product is shown exactly when it is listed
      and its name, or its non-empty unit, contains the search, ignoring
      case. */
  lemma SearchShowsHits(products: seq<Product>, search: string, p: Product)
    requires search != []
    ensures p in Search(products, search) <==>
              p in products
              && (Includes(Lower(p.name), Lower(search))
                  || (p.unit != [] && Includes(Lower(p.unit), Lower(search))))
  {
  }

  /** The rows keep the order of the list they are taken from. */
  lemma SearchKeepsOrder(products: seq<Product>, search: string)
    ensures Seqs.SubsequenceOf(Search(products, search), products)
  {
    Seqs.FilterIsSubsequence(products, (p: Product) => Hit(search, p));
  }

  /** The case of the search text does not matter. */
  lemma SearchIgnoresCase(products: seq<Product>, search: string)
    ensures Search(products, Lower(search)) == Search(products, search)
  {
    LowerIdempotent(search);
    assert (Lower(search) == []) == (search == []);
    Seqs.FilterAgreeing(products, (p: Product) => Hit(Lower(search), p), (p: Product) => Hit(search, p));
  }

  /** Typing more characters never brings a row back: the rows for a
      longer search are among those for any prefix of it. */
  lemma LongerSearchNarrows(products: seq<Product>, search: string, prefix: string, p: Product)
    requires |prefix| <= |search| && search[..|prefix|] == prefix
    requires p in Search(products, search)
    ensures p in Search(products, prefix)
  {
    if prefix != [] {
      LowerPrefix(search, prefix);
      IncludesPrefix(Lower(search), Lower(prefix));
      if Includes(Lower(p.name), Lower(search)) {
        IncludesTransitive(Lower(p.name), Lower(search), Lower(prefix));
      } else {
        IncludesTransitive(Lower(p.unit), Lower(search), Lower(prefix));
      }
    }
  }

  /** A row of the table: the product and whether it is marked low. */
  datatype Row = Row(product: Product, low: bool)

  /** The rows for `search` over the list `products`, each marked with the
      `isLow` rule. */
  function Rows(products: seq<Product>, search: string): (rows: seq<Row>)
    ensures |rows| == |Search(products, search)|
    ensures forall i :: 0 <= i < |rows| ==>
              rows[i].product == Search(products, search)[i] && rows[i].low == IsLow(rows[i].product)
  {
    var shown := Search(products, search);
    seq(|shown|, i requires 0 <= i < |shown| => Row(shown[i], IsLow(shown[i])))
  }

  /** `load` and the table: the products of the store, in name order, that
      match the search; a row is marked low exactly when the product is
      one `getLowStockProducts` returns, and a product with no minimum
      (`minStock` 0) never is. */
  method Load(ledger: Db.Ledger, search: string) returns (rows: seq<Row>)
    requires ledger.Valid()
    ensures forall p :: (exists i :: 0 <= i < |rows| && rows[i].product == p) <==>
                          ledger.HasProduct(p) && Hit(search, p)
    ensures forall i, j :: 0 <= i < j < |rows| ==> NameOrder(rows[i].product, rows[j].product)
    ensures forall i, j :: 0 <= i < j < |rows| ==> rows[i].product != rows[j].product
    ensures forall i :: 0 <= i < |rows| ==> (rows[i].low <==> IsLow(rows[i].product))

    ensures forall i :: 0 <= i < |rows| && rows[i].product.minStock <= 0.0 ==> !rows[i].low
  {
    var products := ledger.GetProducts();
    var shown := Search(products, search);
    SearchKeepsOrder(products, search);
    Seqs.SubsequencePairwise(shown, products, NameOrder);
    Seqs.SubsequenceNoDup(shown, products);

    rows := Rows(products, search);
    forall p ensures (exists i :: 0 <= i < |rows| && rows[i].product == p) <==> ledger.HasProduct(p) && Hit(search, p) {
      if p in shown {
        var i :| 0 <= i < |shown| && shown[i] == p;
        assert rows[i].product == p;
      }
    }
  }
}
