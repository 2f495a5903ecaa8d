/**
 * The product dashboard (react-app/src/pages/Dashboard.tsx): the search and category filter,
 * the category list for the filter menu, the stock counters, and the row selection.
 * The page's state lives in a class whose handlers update the selection in place.
 */
module Dashboard {
  import opened Wrappers
  import opened Text
  import opened Seqs

  /** The fields of a product the dashboard reads (react-app/src/types.ts). */
  datatype Product = Product(id: string, code: Option<string>, name: string,
                             brand: Option<string>, category: Option<string>,
                             stockQty: int, isActive: bool)

  const AllCategories: string := "all"
  const LowStockLimit: int := 10

  /** `field?.toLowerCase().includes(needle)`: an absent field does not match. */
  predicate FieldMatches(field: Option<string>, needle: string) {
    field.Some? && Contains(AsciiLower(field.value), needle)
  }

  /** The search part: name, brand, category or code contains the term, ignoring case. */
  predicate MatchesSearch(p: Product, term: string) {
    var needle := AsciiLower(term);
    Contains(AsciiLower(p.name), needle) || FieldMatches(p.brand, needle)
      || FieldMatches(p.category, needle) || FieldMatches(p.code, needle)
  }

  /** The category part: "all", or the product's category is exactly the chosen one. */
  predicate MatchesCategory(p: Product, filterCategory: string) {
    filterCategory == AllCategories || p.category == Some(filterCategory)
  }

  /** `filteredProducts` */
  function Filtered(products: seq<Product>, term: string, filterCategory: string): (r: seq<Product>)
    ensures forall p :: p in r <==> p in products && MatchesSearch(p, term) && MatchesCategory(p, filterCategory)
  {
    Filter(products, (p: Product) => MatchesSearch(p, term) && MatchesCategory(p, filterCategory))
  }

  /** The filtered list keeps the products' order and only drops some of them. */
  lemma FilteredIsSubsequence(products: seq<Product>, term: string, filterCategory: string)
    ensures IsSubsequence(Filtered(products, term, filterCategory), products)
  {
    FilterIsSubsequence(products, (p: Product) => MatchesSearch(p, term) && MatchesCategory(p, filterCategory));
  }

  /** No search term and "all" show every product. */
  lemma EmptySearchKeepsAll(products: seq<Product>)
    ensures Filtered(products, "", AllCategories) == products
  {
    forall i | 0 <= i < |products|
      ensures MatchesSearch(products[i], "")
    {
      assert AsciiLower("") == "";
      assert "" <= AsciiLower(products[i].name);
    }
    FilterAll(products, (p: Product) => MatchesSearch(p, "") && MatchesCategory(p, AllCategories));
  }

  /** A chosen category keeps only the products whose category is exactly that string. */
  lemma CategoryFilterExact(products: seq<Product>, term: string, filterCategory: string, p: Product)
    requires filterCategory != AllCategories
    ensures p in Filtered(products, term, filterCategory) <==>
      p in products && MatchesSearch(p, term) && p.category == Some(filterCategory)
  {
  }

  /** The search does not care about the case of the term. */
  lemma SearchIgnoresTermCase(p: Product, term: string)
    ensures MatchesSearch(p, term) <==> MatchesSearch(p, AsciiLower(term))
  {
    LowerTwice(term);
  }

  /** A name holding the term, in any case, is found. */
  lemma NameMatchFound(p: Product, term: string, i: nat)
    requires OccursAt(AsciiLower(p.name), AsciiLower(term), i)
    ensures MatchesSearch(p, term)
  {
    ContainsIff(AsciiLower(p.name), AsciiLower(term));
  }

  /** `products.map(p => p.category).filter(Boolean)` */
  function CategoryList(products: seq<Product>): (r: seq<string>)
    ensures forall c :: c in r <==> c != "" && exists p :: p in products && p.category == Some(c)
  {
    if products == [] then []
    else
      var head := products[0].category;
      (if head.Some? && head.value != "" then [head.value] else []) + CategoryList(products[1..])
  }

  /** `categories`: the distinct non-empty categories. */
  function Categories(products: seq<Product>): (r: seq<string>)
    ensures NoDuplicates(r)
    ensures forall c :: c in r <==> c != "" && exists p :: p in products && p.category == Some(c)
  {
    Distinct(CategoryList(products))
  }

  /** The categories come in the order of their first appearance among the products. */
  lemma CategoriesInFirstAppearanceOrder(products: seq<Product>, i: nat, j: nat)
    requires i < j < |Categories(products)|
    ensures FirstIndex(CategoryList(products), Categories(products)[i])
      < FirstIndex(CategoryList(products), Categories(products)[j])
  {
    DistinctFirstOccurrenceOrder(CategoryList(products), i, j);
  }

  /** `activeProducts` */
  function ActiveCount(products: seq<Product>): nat {
    Count(products, (p: Product) => p.isActive)
  }

  /** `lowStockProducts` */
  function LowStockCount(products: seq<Product>): nat {
    Count(products, (p: Product) => p.stockQty < LowStockLimit)
  }

  /** The counters never exceed `totalProducts`, the length of the list. */
  lemma CountersBounded(products: seq<Product>)
    ensures ActiveCount(products) <= |products|
    ensures LowStockCount(products) <= |products|
  {
  }

  /** Adding a product raises a counter by one exactly when the product is counted by it. */
  lemma CountersOfAppended(products: seq<Product>, p: Product)
    ensures ActiveCount(products + [p]) == ActiveCount(products) + (if p.isActive then 1 else 0)
    ensures LowStockCount(products + [p])
      == LowStockCount(products) + (if p.stockQty < LowStockLimit then 1 else 0)
  {
    FilterSnoc(products, p, (x: Product) => x.isActive);
    FilterSnoc(products, p, (x: Product) => x.stockQty < LowStockLimit);
  }

  lemma {:induction false} FilterSnoc<T(!new)>(s: seq<T>, x: T, q: T -> bool)
    ensures Filter(s + [x], q) == Filter(s, q) + (if q(x) then [x] else [])
  {
    if s == [] {
      assert [x][1..] == [];
    } else {
      assert (s + [x])[1..] == s[1..] + [x];
      FilterSnoc(s[1..], x, q);
    }
  }

  /** A `Set` with `id` added when absent, removed when present. */
  function Toggle(s: set<string>, id: string): (r: set<string>)
    ensures id in r <==> id !in s
    ensures forall x :: x != id ==> (x in r <==> x in s)
  {
    if id in s then s - {id} else s + {id}
  }

  /** Toggling the same id twice restores the selection. */
  lemma ToggleTwice(s: set<string>, id: string)
    ensures Toggle(Toggle(s, id), id) == s
  {
  }

  /** The ids of a list of products. */
  function Ids(products: seq<Product>): set<string> {
    set p | p in products :: p.id
  }

  /** The page's state: the loaded products, the filter inputs and the selection. */
  class DashboardState {
    var products: seq<Product>
    var searchTerm: string
    var filterCategory: string
    var selected: set<string>
    var selectAll: bool

    constructor (loaded: seq<Product>)
      ensures products == loaded && searchTerm == "" && filterCategory == AllCategories
      ensures selected == {} && !selectAll
    {
      products := loaded;
      searchTerm := "";
      filterCategory := AllCategories;
      selected := {};
      selectAll := false;
    }

    /** The rows on show. */
    function Visible(): seq<Product>
      reads this
    {
      Filtered(products, searchTerm, filterCategory)
    }

    /** `handleSelectProduct`: toggle one id; "select all" is on when as many ids are selected
        as rows are shown. */
    method SelectProduct(id: string)
      modifies this`selected, this`selectAll
      ensures selected == Toggle(old(selected), id)
      ensures selectAll == (|selected| == |Visible()|)
    {
      selected := Toggle(selected, id);
      selectAll := |selected| == |Visible()|;
    }

    /** `handleSelectAll`: clear when on; otherwise select exactly the ids on show. */
    method SelectAllToggle()
      modifies this`selected, this`selectAll
      ensures old(selectAll) ==> selected == {} && !selectAll
      ensures !old(selectAll) ==> selected == Ids(Visible()) && selectAll
    {
      if selectAll {
        selected := {};
        selectAll := false;
      } else {
        selected := Ids(Visible());
        selectAll := true;
      }
    }
  }
}
