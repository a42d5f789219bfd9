/** The product catalog page of the Next.js site (app/products/page.tsx): a
    fixed list of products, a search box and one button per category. The
    visible list is recomputed from the two filter inputs on every render. */
module CatalogPage {
  import opened Sequences

  /** One catalog entry. `price` and `rating` are only displayed; the
      description, market-insight text, colour and 3D shape are display-only
      and are not part of this model. */
  datatype Product = Product(
    id: int,
    name: string,
    category: string,
    country: string,
    price: real,
    rating: real,
    season: string)

  /** The hard-coded catalog, in display order. */
  function Catalog(): (c: seq<Product>)
    ensures |c| == 6
    ensures forall i :: 0 <= i < |c| ==> c[i].id == i + 1
  {
    [
      Product(1, "Premium Mangoes", "Tropical Fruits", "India", 4.5, 4.8, "Summer"),
      Product(2, "Dragon Fruit", "Exotic Fruits", "Vietnam", 8.2, 4.6, "Year-round"),
      Product(3, "Organic Avocados", "Healthy Fruits", "Mexico", 6.8, 4.9, "Year-round"),
      Product(4, "Golden Pineapples", "Tropical Fruits", "Costa Rica", 3.2, 4.7, "Year-round"),
      Product(5, "Premium Berries", "Berries", "Chile", 12.5, 4.8, "Winter"),
      Product(6, "Exotic Kiwis", "Exotic Fruits", "New Zealand", 5.4, 4.5, "Spring")
    ]
  }

  /** The selector value that means "every category". */
  const AllCategories: string := "All"

  /** The category column of a product list (`products.map(p => p.category)`). */
  function CategoryColumn(ps: seq<Product>): seq<string> {
    seq(|ps|, k requires 0 <= k < |ps| => ps[k].category)
  }

  /** The category buttons: "All" followed by the de-duplicated category
      column. */
  function Categories(ps: seq<Product>): (r: seq<string>)
    ensures |r| >= 1 && r[0] == AllCategories
    ensures |r| <= |ps| + 1
  {
    [AllCategories] + Distinct(CategoryColumn(ps))
  }

  /** The first button is "All"; after it, every category of the catalog
      appears, nothing else does, and none appears twice. */
  lemma CategoriesFacets(ps: seq<Product>)
    ensures |Categories(ps)| >= 1 && Categories(ps)[0] == AllCategories
    ensures forall k :: 0 <= k < |ps| ==> ps[k].category in Categories(ps)[1..]
    ensures forall c :: c in Categories(ps)[1..] ==> exists k :: 0 <= k < |ps| && ps[k].category == c
    ensures NoDuplicates(Categories(ps)[1..])
  {
    var cs := CategoryColumn(ps);
    assert Categories(ps)[1..] == Distinct(cs);
    forall k | 0 <= k < |ps| ensures ps[k].category in Distinct(cs) {
      assert cs[k] == ps[k].category;
    }
    forall c | c in Distinct(cs) ensures exists k :: 0 <= k < |ps| && ps[k].category == c {
      var k :| 0 <= k < |cs| && cs[k] == c;
    }
  }

  /** Whether one product is shown: its lower-cased name contains the
      lower-cased search text, and the category selector is "All" or names
      the product's category exactly. */
  predicate Matches(p: Product, searchTerm: string, selectedCategory: string) {
    && Includes(Lower(p.name), Lower(searchTerm))
    && (selectedCategory == AllCategories || p.category == selectedCategory)
  }

  function MatchesFilters(searchTerm: string, selectedCategory: string): Product -> bool {
    p => Matches(p, searchTerm, selectedCategory)
  }

  /** The visible products: `products.filter(...)` with `Matches`. A
      product is shown exactly when it is in the catalog, its name contains
      the search text (ignoring case) and its category passes the selector. */
  function FilteredProducts(ps: seq<Product>, searchTerm: string, selectedCategory: string): (r: seq<Product>)
    ensures |r| <= |ps|
    ensures forall p :: p in r <==>
      && p in ps
      && Includes(Lower(p.name), Lower(searchTerm))
      && (selectedCategory == AllCategories || p.category == selectedCategory)
  {
    Filter(ps, MatchesFilters(searchTerm, selectedCategory))
  }

  /** The visible list keeps the catalog's order and only drops entries:
      it is read off the catalog at increasing positions, exactly those
      whose product matches. The catalog itself is a value and is never
      changed. */
  lemma FilteredIsSubsequence(ps: seq<Product>, searchTerm: string, selectedCategory: string)
    ensures exists idx ::
      && Embedding(idx, FilteredProducts(ps, searchTerm, selectedCategory), ps)
      && SelectsPassing(idx, ps, MatchesFilters(searchTerm, selectedCategory))
    ensures IsSubsequence(FilteredProducts(ps, searchTerm, selectedCategory), ps)
  {
    FilterIsSubsequence(ps, MatchesFilters(searchTerm, selectedCategory));
  }

  /** With the initial inputs (empty search text, category "All") every
      product is shown, in catalog order. */
  lemma DefaultFiltersShowAll(ps: seq<Product>)
    ensures FilteredProducts(ps, "", AllCategories) == ps
  {
    forall k | 0 <= k < |ps| ensures MatchesFilters("", AllCategories)(ps[k]) {
      IncludesEmpty(Lower(ps[k].name));
    }
    FilterKeepsAll(ps, MatchesFilters("", AllCategories));
  }

  /** Category selection is exact string equality: a product whose category
      merely contains, or is contained in, the selected one is not shown. */
  lemma CategoryIsExact(ps: seq<Product>, searchTerm: string, selectedCategory: string, p: Product)
    requires selectedCategory != AllCategories && p.category != selectedCategory
    ensures p !in FilteredProducts(ps, searchTerm, selectedCategory)
  {
  }

  /** Choosing a category never shows a product that "All" hides. */
  lemma CategoryNarrows(ps: seq<Product>, searchTerm: string, selectedCategory: string)
    ensures IsSubsequence(FilteredProducts(ps, searchTerm, selectedCategory), FilteredProducts(ps, searchTerm, AllCategories))
  {
    FilterNarrows(ps, MatchesFilters(searchTerm, selectedCategory), MatchesFilters(searchTerm, AllCategories));
  }

  /** The category part of the rule alone. */
  function InCategory(selectedCategory: string): Product -> bool {
    (p: Product) => selectedCategory == AllCategories || p.category == selectedCategory
  }

  /** With an empty search text only the category selector decides. */
  lemma EmptySearchFiltersByCategory(ps: seq<Product>, selectedCategory: string)
    ensures FilteredProducts(ps, "", selectedCategory) == Filter(ps, InCategory(selectedCategory))
  {
    forall k | 0 <= k < |ps|
      ensures MatchesFilters("", selectedCategory)(ps[k]) == InCategory(selectedCategory)(ps[k])
    {
      IncludesEmpty(Lower(ps[k].name));
    }
    FilterCongruent(ps, MatchesFilters("", selectedCategory), InCategory(selectedCategory));
  }

  /** The search text is compared with the name only: changing any other
      field but the category leaves the verdict unchanged. */
  lemma SearchLooksAtNameOnly(p: Product, q: Product, searchTerm: string, selectedCategory: string)
    requires p.name == q.name && p.category == q.category
    ensures Matches(p, searchTerm, selectedCategory) == Matches(q, searchTerm, selectedCategory)
  {
  }

  /** The category buttons list "All" once only when no product uses "All"
      as its own category. */
  lemma CategoriesDistinctIff(ps: seq<Product>)
    ensures NoDuplicates(Categories(ps)) <==> forall k :: 0 <= k < |ps| ==> ps[k].category != AllCategories
  {
    var r := Categories(ps);
    CategoriesFacets(ps);
    if k :| 0 <= k < |ps| && ps[k].category == AllCategories {
      var m :| 0 <= m < |r[1..]| && r[1..][m] == AllCategories;
      assert r[0] == r[m + 1];
    } else {
      forall i, j | 0 <= i < j < |r| ensures r[i] != r[j] {
        if i == 0 {
          assert r[j] == r[1..][j - 1];
          assert r[j] in r[1..];
        } else {
          assert r[i] == r[1..][i - 1] && r[j] == r[1..][j - 1];
        }
      }
    }
  }

  /** After "All", the category buttons follow the order in which the catalog
      first mentions each category. */
  lemma CategoriesFirstSeenOrder(ps: seq<Product>, i: int, j: int)
    requires 1 <= i < j < |Categories(ps)|
    ensures Categories(ps)[i] in CategoryColumn(ps) && Categories(ps)[j] in CategoryColumn(ps)
    ensures FirstIndex(CategoryColumn(ps), Categories(ps)[i]) < FirstIndex(CategoryColumn(ps), Categories(ps)[j])
  {
    var cs := CategoryColumn(ps);
    var d := Distinct(cs);
    assert Categories(ps)[i] == d[i - 1] && Categories(ps)[j] == d[j - 1];
    DistinctFirstSeenOrder(cs, i - 1, j - 1);
  }

  // ---------------------------------------------------------------------
  // The literal catalog

  /** The ids of a product list, in order. */
  function Ids(ps: seq<Product>): seq<int> {
    seq(|ps|, k requires 0 <= k < |ps| => ps[k].id)
  }

  /** The lower-cased names of the six catalog entries. */
  lemma LowerName0() ensures Lower(Catalog()[0].name) == "premium mangoes" {}
  lemma LowerName1() ensures Lower(Catalog()[1].name) == "dragon fruit" {}
  lemma LowerName2() ensures Lower(Catalog()[2].name) == "organic avocados" {}
  lemma LowerName3() ensures Lower(Catalog()[3].name) == "golden pineapples" {}
  lemma LowerName4() ensures Lower(Catalog()[4].name) == "premium berries" {}
  lemma LowerName5() ensures Lower(Catalog()[5].name) == "exotic kiwis" {}

  /** Which lower-cased names contain "mango". */
  lemma MangoInNames()
    ensures Lower("mango") == "mango"
    ensures Includes("premium mangoes", "mango")
    ensures !Includes("dragon fruit", "mango") && !Includes("organic avocados", "mango")
  {
    MangoInFirstName();
    MissingCharExcludes("dragon fruit", "mango", 0);
    MissingCharExcludes("organic avocados", "mango", 0);
  }

  lemma MangoInFirstName()
    ensures Includes("premium mangoes", "mango")
  {
    assert OccursAt("premium mangoes", "mango", 8);
    IncludesIff("premium mangoes", "mango");
  }

  lemma MangoNotInNames()
    ensures !Includes("golden pineapples", "mango")
    ensures !Includes("premium berries", "mango") && !Includes("exotic kiwis", "mango")
  {
    MissingCharExcludes("golden pineapples", "mango", 0);
    MissingCharExcludes("premium berries", "mango", 1);
    MissingCharExcludes("exotic kiwis", "mango", 0);
  }

  /** Searching "mango" shows only product 1, Premium Mangoes. */
  lemma MangoSearch()
    ensures Ids(FilteredProducts(Catalog(), "mango", AllCategories)) == [1]
  {
    MangoKept();
    FirstId();
  }

  lemma MangoKept()
    ensures FilteredProducts(Catalog(), "mango", AllCategories) == [Catalog()[0]]
  {
    LowerName0(); LowerName1(); LowerName2(); LowerName3(); LowerName4(); LowerName5();
    MangoInNames();
    MangoNotInNames();
    FilterOnlyFirst(Catalog(), MatchesFilters("mango", AllCategories));
  }

  lemma FirstId()
    ensures Ids([Catalog()[0]]) == [1]
  {
  }

  /** A filter that keeps only the first of six entries. */
  lemma FilterOnlyFirst(c: seq<Product>, p: Product -> bool)
    requires |c| == 6 && p(c[0])
    requires !p(c[1]) && !p(c[2]) && !p(c[3]) && !p(c[4]) && !p(c[5])
    ensures Filter(c, p) == [c[0]]
  {
    assert c[6..] == [];
    FilterStep(c, 5, p);
    FilterStep(c, 4, p);
    FilterStep(c, 3, p);
    FilterStep(c, 2, p);
    FilterStep(c, 1, p);
    FilterStep(c, 0, p);
    assert c[0..] == c;
  }

  /** "india" occurs in none of the lower-cased names. */
  lemma IndiaNotInNames1()
    ensures Lower("India") == "india"
    ensures !Includes("premium mangoes", "india") && !Includes("dragon fruit", "india")
  {
    MissingCharExcludes("premium mangoes", "india", 2);
    assert !IncludesFrom("dragon fruit", "india", 0);
  }

  lemma IndiaNotInNames2()
    ensures !Includes("organic avocados", "india")
  {
    assert !IncludesFrom("organic avocados", "india", 6);
  }

  lemma IndiaNotInNames3()
    ensures !Includes("golden pineapples", "india")
  {
    assert !IncludesFrom("golden pineapples", "india", 6);
  }

  lemma IndiaNotInNames4()
    ensures !Includes("premium berries", "india") && !Includes("exotic kiwis", "india")
  {
    MissingCharExcludes("premium berries", "india", 2);
    MissingCharExcludes("exotic kiwis", "india", 2);
  }

  /** Searching a country name shows nothing: Premium Mangoes comes from
      India, yet "India" matches no product name. */
  lemma CountryIsNotSearched()
    ensures Catalog()[0].country == "India"
    ensures FilteredProducts(Catalog(), "India", AllCategories) == []
  {
    IndiaRejected();
    FilterNone(Catalog(), MatchesFilters("India", AllCategories));
  }

  lemma IndiaRejected()
    ensures var c := Catalog(); var m := MatchesFilters("India", AllCategories);
      !m(c[0]) && !m(c[1]) && !m(c[2]) && !m(c[3]) && !m(c[4]) && !m(c[5])
  {
    LowerName0(); LowerName1(); LowerName2(); LowerName3(); LowerName4(); LowerName5();
    IndiaNotInNames1();
    IndiaNotInNames2();
    IndiaNotInNames3();
    IndiaNotInNames4();
  }

  /** A search text that occurs in no name ("zzz") shows an empty list;
      this is an ordinary outcome, which Clear Filters undoes. */
  lemma NoMatchSearch()
    ensures FilteredProducts(Catalog(), "zzz", AllCategories) == []
  {
    ZzzRejected();
    FilterNone(Catalog(), MatchesFilters("zzz", AllCategories));
  }

  lemma ZzzRejected()
    ensures var c := Catalog(); var m := MatchesFilters("zzz", AllCategories);
      !m(c[0]) && !m(c[1]) && !m(c[2]) && !m(c[3]) && !m(c[4]) && !m(c[5])
  {
    LowerName0(); LowerName1(); LowerName2(); LowerName3(); LowerName4(); LowerName5();
    ZzzNotInNames();
  }

  lemma ZzzNotInNames()
    ensures Lower("zzz") == "zzz"
    ensures !Includes("premium mangoes", "zzz") && !Includes("dragon fruit", "zzz")
    ensures !Includes("organic avocados", "zzz") && !Includes("golden pineapples", "zzz")
    ensures !Includes("premium berries", "zzz") && !Includes("exotic kiwis", "zzz")
  {
    ZzzNotInFirstNames();
    ZzzNotInLastNames();
  }

  lemma ZzzNotInFirstNames()
    ensures !Includes("premium mangoes", "zzz") && !Includes("dragon fruit", "zzz")
    ensures !Includes("organic avocados", "zzz")
  {
    MissingCharExcludes("premium mangoes", "zzz", 0);
    MissingCharExcludes("dragon fruit", "zzz", 0);
    MissingCharExcludes("organic avocados", "zzz", 0);
  }

  lemma ZzzNotInLastNames()
    ensures !Includes("golden pineapples", "zzz")
    ensures !Includes("premium berries", "zzz") && !Includes("exotic kiwis", "zzz")
  {
    MissingCharExcludes("golden pineapples", "zzz", 0);
    MissingCharExcludes("premium berries", "zzz", 0);
    MissingCharExcludes("exotic kiwis", "zzz", 0);
  }

  /** A filter that rejects every entry yields nothing. */
  lemma FilterNone(c: seq<Product>, p: Product -> bool)
    requires |c| == 6
    requires !p(c[0]) && !p(c[1]) && !p(c[2]) && !p(c[3]) && !p(c[4]) && !p(c[5])
    ensures Filter(c, p) == []
  {
    assert c[6..] == [];
    FilterStep(c, 5, p);
    FilterStep(c, 4, p);
    FilterStep(c, 3, p);
    FilterStep(c, 2, p);
    FilterStep(c, 1, p);
    FilterStep(c, 0, p);
    assert c[0..] == c;
  }

  /** Selecting "Exotic Fruits" with an empty search shows products 2 and 6,
      in that order. */
  lemma ExoticFruitsCategory()
    ensures Ids(FilteredProducts(Catalog(), "", "Exotic Fruits")) == [2, 6]
  {
    ExoticFruitsKept();
    EmptySearchFiltersByCategory(Catalog(), "Exotic Fruits");
    ExoticFruitsIds();
  }

  lemma ExoticFruitsKept()
    ensures Filter(Catalog(), InCategory("Exotic Fruits")) == [Catalog()[1], Catalog()[5]]
  {
    FilterSecondAndSixth(Catalog(), InCategory("Exotic Fruits"));
  }

  lemma ExoticFruitsIds()
    ensures Ids([Catalog()[1], Catalog()[5]]) == [2, 6]
  {
  }

  /** A filter that keeps the second and the sixth of six entries. */
  lemma FilterSecondAndSixth(c: seq<Product>, p: Product -> bool)
    requires |c| == 6 && p(c[1]) && p(c[5])
    requires !p(c[0]) && !p(c[2]) && !p(c[3]) && !p(c[4])
    ensures Filter(c, p) == [c[1], c[5]]
  {
    assert c[6..] == [];
    FilterStep(c, 5, p);
    assert Filter(c[5..], p) == [c[5]];
    FilterStep(c, 4, p);
    FilterStep(c, 3, p);
    FilterStep(c, 2, p);
    assert Filter(c[2..], p) == [c[5]];
    FilterStep(c, 1, p);
    assert Filter(c[1..], p) == [c[1], c[5]];
    FilterStep(c, 0, p);
    assert c[0..] == c;
  }

  /** The literal catalog yields these category buttons. */
  lemma CatalogCategories()
    ensures Categories(Catalog()) == ["All", "Tropical Fruits", "Exotic Fruits", "Healthy Fruits", "Berries"]
  {
    CatalogCategoryColumn();
    CatalogDistinctCategories();
  }

  lemma CatalogCategoryColumn()
    ensures CategoryColumn(Catalog()) == ["Tropical Fruits", "Exotic Fruits", "Healthy Fruits", "Tropical Fruits", "Berries", "Exotic Fruits"]
  {
  }

  lemma CatalogDistinctCategories()
    ensures Distinct(["Tropical Fruits", "Exotic Fruits", "Healthy Fruits", "Tropical Fruits", "Berries", "Exotic Fruits"])
         == ["Tropical Fruits", "Exotic Fruits", "Healthy Fruits", "Berries"]
  {
    var cs := ["Tropical Fruits", "Exotic Fruits", "Healthy Fruits", "Tropical Fruits", "Berries", "Exotic Fruits"];
    assert cs[..1][..0] == [];
    assert cs[..2][..1] == cs[..1];
    assert cs[..3][..2] == cs[..2];
    assert cs[..4][..3] == cs[..3];
    assert cs[..5][..4] == cs[..4];
    assert cs[..6] == cs && cs[..6][..5] == cs[..5];
    assert Distinct(cs[..1]) == ["Tropical Fruits"];
    assert Distinct(cs[..2]) == ["Tropical Fruits", "Exotic Fruits"];
    assert Distinct(cs[..3]) == ["Tropical Fruits", "Exotic Fruits", "Healthy Fruits"];
    assert Distinct(cs[..4]) == ["Tropical Fruits", "Exotic Fruits", "Healthy Fruits"];
    assert Distinct(cs[..5]) == ["Tropical Fruits", "Exotic Fruits", "Healthy Fruits", "Berries"];
  }

  // ---------------------------------------------------------------------
  // Page state

  /** The page's two pieces of filter state (`searchTerm` and
      `selectedCategory`), updated by their setters, over the page's
      read-only product list. */
  class FilterState {
    const products: seq<Product>
    var searchTerm: string
    var selectedCategory: string

    /** What the product grid shows for the current state. */
    function Visible(): seq<Product>
      reads this
    {
      FilteredProducts(products, searchTerm, selectedCategory)
    }

    /** The initial state over the page's product list (the literal
        `Catalog()`): empty search, category "All", every product shown. */
    constructor (catalog: seq<Product>)
      ensures products == catalog
      ensures searchTerm == "" && selectedCategory == AllCategories
      ensures Visible() == products
    {
      products := catalog;
      searchTerm := "";
      selectedCategory := AllCategories;
      new;
      DefaultFiltersShowAll(products);
    }

    /** Typing in the search box replaces the search text. */
    method SetSearchTerm(term: string)
      modifies this
      ensures searchTerm == term && selectedCategory == old(selectedCategory)
      ensures Visible() == FilteredProducts(products, term, old(selectedCategory))
    {
      searchTerm := term;
    }

    /** Clicking a category button selects that category. */
    method SelectCategory(category: string)
      modifies this
      ensures selectedCategory == category && searchTerm == old(searchTerm)
      ensures Visible() == FilteredProducts(products, old(searchTerm), category)
    {
      selectedCategory := category;
    }

    /** "Clear Filters" restores both inputs to their initial values, which
        shows the whole product list again in its original order. */
    method ClearFilters()
      modifies this
      ensures searchTerm == "" && selectedCategory == AllCategories
      ensures Visible() == products
    {
      searchTerm := "";
      selectedCategory := AllCategories;
      DefaultFiltersShowAll(products);
    }
  }
}
