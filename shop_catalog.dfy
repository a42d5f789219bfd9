/** The product page of the plain-script site (js/products.js): its own
    catalog, a free-text search over name and country, a country and a season
    drop-down, the product-detail lookup and the quote-request e-mail. */
module ShopCatalog {
  import opened Wrappers
  import opened Sequences
  import opened Mailto

  /** One catalog entry. Prices are display strings and are never computed
      on; the picture, the description and the four specification lines are
      display-only and are not part of this model. */
  datatype ShopProduct = ShopProduct(
    id: int,
    name: string,
    country: string,
    season: string,
    pricePerKg: string,
    pricePerCarton: string)

  /** The hard-coded catalog, in display order. */
  function Products(): (c: seq<ShopProduct>)
    ensures |c| == 6
    ensures forall i :: 0 <= i < |c| ==> c[i].id == i + 1
  {
    [
      ShopProduct(1, "Premium Mangoes", "India", "Summer", "$3.50", "$84.00"),
      ShopProduct(2, "Dragon Fruit", "Vietnam", "Year-round", "$4.20", "$100.80"),
      ShopProduct(3, "Avocados", "Mexico", "Year-round", "$2.80", "$67.20"),
      ShopProduct(4, "Kiwi Fruit", "New Zealand", "Spring", "$3.90", "$93.60"),
      ShopProduct(5, "Passion Fruit", "Colombia", "Fall", "$5.50", "$132.00"),
      ShopProduct(6, "Pomegranates", "Turkey", "Fall", "$4.80", "$115.20")
    ]
  }

  // ---------------------------------------------------------------------
  // Country drop-down

  /** `products.map(p => p.country)`. */
  function CountryColumn(ps: seq<ShopProduct>): seq<string> {
    seq(|ps|, k requires 0 <= k < |ps| => ps[k].country)
  }

  /** The options of the country drop-down, after its empty "all countries"
      option: each country once, in first-seen order. */
  function Countries(ps: seq<ShopProduct>): (r: seq<string>)
    ensures |r| <= |ps|
  {
    Distinct(CountryColumn(ps))
  }

  /** Every product's country is offered, nothing else is, and no option is
      repeated. */
  lemma CountriesFacets(ps: seq<ShopProduct>)
    ensures forall k :: 0 <= k < |ps| ==> ps[k].country in Countries(ps)
    ensures forall c :: c in Countries(ps) ==> exists k :: 0 <= k < |ps| && ps[k].country == c
    ensures NoDuplicates(Countries(ps))
  {
    var cs := CountryColumn(ps);
    forall k | 0 <= k < |ps| ensures ps[k].country in Countries(ps) {
      assert cs[k] == ps[k].country;
    }
    forall c | c in Countries(ps) ensures exists k :: 0 <= k < |ps| && ps[k].country == c {
      var k :| 0 <= k < |cs| && cs[k] == c;
    }
  }

  /** The options follow the order in which the catalog first mentions each
      country. */
  lemma CountriesFirstSeenOrder(ps: seq<ShopProduct>, i: int, j: int)
    requires 0 <= i < j < |Countries(ps)|
    ensures FirstIndex(CountryColumn(ps), Countries(ps)[i]) < FirstIndex(CountryColumn(ps), Countries(ps)[j])
  {
    DistinctFirstSeenOrder(CountryColumn(ps), i, j);
  }

  /** The literal catalog offers its six countries, each from one product, in
      catalog order. */
  lemma CatalogCountries()
    ensures Countries(Products()) == ["India", "Vietnam", "Mexico", "New Zealand", "Colombia", "Turkey"]
  {
    CatalogCountryColumn();
    DistinctOfDistinct(["India", "Vietnam", "Mexico", "New Zealand", "Colombia", "Turkey"]);
  }

  lemma CatalogCountryColumn()
    ensures CountryColumn(Products()) == ["India", "Vietnam", "Mexico", "New Zealand", "Colombia", "Turkey"]
  {
  }

  // ---------------------------------------------------------------------
  // Filtering

  /** The drop-down value that means "any": the empty option, which is the
      only falsy string. */
  const AnyOption: string := ""

  /** Whether one product is shown. The search text is lower-cased once and
      must occur in the lower-cased name or the lower-cased country; an
      empty country or season selector lets every product through, any
      other value must equal the product's exactly. */
  predicate ShopMatches(p: ShopProduct, searchInput: string, selectedCountry: string, selectedSeason: string) {
    var searchTerm := Lower(searchInput);
    && (Includes(Lower(p.name), searchTerm) || Includes(Lower(p.country), searchTerm))
    && (selectedCountry == AnyOption || p.country == selectedCountry)
    && (selectedSeason == AnyOption || p.season == selectedSeason)
  }

  function ShopMatchesFilters(searchInput: string, selectedCountry: string, selectedSeason: string): ShopProduct -> bool {
    p => ShopMatches(p, searchInput, selectedCountry, selectedSeason)
  }

  /** `filterProducts`: `products.filter(...)` with `ShopMatches`. A product
      is shown exactly when it is in the catalog, the lower-cased search text
      occurs in its lower-cased name or country, and it passes both
      drop-downs. */
  function FilterProducts(ps: seq<ShopProduct>, searchInput: string, selectedCountry: string, selectedSeason: string): (r: seq<ShopProduct>)
    ensures |r| <= |ps|
    ensures forall p :: p in r <==>
      && p in ps
      && (Includes(Lower(p.name), Lower(searchInput)) || Includes(Lower(p.country), Lower(searchInput)))
      && (selectedCountry == "" || p.country == selectedCountry)
      && (selectedSeason == "" || p.season == selectedSeason)
  {
    Filter(ps, ShopMatchesFilters(searchInput, selectedCountry, selectedSeason))
  }

  /** The shown list keeps the catalog's order and only drops entries: it
      is read off the catalog at increasing positions, exactly those whose
      product matches. */
  lemma FilterProductsIsSubsequence(ps: seq<ShopProduct>, searchInput: string, selectedCountry: string, selectedSeason: string)
    ensures exists idx ::
      && Embedding(idx, FilterProducts(ps, searchInput, selectedCountry, selectedSeason), ps)
      && SelectsPassing(idx, ps, ShopMatchesFilters(searchInput, selectedCountry, selectedSeason))
    ensures IsSubsequence(FilterProducts(ps, searchInput, selectedCountry, selectedSeason), ps)
  {
    FilterIsSubsequence(ps, ShopMatchesFilters(searchInput, selectedCountry, selectedSeason));
  }

  /** With an empty search box and both drop-downs on "any", the whole
      catalog is shown in order, as on first render. */
  lemma NoFiltersShowAll(ps: seq<ShopProduct>)
    ensures FilterProducts(ps, "", "", "") == ps
  {
    forall k | 0 <= k < |ps| ensures ShopMatchesFilters("", "", "")(ps[k]) {
      IncludesEmpty(Lower(ps[k].name));
    }
    FilterKeepsAll(ps, ShopMatchesFilters("", "", ""));
  }

  /** Choosing a country never shows a product that "any country" hides. */
  lemma CountryNarrows(ps: seq<ShopProduct>, searchInput: string, selectedCountry: string, selectedSeason: string)
    ensures IsSubsequence(FilterProducts(ps, searchInput, selectedCountry, selectedSeason), FilterProducts(ps, searchInput, "", selectedSeason))
  {
    FilterNarrows(ps, ShopMatchesFilters(searchInput, selectedCountry, selectedSeason), ShopMatchesFilters(searchInput, "", selectedSeason));
  }

  /** Choosing a season never shows a product that "any season" hides. */
  lemma SeasonNarrows(ps: seq<ShopProduct>, searchInput: string, selectedCountry: string, selectedSeason: string)
    ensures IsSubsequence(FilterProducts(ps, searchInput, selectedCountry, selectedSeason), FilterProducts(ps, searchInput, selectedCountry, ""))
  {
    FilterNarrows(ps, ShopMatchesFilters(searchInput, selectedCountry, selectedSeason), ShopMatchesFilters(searchInput, selectedCountry, ""));
  }

  /** The season part of the rule alone. */
  function InSeason(selectedSeason: string): ShopProduct -> bool {
    (p: ShopProduct) => selectedSeason == AnyOption || p.season == selectedSeason
  }

  /** With an empty search box and any country, only the season decides. */
  lemma SeasonOnly(ps: seq<ShopProduct>, selectedSeason: string)
    ensures FilterProducts(ps, "", "", selectedSeason) == Filter(ps, InSeason(selectedSeason))
  {
    forall k | 0 <= k < |ps|
      ensures ShopMatchesFilters("", "", selectedSeason)(ps[k]) == InSeason(selectedSeason)(ps[k])
    {
      IncludesEmpty(Lower(ps[k].name));
    }
    FilterCongruent(ps, ShopMatchesFilters("", "", selectedSeason), InSeason(selectedSeason));
  }

  // ---------------------------------------------------------------------
  // The literal catalog

  /** The ids of a product list, in order. */
  function ShopIds(ps: seq<ShopProduct>): seq<int> {
    seq(|ps|, k requires 0 <= k < |ps| => ps[k].id)
  }

  /** The search "viet" matches no product name but matches the country of
      Dragon Fruit, so Dragon Fruit alone is shown. */
  lemma VietSearch()
    ensures ShopIds(FilterProducts(Products(), "viet", "", "")) == [2]
  {
    VietKept();
    SecondId();
  }

  lemma VietKept()
    ensures FilterProducts(Products(), "viet", "", "") == [Products()[1]]
  {
    VietVerdicts();
    FilterOnlySecond(Products(), ShopMatchesFilters("viet", "", ""));
  }

  lemma SecondId()
    ensures ShopIds([Products()[1]]) == [2]
  {
  }

  /** The verdict on each catalog entry for the search "viet". */
  lemma VietVerdicts()
    ensures var c := Products(); var m := ShopMatchesFilters("viet", "", "");
      m(c[1]) && !m(c[0]) && !m(c[2]) && !m(c[3]) && !m(c[4]) && !m(c[5])
  {
    LowerViet();
    ShopLower0(); ShopLower1(); ShopLower2(); ShopLower3(); ShopLower4(); ShopLower5();
    VietInVietnam();
    VietNotInNames();
    VietNotInCountries();
  }

  /** The lower-cased name and country of each catalog entry. */
  lemma ShopLower0() ensures Lower(Products()[0].name) == "premium mangoes" && Lower(Products()[0].country) == "india" {}
  lemma ShopLower1() ensures Lower(Products()[1].name) == "dragon fruit" && Lower(Products()[1].country) == "vietnam" {}
  lemma ShopLower2() ensures Lower(Products()[2].name) == "avocados" && Lower(Products()[2].country) == "mexico" {}
  lemma ShopLower3() ensures Lower(Products()[3].name) == "kiwi fruit" && Lower(Products()[3].country) == "new zealand" {}
  lemma ShopLower4() ensures Lower(Products()[4].name) == "passion fruit" && Lower(Products()[4].country) == "colombia" {}
  lemma ShopLower5() ensures Lower(Products()[5].name) == "pomegranates" && Lower(Products()[5].country) == "turkey" {}

  lemma LowerViet() ensures Lower("viet") == "viet" {}

  lemma VietInVietnam()
    ensures Includes("vietnam", "viet")
  {
  }

  lemma VietNotInNames()
    ensures !Includes("premium mangoes", "viet") && !Includes("dragon fruit", "viet")
    ensures !Includes("avocados", "viet") && !Includes("kiwi fruit", "viet")
    ensures !Includes("passion fruit", "viet") && !Includes("pomegranates", "viet")
  {
    MissingCharExcludes("premium mangoes", "viet", 0);
    MissingCharExcludes("dragon fruit", "viet", 0);
    MissingCharExcludes("avocados", "viet", 2);
    MissingCharExcludes("kiwi fruit", "viet", 0);
    MissingCharExcludes("passion fruit", "viet", 0);
    MissingCharExcludes("pomegranates", "viet", 0);
  }

  lemma VietNotInCountries()
    ensures !Includes("india", "viet") && !Includes("mexico", "viet")
    ensures !Includes("new zealand", "viet") && !Includes("colombia", "viet")
    ensures !Includes("turkey", "viet")
  {
    MissingCharExcludes("india", "viet", 0);
    MissingCharExcludes("mexico", "viet", 0);
    MissingCharExcludes("new zealand", "viet", 0);
    MissingCharExcludes("colombia", "viet", 0);
    MissingCharExcludes("turkey", "viet", 0);
  }

  /** A filter that keeps only the second of six entries. */
  lemma FilterOnlySecond(c: seq<ShopProduct>, p: ShopProduct -> bool)
    requires |c| == 6 && p(c[1])
    requires !p(c[0]) && !p(c[2]) && !p(c[3]) && !p(c[4]) && !p(c[5])
    ensures Filter(c, p) == [c[1]]
  {
    assert c[6..] == [];
    FilterStep(c, 5, p);
    FilterStep(c, 4, p);
    FilterStep(c, 3, p);
    FilterStep(c, 2, p);
    FilterStep(c, 1, p);
    FilterStep(c, 0, p);
    assert c[0..] == c;
  }

  /** Season "Fall" shows products 5 and 6, Passion Fruit and Pomegranates. */
  lemma FallSeason()
    ensures ShopIds(FilterProducts(Products(), "", "", "Fall")) == [5, 6]
  {
    SeasonOnly(Products(), "Fall");
    FallKept();
    LastTwoIds();
  }

  lemma FallKept()
    ensures Filter(Products(), InSeason("Fall")) == [Products()[4], Products()[5]]
  {
    FilterLastTwo(Products(), InSeason("Fall"));
  }

  lemma LastTwoIds()
    ensures ShopIds([Products()[4], Products()[5]]) == [5, 6]
  {
  }

  /** A filter that keeps the last two of six entries. */
  lemma FilterLastTwo(c: seq<ShopProduct>, p: ShopProduct -> bool)
    requires |c| == 6 && p(c[4]) && p(c[5])
    requires !p(c[0]) && !p(c[1]) && !p(c[2]) && !p(c[3])
    ensures Filter(c, p) == [c[4], c[5]]
  {
    assert c[6..] == [];
    FilterStep(c, 5, p);
    assert Filter(c[5..], p) == [c[5]];
    FilterStep(c, 4, p);
    assert Filter(c[4..], p) == [c[4], c[5]];
    FilterStep(c, 3, p);
    FilterStep(c, 2, p);
    assert Filter(c[2..], p) == [c[4], c[5]];
    FilterStep(c, 1, p);
    FilterStep(c, 0, p);
    assert c[0..] == c;
  }

  // ---------------------------------------------------------------------
  // Product details

  /** What `openProductModal` is called with: a card click passes the
      product object itself, the "View Details" button passes its id. */
  datatype ModalArg = ProductArg(product: ShopProduct) | IdArg(id: int)

  /** The product whose details are shown: an object argument as it is,
      otherwise the first catalog entry with that id (none when no entry
      has it). */
  function ModalProduct(ps: seq<ShopProduct>, arg: ModalArg): (r: Option<ShopProduct>)
    ensures arg.IdArg? && r.Some? ==> r.value in ps && r.value.id == arg.id
    ensures arg.IdArg? ==> (r.None? <==> forall p :: p in ps ==> p.id != arg.id)
  {
    match arg
    case ProductArg(p) => Some(p)
    case IdArg(id) => Find(ps, (p: ShopProduct) => p.id == id)
  }

  /** No two entries share an id. */
  predicate UniqueIds(ps: seq<ShopProduct>) {
    forall i, j :: 0 <= i < j < |ps| ==> ps[i].id != ps[j].id
  }

  /** An object argument comes back unchanged, whatever the catalog. */
  lemma ModalObjectUnchanged(ps: seq<ShopProduct>, p: ShopProduct)
    ensures ModalProduct(ps, ProductArg(p)) == Some(p)
  {
  }

  /** When ids are unique, looking up the id of a catalog entry finds that
      very entry. */
  lemma ModalIdFindsProduct(ps: seq<ShopProduct>, p: ShopProduct)
    requires UniqueIds(ps) && p in ps
    ensures ModalProduct(ps, IdArg(p.id)) == Some(p)
  {
    var r := ModalProduct(ps, IdArg(p.id));
    var q := r.value;
    var i :| 0 <= i < |ps| && ps[i] == q;
    var j :| 0 <= j < |ps| && ps[j] == p;
  }

  /** Even with repeated ids, the lookup returns the first entry carrying
      the id. */
  lemma ModalIdFindsFirst(ps: seq<ShopProduct>, k: int)
    requires 0 <= k < |ps|
    requires forall j :: 0 <= j < k ==> ps[j].id != ps[k].id
    ensures ModalProduct(ps, IdArg(ps[k].id)) == Some(ps[k])
  {
    FindFirst(ps, (p: ShopProduct) => p.id == ps[k].id, k);
  }

  /** The literal catalog's ids are unique, so every "View Details" button
      opens its own product. */
  lemma CatalogIdsUnique()
    ensures UniqueIds(Products())
  {
    assert ShopIds(Products()) == [1, 2, 3, 4, 5, 6];
    forall i, j | 0 <= i < j < |Products()| ensures Products()[i].id != Products()[j].id {
      assert Products()[i].id == ShopIds(Products())[i];
      assert Products()[j].id == ShopIds(Products())[j];
    }
  }

  // ---------------------------------------------------------------------
  // Quote request

  const QuoteSubjectPrefix: string := "Quote Request for "
  const QuoteBodyOpening: string := "Hello,\n\nI would like to request a quote for "
  const QuoteBodyClosing: string :=
    ".\n\nPlease provide:\n- Pricing details\n- Minimum order quantity\n- Delivery timeline\n- Payment terms\n\nThank you!"

  /** `requestQuote(productName)`: the e-mail handed to the mail client,
      before percent-encoding. */
  function RequestQuote(productName: string): (d: MailDraft)
    ensures d.to == Recipient
    ensures StartsWith(d.subject, QuoteSubjectPrefix) && d.subject[|QuoteSubjectPrefix|..] == productName
    ensures Includes(d.body, productName)
  {
    var body := QuoteBodyOpening + productName + QuoteBodyClosing;
    IncludesMiddle(QuoteBodyOpening, productName, QuoteBodyClosing);
    MailDraft(Recipient, QuoteSubjectPrefix + productName, body)
  }

  /** The subject names the product: stripping the quote prefix reads it
      back from the draft, so two different products never produce the same
      request. */
  lemma QuoteRoundTrip(productName: string)
    ensures StripPrefix(RequestQuote(productName).subject, QuoteSubjectPrefix) == Some(productName)
  {
    StripPrefixOfConcat(QuoteSubjectPrefix, productName);
  }

  lemma QuoteInjective(a: string, b: string)
    requires RequestQuote(a) == RequestQuote(b)
    ensures a == b
  {
    QuoteRoundTrip(a);
    QuoteRoundTrip(b);
  }
}
