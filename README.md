# Fresh Global fruit export site: catalog filters, navigation and lead messages

The site is a marketing front for a fruit import/export business. Apart from
markup and decorative 3D animation, it contains four small pieces of logic,
and this project models each in Dafny:

- **Catalog page (Next.js)**, `app/products/page.tsx` → module `CatalogPage`.
  - A fixed product list, a search box and one button per category.
  - The buttons are "All" followed by the distinct categories in first-seen order.
  - The visible list keeps the products whose lower-cased name contains the lower-cased search text, and whose category equals the selected one. "All" matches every category.
  - The two filter inputs are page state, set by their controls and reset by "Clear Filters". They are modelled as the class `FilterState`.
- **Product page (plain script)**, `js/products.js` → module `ShopCatalog`.
  - This page has its own catalog with a different schema.
  - A country drop-down lists each country once, in first-seen order.
  - A search that matches the name or the country.
  - Country and season selectors, where the empty option means "any".
  - The product-detail lookup by object or by id.
  - The quote-request e-mail.
- **Navigation bar**, `components/navigation.tsx` → module `Navigation`.
  - The highlight rule: the home link is highlighted only on "/". Every other link is highlighted on any path that starts with its href.
  - The open/closed state of the mobile menu, modelled as the class `MobileMenu`.
- **Lead messages**, `js/main.js` → module `LeadMessages`.
  - The contact-form e-mail.
  - The WhatsApp text and link, with their `||` defaults.
  - The newsletter sign-up, which only acts on a non-empty e-mail (class `NewsletterForm`).

Shared modules:

- `Sequences` models the JavaScript operations these rely on:
  - `toLowerCase` (ASCII), `includes`, `startsWith` and `Array.prototype.filter`;
  - the de-duplication done by `[...new Set(xs)]`;
  - `Array.prototype.find`.
- `Mailto` holds the fixed recipient and the `mailto:` link.
- `Wrappers` holds `Option`.

The two catalogs are kept apart, with their own schemas and match rules, just as the code keeps them.

Three behaviours of the code a reader might not expect:

- **Category sentinel.** On the Next.js page only "All" disables the category test. An empty selected category would show nothing, because no product has the empty category.
- **Duplicate "All".** The category buttons have no duplicates only while no product's own category is "All" (`CatalogPage.CategoriesDistinctIff`).
- **Country list order.** The country list is an ordered sequence in first-seen order, not an unordered set.

## Model

| member | source | states |
|---|---|---|
| Sequences.Lower | app/products/page.tsx:216 | the lower-cased text has the same length, no ASCII capital, differs from the input exactly at the capitals, and turns each capital into its own lower-case letter |
| Sequences.StripPrefix | components/navigation.tsx:22 | `startsWith` holds exactly when the string is the prefix followed by a rest, and that rest is returned |
| Sequences.IncludesIff | app/products/page.tsx:216 | `includes` holds exactly when the text occurs at some position |
| Sequences.MissingCharExcludes | js/products.js:181 | a text with a character absent from the string is not included |
| Sequences.IncludesMiddle | js/products.js:237 | a concatenation includes each of its middle parts |
| Sequences.IncludesPrefixPart | js/main.js:93 | a string that includes `a + b` includes `a` |
| Sequences.Filter | app/products/page.tsx:215-219 | the result is no longer than the list; a value is in it exactly when it is in the list and passes the predicate |
| Sequences.FilterIsSubsequence | app/products/page.tsx:215 | the filtered list is read off the source at increasing positions, and those positions are exactly the ones whose element passes (so repeated passing elements are all kept) |
| Sequences.FilterKeepsAll | app/products/page.tsx:215 | a predicate true of every element keeps the whole list unchanged |
| Sequences.FilterNarrows | js/products.js:179-185 | filtering by a stronger predicate gives the same result after or without a weaker one, and a subsequence of the weaker one's result |
| Sequences.FilterCongruent | app/products/page.tsx:215 | predicates that agree on every element filter identically |
| Sequences.Distinct | app/products/page.tsx:213 | the `Set` spread holds exactly the input's values, with no duplicates, and is no longer than the input |
| Sequences.DistinctFirstSeenOrder | app/products/page.tsx:213 | de-duplicated values are ordered by their first occurrence in the input |
| Sequences.DistinctOfDistinct | js/products.js:159 | a list without repeats is its own de-duplication |
| Sequences.FirstIndex | js/products.js:159 | the position returned holds the value and no earlier position does |
| Sequences.Find | js/products.js:193 | `find` returns nothing exactly when no element matches; otherwise a matching element of the list |
| Sequences.FindFirst | js/products.js:193 | `find` returns the first matching element |
| Mailto.MailtoLink | js/products.js:239 | the link is `mailto:`, the recipient and `?subject=`, followed by exactly the encoded subject, `&body=` and the encoded body |
| Mailto.ReadMailto | js/main.js:96 | a link that is read back is the head, a subject without '&', `&body=` and the body |
| Mailto.MailtoRoundTrip | js/main.js:96 | when the encoded subject has no '&' (as `encodeURIComponent` ensures), the encoded subject and body are read back from the link |
| CatalogPage.Catalog | app/products/page.tsx:28-107 | the catalog has six products with ids 1 to 6 in display order |
| CatalogPage.Categories | app/products/page.tsx:213 | the first button is "All", and there is at most one more button per product |
| CatalogPage.CategoriesFacets | app/products/page.tsx:213 | the first button is "All"; after it every product's category appears, nothing else does, and nothing repeats |
| CatalogPage.CategoriesDistinctIff | app/products/page.tsx:213 | the button list has no duplicates exactly when no product's category is "All" |
| CatalogPage.CategoriesFirstSeenOrder | app/products/page.tsx:213 | the buttons after "All" follow each category's first appearance in the catalog |
| CatalogPage.CatalogCategories | app/products/page.tsx:28-107 | the literal catalog gives the buttons All, Tropical Fruits, Exotic Fruits, Healthy Fruits, Berries |
| CatalogPage.FilteredProducts | app/products/page.tsx:213-219 | the visible list is no longer than the catalog, and a product is shown iff it is in the catalog, its lower-cased name contains the lower-cased search text, and the selector is "All" or equals its category |
| CatalogPage.FilteredIsSubsequence | app/products/page.tsx:215 | the shown list is read off the catalog at increasing positions, exactly those whose product matches |
| CatalogPage.DefaultFiltersShowAll | app/products/page.tsx:209-210 | empty search text with "All" shows every product in order |
| CatalogPage.CategoryIsExact | app/products/page.tsx:217 | with a selector other than "All", a product whose category differs from it in any way is not shown |
| CatalogPage.CategoryNarrows | app/products/page.tsx:217 | selecting a category shows a subsequence of what "All" shows |
| CatalogPage.EmptySearchFiltersByCategory | app/products/page.tsx:216-217 | with empty search text only the category test decides |
| CatalogPage.SearchLooksAtNameOnly | app/products/page.tsx:216 | products with equal name and category get the same verdict, whatever their country or description |
| CatalogPage.MangoSearch | app/products/page.tsx:216 | searching "mango" in the literal catalog shows only id 1 |
| CatalogPage.CountryIsNotSearched | app/products/page.tsx:30-41 | product 1 comes from India, yet searching "India" shows nothing |
| CatalogPage.NoMatchSearch | app/products/page.tsx:404 | searching "zzz" shows the empty list |
| CatalogPage.ExoticFruitsCategory | app/products/page.tsx:217 | "Exotic Fruits" with empty search shows ids 2 and 6, in that order |
| CatalogPage.FilterState.constructor | app/products/page.tsx:209-210 | the page starts with empty search, "All", and every product visible |
| CatalogPage.FilterState.SetSearchTerm | app/products/page.tsx:260-265 | typing replaces the search text, keeps the category, and shows the filter of the new inputs |
| CatalogPage.FilterState.SelectCategory | app/products/page.tsx:268-283 | a category button sets the category, keeps the search text, and shows the filter of the new inputs |
| CatalogPage.FilterState.ClearFilters | app/products/page.tsx:408-411 | Clear Filters restores both defaults and shows the whole catalog in order |
| ShopCatalog.Products | js/products.js:2-99 | the catalog has six products with ids 1 to 6 in display order |
| ShopCatalog.Countries | js/products.js:159 | there are no more country options than products |
| ShopCatalog.CountriesFacets | js/products.js:159 | every product's country is offered, only those are, with no repeats |
| ShopCatalog.CountriesFirstSeenOrder | js/products.js:159 | the countries are in first-seen catalog order |
| ShopCatalog.CatalogCountries | js/products.js:2-99 | the literal catalog offers India, Vietnam, Mexico, New Zealand, Colombia, Turkey |
| ShopCatalog.FilterProducts | js/products.js:174-186 | the shown list is no longer than the catalog, and a product is shown iff the lower-cased search occurs in its lower-cased name or country, and each non-empty selector equals its country or season |
| ShopCatalog.FilterProductsIsSubsequence | js/products.js:179 | the shown list is read off the catalog at increasing positions, exactly those whose product matches |
| ShopCatalog.NoFiltersShowAll | js/products.js:179-186 | empty search and empty selectors show the whole catalog in order |
| ShopCatalog.CountryNarrows | js/products.js:182 | choosing a country never adds products compared with any country |
| ShopCatalog.SeasonNarrows | js/products.js:183 | choosing a season never adds products compared with any season |
| ShopCatalog.SeasonOnly | js/products.js:183 | with empty search and country only the season decides |
| ShopCatalog.VietSearch | js/products.js:181 | "viet" matches no name but Dragon Fruit's country, so only id 2 is shown |
| ShopCatalog.FallSeason | js/products.js:183 | season "Fall" shows ids 5 and 6 |
| ShopCatalog.ModalProduct | js/products.js:193 | an id lookup returns a catalog entry with that id, and returns nothing exactly when no entry has it |
| ShopCatalog.ModalObjectUnchanged | js/products.js:193 | an object argument is returned unchanged |
| ShopCatalog.ModalIdFindsProduct | js/products.js:193 | with unique ids, looking up an entry's id returns that entry |
| ShopCatalog.ModalIdFindsFirst | js/products.js:193 | with repeated ids, the first entry carrying the id is returned |
| ShopCatalog.CatalogIdsUnique | js/products.js:2-99 | the literal catalog's ids are unique |
| ShopCatalog.RequestQuote | js/products.js:235-239 | the quote goes to the fixed inbox; its subject is "Quote Request for " followed by the product name; its body contains the name |
| ShopCatalog.QuoteRoundTrip | js/products.js:236 | stripping "Quote Request for " from the subject gives back the product name |
| ShopCatalog.QuoteInjective | js/products.js:236-237 | different products never give the same quote e-mail |
| Navigation.NavItems | components/navigation.tsx:14-18 | the bar has three links, the first is the home link, and no two share an href |
| Navigation.IsActiveIff | components/navigation.tsx:20-23 | a link is highlighted iff the path equals its href, or the href is not "/" and the path extends it |
| Navigation.ActiveOnOwnPath | components/navigation.tsx:21-22 | every link is highlighted on its own path |
| Navigation.HomeOnlyOnHome | components/navigation.tsx:21 | the home link is not highlighted on any path other than "/", though every path starts with "/" |
| Navigation.PrefixIsNotSegmentAware | components/navigation.tsx:22 | "/about" is highlighted on "/aboutus" and "/products" on "/products-archive" |
| Navigation.AtMostOneActive | components/navigation.tsx:14-23 | no two of the three links are highlighted on the same path |
| Navigation.ActiveItems | components/navigation.tsx:42-52 | the highlighted links are exactly the bar's links that pass the rule, and there is at most one |
| Navigation.AtMostOneActiveItem | components/navigation.tsx:14-23 | filtering the bar by the rule leaves at most one link |
| Navigation.OwnLinkHighlighted | components/navigation.tsx:14-23 | on a link's own path, exactly that link is highlighted |
| Navigation.MobileMenu.constructor | components/navigation.tsx:11 | the menu starts closed |
| Navigation.MobileMenu.OnOpenChange | components/navigation.tsx:63 | the sheet's open request sets the state to it and keeps the path |
| Navigation.MobileMenu.Close | components/navigation.tsx:75 | the close button closes the menu and keeps the path |
| Navigation.MobileMenu.FollowLink | components/navigation.tsx:81-84 | a menu link closes the menu, moves to its href, and there only that link is highlighted |
| LeadMessages.CompanyShown | js/main.js:93 | the company line reads "Not provided" iff the field is missing, empty, or literally "Not provided"; otherwise it reads the field |
| LeadMessages.ContactDraft | js/main.js:91-93 | the draft goes to the fixed inbox; the subject is the prefix then the name; the body starts with the name line, then the e-mail as rendered and the company line, and ends with the message as rendered after "Message:", with nothing else in between (the length is exactly that of the parts) |
| LeadMessages.ContactSubjectRoundTrip | js/main.js:92 | stripping the contact prefix from the subject gives back the name as rendered |
| LeadMessages.ContactCompanyLine | js/main.js:93 | an empty company shows "Company: Not provided"; a filled-in one shows as typed |
| LeadMessages.WhatsAppText | js/main.js:107-113 | the text is "Hello! I'm " and the name (or "Potential Customer"), then " from " and the company when one was given, then ". ", then the message (or the stock sentence) |
| LeadMessages.WhatsAppEmptyIsMissing | js/main.js:109-111 | for each of name, company and message separately, an empty field and a missing one give the same text |
| LeadMessages.WhatsAppDefaults | js/main.js:109-113 | without name and message, the text greets "Potential Customer" and contains the stock sentence |
| LeadMessages.WhatsAppFromClauseIff | js/main.js:110-113 | " from " follows the name exactly when the company is non-empty |
| LeadMessages.ClauseAfter | js/main.js:113 | after the greeting, " from " begins exactly when the company text is non-empty |
| LeadMessages.WhatsAppLink | js/main.js:114-116 | the link targets wa.me/15559876543 and carries the encoded text after `?text=` |
| LeadMessages.NewsletterNotice | js/main.js:130-132 | a thank-you notice appears exactly when the e-mail is non-empty |
| LeadMessages.NewsletterForm.constructor | js/main.js:121-127 | a newsletter form starts with an empty input and no notice |
| LeadMessages.NewsletterForm.Type | js/main.js:128 | typing sets the input that submission reads and shows no notice |
| LeadMessages.NewsletterForm.Submit | js/main.js:128-134 | a non-empty e-mail adds the thank-you notice and clears the input; an empty one changes nothing |

## Left out

- The Three.js scenes (the globe, the product shapes, the neural-network and timeline visuals) and the GSAP/ScrollTrigger animations. They are floating-point rendering loops over foreign libraries.
- DOM work:
  - rendering the product grid and cards, and the modal's markup;
  - showing and hiding the modal;
  - `showNotification`, event-listener wiring, and the scroll, resize and preloader handlers.
  - The contact form's success notification and `reset()` after it opens the mail client are DOM side effects. They are not modelled.
- `encodeURIComponent`, `window.location.href` and `window.open` are foreign calls. Encoding is a function parameter `encode` of `Mailto.MailtoLink` and `LeadMessages.WhatsAppLink`; setting the location and opening the tab are not modelled.
- Unicode case mapping: `toLowerCase` is modelled as ASCII lower-casing, so non-ASCII letters are left unchanged.
- Display-only catalog fields are not modelled:
  - on the Next.js page: description, market-insight text, colour and 3D shape;
  - on the plain-script page: image, description and specification lines.
  - Prices and ratings are kept as data but never computed on.
- ShopCatalog.ModalProduct: an id absent from the catalog yields `None`. The script instead goes on to read `product.name` of `undefined` and throws; that crash is not modelled.
- CatalogPage.FilterState.ClearFilters: the "Clear Filters" button is only rendered while the visible list is empty (app/products/page.tsx:404). The method can be called in any state.
- Navigation.MobileMenu.FollowLink: the path change is what the Next.js router does on a link click. The router itself is not part of this model.
- The Contact button of the mobile menu (components/navigation.tsx:92) calls the same `setIsOpen(false)` as the close button and is modelled by `Navigation.MobileMenu.Close`.
- The selected product in the Next.js page (`selectedProduct`, the 3D viewer dialog) only drives display.
- Static pages and glue are not part of this model:
  - `app/about/page.tsx`, `app/page.tsx`, `app/layout.tsx`;
  - `components/footer.tsx`, `components/loading-spinner.tsx`, `components/error-boundary.tsx`.
