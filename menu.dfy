/** The public menu page: language tables, the list of all active products, the
    announcement carousel, favourites, search, the category page, the category
    grid and the Instagram link. */
module Menu {
  import opened Js
  import Lists
  import Text
  import Catalog
  import Layout

  // ---------------------------------------------------------------- languages

  /** The languages the menu has a translation table for. */
  predicate KnownLanguage(lang: string) {
    lang in {"tr", "en", "de", "ar", "ru"}
  }

  /** `translations[language] || translations.tr`: the table actually used. */
  function TableLanguage(lang: string): (code: string)
    ensures KnownLanguage(code)
    ensures KnownLanguage(lang) ==> code == lang
    ensures !KnownLanguage(lang) ==> code == "tr"
  {
    if KnownLanguage(lang) then lang else "tr"
  }

  /** The `campaigns` entry of each table. */
  function CampaignsEntry(code: string): string
    requires KnownLanguage(code)
  {
    if code == "tr" then "Kampanyalar"
    else if code == "en" then "Campaigns"
    else if code == "de" then "Angebote"
    else if code == "ar" then "\U{0627}\U{0644}\U{0639}\U{0631}\U{0648}\U{0636}"
    else "\U{0410}\U{043A}\U{0446}\U{0438}\U{0438}"
  }

  /** `t.campaigns` for the chosen language. */
  function CampaignsTitle(lang: string): (title: string)
    ensures !KnownLanguage(lang) ==> title == "Kampanyalar"
    ensures title != ""
  {
    CampaignsEntry(TableLanguage(lang))
  }

  // ---------------------------------------------------------------- all products

  /** The product as the list of all products holds it: tagged with its
      category's name, icon and id. */
  function Tagged(cat: Catalog.Category, p: Catalog.Product): Catalog.Product {
    p.(categoryName := cat.name, categoryIcon := cat.icon, categoryId := Some(cat.id))
  }

  /** The tagged active products among `ps`, in order. */
  function TaggedActive(cat: Catalog.Category, ps: seq<Catalog.Product>): seq<Catalog.Product> {
    if ps == [] then []
    else
      var p := ps[|ps| - 1];
      TaggedActive(cat, ps[..|ps| - 1]) + (if Catalog.NotDeactivated(p) then [Tagged(cat, p)] else [])
  }

  /** The list of all products: category by category, product by product, the
      products not switched off. */
  function AllProducts(cats: seq<Catalog.Category>): seq<Catalog.Product> {
    if cats == [] then []
    else
      var c := cats[|cats| - 1];
      AllProducts(cats[..|cats| - 1]) + TaggedActive(c, c.products)
  }

  /** The nested `forEach` that fills the list of all products. */
  method CollectProducts(cats: seq<Catalog.Category>) returns (products: seq<Catalog.Product>)
    ensures products == AllProducts(cats)
  {
    products := [];
    var i := 0;
    while i < |cats|
      invariant 0 <= i <= |cats|
      invariant products == AllProducts(cats[..i])
    {
      var cat := cats[i];
      var j := 0;
      while j < |cat.products|
        invariant 0 <= j <= |cat.products|
        invariant products == AllProducts(cats[..i]) + TaggedActive(cat, cat.products[..j])
      {
        var p := cat.products[j];
        assert cat.products[..j + 1][..j] == cat.products[..j];
        if p.isActive != Some(false) {
          products := products + [p.(categoryName := cat.name, categoryIcon := cat.icon, categoryId := Some(cat.id))];
        }
        j := j + 1;
      }
      assert cat.products[..j] == cat.products;
      assert cats[..i + 1][..i] == cats[..i];
      i := i + 1;
    }
    assert cats[..i] == cats;
  }

  lemma {:induction false} TaggedActiveIff(cat: Catalog.Category, ps: seq<Catalog.Product>, q: Catalog.Product)
    ensures q in TaggedActive(cat, ps) <==>
      exists j :: 0 <= j < |ps| && Catalog.NotDeactivated(ps[j]) && q == Tagged(cat, ps[j])
  {
    if ps != [] {
      var init := ps[..|ps| - 1];
      TaggedActiveIff(cat, init, q);
      if exists j :: 0 <= j < |init| && Catalog.NotDeactivated(init[j]) && q == Tagged(cat, init[j]) {
        var j :| 0 <= j < |init| && Catalog.NotDeactivated(init[j]) && q == Tagged(cat, init[j]);
        assert ps[j] == init[j];
      }
      if exists j :: 0 <= j < |ps| && Catalog.NotDeactivated(ps[j]) && q == Tagged(cat, ps[j]) {
        var j :| 0 <= j < |ps| && Catalog.NotDeactivated(ps[j]) && q == Tagged(cat, ps[j]);
        if j < |init| {
          assert init[j] == ps[j];
        }
      }
    }
  }

  /** The `i`-th category's `j`-th product is active and tagged as `q`. */
  predicate ActiveAt(cats: seq<Catalog.Category>, i: int, j: int, q: Catalog.Product) {
    0 <= i < |cats| && 0 <= j < |cats[i].products|
    && Catalog.NotDeactivated(cats[i].products[j]) && q == Tagged(cats[i], cats[i].products[j])
  }

  /** A product is in the list of all products exactly when it is an active
      product of some category, tagged with that category. */
  lemma AllProductsIff(cats: seq<Catalog.Category>, q: Catalog.Product)
    ensures q in AllProducts(cats) <==> exists i, j :: ActiveAt(cats, i, j, q)
  {
    if q in AllProducts(cats) {
      AllProductsSound(cats, q);
    }
    if exists i, j :: ActiveAt(cats, i, j, q) {
      var i, j :| ActiveAt(cats, i, j, q);
      AllProductsComplete(cats, i, j, q);
    }
  }

  /** Everything in the list comes from some category's active product. */
  lemma {:induction false} AllProductsSound(cats: seq<Catalog.Category>, q: Catalog.Product)
    requires q in AllProducts(cats)
    ensures exists i, j :: ActiveAt(cats, i, j, q)
  {
    var init, c := cats[..|cats| - 1], cats[|cats| - 1];
    if q in AllProducts(init) {
      AllProductsSound(init, q);
      var i, j :| ActiveAt(init, i, j, q);
      assert cats[i] == init[i];
      assert ActiveAt(cats, i, j, q);
    } else {
      TaggedActiveIff(c, c.products, q);
      var j :| 0 <= j < |c.products| && Catalog.NotDeactivated(c.products[j]) && q == Tagged(c, c.products[j]);
      assert ActiveAt(cats, |cats| - 1, j, q);
    }
  }

  /** Every active product of every category is in the list. */
  lemma {:induction false} AllProductsComplete(cats: seq<Catalog.Category>, i: int, j: int, q: Catalog.Product)
    requires ActiveAt(cats, i, j, q)
    ensures q in AllProducts(cats)
  {
    var init, c := cats[..|cats| - 1], cats[|cats| - 1];
    if i < |init| {
      assert init[i] == cats[i];
      AllProductsComplete(init, i, j, q);
    } else {
      TaggedActiveIff(c, c.products, q);
    }
  }

  /** No product in the list of all products is switched off. */
  lemma {:induction false} AllProductsActive(cats: seq<Catalog.Category>)
    ensures forall q :: q in AllProducts(cats) ==> Catalog.NotDeactivated(q)
  {
    forall q | q in AllProducts(cats) ensures Catalog.NotDeactivated(q) {
      AllProductsIff(cats, q);
    }
  }

  // ---------------------------------------------------------------- announcements

  /** The carousel's step: `(prev + 1) % length`. */
  function NextAnnouncement(prev: nat, length: nat): (k: nat)
    requires length > 0
    ensures k < length
    ensures prev + 1 < length ==> k == prev + 1
    ensures prev + 1 == length ==> k == 0
  {
    (prev + 1) % length
  }

  /** The index after `n` steps from the first announcement. */
  function AnnouncementAfter(n: nat, length: nat): nat
    requires length > 0
  {
    if n == 0 then 0 else NextAnnouncement(AnnouncementAfter(n - 1, length), length)
  }

  /** The carousel shows announcement `n % length` after `n` steps. */
  lemma {:induction false} AnnouncementAfterIsMod(n: nat, length: nat)
    requires length > 0
    ensures AnnouncementAfter(n, length) == n % length
  {
    if n > 0 {
      AnnouncementAfterIsMod(n - 1, length);
      StepIsMod(n - 1, (n - 1) / length, (n - 1) % length, length);
    }
  }

  /** One step from `m % length` lands on `(m + 1) % length`. */
  lemma StepIsMod(m: nat, q: int, k: int, length: nat)
    requires length > 0 && q == m / length && k == m % length
    ensures NextAnnouncement(k, length) == (m + 1) % length
  {
    assert m == q * length + k;
    if k + 1 < length {
      ModUnique(m + 1, q, k + 1, length);
    } else {
      assert (q + 1) * length == q * length + length;
      ModUnique(m + 1, q + 1, 0, length);
    }
  }

  /** The remainder is the unique `r` in `[0, d)` with `m == q * d + r`. */
  lemma ModUnique(m: int, q: int, r: int, d: int)
    requires d > 0 && 0 <= r < d && m == q * d + r
    ensures m % d == r
  {
    var e := q - m / d;
    assert e * d == m % d - r;
  }

  // ---------------------------------------------------------------- favourites

  /** `toggleFavorite`: a present id is removed everywhere, an absent one is
      appended. */
  function ToggleFavorite(favorites: seq<string>, id: string): (r: seq<string>)
    ensures id in favorites ==> id !in r
    ensures id !in favorites ==> r == favorites + [id]
    ensures forall x :: x != id ==> (x in r <==> x in favorites)
    ensures id in favorites ==> Lists.IsSubseq(r, favorites)
    ensures id in favorites ==> forall x :: x != id ==> multiset(r)[x] == multiset(favorites)[x]
  {
    if id in favorites then
      Lists.FilterIsSubseq(favorites, x => x != id);
      Lists.FilterMultiset(favorites, x => x != id);
      Lists.Filter(favorites, x => x != id)
    else favorites + [id]
  }

  /** Toggling an id that was not a favourite twice restores the list. */
  lemma ToggleTwiceRestores(favorites: seq<string>, id: string)
    requires id !in favorites
    ensures ToggleFavorite(ToggleFavorite(favorites, id), id) == favorites
  {
    Lists.FilterConcat(favorites, [id], x => x != id);
    Lists.FilterAll(favorites, x => x != id);
  }

  // ---------------------------------------------------------------- search

  /** One of name, description and category name contains the query, ignoring case. */
  predicate SearchHit(p: Catalog.Product, query: string) {
    var q := Text.Lower(query);
    Text.Contains(Text.Lower(p.name), q) || Text.Contains(Text.Lower(p.description), q)
      || Text.Contains(Text.Lower(p.categoryName), q)
  }

  /** `searchResults`: nothing for a blank query, otherwise the products, in
      order, that the query hits. The blank test trims; the match does not. */
  function SearchResults(all: seq<Catalog.Product>, query: string): (r: seq<Catalog.Product>)
    ensures Text.Trim(query) == "" ==> r == []
    ensures Lists.IsSubseq(r, all)
    ensures forall i :: 0 <= i < |r| ==> SearchHit(r[i], query)
    ensures Text.Trim(query) != "" ==> forall i :: 0 <= i < |all| && SearchHit(all[i], query) ==> all[i] in r
  {
    if Text.Trim(query) == "" then
      []
    else
      Lists.FilterIsSubseq(all, p => SearchHit(p, query));
      Lists.Filter(all, p => SearchHit(p, query))
  }

  /** Every search result is an active product of some category. */
  lemma SearchFindsActive(cats: seq<Catalog.Category>, query: string)
    ensures forall q :: q in SearchResults(AllProducts(cats), query) ==> Catalog.NotDeactivated(q)
  {
    AllProductsActive(cats);
  }

  // ---------------------------------------------------------------- category page

  datatype CategoryPage = CategoryPage(products: seq<Catalog.Product>, title: string)

  /** The category page: `'campaigns'` shows the campaign list, a known category
      its products not switched off, anything else nothing and no title. */
  function PageFor(categoryId: string, campaigns: seq<Catalog.Product>, cats: seq<Catalog.Category>, lang: string): (page: CategoryPage)
    ensures categoryId == "campaigns" ==> page == CategoryPage(campaigns, CampaignsTitle(lang))
    ensures categoryId != "campaigns" && (forall k :: 0 <= k < |cats| ==> cats[k].id != categoryId) ==>
      page == CategoryPage([], "")
    ensures categoryId != "campaigns" ==> forall i :: 0 <= i < |page.products| ==> Catalog.NotDeactivated(page.products[i])
    ensures forall k :: (0 <= k < |cats| && cats[k].id == categoryId && categoryId != "campaigns"
      && (forall m :: 0 <= m < k ==> cats[m].id != categoryId)) ==>
      (page.products == Lists.Filter(cats[k].products, Catalog.NotDeactivated)
      && page.title == cats[k].icon + " " + cats[k].name)
  {
    if categoryId == "campaigns" then CategoryPage(campaigns, CampaignsTitle(lang))
    else
      var k := Lists.FindIndex(cats, (c: Catalog.Category) => c.id == categoryId);
      if k < 0 then CategoryPage([], "")
      else CategoryPage(Lists.Filter(cats[k].products, Catalog.NotDeactivated), cats[k].icon + " " + cats[k].name)
  }

  // ---------------------------------------------------------------- category grid

  /** A row of the public category grid: a layout and the ids of its categories. */
  datatype GridRow = GridRow(layout: string, categoryIds: seq<string>)

  /** The number of columns a row layout asks for. */
  function ColumnCount(layout: string): (n: nat)
    ensures n == (if layout == "full" then 1 else if layout == "third" then 3 else 2)
  {
    if layout == "full" then 1 else if layout == "third" then 3 else 2
  }

  /** `n` grid columns of one fraction each: "1fr", "1fr 1fr", ... */
  function Columns(n: nat): string
    requires n >= 1
  {
    if n == 1 then "1fr" else Columns(n - 1) + " 1fr"
  }

  /** `getGridTemplate` */
  function GridTemplate(layout: string): (t: string)
    ensures t == Columns(ColumnCount(layout))
  {
    match layout
    case "full" => "1fr"
    case "half" => "1fr 1fr"
    case "third" => assert Columns(2) == "1fr 1fr"; "1fr 1fr 1fr"
    case _ => "1fr 1fr"
  }

  /** The menu's columns and the editor's grid sizes divide the same twelve
      units, except that an unknown layout is two columns here and four units
      there. */
  lemma ColumnsMatchEditor(layout: string)
    ensures layout in {"full", "half", "third"} ==> ColumnCount(layout) * Layout.GridSize(layout) == 12
    ensures layout !in {"full", "half", "third"} ==> ColumnCount(layout) == 2 && Layout.GridSize(layout) == 4
  {
  }

  /** Some category has the id. */
  function KnownIn(cats: seq<Catalog.Category>): string -> bool {
    id => exists k :: 0 <= k < |cats| && cats[k].id == id
  }

  /** `c` is the first category of `cats` with its id. */
  predicate FirstWithId(cats: seq<Catalog.Category>, c: Catalog.Category) {
    exists k :: 0 <= k < |cats| && cats[k] == c && forall m :: 0 <= m < k ==> cats[m].id != c.id
  }

  /** The categories a row shows: each id looked up, unknown ids skipped. */
  function ResolveRow(ids: seq<string>, cats: seq<Catalog.Category>): (r: seq<Catalog.Category>)
    ensures |r| == |Lists.Filter(ids, KnownIn(cats))|
    ensures forall i :: 0 <= i < |r| ==> r[i].id == Lists.Filter(ids, KnownIn(cats))[i] && FirstWithId(cats, r[i])
  {
    if ids == [] then []
    else
      var k := Lists.FindIndex(cats, (c: Catalog.Category) => c.id == ids[0]);
      var rest := ResolveRow(ids[1..], cats);
      assert KnownIn(cats)(ids[0]) <==> k >= 0;
      if k < 0 then
        assert Lists.Filter(ids, KnownIn(cats)) == Lists.Filter(ids[1..], KnownIn(cats));
        rest
      else
        assert Lists.Filter(ids, KnownIn(cats)) == [ids[0]] + Lists.Filter(ids[1..], KnownIn(cats));
        assert FirstWithId(cats, cats[k]);
        [cats[k]] + rest
  }

  /** With every id known, every id shows, in order. */
  lemma AllIdsResolve(ids: seq<string>, cats: seq<Catalog.Category>)
    requires forall i :: 0 <= i < |ids| ==> exists k :: 0 <= k < |cats| && cats[k].id == ids[i]
    ensures |ResolveRow(ids, cats)| == |ids|
    ensures forall i :: 0 <= i < |ids| ==> ResolveRow(ids, cats)[i].id == ids[i]
  {
    Lists.FilterAll(ids, KnownIn(cats));
  }

  /** The card height of a row: taller for a one-column row. */
  function CardHeight(layout: string): (px: nat)
    ensures px == 160 <==> ColumnCount(layout) == 1
    ensures px == 140 <==> ColumnCount(layout) != 1
  {
    if layout == "full" then 160 else 140
  }

  // ---------------------------------------------------------------- footer

  predicate IsAt(c: char) { c == '@' }

  /** The Instagram link: the handle with its first `@` removed. */
  function InstagramLink(handle: string): (url: string)
    ensures '@' !in handle ==> url == "https://instagram.com/" + handle
    ensures Lists.FindIndex(handle, IsAt) >= 0 ==>
      url == "https://instagram.com/" + handle[..Lists.FindIndex(handle, IsAt)] + handle[Lists.FindIndex(handle, IsAt) + 1..]
  {
    var i := Lists.FindIndex(handle, IsAt);
    if i < 0 then "https://instagram.com/" + Text.RemoveFirst(handle, '@')
    else
      FirstAt(handle, i);
      "https://instagram.com/" + Text.RemoveFirst(handle, '@')
  }

  /** The first `@` that `RemoveFirst` takes out is the one `FindIndex` finds. */
  lemma FirstAt(handle: string, i: int)
    requires i == Lists.FindIndex(handle, IsAt) && i >= 0
    ensures Text.RemoveFirst(handle, '@') == handle[..i] + handle[i + 1..]
  {
    assert IsAt(handle[i]);
    var j :| 0 <= j < |handle| && handle[j] == '@' && '@' !in handle[..j]
      && Text.RemoveFirst(handle, '@') == handle[..j] + handle[j + 1..];
  }

  /** A handle written with a leading `@` links to the bare name, and a name that
      holds no `@` is linked as it is. */
  lemma InstagramHandle(name: string)
    ensures '@' !in name ==> InstagramLink("@" + name) == "https://instagram.com/" + name
    ensures '@' !in name ==> InstagramLink(name) == "https://instagram.com/" + name
  {
    if '@' !in name {
      assert ("@" + name)[0] == '@';
      assert ("@" + name)[1..] == name;
    }
  }
}
