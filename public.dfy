/** The public branch page: campaign strip, category counts and selection, the
    category layout rows, the WhatsApp link, the review form, the login form
    and the announcement colours. */
module Public {
  import opened Js
  import Lists
  import Text
  import Catalog

  // ---------------------------------------------------------------- campaigns

  /** `p.isCampaign && p.campaignPrice`: a campaign product with a non-zero price. */
  predicate CampaignOffer(p: Catalog.Product) {
    p.isCampaign && p.campaignPrice != 0
  }

  /** The campaign strip: exactly the campaign offers, in order. */
  function CampaignProducts(products: seq<Catalog.Product>): (r: seq<Catalog.Product>)
    ensures Lists.IsSubseq(r, products)
    ensures forall i :: 0 <= i < |r| ==> CampaignOffer(r[i])
    ensures forall i :: 0 <= i < |products| && CampaignOffer(products[i]) ==> products[i] in r
  {
    Lists.FilterIsSubseq(products, CampaignOffer);
    Lists.Filter(products, CampaignOffer)
  }

  /** The campaign strip of the campaign strip is the strip itself. */
  lemma CampaignProductsStable(products: seq<Catalog.Product>)
    ensures CampaignProducts(CampaignProducts(products)) == CampaignProducts(products)
  {
    Lists.FilterIdempotent(products, CampaignOffer);
  }

  // ---------------------------------------------------------------- categories

  /** `String(p.categoryId) === String(id)`; a null category id reads "null". */
  function InCategory(id: string): Catalog.Product -> bool {
    (p: Catalog.Product) => IdText(p.categoryId) == id
  }

  /** `getCategoryProductCount`: 0 for a falsy id, otherwise the number of
      products whose category id reads as the same text. */
  function ProductCount(products: seq<Catalog.Product>, id: Option<string>): (n: nat)
    ensures !Present(id) ==> n == 0
    ensures n <= |products|
  {
    if !Present(id) then 0 else |Lists.Filter(products, InCategory(id.value))|
  }

  /** `categoryProducts`: nothing without a selection, otherwise the products of
      the selected category, in order. */
  function CategoryProducts(products: seq<Catalog.Product>, selected: Option<string>): (r: seq<Catalog.Product>)
    ensures !Present(selected) ==> r == []
    ensures Lists.IsSubseq(r, products)
    ensures Present(selected) ==> forall i :: 0 <= i < |r| ==> IdText(r[i].categoryId) == selected.value
    ensures Present(selected) ==>
      forall i :: 0 <= i < |products| && IdText(products[i].categoryId) == selected.value ==> products[i] in r
  {
    if !Present(selected) then []
    else
      Lists.FilterIsSubseq(products, InCategory(selected.value));
      Lists.Filter(products, InCategory(selected.value))
  }

  /** The count on a category tile is the length of the list its click opens. */
  lemma CountIsListLength(products: seq<Catalog.Product>, id: Option<string>)
    ensures ProductCount(products, id) == |CategoryProducts(products, id)|
  {
  }

  /** `selectedCategoryInfo`: nothing without a selection, otherwise the first
      category whose id reads as the selection. */
  function SelectedInfo(cats: seq<Catalog.Category>, selected: Option<string>): (r: Option<Catalog.Category>)
    ensures !Present(selected) ==> r == None
    ensures r.Some? ==> r.value in cats && r.value.id == selected.value
    ensures Present(selected) && (exists k :: 0 <= k < |cats| && cats[k].id == selected.value) ==> r.Some?
  {
    if !Present(selected) then None
    else
      var k := Lists.FindIndex(cats, (c: Catalog.Category) => c.id == selected.value);
      if k < 0 then None else Some(cats[k])
  }

  // ---------------------------------------------------------------- layout rows

  /** The category object of a layout item; missing text fields are "". */
  datatype ItemCategory = ItemCategory(id: string, altId: string, name: string)

  /** A layout item: its category object (`None` when missing) and its size. */
  datatype LayoutItem = LayoutItem(category: Option<ItemCategory>, size: string)

  datatype LayoutRow = LayoutRow(categories: seq<LayoutItem>)

  /** A rendered category tile. `categoryId` is "" when the item has no id. */
  datatype Tile = Tile(categoryId: string, name: string, size: string, height: nat, flex: string, count: nat)

  /** Tile height by size: 100 for full, 120 for half, 130 otherwise. */
  function TileHeight(size: string): nat {
    if size == "full" then 100 else if size == "half" then 120 else 130
  }

  /** The tile's flex shorthand by size. */
  function TileFlex(size: string): string {
    if size == "full" then "1 1 100%"
    else if size == "half" then "1 1 calc(50% - 4px)"
    else "1 1 calc(33.333% - 5.33px)"
  }

  /** Height and flex follow the same three-way split of sizes. */
  lemma HeightAndFlexAgree(a: string, b: string)
    ensures TileHeight(a) == TileHeight(b) <==> TileFlex(a) == TileFlex(b)
    ensures TileHeight(a) < TileHeight(b) ==> (a == "full" || (a == "half" && b != "full"))
  {
  }

  /** One item of a row: skipped when its category has neither id nor name; a
      missing size reads as half. */
  function RenderItem(item: LayoutItem, products: seq<Catalog.Product>): (t: Option<Tile>)
    ensures t.None? <==> (item.category.None? || (item.category.value.id == "" && item.category.value.altId == "" && item.category.value.name == ""))
    ensures t.Some? ==> t.value.size == (if item.size == "" then "half" else item.size)
    ensures t.Some? ==> t.value.height == TileHeight(t.value.size) && t.value.flex == TileFlex(t.value.size)
    ensures t.Some? ==> t.value.categoryId == (if item.category.value.id != "" then item.category.value.id else item.category.value.altId)
    ensures t.Some? ==> t.value.name == item.category.value.name
    ensures t.Some? ==> t.value.count == |CategoryProducts(products, Some(t.value.categoryId))|
  {
    var c := if item.category.Some? then item.category.value else ItemCategory("", "", "");
    var id := if c.id != "" then c.id else c.altId;
    if id == "" && c.name == "" then None
    else
      var size := if item.size != "" then item.size else "half";
      CountIsListLength(products, Some(id));
      Some(Tile(id, c.name, size, TileHeight(size), TileFlex(size), ProductCount(products, Some(id))))
  }

  /** The items that give a tile. */
  function Renders(products: seq<Catalog.Product>): LayoutItem -> bool {
    item => RenderItem(item, products).Some?
  }

  /** The tiles of a row's items, in order, skipped items left out. */
  function RenderItems(items: seq<LayoutItem>, products: seq<Catalog.Product>): (r: seq<Tile>)
    ensures |r| == |Lists.Filter(items, Renders(products))|
    ensures forall k :: 0 <= k < |r| ==> RenderItem(Lists.Filter(items, Renders(products))[k], products) == Some(r[k])
  {
    if items == [] then []
    else
      var rest := RenderItems(items[1..], products);
      RendersStep(items, products);
      match RenderItem(items[0], products)
      case None => rest
      case Some(t) => [t] + rest
  }

  lemma RendersStep(items: seq<LayoutItem>, products: seq<Catalog.Product>)
    requires items != []
    ensures RenderItem(items[0], products).None? ==>
      Lists.Filter(items, Renders(products)) == Lists.Filter(items[1..], Renders(products))
    ensures RenderItem(items[0], products).Some? ==>
      Lists.Filter(items, Renders(products)) == [items[0]] + Lists.Filter(items[1..], Renders(products))
  {
    assert Renders(products)(items[0]) == RenderItem(items[0], products).Some?;
  }

  /** With every item renderable, every item gives its tile. */
  lemma AllItemsRender(items: seq<LayoutItem>, products: seq<Catalog.Product>)
    requires forall i :: 0 <= i < |items| ==> RenderItem(items[i], products).Some?
    ensures |RenderItems(items, products)| == |items|
    ensures forall i :: 0 <= i < |items| ==> RenderItem(items[i], products) == Some(RenderItems(items, products)[i])
  {
    Lists.FilterAll(items, Renders(products));
  }

  /** A row: not rendered at all when it has no items; otherwise a (possibly
      empty) strip of tiles. */
  function RenderRow(row: LayoutRow, products: seq<Catalog.Product>): (r: Option<seq<Tile>>)
    ensures r.None? <==> row.categories == []
    ensures r.Some? ==> r.value == RenderItems(row.categories, products)
  {
    if row.categories == [] then None else Some(RenderItems(row.categories, products))
  }

  predicate HasItems(row: LayoutRow) {
    row.categories != []
  }

  /** The strips shown for the saved rows, in order, rows without items left out. */
  function RenderRows(rows: seq<LayoutRow>, products: seq<Catalog.Product>): (r: seq<seq<Tile>>)
    ensures |r| == |Lists.Filter(rows, HasItems)|
    ensures forall k :: 0 <= k < |r| ==> r[k] == RenderItems(Lists.Filter(rows, HasItems)[k].categories, products)
  {
    if rows == [] then []
    else
      var rest := RenderRows(rows[1..], products);
      match RenderRow(rows[0], products)
      case None => rest
      case Some(tiles) =>
        assert Lists.Filter(rows, HasItems) == [rows[0]] + Lists.Filter(rows[1..], HasItems);
        [tiles] + rest
  }

  // ---------------------------------------------------------------- contact

  /** The WhatsApp link: the number with every non-digit removed. */
  function WhatsAppLink(number: string): (url: string)
    ensures |url| >= 14 && url[..14] == "https://wa.me/"
    ensures forall i :: 14 <= i < |url| ==> Text.IsDigit(url[i])
    ensures forall x :: multiset(url[14..])[x] == (if Text.IsDigit(x) then multiset(number)[x] else 0)
  {
    var url := "https://wa.me/" + Text.KeepDigits(number);
    assert url[14..] == Text.KeepDigits(number);
    url
  }

  /** Every digit of the number survives, as often as it occurs and in order, and
      a number already written in digits is linked unchanged. */
  lemma WhatsAppKeepsNumber(number: string)
    ensures Lists.IsSubseq(WhatsAppLink(number)[14..], number)
    ensures forall x :: multiset(WhatsAppLink(number)[14..])[x] == (if Text.IsDigit(x) then multiset(number)[x] else 0)
    ensures (forall i :: 0 <= i < |number| ==> Text.IsDigit(number[i])) ==> WhatsAppLink(number) == "https://wa.me/" + number
  {
    assert WhatsAppLink(number)[14..] == Text.KeepDigits(number);
    Text.KeepDigitsSubseq(number);
    if forall i :: 0 <= i < |number| ==> Text.IsDigit(number[i]) {
      Text.KeepDigitsOfDigits(number);
    }
  }

  // ---------------------------------------------------------------- reviews

  /** The review form; a missing rating is 0. */
  datatype ReviewForm = ReviewForm(customerName: string, rating: int, comment: string, contact: string)

  /** The form as it is opened and as it is left after a successful post. */
  const BlankReview := ReviewForm("", 5, "", "")

  /** What submitting the review form does: whether it posts, the form left on
      screen, and whether the thank-you note shows. */
  datatype ReviewStep = ReviewStep(posted: Option<ReviewForm>, form: ReviewForm, thanked: bool)

  /** `handleSubmitReview`: no post without a name and a rating; after an
      accepted post the form is reset and the thank-you note shows; a rejected
      post leaves the form as it was. */
  function SubmitReview(form: ReviewForm, accepted: bool): (s: ReviewStep)
    ensures s.posted.None? <==> (form.customerName == "" || form.rating == 0)
    ensures s.posted.Some? ==> s.posted.value == form
    ensures s.thanked <==> s.posted.Some? && accepted
    ensures s.form == (if s.thanked then BlankReview else form)
  {
    if form.customerName == "" || form.rating == 0 then ReviewStep(None, form, false)
    else if accepted then ReviewStep(Some(form), BlankReview, true)
    else ReviewStep(Some(form), form, false)
  }

  /** After a successful review the same click posts nothing: the name is blank. */
  lemma NoDoubleReview(form: ReviewForm, a: bool, b: bool)
    requires SubmitReview(form, a).thanked
    ensures SubmitReview(SubmitReview(form, a).form, b).posted == None
  {
  }

  // ---------------------------------------------------------------- login

  datatype LoginForm = LoginForm(username: string, password: string, email: string, fullName: string)

  datatype LoginAction = Refused(message: string) | SetUp(form: LoginForm) | LogIn(username: string, password: string)

  const CredentialsRequired := "Kullanıcı adı ve şifre gerekli"
  const EmailRequired := "Email gerekli"

  /** `handleSubmit` of the login page: username and password are required; in
      set-up mode the e-mail is too. */
  function SubmitLogin(form: LoginForm, needsSetup: bool): (a: LoginAction)
    ensures a.Refused? <==> (form.username == "" || form.password == "" || (needsSetup && form.email == ""))
    ensures (form.username == "" || form.password == "") ==> a == Refused(CredentialsRequired)
    ensures a.SetUp? <==> (needsSetup && !a.Refused?)
    ensures a.SetUp? ==> a.form == form
    ensures a.LogIn? ==> a == LogIn(form.username, form.password)
  {
    if form.username == "" || form.password == "" then Refused(CredentialsRequired)
    else if needsSetup then
      if form.email == "" then Refused(EmailRequired) else SetUp(form)
    else LogIn(form.username, form.password)
  }

  // ---------------------------------------------------------------- announcements

  /** The alert colour of an announcement: promotions are shown as `error`,
      every other type as itself. */
  function Severity(kind: string): (s: string)
    ensures kind == "promo" <==> s == "error" && kind != "error"
    ensures kind != "promo" ==> s == kind
  {
    if kind == "promo" then "error" else kind
  }
}
