/** The rules of the main admin application: HEIC uploads, the products page
    filter, the product form, the branch choice, the user form and the branch
    menu page. */
module App {
  import opened Js
  import Lists
  import Text
  import Catalog
  import Admin

  // ---------------------------------------------------------------- HEIC uploads

  /** `isHeicFile`: the lower-cased name ends in `.heic` or the type is
      `image/heic`. */
  predicate IsHeicFile(name: string, mime: string) {
    Text.EndsWith(Text.Lower(name), ".heic") || mime == "image/heic"
  }

  /** `/\.heic$/i` matches the name: it ends in `.heic` in any letter case. */
  predicate HeicSuffix(name: string) {
    |name| >= 5 && Text.Lower(name[|name| - 5..]) == ".heic"
  }

  /** The name the converted file gets: a trailing `.heic`, in any case, becomes
      `.jpg`; any other name is kept. */
  function JpgName(name: string): (r: string)
    ensures HeicSuffix(name) ==> |r| == |name| - 1
    ensures HeicSuffix(name) ==> r[..|name| - 5] == name[..|name| - 5] && Text.EndsWith(r, ".jpg")
    ensures !HeicSuffix(name) ==> r == name
  {
    if HeicSuffix(name) then name[..|name| - 5] + ".jpg" else name
  }

  /** The name test of `isHeicFile` and the pattern of the rename agree. */
  lemma HeicTestsAgree(name: string)
    ensures Text.EndsWith(Text.Lower(name), ".heic") <==> HeicSuffix(name)
  {
    if |name| >= 5 {
      Text.LowerSlice(name, |name| - 5, |name|);
    }
  }

  /** A file renamed by the conversion is no longer taken for a HEIC file. */
  lemma ConvertedIsNotHeic(name: string)
    requires HeicSuffix(name)
    ensures !IsHeicFile(JpgName(name), "image/jpeg")
  {
    var r := JpgName(name);
    HeicTestsAgree(r);
    assert r[|r| - 1] == 'g';
    if |r| >= 5 {
      assert Text.Lower(r[|r| - 5..])[4] == Text.LowerChar('g');
    }
  }

  // ---------------------------------------------------------------- products page

  /** The products page: search box and category select. */
  function FilterProducts(products: seq<Catalog.Product>, search: string, category: string): (r: seq<Catalog.Product>)
    ensures forall i :: 0 <= i < |r| ==> Catalog.NameMatches(r[i], search) && Catalog.CategoryMatches(r[i], category)
    ensures forall i :: 0 <= i < |products| && Catalog.NameMatches(products[i], search) && Catalog.CategoryMatches(products[i], category) ==> products[i] in r
  {
    Lists.Filter(products, p => Catalog.NameMatches(p, search) && Catalog.CategoryMatches(p, category))
  }

  /** It is the admin panel's product filter with no section and no status. */
  lemma SameAsAdminFilter(products: seq<Catalog.Product>, search: string, category: string)
    ensures FilterProducts(products, search, category) == Admin.FilterProducts(products, Admin.ProductQuery(search, category, "", ""))
  {
    Lists.FilterCongruent(products, p => Catalog.NameMatches(p, search) && Catalog.CategoryMatches(p, category),
      Admin.ShownBy(Admin.ProductQuery(search, category, "", "")));
  }

  /** So it keeps the list's order, and lists everything when both are empty. */
  lemma ProductsPageFilter(products: seq<Catalog.Product>, search: string, category: string)
    ensures Lists.IsSubseq(FilterProducts(products, search, category), products)
    ensures search == "" && category == "" ==> FilterProducts(products, search, category) == products
  {
    SameAsAdminFilter(products, search, category);
    if search == "" && category == "" {
      Admin.NoCriteriaKeepsAll(products, Admin.ProductQuery(search, category, "", ""));
    }
  }

  // ---------------------------------------------------------------- product form

  /** A product as the form receives it. Numbers are kept as their text, "" when
      absent or zero; the two lists are `None` when absent. */
  datatype StoredProduct = StoredProduct(
    name: string, price: string, description: string, categoryId: Option<string>,
    isActive: Option<bool>, isFeatured: bool, isCampaign: bool, campaignPrice: string,
    glbFile: string, calories: string, preparationTime: string,
    allergens: Option<seq<string>>, tags: Option<seq<string>>)

  /** The form's fields, all text but the three switches. */
  datatype ProductForm = ProductForm(
    name: string, price: string, description: string, categoryId: string,
    isActive: bool, isFeatured: bool, isCampaign: bool, campaignPrice: string,
    glbFile: string, calories: string, preparationTime: string,
    allergens: string, tags: string)

  /** The request body of a save. Numbers stay text; `None` is `null`. */
  datatype Payload = Payload(
    name: string, price: string, description: string, categoryId: Option<string>,
    isActive: bool, isFeatured: bool, isCampaign: bool, campaignPrice: Option<string>,
    calories: Option<string>, preparationTime: Option<string>,
    allergens: seq<string>, tags: seq<string>)

  /** `list?.join(', ') || ''` */
  function ListField(l: Option<seq<string>>): string {
    match l
    case None => ""
    case Some(items) => Text.Join(items, ", ")
  }

  /** `x || null` for a text field. */
  function OrNull(s: string): (o: Option<string>)
    ensures o.None? <==> s == ""
    ensures o.Some? ==> o.value == s
  {
    if s == "" then None else Some(s)
  }

  /** The form opened on a product, or the blank form for a new one. */
  function FormOf(product: Option<StoredProduct>): (f: ProductForm)
    ensures product.None? ==> f.name == "" && f.isActive && f.allergens == "" && f.tags == ""
    ensures product.Some? ==> f.isActive == (product.value.isActive != Some(false))
  {
    match product
    case None => ProductForm("", "", "", "", true, false, false, "", "", "", "", "", "")
    case Some(p) => ProductForm(p.name, p.price, p.description, IdOrEmpty(p.categoryId),
      p.isActive != Some(false), p.isFeatured, p.isCampaign, p.campaignPrice, p.glbFile,
      p.calories, p.preparationTime, ListField(p.allergens), ListField(p.tags))
  }

  /** `id || ''` */
  function IdOrEmpty(o: Option<string>): string {
    if o.Some? then o.value else ""
  }

  /** `handleSubmit`: nothing is sent without a name and a price; otherwise the
      payload with the two lists parsed. */
  function SubmitPayload(f: ProductForm): (r: Option<Payload>)
    ensures r.None? <==> f.name == "" || f.price == ""
    ensures r.Some? ==> (r.value.name == f.name && r.value.price == f.price
      && r.value.description == f.description && r.value.categoryId == OrNull(f.categoryId)
      && r.value.isActive == f.isActive && r.value.isFeatured == f.isFeatured && r.value.isCampaign == f.isCampaign)
    ensures r.Some? ==> (r.value.campaignPrice == OrNull(f.campaignPrice) && r.value.calories == OrNull(f.calories)
      && r.value.preparationTime == OrNull(f.preparationTime))
    ensures r.Some? ==> r.value.allergens == Text.ParseList(f.allergens) && r.value.tags == Text.ParseList(f.tags)
  {
    if f.name == "" || f.price == "" then None
    else Some(Payload(f.name, f.price, f.description, OrNull(f.categoryId), f.isActive, f.isFeatured,
      f.isCampaign, OrNull(f.campaignPrice), OrNull(f.calories), OrNull(f.preparationTime),
      Text.ParseList(f.allergens), Text.ParseList(f.tags)))
  }

  /** A list the form can show and read back unchanged. */
  predicate CleanList(l: Option<seq<string>>) {
    l.Some? ==> forall i :: 0 <= i < |l.value| ==> l.value[i] != "" && Text.IsTrimmed(l.value[i]) && ',' !in l.value[i]
  }

  function ListOrEmpty(l: Option<seq<string>>): seq<string> {
    if l.Some? then l.value else []
  }

  /** Opening a product and saving it unchanged sends back what was stored: its
      text fields and switches, its lists, its category and optional numbers
      (an empty one as `null`) and `isActive !== false`. */
  lemma EditRoundTrip(p: StoredProduct)
    requires p.name != "" && p.price != ""
    requires CleanList(p.allergens) && CleanList(p.tags)
    ensures SubmitPayload(FormOf(Some(p))).Some?
    ensures var d := SubmitPayload(FormOf(Some(p))).value;
      d.allergens == ListOrEmpty(p.allergens) && d.tags == ListOrEmpty(p.tags)
      && d.categoryId == (if Present(p.categoryId) then p.categoryId else None)
      && d.isActive == Catalog.NotDeactivatedFlag(p.isActive)
    ensures var d := SubmitPayload(FormOf(Some(p))).value;
      d.name == p.name && d.price == p.price && d.description == p.description
      && d.isFeatured == p.isFeatured && d.isCampaign == p.isCampaign
      && d.campaignPrice == OrNull(p.campaignPrice) && d.calories == OrNull(p.calories)
      && d.preparationTime == OrNull(p.preparationTime)
  {
    FormKeepsScalars(p);
    if p.allergens.Some? { Text.ParseJoinRoundTrip(p.allergens.value); }
    if p.tags.Some? { Text.ParseJoinRoundTrip(p.tags.value); }
  }

  /** The scalar half of `EditRoundTrip`. */
  lemma FormKeepsScalars(p: StoredProduct)
    requires p.name != "" && p.price != ""
    ensures SubmitPayload(FormOf(Some(p))).Some?
    ensures var d := SubmitPayload(FormOf(Some(p))).value;
      d.name == p.name && d.price == p.price && d.description == p.description
      && d.isFeatured == p.isFeatured && d.isCampaign == p.isCampaign
      && d.campaignPrice == OrNull(p.campaignPrice) && d.calories == OrNull(p.calories)
      && d.preparationTime == OrNull(p.preparationTime)
      && d.categoryId == (if Present(p.categoryId) then p.categoryId else None)
      && d.isActive == Catalog.NotDeactivatedFlag(p.isActive)
  {
  }

  // ---------------------------------------------------------------- branch choice

  datatype Branch = Branch(id: string, name: string)

  /** `loadBranches`: with branches loaded and none current, the one whose id
      was saved, else the first; otherwise the current branch stays. */
  function ChooseBranch(branches: seq<Branch>, current: Option<Branch>, saved: Option<string>): (r: Option<Branch>)
    ensures current.Some? || branches == [] ==> r == current
    ensures current.None? && branches != [] ==> r.Some? && r.value in branches
    ensures current.None? && saved.Some? && (exists i :: 0 <= i < |branches| && branches[i].id == saved.value) ==>
      r.Some? && r.value.id == saved.value
    ensures current.None? && branches != [] && (forall i :: 0 <= i < |branches| ==> saved != Some(branches[i].id)) ==>
      r == Some(branches[0])
  {
    if |branches| > 0 && current.None? then
      var k := Lists.FindIndex(branches, (b: Branch) => saved == Some(b.id));
      Some(if k >= 0 then branches[k] else branches[0])
    else current
  }

  // ---------------------------------------------------------------- user form

  datatype UserForm = UserForm(username: string, email: string, password: string, fullName: string,
    role: string, branches: seq<string>, isActive: bool)

  /** The request body: the form, without `password` when it is empty. */
  datatype UserPayload = UserPayload(username: string, email: string, password: Option<string>,
    fullName: string, role: string, branches: seq<string>, isActive: bool)

  datatype UserSubmit = MissingIdentity | MissingPassword | Send(data: UserPayload)

  /** `handleSubmit` of the user dialog. */
  function SubmitUser(f: UserForm, editing: bool): (r: UserSubmit)
    ensures r.Send? <==> f.username != "" && f.email != "" && (editing || f.password != "")
    ensures r == MissingPassword <==> f.username != "" && f.email != "" && !editing && f.password == ""
    ensures r.Send? ==> (r.data.password == OrNull(f.password)
      && r.data == UserPayload(f.username, f.email, r.data.password, f.fullName, f.role, f.branches, f.isActive))
  {
    if f.username == "" || f.email == "" then MissingIdentity
    else if !editing && f.password == "" then MissingPassword
    else Send(UserPayload(f.username, f.email, OrNull(f.password), f.fullName, f.role, f.branches, f.isActive))
  }

  /** A new user is never sent without a password. */
  lemma NewUserHasPassword(f: UserForm)
    requires SubmitUser(f, false).Send?
    ensures SubmitUser(f, false).data.password == Some(f.password) && f.password != ""
  {
  }

  // ---------------------------------------------------------------- branch menu page

  /** The branch menu page: with a category chosen, the products whose embedded
      category has that id; otherwise all. */
  function MenuPageProducts(products: seq<Catalog.Product>, selected: string): (r: seq<Catalog.Product>)
    ensures selected == "" ==> r == products
    ensures Lists.IsSubseq(r, products)
    ensures selected != "" ==> forall i :: 0 <= i < |r| ==> r[i].embeddedCategoryId == Some(selected)
    ensures selected != "" ==> forall i :: 0 <= i < |products| && products[i].embeddedCategoryId == Some(selected) ==> products[i] in r
  {
    if selected == "" then
      Lists.FilterIsSubseq(products, p => true);
      Lists.FilterAll(products, p => true);
      products
    else
      Lists.FilterIsSubseq(products, (p: Catalog.Product) => p.embeddedCategoryId == Some(selected));
      Lists.Filter(products, (p: Catalog.Product) => p.embeddedCategoryId == Some(selected))
  }
}
