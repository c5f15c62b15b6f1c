/** The read-only views of the backend: `GET /api/products` and the public
    `GET /api/menu`. Whether a model file exists is given as the set of file
    names in the output directory, and photo directories as their listings. */
module MenuApi {
  import opened Js
  import Lists
  import Store
  import Generation

  /** `glbExists ? `${p.id}.glb` : null` */
  function GlbField(p: Record, outputs: set<string>): (v: Value)
    ensures v == Null || v == Str(ToText(Get(p, "id")) + ".glb")
    ensures v != Null <==> ToText(Get(p, "id")) + ".glb" in outputs
  {
    var name := ToText(Get(p, "id")) + ".glb";
    if name in outputs then Str(name) else Null
  }

  // ---------------------------------------------------------------- product listing

  /** One product of the listing: its photo count and model file added. */
  function ListedProduct(p: Record, photoDirs: map<string, seq<string>>, outputs: set<string>): (q: Record)
    ensures Get(q, "photoCount") == Num(if ToText(Get(p, "id")) in photoDirs then |Generation.Photos(photoDirs[ToText(Get(p, "id"))])| else 0)
    ensures Get(q, "glbFile") == GlbField(p, outputs)
    ensures q.Keys == p.Keys + {"photoCount", "glbFile"}
    ensures forall k :: k in p && k != "photoCount" && k != "glbFile" ==> q[k] == p[k]
  {
    var key := ToText(Get(p, "id"));
    var count := if key in photoDirs then |Generation.Photos(photoDirs[key])| else 0;
    Spread(p, map["photoCount" := Num(count), "glbFile" := GlbField(p, outputs)])
  }

  /** `GET /api/products`: every product, in order, with its photo count and
      model file. */
  function ProductListing(products: seq<Record>, photoDirs: map<string, seq<string>>, outputs: set<string>): (r: seq<Record>)
    ensures |r| == |products|
    ensures forall i :: 0 <= i < |r| ==> r[i] == ListedProduct(products[i], photoDirs, outputs)
  {
    Lists.Map(products, (p: Record) => ListedProduct(p, photoDirs, outputs))
  }

  // ---------------------------------------------------------------- menu

  /** `p.isActive !== false` */
  predicate Listed(p: Record) {
    Get(p, "isActive") != Bool(false)
  }

  /** `p.categoryId === cat.id && p.isActive !== false` */
  function InCategory(cat: Record): Record -> bool {
    p => Get(p, "categoryId") == Get(cat, "id") && Listed(p)
  }

  /** A product as the menu sends it: its model file and its category's name and
      icon added, everything else as stored. */
  function Decorated(p: Record, outputs: set<string>, name: Value, icon: Value): (q: Record)
    ensures q.Keys == p.Keys + {"glbFile", "categoryName", "categoryIcon"}
    ensures q["glbFile"] == GlbField(p, outputs) && q["categoryName"] == name && q["categoryIcon"] == icon
    ensures forall k :: k in p && k !in {"glbFile", "categoryName", "categoryIcon"} ==> q[k] == p[k]
  {
    Spread(p, map["glbFile" := GlbField(p, outputs), "categoryName" := name, "categoryIcon" := icon])
  }

  /** A category's `products`: its listed products, in stored order, each
      decorated with the category's name and icon. */
  function CategoryProducts(cat: Record, products: seq<Record>, outputs: set<string>): (r: seq<Record>)
    ensures |r| == |Lists.Filter(products, InCategory(cat))|
    ensures forall i :: 0 <= i < |r| ==> r[i] == Decorated(Lists.Filter(products, InCategory(cat))[i], outputs, Get(cat, "name"), Get(cat, "icon"))
  {
    Lists.Map(Lists.Filter(products, InCategory(cat)), p => Decorated(p, outputs, Get(cat, "name"), Get(cat, "icon")))
  }

  /** A product is on a category's list exactly when it is listed and has that
      category's id. */
  lemma CategoryProductsIff(cat: Record, products: seq<Record>, outputs: set<string>)
    ensures forall i :: 0 <= i < |products| && Listed(products[i]) && Get(products[i], "categoryId") == Get(cat, "id") ==>
      Decorated(products[i], outputs, Get(cat, "name"), Get(cat, "icon")) in CategoryProducts(cat, products, outputs)
    ensures forall q :: q in CategoryProducts(cat, products, outputs) ==>
      exists p :: p in products && Listed(p) && Get(p, "categoryId") == Get(cat, "id")
        && q == Decorated(p, outputs, Get(cat, "name"), Get(cat, "icon"))
  {
    var f := Lists.Filter(products, InCategory(cat));
    var r := CategoryProducts(cat, products, outputs);
    forall i | 0 <= i < |products| && Listed(products[i]) && Get(products[i], "categoryId") == Get(cat, "id")
      ensures Decorated(products[i], outputs, Get(cat, "name"), Get(cat, "icon")) in r
    {
      assert InCategory(cat)(products[i]);
      var j :| 0 <= j < |f| && f[j] == products[i];
      assert r[j] == Decorated(f[j], outputs, Get(cat, "name"), Get(cat, "icon"));
    }
    forall q | q in r
      ensures exists p :: (p in products && Listed(p) && Get(p, "categoryId") == Get(cat, "id")
        && q == Decorated(p, outputs, Get(cat, "name"), Get(cat, "icon")))
    {
      var j :| 0 <= j < |r| && r[j] == q;
      assert InCategory(cat)(f[j]);
    }
  }

  /** Every product on a category's list carries that category's id, name and
      icon, and is listed. */
  lemma CategoryProductsBelong(cat: Record, products: seq<Record>, outputs: set<string>)
    ensures forall q :: q in CategoryProducts(cat, products, outputs) ==>
      Get(q, "categoryId") == Get(cat, "id") && Listed(q)
      && Get(q, "categoryName") == Get(cat, "name") && Get(q, "categoryIcon") == Get(cat, "icon")
  {
    var f := Lists.Filter(products, InCategory(cat));
    var r := CategoryProducts(cat, products, outputs);
    forall q | q in r
      ensures Get(q, "categoryId") == Get(cat, "id") && Listed(q)
        && Get(q, "categoryName") == Get(cat, "name") && Get(q, "categoryIcon") == Get(cat, "icon")
    {
      var j :| 0 <= j < |r| && r[j] == q;
      assert InCategory(cat)(f[j]);
      DecoratedKeepsCategory(f[j], outputs, Get(cat, "name"), Get(cat, "icon"));
    }
  }

  /** Decorating keeps the stored category id and active flag. */
  lemma DecoratedKeepsCategory(p: Record, outputs: set<string>, name: Value, icon: Value)
    ensures Get(Decorated(p, outputs, name, icon), "categoryId") == Get(p, "categoryId")
    ensures Get(Decorated(p, outputs, name, icon), "isActive") == Get(p, "isActive")
    ensures Get(Decorated(p, outputs, name, icon), "categoryName") == name
    ensures Get(Decorated(p, outputs, name, icon), "categoryIcon") == icon
  {
    var q := Decorated(p, outputs, name, icon);
    assert "categoryId" !in {"glbFile", "categoryName", "categoryIcon"};
    assert "isActive" !in {"glbFile", "categoryName", "categoryIcon"};
  }

  /** `{ ...cat, products }` */
  datatype MenuCategory = MenuCategory(fields: Record, products: seq<Record>)

  /** The menu's categories: every stored category, in order, with its products. */
  function MenuCategories(cats: seq<Record>, products: seq<Record>, outputs: set<string>): (r: seq<MenuCategory>)
    ensures |r| == |cats|
    ensures forall i :: 0 <= i < |r| ==> r[i].fields == cats[i] && r[i].products == CategoryProducts(cats[i], products, outputs)
  {
    Lists.Map(cats, (c: Record) => MenuCategory(c, CategoryProducts(c, products, outputs)))
  }

  /** `cat?.<field> || ''` for the first category with the product's category id. */
  function LookupField(cats: seq<Record>, p: Record, field: string): (v: Value)
    ensures (forall i :: 0 <= i < |cats| ==> Get(cats[i], "id") != Get(p, "categoryId")) ==> v == Str("")
  {
    var k := Lists.FindIndex(cats, (c: Record) => Get(c, "id") == Get(p, "categoryId"));
    if k < 0 then Str("") else Or(Get(cats[k], field), Str(""))
  }

  /** With a category of the product's id, the field is read from the first
      such category, `''` when it is falsy there. */
  lemma LookupFieldFirst(cats: seq<Record>, p: Record, field: string, k: int)
    requires 0 <= k < |cats| && Get(cats[k], "id") == Get(p, "categoryId")
    requires forall m :: 0 <= m < k ==> Get(cats[m], "id") != Get(p, "categoryId")
    ensures LookupField(cats, p, field) == Or(Get(cats[k], field), Str(""))
  {
  }

  /** `p.<flag> && p.isActive !== false` */
  function Flagged(flag: string): Record -> bool {
    p => Truthy(Get(p, flag)) && Listed(p)
  }

  /** `campaignProducts` and `featuredProducts`: the listed products with the
      flag set, in stored order, decorated with their category if it exists. */
  function Highlighted(products: seq<Record>, cats: seq<Record>, outputs: set<string>, flag: string): (r: seq<Record>)
    ensures |r| == |Lists.Filter(products, Flagged(flag))|
    ensures forall i :: 0 <= i < |r| ==>
      var p := Lists.Filter(products, Flagged(flag))[i];
      r[i] == Decorated(p, outputs, LookupField(cats, p, "name"), LookupField(cats, p, "icon"))
      && Truthy(Get(p, flag)) && Listed(p) && p in products
  {
    Lists.Map(Lists.Filter(products, Flagged(flag)),
      p => Decorated(p, outputs, LookupField(cats, p, "name"), LookupField(cats, p, "icon")))
  }

  /** `db.announcements.filter(a => a.isActive)` */
  function ActiveAnnouncements(anns: seq<Record>): (r: seq<Record>)
    ensures Lists.IsSubseq(r, anns)
    ensures forall i :: 0 <= i < |r| ==> Truthy(Get(r[i], "isActive"))
    ensures forall i :: 0 <= i < |anns| && Truthy(Get(anns[i], "isActive")) ==> anns[i] in r
  {
    Lists.FilterIsSubseq(anns, (a: Record) => Truthy(Get(a, "isActive")));
    Lists.Filter(anns, (a: Record) => Truthy(Get(a, "isActive")))
  }

  /** The body of `GET /api/menu`. */
  datatype Menu = Menu(
    settings: Record,
    categories: seq<MenuCategory>,
    announcements: seq<Record>,
    campaignProducts: seq<Record>,
    featuredProducts: seq<Record>,
    categoryLayouts: seq<Record>,
    campaignSettings: Record)

  /** `GET /api/menu` */
  function MenuOf(db: Store.Db, outputs: set<string>): (m: Menu)
    ensures m.settings == db.settings
    ensures m.categories == MenuCategories(db.categories, db.products, outputs)
    ensures m.announcements == ActiveAnnouncements(db.announcements)
    ensures m.campaignProducts == Highlighted(db.products, db.categories, outputs, "isCampaign")
    ensures m.featuredProducts == Highlighted(db.products, db.categories, outputs, "isFeatured")
    ensures db.categoryLayouts.None? ==> m.categoryLayouts == []
    ensures db.categoryLayouts.Some? ==> m.categoryLayouts == db.categoryLayouts.value
    ensures db.campaignSettings.None? ==> m.campaignSettings == Store.DefaultCampaignSettings
    ensures db.campaignSettings.Some? ==> m.campaignSettings == db.campaignSettings.value
  {
    Menu(db.settings,
         MenuCategories(db.categories, db.products, outputs),
         ActiveAnnouncements(db.announcements),
         Highlighted(db.products, db.categories, outputs, "isCampaign"),
         Highlighted(db.products, db.categories, outputs, "isFeatured"),
         if db.categoryLayouts.Some? then db.categoryLayouts.value else [],
         if db.campaignSettings.Some? then db.campaignSettings.value else Store.DefaultCampaignSettings)
  }

  // ---------------------------------------------------------------- the menu and the handlers

  /** A new announcement is on the menu at once. */
  lemma NewAnnouncementShown(anns: seq<Record>, id: string, body: Record, now: string)
    ensures Store.NewAnnouncement(id, body, |anns|, now) in ActiveAnnouncements(anns + [Store.NewAnnouncement(id, body, |anns|, now)])
  {
    var a := Store.NewAnnouncement(id, body, |anns|, now);
    assert (anns + [a])[|anns|] == a;
  }

  /** A new product created for an existing category, and not created inactive,
      is on that category's menu list. */
  lemma NewProductShown(cat: Record, products: seq<Record>, outputs: set<string>, id: string, body: Record, now: string)
    requires Get(body, "isActive") != Bool(false)
    requires Truthy(Get(body, "categoryId")) && Get(body, "categoryId") == Get(cat, "id")
    ensures Decorated(Store.NewProduct(id, body, now), outputs, Get(cat, "name"), Get(cat, "icon"))
      in CategoryProducts(cat, products + [Store.NewProduct(id, body, now)], outputs)
  {
    var p := Store.NewProduct(id, body, now);
    var ps := products + [p];
    assert ps[|products|] == p;
    assert InCategory(cat)(p);
    var f := Lists.Filter(ps, InCategory(cat));
    var j :| 0 <= j < |f| && f[j] == p;
    assert CategoryProducts(cat, ps, outputs)[j] == Decorated(p, outputs, Get(cat, "name"), Get(cat, "icon"));
  }

  /** After a category is deleted, no category of the menu lists a product
      with its id, though the products themselves remain stored. */
  lemma DeletedCategoryHidden(db: Store.Db, id: string, outputs: set<string>)
    ensures forall m, q :: (m in MenuCategories(Store.DeleteById(db.categories, id), db.products, outputs)
      && q in m.products) ==> Get(q, "categoryId") != Str(id)
  {
    var cats := Store.DeleteById(db.categories, id);
    var ms := MenuCategories(cats, db.products, outputs);
    forall m, q | m in ms && q in m.products
      ensures Get(q, "categoryId") != Str(id)
    {
      var i :| 0 <= i < |ms| && ms[i] == m;
      CategoryProductsBelong(cats[i], db.products, outputs);
      assert !Store.HasId(cats[i], id);
    }
  }
}
