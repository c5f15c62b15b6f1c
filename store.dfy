/** The backend's in-memory database and its REST handlers for settings,
    categories, products, announcements, reviews, category layouts and campaign
    settings. Records are plain JSON objects; ids, timestamps and uploaded file
    names are supplied by the caller. */
module Store {
  import opened Js
  import Lists

  /** The contents of the data file. A saved category layout is kept as the
      record the admin sent; the server never looks inside it. */
  datatype Db = Db(
    settings: Record,
    categories: seq<Record>,
    products: seq<Record>,
    announcements: seq<Record>,
    reviews: seq<Record>,
    categoryLayouts: Option<seq<Record>>,
    campaignSettings: Option<Record>)

  const DefaultSettings: Record := map[
    "restaurantName" := Str("AR Menu Restaurant"),
    "slogan" := Str("Lezzetin Yeni Boyutu"),
    "currency" := Str("\U{20BA}"),
    "primaryColor" := Str("#dc2626")]

  const DefaultCampaignSettings: Record := map["title" := Str("Kampanyalar"), "enabled" := Bool(true)]

  const DefaultCategoryIcon := "\U{1F4C1}"
  const DefaultAnnouncementIcon := "\U{1F4E2}"

  /** `loadData`: the parsed data file, or, when it is missing or unreadable,
      the default settings and nothing else. */
  function LoadData(file: Option<Db>): (db: Db)
    ensures file.Some? ==> db == file.value
    ensures file.None? ==> (db.categories == [] && db.products == [] && db.announcements == []
      && db.reviews == [] && db.categoryLayouts == Some([]))
    ensures file.None? ==> db.settings == DefaultSettings && db.campaignSettings == Some(DefaultCampaignSettings)
  {
    match file
    case Some(db) => db
    case None => Db(DefaultSettings, [], [], [], [], Some([]), Some(DefaultCampaignSettings))
  }

  // ---------------------------------------------------------------- records by id

  /** `r.id === id` */
  predicate HasId(r: Record, id: string) {
    Get(r, "id") == Str(id)
  }

  function IdIs(id: string): Record -> bool {
    r => HasId(r, id)
  }

  function IdIsNot(id: string): Record -> bool {
    r => !HasId(r, id)
  }

  /** The outcome of an update by id. */
  datatype Update = NotFound | Changed(rows: seq<Record>, index: nat)

  /** The update handlers: an unknown id changes nothing; otherwise the first
      record with the id becomes its old fields overridden by the body, and no
      other record changes. */
  function UpdateById(rs: seq<Record>, id: string, body: Record): (u: Update)
    ensures u.NotFound? <==> forall i :: 0 <= i < |rs| ==> !HasId(rs[i], id)
    ensures u.Changed? ==> (u.index < |rs| && HasId(rs[u.index], id)
      && (forall i :: 0 <= i < u.index ==> !HasId(rs[i], id)))
    ensures u.Changed? ==> (|u.rows| == |rs| && u.rows[u.index] == Spread(rs[u.index], body)
      && (forall i :: 0 <= i < |rs| && i != u.index ==> u.rows[i] == rs[i]))
  {
    var k := Lists.FindIndex(rs, IdIs(id));
    if k < 0 then NotFound else Changed(rs[k := Spread(rs[k], body)], k)
  }

  /** Sending the same update twice is the same as sending it once, provided
      the body does not change the record's id. */
  lemma {:induction false} UpdateIdempotent(rs: seq<Record>, id: string, body: Record)
    requires "id" in body ==> body["id"] == Str(id)
    ensures UpdateById(rs, id, body).Changed? ==>
      UpdateById(UpdateById(rs, id, body).rows, id, body) == UpdateById(rs, id, body)
  {
    var u := UpdateById(rs, id, body);
    if u.Changed? {
      var k := u.index;
      assert HasId(u.rows[k], id);
      assert forall i :: 0 <= i < k ==> u.rows[i] == rs[i];
      var v := UpdateById(u.rows, id, body);
      assert v.index == k;
      assert Spread(u.rows[k], body) == u.rows[k];
      assert v.rows == u.rows;
    }
  }

  /** The delete handlers: every record with the id goes, the rest stay in order. */
  function DeleteById(rs: seq<Record>, id: string): (r: seq<Record>)
    ensures forall i :: 0 <= i < |r| ==> !HasId(r[i], id)
    ensures forall i :: 0 <= i < |rs| && !HasId(rs[i], id) ==> rs[i] in r
    ensures Lists.IsSubseq(r, rs)
  {
    Lists.FilterIsSubseq(rs, IdIsNot(id));
    Lists.Filter(rs, IdIsNot(id))
  }

  /** Repeating a delete changes nothing. */
  lemma DeleteIdempotent(rs: seq<Record>, id: string)
    ensures DeleteById(DeleteById(rs, id), id) == DeleteById(rs, id)
  {
    Lists.FilterIdempotent(rs, IdIsNot(id));
  }

  /** Deleting an id that no record has changes nothing. */
  lemma DeleteUnknown(rs: seq<Record>, id: string)
    requires forall i :: 0 <= i < |rs| ==> !HasId(rs[i], id)
    ensures DeleteById(rs, id) == rs
  {
    Lists.FilterAll(rs, IdIsNot(id));
  }

  // ---------------------------------------------------------------- new records

  /** The category `POST /api/categories` appends. */
  function NewCategory(id: string, body: Record, count: nat, now: string): (c: Record)
    ensures c.Keys == {"id", "name", "icon", "image", "order", "createdAt"}
    ensures HasId(c, id) && c["name"] == Get(body, "name") && c["image"] == Null && c["order"] == Num(count)
    ensures Truthy(Get(body, "icon")) ==> c["icon"] == body["icon"]
    ensures !Truthy(Get(body, "icon")) ==> c["icon"] == Str(DefaultCategoryIcon)
  {
    map["id" := Str(id), "name" := Get(body, "name"), "icon" := Or(Get(body, "icon"), Str(DefaultCategoryIcon)),
        "image" := Null, "order" := Num(count), "createdAt" := Str(now)]
  }

  /** The product `POST /api/products` appends: active unless the body says
      exactly `false`, flags defaulting to `false`, no category as `null`. */
  function NewProduct(id: string, body: Record, now: string): (p: Record)
    ensures HasId(p, id) && Get(p, "name") == Get(body, "name") && Get(p, "price") == Get(body, "price")
    ensures Get(p, "thumbnail") == Null && Get(p, "glbFile") == Null
    ensures Get(p, "isActive") == Bool(Get(body, "isActive") != Bool(false))
    ensures Truthy(Get(p, "isFeatured")) == Truthy(Get(body, "isFeatured"))
    ensures Truthy(Get(p, "isCampaign")) == Truthy(Get(body, "isCampaign"))
    ensures Truthy(Get(p, "categoryId")) == Truthy(Get(body, "categoryId"))
    ensures !Truthy(Get(body, "categoryId")) ==> Get(p, "categoryId") == Null
    ensures !Truthy(Get(body, "description")) ==> Get(p, "description") == Str("")
  {
    map["id" := Str(id), "name" := Get(body, "name"), "price" := Get(body, "price"),
        "description" := Or(Get(body, "description"), Str("")),
        "categoryId" := Or(Get(body, "categoryId"), Null),
        "thumbnail" := Null, "glbFile" := Null,
        "isActive" := Bool(Get(body, "isActive") != Bool(false)),
        "isFeatured" := Or(Get(body, "isFeatured"), Bool(false)),
        "isCampaign" := Or(Get(body, "isCampaign"), Bool(false)),
        "createdAt" := Str(now)]
  }

  /** The product record has exactly the fields the handler writes, and a
      given category id and description are copied from the body. */
  lemma NewProductFields(id: string, body: Record, now: string)
    ensures NewProduct(id, body, now).Keys == {"id", "name", "price", "description", "categoryId", "thumbnail",
      "glbFile", "isActive", "isFeatured", "isCampaign", "createdAt"}
    ensures Truthy(Get(body, "categoryId")) ==> Get(NewProduct(id, body, now), "categoryId") == body["categoryId"]
    ensures Truthy(Get(body, "description")) ==> Get(NewProduct(id, body, now), "description") == body["description"]
  {
  }

  /** The announcement `POST /api/announcements` appends: always active. */
  function NewAnnouncement(id: string, body: Record, count: nat, now: string): (a: Record)
    ensures HasId(a, id) && Get(a, "isActive") == Bool(true) && Get(a, "order") == Num(count)
    ensures Get(a, "title") == Get(body, "title") && Get(a, "message") == Get(body, "message")
    ensures Truthy(Get(body, "icon")) ==> Get(a, "icon") == body["icon"]
    ensures !Truthy(Get(body, "icon")) ==> Get(a, "icon") == Str(DefaultAnnouncementIcon)
  {
    map["id" := Str(id), "title" := Get(body, "title"), "message" := Get(body, "message"),
        "icon" := Or(Get(body, "icon"), Str(DefaultAnnouncementIcon)),
        "isActive" := Bool(true), "order" := Num(count), "createdAt" := Str(now)]
  }

  /** The review `POST /api/reviews` appends; empty contact and note are `null`. */
  function NewReview(id: string, body: Record, now: string): (r: Record)
    ensures HasId(r, id) && Get(r, "rating") == Get(body, "rating")
    ensures Truthy(Get(body, "contact")) ==> Get(r, "contact") == body["contact"]
    ensures !Truthy(Get(body, "contact")) ==> Get(r, "contact") == Null
    ensures Truthy(Get(body, "note")) ==> Get(r, "note") == body["note"]
    ensures !Truthy(Get(body, "note")) ==> Get(r, "note") == Null
  {
    map["id" := Str(id), "rating" := Get(body, "rating"), "contact" := Or(Get(body, "contact"), Null),
        "note" := Or(Get(body, "note"), Null), "createdAt" := Str(now)]
  }

  /** Every record's `order` is its position. */
  predicate OrderedByPosition(rs: seq<Record>) {
    forall i :: 0 <= i < |rs| ==> Get(rs[i], "order") == Num(i)
  }

  /** Creating categories one after another numbers them by position. */
  lemma CreateKeepsOrder(rs: seq<Record>, id: string, body: Record, now: string)
    requires OrderedByPosition(rs)
    ensures OrderedByPosition(rs + [NewCategory(id, body, |rs|, now)])
  {
    var rs' := rs + [NewCategory(id, body, |rs|, now)];
    assert forall i :: 0 <= i < |rs| ==> rs'[i] == rs[i];
  }

  // ---------------------------------------------------------------- replies

  /** A handler's JSON reply, or an error status with its message. */
  datatype Reply = Json(body: Record) | Error(status: int, message: string)

  const Success: Record := map["success" := Bool(true)]

  /** The reply to an upload route: 400 without a file, otherwise the file name. */
  function UploadReply(file: Option<string>): (r: Reply)
    ensures r.Error? <==> file.None?
    ensures r.Error? ==> r == Error(400, "No file uploaded")
    ensures r.Json? ==> r.body == map["filename" := Str(file.value)]
  {
    match file
    case None => Error(400, "No file uploaded")
    case Some(f) => Json(map["filename" := Str(f)])
  }

  /** Setting one field of a record in place is an update whose body holds just
      that field. */
  lemma SetFieldIsUpdate(r: Record, field: string, v: Value)
    ensures r[field := v] == Spread(r, map[field := v])
  {
  }

  // ---------------------------------------------------------------- the database

  /** The module-level `db` of the server and its handlers. */
  class Store {
    var settings: Record
    var categories: seq<Record>
    var products: seq<Record>
    var announcements: seq<Record>
    var reviews: seq<Record>
    var categoryLayouts: Option<seq<Record>>
    var campaignSettings: Option<Record>

    /** The whole database as a value. */
    function State(): Db
      reads this
    {
      Db(settings, categories, products, announcements, reviews, categoryLayouts, campaignSettings)
    }

    /** `let db = loadData()` */
    constructor (file: Option<Db>)
      ensures State() == LoadData(file)
    {
      var db := LoadData(file);
      settings := db.settings;
      categories := db.categories;
      products := db.products;
      announcements := db.announcements;
      reviews := db.reviews;
      categoryLayouts := db.categoryLayouts;
      campaignSettings := db.campaignSettings;
    }

    // -------------------------------------------------------------- settings

    /** `PUT /api/settings` */
    method PutSettings(body: Record) returns (reply: Record)
      modifies this
      ensures State() == old(State()).(settings := Spread(old(settings), body))
      ensures reply == settings
    {
      settings := Spread(settings, body);
      reply := settings;
    }

    /** `POST /api/settings/logo`, `/banner` and `/homepage-image`: the uploaded
        file name is stored under `field` (`logo`, `bannerImage`, `homepageImage`). */
    method SetSettingsImage(field: string, file: Option<string>) returns (reply: Reply)
      modifies this
      ensures reply == UploadReply(file)
      ensures file.None? ==> State() == old(State())
      ensures file.Some? ==> State() == old(State()).(settings := old(settings)[field := Str(file.value)])
    {
      if file.None? {
        return Error(400, "No file uploaded");
      }
      settings := settings[field := Str(file.value)];
      reply := Json(map["filename" := Str(file.value)]);
    }

    // -------------------------------------------------------------- categories

    /** `POST /api/categories` */
    method CreateCategory(id: string, body: Record, now: string) returns (c: Record)
      modifies this
      ensures c == NewCategory(id, body, |old(categories)|, now)
      ensures State() == old(State()).(categories := old(categories) + [c])
    {
      c := NewCategory(id, body, |categories|, now);
      categories := categories + [c];
    }

    /** `PUT /api/categories/:id` */
    method UpdateCategory(id: string, body: Record) returns (reply: Reply)
      modifies this
      ensures UpdateById(old(categories), id, body).NotFound? ==>
        reply == Error(404, "Category not found") && State() == old(State())
      ensures UpdateById(old(categories), id, body).Changed? ==>
        State() == old(State()).(categories := UpdateById(old(categories), id, body).rows)
        && reply == Json(categories[UpdateById(old(categories), id, body).index])
    {
      var u := UpdateById(categories, id, body);
      if u.NotFound? {
        return Error(404, "Category not found");
      }
      categories := u.rows;
      reply := Json(categories[u.index]);
    }

    /** `DELETE /api/categories/:id`: products are left as they are. */
    method DeleteCategory(id: string) returns (reply: Reply)
      modifies this
      ensures State() == old(State()).(categories := DeleteById(old(categories), id))
      ensures reply == Json(Success)
    {
      categories := DeleteById(categories, id);
      reply := Json(Success);
    }

    /** `POST /api/categories/:id/image`: the file name is written into the
        first category with the id. */
    method SetCategoryImage(id: string, file: Option<string>) returns (reply: Reply)
      modifies this
      ensures file.None? ==> reply == UploadReply(file) && State() == old(State())
      ensures file.Some? && UpdateById(old(categories), id, map["image" := Str(file.value)]).NotFound? ==>
        reply == Error(404, "Category not found") && State() == old(State())
      ensures file.Some? && UpdateById(old(categories), id, map["image" := Str(file.value)]).Changed? ==>
        reply == UploadReply(file)
        && State() == old(State()).(categories := UpdateById(old(categories), id, map["image" := Str(file.value)]).rows)
    {
      if file.None? {
        return Error(400, "No file uploaded");
      }
      var k := Lists.FindIndex(categories, IdIs(id));
      if k < 0 {
        return Error(404, "Category not found");
      }
      SetFieldIsUpdate(categories[k], "image", Str(file.value));
      categories := categories[k := categories[k]["image" := Str(file.value)]];
      reply := Json(map["filename" := Str(file.value)]);
    }

    // -------------------------------------------------------------- products

    /** `POST /api/products` */
    method CreateProduct(id: string, body: Record, now: string) returns (p: Record)
      modifies this
      ensures p == NewProduct(id, body, now)
      ensures State() == old(State()).(products := old(products) + [p])
    {
      p := NewProduct(id, body, now);
      products := products + [p];
    }

    /** `PUT /api/products/:id` */
    method UpdateProduct(id: string, body: Record) returns (reply: Reply)
      modifies this
      ensures UpdateById(old(products), id, body).NotFound? ==>
        reply == Error(404, "Product not found") && State() == old(State())
      ensures UpdateById(old(products), id, body).Changed? ==>
        State() == old(State()).(products := UpdateById(old(products), id, body).rows)
        && reply == Json(products[UpdateById(old(products), id, body).index])
    {
      var u := UpdateById(products, id, body);
      if u.NotFound? {
        return Error(404, "Product not found");
      }
      products := u.rows;
      reply := Json(products[u.index]);
    }

    /** `DELETE /api/products/:id`: categories are left as they are. */
    method DeleteProduct(id: string) returns (reply: Reply)
      modifies this
      ensures State() == old(State()).(products := DeleteById(old(products), id))
      ensures reply == Json(Success)
    {
      products := DeleteById(products, id);
      reply := Json(Success);
    }

    /** `POST /api/products/:id/thumbnail` */
    method SetThumbnail(id: string, file: Option<string>) returns (reply: Reply)
      modifies this
      ensures file.None? ==> reply == UploadReply(file) && State() == old(State())
      ensures file.Some? && UpdateById(old(products), id, map["thumbnail" := Str(file.value)]).NotFound? ==>
        reply == Error(404, "Product not found") && State() == old(State())
      ensures file.Some? && UpdateById(old(products), id, map["thumbnail" := Str(file.value)]).Changed? ==>
        reply == UploadReply(file)
        && State() == old(State()).(products := UpdateById(old(products), id, map["thumbnail" := Str(file.value)]).rows)
    {
      if file.None? {
        return Error(400, "No file uploaded");
      }
      var k := Lists.FindIndex(products, IdIs(id));
      if k < 0 {
        return Error(404, "Product not found");
      }
      SetFieldIsUpdate(products[k], "thumbnail", Str(file.value));
      products := products[k := products[k]["thumbnail" := Str(file.value)]];
      reply := Json(map["filename" := Str(file.value)]);
    }

    // -------------------------------------------------------------- announcements

    /** `POST /api/announcements` */
    method CreateAnnouncement(id: string, body: Record, now: string) returns (a: Record)
      modifies this
      ensures a == NewAnnouncement(id, body, |old(announcements)|, now)
      ensures State() == old(State()).(announcements := old(announcements) + [a])
    {
      a := NewAnnouncement(id, body, |announcements|, now);
      announcements := announcements + [a];
    }

    /** `PUT /api/announcements/:id` */
    method UpdateAnnouncement(id: string, body: Record) returns (reply: Reply)
      modifies this
      ensures UpdateById(old(announcements), id, body).NotFound? ==>
        reply == Error(404, "Announcement not found") && State() == old(State())
      ensures UpdateById(old(announcements), id, body).Changed? ==>
        State() == old(State()).(announcements := UpdateById(old(announcements), id, body).rows)
        && reply == Json(announcements[UpdateById(old(announcements), id, body).index])
    {
      var u := UpdateById(announcements, id, body);
      if u.NotFound? {
        return Error(404, "Announcement not found");
      }
      announcements := u.rows;
      reply := Json(announcements[u.index]);
    }

    /** `DELETE /api/announcements/:id` */
    method DeleteAnnouncement(id: string) returns (reply: Reply)
      modifies this
      ensures State() == old(State()).(announcements := DeleteById(old(announcements), id))
      ensures reply == Json(Success)
    {
      announcements := DeleteById(announcements, id);
      reply := Json(Success);
    }

    // -------------------------------------------------------------- reviews

    /** `POST /api/reviews` */
    method CreateReview(id: string, body: Record, now: string) returns (r: Record)
      modifies this
      ensures r == NewReview(id, body, now)
      ensures State() == old(State()).(reviews := old(reviews) + [r])
    {
      r := NewReview(id, body, now);
      reviews := reviews + [r];
    }

    /** `DELETE /api/reviews/:id` */
    method DeleteReview(id: string) returns (reply: Reply)
      modifies this
      ensures State() == old(State()).(reviews := DeleteById(old(reviews), id))
      ensures reply == Json(Success)
    {
      reviews := DeleteById(reviews, id);
      reply := Json(Success);
    }

    // -------------------------------------------------------------- layouts and campaign settings

    /** `GET /api/category-layouts` */
    function Layouts(): (rows: seq<Record>)
      reads this
      ensures categoryLayouts.None? ==> rows == []
      ensures categoryLayouts.Some? ==> rows == categoryLayouts.value
    {
      if categoryLayouts.Some? then categoryLayouts.value else []
    }

    /** `PUT /api/category-layouts`: the saved rows are replaced wholesale. */
    method PutLayouts(rows: seq<Record>) returns (reply: seq<Record>)
      modifies this
      ensures State() == old(State()).(categoryLayouts := Some(rows))
      ensures reply == rows && Layouts() == rows
    {
      categoryLayouts := Some(rows);
      reply := rows;
    }

    /** `GET /api/campaign-settings` */
    function CampaignSettings(): (s: Record)
      reads this
      ensures campaignSettings.None? ==> s == DefaultCampaignSettings
      ensures campaignSettings.Some? ==> s == campaignSettings.value
    {
      if campaignSettings.Some? then campaignSettings.value else DefaultCampaignSettings
    }

    /** `PUT /api/campaign-settings`: a merge into the stored settings, or into
        nothing when none are stored. */
    method PutCampaignSettings(body: Record) returns (reply: Record)
      modifies this
      ensures old(campaignSettings).None? ==> State() == old(State()).(campaignSettings := Some(body))
      ensures old(campaignSettings).Some? ==>
        State() == old(State()).(campaignSettings := Some(Spread(old(campaignSettings).value, body)))
      ensures reply == CampaignSettings()
    {
      var base: Record := if campaignSettings.Some? then campaignSettings.value else map[];
      assert Spread(map[], body) == body;
      campaignSettings := Some(Spread(base, body));
      reply := campaignSettings.value;
    }
  }
}
