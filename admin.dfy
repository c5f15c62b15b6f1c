/** The selection rules of the admin panel's product, category and GLB pages. */
module Admin {
  import opened Js
  import Lists
  import Catalog

  /** The product page's search box and its category, section and status
      selects; "" means "any". */
  datatype ProductQuery = ProductQuery(search: string, category: string, section: string, status: string)

  /** The section select: `'null'` asks for products without a section. */
  predicate SectionMatches(p: Catalog.Product, section: string) {
    if section == "null" then !Present(p.sectionId)
    else section == "" || p.sectionId == Some(section)
  }

  /** The status select; a value it does not know filters nothing. */
  predicate StatusMatches(p: Catalog.Product, status: string) {
    (status == "active" ==> Catalog.MarkedActive(p))
    && (status == "inactive" ==> !Catalog.MarkedActive(p))
    && (status == "featured" ==> p.isFeatured)
    && (status == "campaign" ==> p.isCampaign)
    && (status == "has3d" ==> p.hasGlb)
  }

  /** A product passes every criterion of the query. */
  predicate Shown(q: ProductQuery, p: Catalog.Product) {
    Catalog.NameMatches(p, q.search) && Catalog.CategoryMatches(p, q.category)
    && SectionMatches(p, q.section) && StatusMatches(p, q.status)
  }

  /** The query as the test `filter` applies. */
  function ShownBy(q: ProductQuery): Catalog.Product -> bool {
    p => Shown(q, p)
  }

  /** `filteredProducts`: the products the query lets through, in list order. */
  function FilterProducts(products: seq<Catalog.Product>, q: ProductQuery): (r: seq<Catalog.Product>)
    ensures Lists.IsSubseq(r, products)
    ensures forall i :: 0 <= i < |r| ==> Shown(q, r[i])
    ensures forall i :: 0 <= i < |products| && Shown(q, products[i]) ==> products[i] in r
  {
    Lists.FilterIsSubseq(products, ShownBy(q));
    Lists.Filter(products, ShownBy(q))
  }

  predicate KnownStatus(status: string) {
    status in {"active", "inactive", "featured", "campaign", "has3d"}
  }

  /** With no search, no category, no section and no known status every product
      is listed. */
  lemma NoCriteriaKeepsAll(products: seq<Catalog.Product>, q: ProductQuery)
    requires q.search == "" && q.category == "" && q.section == "" && !KnownStatus(q.status)
    ensures FilterProducts(products, q) == products
  {
    Lists.FilterAll(products, ShownBy(q));
  }

  /** Choosing a status only narrows the list the other criteria give. */
  lemma StatusNarrows(products: seq<Catalog.Product>, q: ProductQuery)
    ensures Lists.IsSubseq(FilterProducts(products, q), FilterProducts(products, q.(status := "")))
  {
    Lists.FilterMonotone(products, ShownBy(q), ShownBy(q.(status := "")));
  }

  predicate Active(p: Catalog.Product) { Catalog.MarkedActive(p) }
  predicate Inactive(p: Catalog.Product) { !Catalog.MarkedActive(p) }

  /** The `active` and `inactive` statuses split the list the other criteria give. */
  lemma ActiveInactiveSplit(products: seq<Catalog.Product>, q: ProductQuery)
    ensures |FilterProducts(products, q.(status := "active"))| + |FilterProducts(products, q.(status := "inactive"))|
      == |FilterProducts(products, q.(status := ""))|
  {
    var base, a, b := q.(status := ""), q.(status := "active"), q.(status := "inactive");
    forall p: Catalog.Product
      ensures Shown(a, p) == (Shown(base, p) && Catalog.MarkedActive(p))
      ensures Shown(b, p) == (Shown(base, p) && !Catalog.MarkedActive(p))
    {
      assert StatusMatches(p, "") && StatusMatches(p, "active") == Catalog.MarkedActive(p);
      assert StatusMatches(p, "inactive") == !Catalog.MarkedActive(p);
    }
    Lists.FilterSplitCount(products, ShownBy(base), p => Catalog.MarkedActive(p), ShownBy(a), ShownBy(b));
  }

  /** The category page's section select: `'null'` keeps the categories without a
      section, another value those of that section, "" all. */
  predicate CategoryShown(section: string, c: Catalog.Category) {
    if section == "null" then !Present(c.section)
    else section == "" || c.section == Some(section)
  }

  /** `filteredCategories` */
  function FilterCategories(cats: seq<Catalog.Category>, section: string): (r: seq<Catalog.Category>)
    ensures Lists.IsSubseq(r, cats)
    ensures forall i :: 0 <= i < |r| ==> CategoryShown(section, r[i])
    ensures forall i :: 0 <= i < |cats| && CategoryShown(section, cats[i]) ==> cats[i] in r
  {
    Lists.FilterIsSubseq(cats, c => CategoryShown(section, c));
    Lists.Filter(cats, c => CategoryShown(section, c))
  }

  /** `'null'` and a named section never list the same category. */
  lemma SectionsDisjoint(cats: seq<Catalog.Category>, section: string, c: Catalog.Category)
    requires section != "" && section != "null"
    ensures !(c in FilterCategories(cats, "null") && c in FilterCategories(cats, section))
  {
  }

  /** A GLB file may be offered to a product when no product uses it yet or it is
      the product's own (`product?.glbFile`). */
  predicate Offerable(g: Catalog.GlbFile, current: Option<string>) {
    !g.isAssigned || current == Some(g.filename)
  }

  /** `availableGlbFiles` */
  function AvailableGlbFiles(files: seq<Catalog.GlbFile>, current: Option<string>): (r: seq<Catalog.GlbFile>)
    ensures Lists.IsSubseq(r, files)
    ensures forall i :: 0 <= i < |r| ==> !r[i].isAssigned || current == Some(r[i].filename)
    ensures forall i :: 0 <= i < |files| && !files[i].isAssigned ==> files[i] in r
    ensures forall i :: 0 <= i < |files| && current == Some(files[i].filename) ==> files[i] in r
  {
    Lists.FilterIsSubseq(files, g => Offerable(g, current));
    Lists.Filter(files, g => Offerable(g, current))
  }

  /** A new product (no current file) is offered exactly the unassigned files. */
  lemma NewProductSeesUnassigned(files: seq<Catalog.GlbFile>)
    ensures AvailableGlbFiles(files, None) == Lists.Filter(files, Catalog.Unassigned)
  {
    Lists.FilterCongruent(files, g => Offerable(g, None), Catalog.Unassigned);
  }
}
