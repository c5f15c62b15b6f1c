/** The catalogue entities as the frontends receive them from the API. */
module Catalog {
  import opened Js
  import Lists
  import Text

  /** A menu product. Optional text fields that are missing read as "". A missing
      `categoryId` or `sectionId` is `None`; `isActive` is `None` when the field is
      absent, which the public menu treats as active and the admin filter as not.
      `embeddedCategoryId` is `p.category?.id` for endpoints that embed the
      product's category object. */
  datatype Product = Product(
    id: string,
    name: string,
    description: string,
    categoryId: Option<string>,
    sectionId: Option<string>,
    isActive: Option<bool>,
    isFeatured: bool,
    isCampaign: bool,
    campaignPrice: int,
    hasGlb: bool,
    categoryName: string,
    categoryIcon: string,
    embeddedCategoryId: Option<string>)

  /** A menu category; `products` is filled in by the public menu endpoint. A
      missing `layoutSize` is "". */
  datatype Category = Category(
    id: string,
    name: string,
    icon: string,
    section: Option<string>,
    layoutSize: string,
    products: seq<Product>)

  /** `isActive !== false` */
  predicate NotDeactivatedFlag(isActive: Option<bool>) {
    isActive != Some(false)
  }

  /** `p.isActive !== false` */
  predicate NotDeactivated(p: Product) {
    NotDeactivatedFlag(p.isActive)
  }

  /** `p.isActive` is truthy. */
  predicate MarkedActive(p: Product) {
    p.isActive == Some(true)
  }

  /** A GLB file of the branch's model library. */
  datatype GlbFile = GlbFile(filename: string, isAssigned: bool)

  predicate Assigned(f: GlbFile) { f.isAssigned }
  predicate Unassigned(f: GlbFile) { !f.isAssigned }

  /** The two counters of the GLB pages: every file is counted exactly once. */
  lemma GlbCountsAddUp(files: seq<GlbFile>)
    ensures |Lists.Filter(files, Assigned)| + |Lists.Filter(files, Unassigned)| == |files|
  {
    Lists.FilterComplementCount(files, Assigned);
    Lists.FilterCongruent(files, x => !Assigned(x), Unassigned);
  }

  /** The product search box: an empty search matches everything, otherwise the
      name must contain it, ignoring case. */
  predicate NameMatches(p: Product, search: string) {
    search == "" || Text.Contains(Text.Lower(p.name), Text.Lower(search))
  }

  /** The category select: "" is "any", otherwise `p.categoryId === category`. */
  predicate CategoryMatches(p: Product, category: string) {
    category == "" || p.categoryId == Some(category)
  }
}
