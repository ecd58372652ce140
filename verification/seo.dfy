/**
  The kt-market JSON-LD helpers that depend on their input: the breadcrumb list
  and the product schema. The fixed organisation and web-site schemas and the
  default page metadata are constants with no logic and are not modelled.
*/
module Seo {
  import opened Wrappers
  import JsNumber

  const SchemaContext := "https://schema.org"
  const SiteUrl := "https://ktmarket.co.kr"
  const ProductsPath := SiteUrl + "/products/"
  const DefaultBrand := "KT Market"
  const DefaultCurrency := "KRW"
  const InStock := "https://schema.org/InStock"

  // ---------------------------------------------------------------------------
  // Breadcrumbs

  /** One step of the trail as the page supplies it. */
  datatype Crumb = Crumb(name: string, url: string)

  /** A `ListItem` of the breadcrumb list. */
  datatype ListItem = ListItem(position: nat, name: string, item: string)

  datatype BreadcrumbList = BreadcrumbList(context: string, itemListElement: seq<ListItem>)

  /** `items.map((item, index) => …)` starting at index `start`. */
  function ListItems(items: seq<Crumb>, start: nat): (r: seq<ListItem>)
    ensures |r| == |items|
    ensures forall i :: 0 <= i < |r| ==>
      r[i] == ListItem(start + i + 1, items[i].name, items[i].url)
  {
    if |items| == 0 then []
    else [ListItem(start + 1, items[0].name, items[0].url)] + ListItems(items[1..], start + 1)
  }

  /** `generateBreadcrumbSchema`: the i-th crumb becomes the item at position i+1. */
  function BreadcrumbSchema(items: seq<Crumb>): (r: BreadcrumbList)
    ensures r.context == SchemaContext
    ensures |r.itemListElement| == |items|
    ensures forall i :: 0 <= i < |items| ==>
      && r.itemListElement[i].position == i + 1
      && r.itemListElement[i].name == items[i].name
      && r.itemListElement[i].item == items[i].url
  {
    BreadcrumbList(SchemaContext, ListItems(items, 0))
  }

  /** The crumbs a list item sequence was built from. */
  function CrumbsOf(elements: seq<ListItem>): (r: seq<Crumb>)
    ensures |r| == |elements|
    ensures forall i :: 0 <= i < |r| ==> r[i] == Crumb(elements[i].name, elements[i].item)
  {
    if |elements| == 0 then [] else [Crumb(elements[0].name, elements[0].item)] + CrumbsOf(elements[1..])
  }

  /** The breadcrumb list loses nothing: its items give back the trail. */
  lemma BreadcrumbRoundTrip(items: seq<Crumb>)
    ensures CrumbsOf(BreadcrumbSchema(items).itemListElement) == items
  {
    var r := CrumbsOf(BreadcrumbSchema(items).itemListElement);
    assert forall i :: 0 <= i < |items| ==> r[i] == items[i];
  }

  /**
    Extending the trail appends to the list: the items already there keep their
    positions, and the new ones continue the numbering.
  */
  lemma BreadcrumbAppend(items: seq<Crumb>, more: seq<Crumb>, start: nat)
    ensures ListItems(items + more, start) == ListItems(items, start) + ListItems(more, start + |items|)
  {
    var whole := ListItems(items + more, start);
    var parts := ListItems(items, start) + ListItems(more, start + |items|);
    forall k | 0 <= k < |whole| ensures whole[k] == parts[k] {
      if k >= |items| {
        assert (items + more)[k] == more[k - |items|];
      }
    }
  }


  // ---------------------------------------------------------------------------
  // Product schema

  /** The argument of `generateProductSchema`; the optional fields may be absent. */
  datatype ProductInfo = ProductInfo(
    name: string,
    description: string,
    image: string,
    price: JsNumber.Num,
    currency: Option<string>,
    availability: Option<string>,
    sku: Option<string>,
    brand: Option<string>)

  datatype Offer = Offer(price: JsNumber.Num, priceCurrency: string, availability: string, url: string)

  datatype ProductSchema = ProductSchema(
    context: string,
    name: string,
    description: string,
    image: string,
    sku: string,
    brand: string,
    offers: Offer)

  /** `value || fallback` for an optional string. */
  function OrDefault(v: Option<string>, fallback: string): (r: string)
    ensures HasText(v) ==> r == v.value
    ensures !HasText(v) ==> r == fallback
  {
    if HasText(v) then v.value else fallback
  }

  /** A template literal's rendering of an optional string: absent reads "undefined". */
  function Interpolate(v: Option<string>): (r: string)
    ensures v.Some? ==> r == v.value
    ensures v.None? ==> r == "undefined"
  {
    v.GetOr("undefined")
  }

  /** `generateProductSchema` */
  function ProductSchemaOf(p: ProductInfo): (r: ProductSchema)
    ensures r.context == SchemaContext
    ensures r.name == p.name && r.description == p.description && r.image == p.image
    ensures r.offers.price == p.price
    ensures r.sku == OrDefault(p.sku, "")
    ensures r.brand == OrDefault(p.brand, DefaultBrand)
    ensures r.offers.priceCurrency == OrDefault(p.currency, DefaultCurrency)
    ensures r.offers.availability == OrDefault(p.availability, InStock)
    ensures r.offers.url == ProductsPath + Interpolate(p.sku)
  {
    ProductSchema(
      SchemaContext, p.name, p.description, p.image,
      OrDefault(p.sku, ""),
      OrDefault(p.brand, DefaultBrand),
      Offer(p.price, OrDefault(p.currency, DefaultCurrency), OrDefault(p.availability, InStock),
        ProductsPath + Interpolate(p.sku)))
  }

  /**
    The offer's URL names the product's own page exactly when a SKU was given:
    an absent SKU is written "" in the `sku` field but "undefined" in the URL.
  */
  lemma OfferUrlMatchesSku(p: ProductInfo)
    ensures var r := ProductSchemaOf(p);
      r.offers.url == ProductsPath + r.sku <==> p.sku.Some?
  {
    var r := ProductSchemaOf(p);
    if p.sku.None? {
      assert r.offers.url[|ProductsPath|..] == "undefined";
      assert (ProductsPath + r.sku)[|ProductsPath|..] == "";
    }
  }
}
