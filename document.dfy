/** The parsed HTML as the scraper reaches it through BeautifulSoup's selectors and traversals,
    and the two extraction steps every list item goes through. */
module Document {
  import opened Wrappers
  import opened Text
  import opened Records
  import Seqs

  /** `BASE_URL` (app.py:9). */
  const BaseUrl: string := "https://leekduck.com"

  /** Reference resolution as `urljoin` does it (section 5.2 of RFC 3986), left abstract: the model
      takes it as a parameter. */
  type Resolver = (string, string) -> string

  /** One `li` of a list: the `get_text(" ", strip=True)` of its first `.pkmn-name` element and the
      `src` of its first `img`, each absent when the element or the attribute is. */
  datatype Item = Item(name: Option<string>, src: Option<string>)

  /** One element of an event page, in document order: tag name, `id`, classes, its
      `get_text(" ", strip=True)`, for a `ul` every `li` below it in document order (its
      `select("li")`), and its whole markup (name, attributes and children), which stands for what
      BeautifulSoup's `==` on tags compares. Since the sequence is in document order, `find_next`
      and `find_all_next` from a node are scans of the nodes after it. */
  datatype Node = Node(tag: string, id: Option<string>, classes: seq<string>, text: string, items: seq<Item>,
                       markup: string)

  /** BeautifulSoup's `==` on tags: structural, so two distinct elements with the same name,
      attributes and contents are equal. */
  predicate SameTag(a: Node, b: Node) {
    a.markup == b.markup
  }

  /** One `.event-item-link` of the listing page: its `href`, the `get_text(strip=True)` of its first
      `.event-item-title`, and the `src` of its first `img`. */
  datatype ListingLink = ListingLink(href: Option<string>, title: Option<string>, imgSrc: Option<string>)

  /** An event page: the `get_text(" ", strip=True)` of the first element each fixed selector finds
      (`.page-title`, `#event-date-start`, `#event-time-start`, `#event-date-end`,
      `#event-time-end`), the texts of the `.event-description p` elements, the `src` of the first
      `.event-page .image img`, the texts of the `.page-tags .tag` elements, and every element. */
  datatype DetailPage = DetailPage(
    pageTitle: Option<string>,
    dateStart: Option<string>,
    timeStart: Option<string>,
    dateEnd: Option<string>,
    timeEnd: Option<string>,
    descriptionParts: seq<string>,
    heroSrc: Option<string>,
    tags: seq<string>,
    nodes: seq<Node>)

  /** `find_all(["h2", "h3", "h4"])` and the stop test of the spawn scan. */
  predicate IsHeading(n: Node) {
    n.tag == "h2" || n.tag == "h3" || n.tag == "h4"
  }

  /** The search test of app.py:117 and 145: a `ul` one of whose classes contains "pkmn-list". */
  predicate IsPkmnList(n: Node) {
    n.tag == "ul" && AnyContains(n.classes, "pkmn-list")
  }

  /** `any(sub in cls for cls in classes)`. */
  predicate AnyContains(classes: seq<string>, sub: string) {
    classes != [] && (Contains(classes[0], sub) || AnyContains(classes[1..], sub))
  }

  /** `urljoin(BASE_URL, ref)`: urljoin returns the base itself when the reference is missing or
      empty, and resolves it otherwise. */
  function UrlJoin(resolve: Resolver, ref: Option<string>): string {
    if !Truthy(ref) then BaseUrl else resolve(BaseUrl, ref.value)
  }

  /** `urljoin(BASE_URL, img["src"]) if img and img.get("src") else None`. */
  function ImageUrl(resolve: Resolver, src: Option<string>): (r: Option<string>)
    ensures r.Some? <==> Truthy(src)
    ensures r.Some? ==> r.value == resolve(BaseUrl, src.value)
  {
    if Truthy(src) then Some(UrlJoin(resolve, src)) else None
  }

  /** An item the `li` loop keeps: its cleaned name is present and non-empty. */
  predicate Named(item: Item) {
    Truthy(CleanText(item.name))
  }

  /** The record `{"name": ..., "image": ...}` the `li` loop appends for a kept item. */
  function EntryOf(resolve: Resolver, item: Item): (e: Entry)
    requires Named(item)
    ensures NamedEntry(e)
    ensures Some(e.name) == CleanText(item.name)
    ensures e.image.Some? <==> Truthy(item.src)
  {
    Entry(CleanText(item.name).value, ImageUrl(resolve, item.src))
  }

  /** The body of the `li` loops (app.py:124-131 and 146-154): the cleaned name and the image of an
      item, kept only when the name is non-empty. */
  function ItemEntry(resolve: Resolver, item: Item): (r: seq<Entry>)
    ensures r != [] <==> Named(item)
    ensures r != [] ==> r == [EntryOf(resolve, item)]
  {
    if Named(item) then [EntryOf(resolve, item)] else []
  }

  /** Named entries: an entry has a non-empty normalised name. */
  predicate NamedEntry(e: Entry) {
    e.name != "" && Canonical(e.name)
  }

  /** The entries the `li` loop appends for a whole list: one for every kept item, in list order,
      and nothing else. */
  function NamedEntries(resolve: Resolver, items: seq<Item>): (r: seq<Entry>)
    ensures |r| == |Seqs.IndicesWhere(Named, items)| <= |items|
    ensures forall k :: 0 <= k < |r| ==> r[k] == EntryOf(resolve, items[Seqs.IndicesWhere(Named, items)[k]])
    ensures forall k :: 0 <= k < |r| ==> NamedEntry(r[k])
  {
    if items == [] then []
    else
      var init := items[..|items| - 1];
      assert forall k :: 0 <= k < |Seqs.IndicesWhere(Named, init)| ==> items[Seqs.IndicesWhere(Named, init)[k]] == init[Seqs.IndicesWhere(Named, init)[k]];
      NamedEntries(resolve, init) + ItemEntry(resolve, items[|items| - 1])
  }

  /** The `li` loop of app.py:124-131 and 146-154: each item whose cleaned name is non-empty is
      appended, as a name and an image, to the list being built. */
  method AppendNamedEntries(resolve: Resolver, entries: seq<Entry>, items: seq<Item>) returns (r: seq<Entry>)
    ensures r == entries + NamedEntries(resolve, items)
  {
    r := entries;
    for n := 0 to |items|
      invariant r == entries + NamedEntries(resolve, items[..n])
    {
      NamedEntriesStep(resolve, items, n);
      var item := items[n];
      var name := CleanText(item.name);
      var image := ImageUrl(resolve, item.src);
      ghost var done := NamedEntries(resolve, items[..n]);
      if Truthy(name) {
        assert ItemEntry(resolve, item) == [Entry(name.value, image)];
        assert entries + done + [Entry(name.value, image)] == entries + (done + [Entry(name.value, image)]);
        r := r + [Entry(name.value, image)];
      } else {
        assert done + ItemEntry(resolve, item) == done;
      }
    }
    assert items[..|items|] == items;
  }

  lemma NamedEntriesStep(resolve: Resolver, items: seq<Item>, n: nat)
    requires n < |items|
    ensures NamedEntries(resolve, items[..n + 1]) == NamedEntries(resolve, items[..n]) + ItemEntry(resolve, items[n])
  {
    assert items[..n + 1][..n] == items[..n];
  }
}
