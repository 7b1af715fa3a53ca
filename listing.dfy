/** The listing extractor `scrape_events` (app.py:57-81), after the HTTP fetch. */
module Listing {
  import opened Wrappers
  import opened Text
  import opened Records
  import opened Document

  /** The dict app.py:71-77 builds for one link ("date" and "type" are commented out there). */
  function StubOf(resolve: Resolver, link: ListingLink): Event {
    Event(link.title, UrlJoin(resolve, link.href), ImageUrl(resolve, link.imgSrc), Unfetched)
  }

  /** `scrape_events` on the links `soup.select(".event-item-link")` yields: one record per link,
      in document order, none dropped or merged. The url is the resolved `href` (the base URL itself
      when `href` is missing or empty); the image is present exactly when the link holds an `img`
      with a non-empty `src`. */
  method ScrapeEvents(resolve: Resolver, links: seq<ListingLink>) returns (events: seq<Event>)
    ensures |events| == |links|
    ensures forall i :: 0 <= i < |links| ==> events[i] == StubOf(resolve, links[i])
    ensures forall i :: 0 <= i < |links| ==>
      && events[i].name == links[i].title
      && events[i].url == (if Truthy(links[i].href) then resolve(BaseUrl, links[i].href.value) else BaseUrl)
      && (events[i].image.Some? <==> Truthy(links[i].imgSrc))
      && events[i].outcome == Unfetched
  {
    events := [];
    for i := 0 to |links|
      invariant |events| == i
      invariant forall k :: 0 <= k < i ==> events[k] == StubOf(resolve, links[k])
    {
      var link := links[i];
      var image := ImageUrl(resolve, link.imgSrc);
      var eventData := Event(link.title, UrlJoin(resolve, link.href), image, Unfetched);
      events := events + [eventData];
    }
  }
}
