/** The batch `scrape_events_with_details` (app.py:171-183): the listing is scraped, then every
    event's page is fetched and scraped in turn and merged into that event's record. */
module Batch {
  import opened Wrappers
  import opened Text
  import opened Records
  import opened Document
  import opened EventDates
  import opened Listing
  import opened Detail

  /** The HTTP fetch of an event page (`requests.get` and `raise_for_status`), left abstract: the
      parsed page, or the text of the exception it raises. */
  type Downloader = string -> Result<DetailPage, string>

  /** What `scrape_event_detail(url)` gives for one event: the exception of the fetch, or the
      detail extracted from the fetched page at the instant `now`. It fails exactly when the fetch
      fails or the fetched page's end date overflows; a fetch error keeps its text, and the only
      other error is the overflow message. */
  function DetailResult(resolve: Resolver, download: Downloader, url: string, now: DateTime): (r: Result<EventDetail, string>)
    ensures r.Err? <==> download(url).Err? || Overflows(download(url).value)
    ensures download(url).Err? ==> r.error == download(url).error
    ensures download(url).Ok? && r.Err? ==> r.error == OverflowMessage
    ensures r.Ok? ==> (r.value.heroImage.Some? <==> Truthy(download(url).value.heroSrc))
  {
    match download(url)
    case Err(msg) => Err(msg)
    case Ok(page) => EventDetailOf(resolve, page, now)
  }

  /** The `try` body and its handler (app.py:175-181) on one record. */
  function WithDetail(e: Event, r: Result<EventDetail, string>): (u: Event)
    ensures u.url == e.url && u.image == e.image
    ensures r.Ok? ==> u.outcome == Fetched(r.value)
    ensures r.Ok? ==> u.name == (if Truthy(e.name) then e.name else r.value.title)
    ensures r.Err? ==> u == e.(outcome := Failed(r.error))
  {
    match r
    case Ok(d) =>
      var updated := e.(outcome := Fetched(d));
      if !Truthy(updated.name) then updated.(name := d.title) else updated
    case Err(msg) => e.(outcome := Failed(msg))
  }

  /** The record of one listing link at the end of the batch. */
  function Merged(resolve: Resolver, download: Downloader, link: ListingLink, now: DateTime): Event {
    var stub := StubOf(resolve, link);
    WithDetail(stub, DetailResult(resolve, download, stub.url, now))
  }

  /** A name present on the listing page survives the merge; a missing or empty one is replaced by
      the page title, which is then a normalised string or absent. */
  lemma MergedName(resolve: Resolver, download: Downloader, link: ListingLink, now: DateTime)
    ensures var e := Merged(resolve, download, link, now);
      && (Truthy(link.title) ==> e.name == link.title)
      && (!Truthy(link.title) && e.outcome.Fetched? ==> e.name == e.outcome.detail.title)
      && (e.outcome.Failed? ==> e.name == link.title)
  {
  }

  /** `scrape_events_with_details`: every link of the listing gives one record, in listing order.
      The event at position `i` is the listing record merged with its own fetch result, read at the
      clock reading `clock(i)`; a failure of one event is recorded in that event only, and the loop
      carries on with the next. */
  method ScrapeEventsWithDetails(resolve: Resolver, links: seq<ListingLink>, download: Downloader,
                                 clock: nat -> DateTime) returns (events: seq<Event>)
    ensures |events| == |links|
    ensures forall i :: 0 <= i < |links| ==> events[i] == Merged(resolve, download, links[i], clock(i))
    ensures forall i :: 0 <= i < |links| ==>
      && events[i].url == StubOf(resolve, links[i]).url
      && events[i].image == StubOf(resolve, links[i]).image
      && (events[i].outcome.Failed? <==> DetailResult(resolve, download, events[i].url, clock(i)).Err?)
  {
    events := ScrapeEvents(resolve, links);
    for i := 0 to |events|
      invariant |events| == |links|
      invariant forall k :: 0 <= k < i ==> events[k] == Merged(resolve, download, links[k], clock(k))
      invariant forall k :: i <= k < |events| ==> events[k] == StubOf(resolve, links[k])
    {
      var event := events[i];
      var page := download(event.url);
      var details: Result<EventDetail, string>;
      if page.Err? {
        details := Err(page.error);
      } else {
        details := ScrapeEventDetail(resolve, page.value, clock(i));
      }
      if details.Ok? {
        var d := details.value;
        event := event.(outcome := Fetched(d));
        if !Truthy(event.name) {
          event := event.(name := d.title);
        }
      } else {
        event := event.(outcome := Failed(details.error));
      }
      events := events[i := event];
    }
  }
}
