/** The records the scraper builds: the JSON objects it writes to events.json. */
module Records {
  import opened Wrappers

  /** `{"name": ..., "image": ...}`: one creature of a raid tier or of the spawn list. */
  datatype Entry = Entry(name: string, image: Option<string>)

  /** One key of the `raid_pokemon` dict with its list. The dict is kept as a sequence of tiers in
      insertion order, the order a Python dict keeps and serialises. */
  datatype Tier = Tier(title: string, entries: seq<Entry>)

  /** The dict `scrape_event_detail` returns (app.py:156-168). */
  datatype EventDetail = EventDetail(
    title: Option<string>,
    startDate: Option<string>,
    startTime: Option<string>,
    endDate: Option<string>,
    endTime: Option<string>,
    description: Option<string>,
    heroImage: Option<string>,
    detailTypes: seq<string>,
    raidPokemon: seq<Tier>,
    spawns: seq<Entry>,
    isOngoing: bool)

  /** What the batch has added to a listing record: nothing yet, the detail fields, or the
      `detail_error` key. */
  datatype Outcome = Unfetched | Fetched(detail: EventDetail) | Failed(error: string)

  /** One event dict: `name`, `url` and `image` from the listing page, and its outcome. */
  datatype Event = Event(name: Option<string>, url: string, image: Option<string>, outcome: Outcome)
}
