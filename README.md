# Pokémon GO event scraper: a verified model of its core

The scraper reads the Leek Duck events listing and then each event's page. From every page it builds one JSON record holding:

- the title, the dates and times, and a description;
- a hero image and the tag list;
- the raid bosses grouped by tier, and a flat list of wild spawns;
- an "ongoing" flag.

A small web app then shows these records: ongoing events first, with one page for events that have raids and one for events that have spawns. It also serves single records by index.

This project models that core in Dafny and proves what it promises:

- **The text normaliser `clean_text`** (`Text`): its output shape, its words, its fixed points and its idempotence.
- **The date logic** (`EventDates`):
  - `strptime("%A %B %d %Y")` as the scraper uses it, including a round trip through the site's date format;
  - the ongoing test `start <= now <= end + 1 day`, on a day-number scale and in calendar terms;
  - the overflow at 9999-12-31.
- **The page abstraction** (`Document`): a page is the document-order sequence of its elements, so `find_next` and `find_all_next` become scans over a suffix. `urljoin` is an opaque `resolve(base, ref)` parameter, guarded by urljoin's own rule for an empty reference. The shared `li` loop lives here too.
- **The listing extractor** (`Listing`): one record per link, in order.
- **The raid-tier grouping** (`Raids`): the dict is a sequence of tiers in insertion order. A reference definition gives each key's list, and a loop is proved equal to it.
- **The spawn scan** (`Spawns`): a `break`-terminated forward scan per heading, proved against a section function.
- **The detail record** (`Detail`) and **the batch merge** (`Batch`): the HTTP fetch is an abstract `Downloader` returning a page or an error text, and the clock is a parameter.
- **The web views** (`Views`):
  - a stable ongoing-first sort, done in place on an array;
  - the raid and spawn filters;
  - the bounds-checked lookup.

`Wrappers` holds `Option` and `Result`. `Seqs` holds the filtered comprehension `[x for x in s if p(x)]` and its lemmas. `Records` holds the JSON records.

## Model

| member | source | states |
|---|---|---|
| Text.CleanText | app.py:17-23 | `None` exactly for a missing or empty input. Otherwise a string with no U+FFFD, no leading or trailing whitespace, and whitespace only as single ' ' between two non-space characters. |
| Text.CleanTextWords | app.py:22-23 | The result is the whitespace-split words (after U+00A0/U+FFFD become spaces) joined by single spaces, and splitting it gives those same words back. |
| Text.CleanTextBlank | app.py:19-23 | A non-empty input normalises to `""`, rather than `None`, exactly when every character is whitespace or U+FFFD. |
| Text.CleanTextIdempotent | app.py:17-23 | Re-applying `clean_text` to a non-empty result changes nothing. |
| Text.CleanTextFixed | app.py:22-23 | Every non-empty canonical string without U+FFFD is returned unchanged, so the outputs and the fixed points of `clean_text` coincide. |
| Text.SplitJoin | app.py:23 | `split()` undoes `" ".join` on whitespace-free words. |
| Text.JoinSplitCanonical | app.py:23 | A canonical string is the `" ".join` of its own `split()`. |
| Text.JoinCanonical | app.py:23 | Joining words with single spaces gives the canonical shape and adds no character other than ' '. |
| Text.Lower | app.py:106 | The ASCII-only lowering keeps the length of the string. |
| Text.ReplaceAllCopies | app.py:114-115 | A stretch with no character that can start the pattern is copied unchanged. |
| Text.ReplaceOnce | app.py:114-115 | A string with a single possible occurrence has exactly that occurrence replaced. |
| EventDates.MonthNumber | app.py:35 | `%B` gives a month from 1 to 12, or no match. |
| EventDates.ParseDay | app.py:35 | `%d` gives a day from 1 to 31, or no match. |
| EventDates.ParseYear | app.py:35 | `%Y` gives four digits worth 0 to 9999, or no match. |
| EventDates.ParseEventDate | app.py:26-38 | `None` for a missing or empty date string. Any parsed date is a real calendar date; year 0 and days past the month's end give `None`, never an exception. |
| EventDates.ParseIgnoresTime | app.py:26-38 | The time string has no effect on the result. |
| EventDates.ParseFormatted | app.py:32-36 | A date printed as "Weekday, Month D, YYYY," parses back to that date, whichever weekday is printed and whatever the time string says. |
| EventDates.OrdinalOrder | app.py:52 | Python's field-by-field date comparison is the order of day numbers. |
| EventDates.NextDayOrdinal | app.py:51 | `+ timedelta(days=1)` gives a valid date one day number later, except on the last date. |
| EventDates.TicksOrder | app.py:52 | Comparing datetimes is comparing their microsecond counts. |
| EventDates.IsEventOngoing | app.py:41-54 | `Ok(false)` when either bound does not parse. The only error is the overflow message. |
| EventDates.OngoingByDayNumber | app.py:45-54 | With both bounds parsed, the result is `start*day <= now <= (end+1)*day` on the microsecond scale, or the overflow error exactly when the end is 9999-12-31. |
| EventDates.OngoingByCalendar | app.py:48-52 | The event is ongoing from the start day through the whole end day, plus the midnight instant after it. |
| Document.ImageUrl | app.py:76 | An image URL is present exactly when the `src` is present and non-empty, and is then `urljoin(BASE_URL, src)`. |
| Document.ItemEntry | app.py:124-131 | One `li` gives an entry exactly when its cleaned name is non-empty. The entry holds that cleaned name and `urljoin(BASE_URL, src)` for a non-empty image `src`, or no image otherwise. |
| Document.NamedEntries | app.py:146-154 | A list gives one entry per item with a non-empty cleaned name, in list order, and nothing else: the k-th entry is the entry of the k-th such item. |
| Document.AppendNamedEntries | app.py:124-131 | The `li` loop appends exactly the named entries of the list, in list order, to what was there. |
| Listing.ScrapeEvents | app.py:57-81 | One record per `.event-item-link`, in order, with nothing skipped or merged. `url` is the resolved `href`, or the base URL for a missing or empty one. `image` is present exactly for a non-empty `img` `src`. |
| Raids.NextPkmnList | app.py:117-119 | The result is the first creature list after the heading, if there is one. No creature list lies between the heading and it, and none follows the heading when the result is absent. |
| Raids.Contribution | app.py:108-131 | A heading contributes exactly when it is not the `id="raids"` heading and some creature list follows it. The key is the rewritten heading text, and every entry is named. |
| Raids.TitleIndex | app.py:121 | `tier in raid_pokemon`: a position holding that key, or the key is absent. |
| Raids.AddEntriesSpec | app.py:121-131 | Adding entries keeps keys distinct. It adds a new key at the end, or appends to the existing key's list and leaves the other keys alone. |
| Raids.GroupSpec | app.py:105-131 | Grouping keeps keys distinct and has a key exactly for each contributed title. Each key's list is all entries contributed under that title, concatenated in heading order, so same-titled headings share one key. |
| Raids.EntriesForNamed | app.py:130-131 | A key's list holds named entries only. |
| Raids.RaidKeySource | app.py:106-122 | Every key comes from a non-umbrella raid heading that has a creature list after it. |
| Raids.RaidKeyPresent | app.py:106-122 | Every such heading gives its key. |
| Raids.RaidPokemonSpec | app.py:105-131 | `raid_pokemon` has distinct keys. A title is a key iff a qualifying heading rewrites to it. Each key's list is the reference concatenation, and all its entries are named. |
| Raids.AddUnderKey | app.py:121-131 | Creating the key when it is missing and then running the `li` loop gives exactly the reference update of the dict under that key. |
| Raids.RaidKeys | app.py:106-122 | A title is a key of the dict iff some qualifying raid heading rewrites to it. |
| Raids.ContributionsNamed | app.py:124-131 | Every entry contributed under any heading has a non-empty normalised name. |
| Raids.GroupRaidTiers | app.py:105-131 | The nested loops with their two `continue`s build exactly `RaidPokemon`, with distinct keys. |
| Raids.ContributionTakesFirstList | app.py:117-119 | A raid heading takes the first creature list after it, whatever headings lie between. |
| Raids.SharedList | app.py:117 | Two raid headings with no creature list between them both take the entries of the same list. |
| Raids.TierTitleRewrite | app.py:112-115 | A heading that cleans to "Appearing in <tier>- Star<rest>" gets the key "In <tier>-star<rest>" ("Appearing in 1- Star Raids" becomes "In 1-star Raids"). This holds when `tier` and `rest` contain no 'A' and no '-'. |
| Raids.AppearingRewrite | app.py:114 | The first `replace` turns the leading "Appearing in " into "In " and leaves the rest of the heading alone. |
| Spawns.SectionEnd | app.py:140-143 | The scan from a heading stops at the first h2/h3/h4 after it that is not equal to it (equal meaning same name, attributes and contents), or at the page's end. |
| Spawns.SectionStopsAtHeading | app.py:140-143 | What a spawn heading collects depends only on the elements up to where its scan stops. Lists after that point are never attached to it. |
| Spawns.RepeatedHeadingShares | app.py:140-143 | A later copy of the spawn heading inside its section does not stop the scan, so the lists after the copy are collected for both headings. |
| Spawns.SpawnsAfterConcat | app.py:139-154 | The entries of several spawn headings are concatenated in heading order. |
| Spawns.SpawnsAfterNamed | app.py:153-154 | Every spawn entry has a non-empty normalised name. |
| Spawns.ScanSection | app.py:140-154 | The `break`-terminated inner scan, which passes over copies of its own heading, collects exactly the section's named entries, in document order. |
| Spawns.CollectSpawns | app.py:133-154 | The nested loops build exactly the spawn list, and every entry in it is named. |
| Detail.DetailTypes | app.py:102-103 | The kept tags are the cleaned texts of the tags that clean to a non-empty string, in tag order, and nothing else. Each is non-empty and normalised. |
| Detail.DetailTypesKeepsAll | app.py:102-103 | Every tag that cleans to a non-empty string is kept. |
| Detail.DetailTypesIdempotent | app.py:102-103 | Filtering the kept tags again changes nothing. |
| Detail.Description | app.py:96-97 | A present description is normalised. |
| Detail.JoinEmpty | app.py:97 | `" ".join` is empty only for no parts or a single empty part. |
| Detail.DescriptionAbsent | app.py:96-97 | The description is `None` exactly for no paragraphs or one empty paragraph. Two or more blank paragraphs give `""`. |
| Detail.EventDetailOf | app.py:84-168 | The detail fails exactly when both dates parse and the end is 9999-12-31, and then only with the overflow message. Otherwise its raid keys are distinct, every spawn entry has a non-empty normalised name, every tag is a non-empty string, and the hero image is present exactly for a non-empty `src`. |
| Detail.ScrapeEventDetail | app.py:84-168 | The imperative extraction, built with the raid and spawn loops, equals `EventDetailOf`. |
| Batch.DetailResult | app.py:176 | `scrape_event_detail` fails exactly when the fetch fails or the page's end date overflows. A fetch error keeps its text, and any other error is the overflow message. A fetched page's hero image follows the `src` rule. |
| Batch.WithDetail | app.py:175-181 | `url` and `image` are untouched. On success the detail fields are added, and `name` falls back to the title only when falsy. On failure only `detail_error` is added. |
| Batch.MergedName | app.py:177-179 | A listing name that is present survives. A missing or empty one becomes the page title. A failed event keeps its listing name. |
| Batch.ScrapeEventsWithDetails | app.py:171-183 | Same length and order as the listing. Each record is its own stub merged with its own fetch result, and it fails exactly when its own fetch or detail fails, so one failure does not stop the rest. |
| Seqs.FilterMembers | flask_app.py:31 | The comprehension keeps exactly the elements that satisfy its condition. |
| Seqs.FilterSplit | flask_app.py:22 | Splitting a list by a condition and by its negation loses and duplicates nothing. |
| Views.OngoingFirstPermutation | flask_app.py:22 | The ongoing-first ordering is a permutation of its input. |
| Views.OngoingFirstOrdered | flask_app.py:22 | Every ongoing event comes before every other event. A record without `is_ongoing` counts as not ongoing. |
| Views.OngoingFirstStable | flask_app.py:22 | Within each group the relative order is kept, as Python's stable sort keeps it. |
| Views.OrderedIsSplit | flask_app.py:22 | A list with its ongoing events first is its ongoing events followed by the rest. |
| Views.OngoingFirstUnique | flask_app.py:22 | Any list that puts ongoing events first and keeps each group's order equals the ordering, so the sort result is determined. |
| Views.GatherOngoingFirst | flask_app.py:22 | One pass gathers the ongoing events and then the rest. |
| Views.SortOngoingFirst | flask_app.py:22 | The in-place sort leaves the array in ongoing-first order of its old contents. |
| Views.SortedView | flask_app.py:22 | A copied and sorted list is the ongoing-first ordering. |
| Views.Index | flask_app.py:17-23 | `index` shows every event once, ongoing ones first, each group in its original order. |
| Views.FilteredView | flask_app.py:31-33 | Filtering and then sorting keeps exactly the matching events, each once, ongoing first and stable. |
| Views.RaidsView | flask_app.py:26-34 | `raids` shows exactly the events with a non-empty `raid_pokemon`, ongoing first. |
| Views.SpawnsView | flask_app.py:37-45 | `spawns` shows exactly the events with a non-empty `spawns`, ongoing first. |
| Views.EventAt | flask_app.py:55-61 | The event is returned iff `0 <= index < len(events)`. Otherwise the result is `{"error": "Event not found"}` with status 404. |

## Left out

- HTTP fetching (`requests.get`, `raise_for_status`, timeouts). It is the `Downloader` parameter of the batch, and the listing extractor takes the parsed links directly.
- BeautifulSoup parsing and CSS selector matching. Tag equality (`node != spawn_header`) is comparison of an abstract `markup` field that stands for a tag's name, attributes and contents. The model starts from what the selectors yield: `ListingLink`, `DetailPage` and the element sequence.
- The internals of `urljoin` (section 5.2 of RFC 3986). It is an opaque `resolve(base, ref)`; only its empty-reference rule is modelled.
- `datetime.now()`. The instant is a parameter, and the batch reads one instant per event from `clock`.
- File output (`save_events_to_json`), `save_metadata` and its timestamp formatting, and `load_events`. The views take the event list as an input.
- `api_events` (flask_app.py:48-52), which returns the loaded list unchanged.
- Flask routing, `render_template`, `jsonify`, the `__main__` blocks, the browser script and the service worker.
- Text.Lower: only ASCII letters are lowered. Python's `lower()` also folds other letters and can change the length (`"İ".lower()` has two characters), which could matter to the "raid"/"spawn" tests only for headings with such letters.
- EventDates.ParseEventDate: month and weekday names are matched with ASCII-only case folding. Digits are ASCII only, whereas the `\d` of Python's `strptime` also accepts other Unicode decimal digits.
- Text.IsSpace: this is Python's `str.isspace` set. `strptime`'s `\s+` is taken to accept the same characters.
- Facts about the code that a reader might expect otherwise; the model follows the code:
  - the listing is not deduplicated;
  - links without an `href` are kept, with the base URL;
  - a raid heading needs only "raid" in its text;
  - the search for a raid list does not stop at the next heading;
  - the spawn scan always runs, with no fallback rule;
  - there is no section classifier and no refresh cache.
- Exceptions inside `scrape_event_detail` other than the fetch error and the date overflow. The guards (`if hero_img and ...`, `if name_tag`) rule out the missing-element errors, but `urljoin` raises `ValueError` ("Invalid IPv6 URL") for a reference such as `"//[x"`. At app.py:100, 128 or 151 that error fails the whole detail, which app.py:180 catches; at app.py:75-76 it aborts `scrape_events` outright. `resolve` is a total function, so the model never fails there.
