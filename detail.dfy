/** The detail extractor `scrape_event_detail` (app.py:84-168), after the HTTP fetch: the fixed
    fields, the description, the hero image, the tag list, the raid tiers, the spawn list and the
    ongoing flag of one event page. */
module Detail {
  import opened Wrappers
  import opened Text
  import opened Records
  import opened Document
  import opened EventDates
  import opened Raids
  import opened Spawns
  import Seqs

  /** A tag the filter keeps: its cleaned text is present and non-empty. */
  predicate KeptTag(tag: string) {
    Truthy(CleanText(Some(tag)))
  }

  /** The tag comprehension and its filter (app.py:102-103): every tag text is normalised, and the
      results that are `None` or empty are dropped. What remains is the cleaned text of every kept
      tag, in tag order, and nothing else. */
  function DetailTypes(tags: seq<string>): (r: seq<string>)
    ensures |r| == |Seqs.IndicesWhere(KeptTag, tags)| <= |tags|
    ensures forall k :: 0 <= k < |r| ==> Some(r[k]) == CleanText(Some(tags[Seqs.IndicesWhere(KeptTag, tags)[k]]))
    ensures forall k :: 0 <= k < |r| ==> r[k] != "" && Canonical(r[k])
  {
    if tags == [] then []
    else
      var init, t := tags[..|tags| - 1], CleanText(Some(tags[|tags| - 1]));
      var kept := Seqs.IndicesWhere(KeptTag, init);
      assert forall i :: 0 <= i < |init| ==> init[i] == tags[i];
      assert Seqs.IndicesWhere(KeptTag, tags) == kept + (if Truthy(t) then [|tags| - 1] else []);
      DetailTypes(init) + (if Truthy(t) then [t.value] else [])
  }

  /** No tag that cleans to a non-empty string is dropped. */
  lemma DetailTypesKeepsAll(tags: seq<string>)
    ensures forall i :: 0 <= i < |tags| && KeptTag(tags[i]) ==> CleanText(Some(tags[i])).value in DetailTypes(tags)
  {
    var r, kept := DetailTypes(tags), Seqs.IndicesWhere(KeptTag, tags);
    forall i | 0 <= i < |tags| && KeptTag(tags[i])
      ensures CleanText(Some(tags[i])).value in r
    {
      var k :| 0 <= k < |kept| && kept[k] == i;
      assert Some(r[k]) == CleanText(Some(tags[i]));
    }
  }

  /** Running the tag filter again over its own output changes nothing: every kept tag is already
      normalised and non-empty. */
  lemma {:induction false} DetailTypesIdempotent(tags: seq<string>)
    ensures DetailTypes(DetailTypes(tags)) == DetailTypes(tags)
  {
    if tags != [] {
      var init, t := tags[..|tags| - 1], CleanText(Some(tags[|tags| - 1]));
      var r := DetailTypes(tags);
      DetailTypesIdempotent(init);
      if Truthy(t) {
        CleanTextIdempotent(Some(tags[|tags| - 1]));
        assert r[..|r| - 1] == DetailTypes(init);
      } else {
        assert r == DetailTypes(init);
      }
    }
  }

  /** `clean_text(" ".join(description_parts)) if description_parts else None` (app.py:96-97). */
  function Description(parts: seq<string>): (r: Option<string>)
    ensures r.Some? ==> Canonical(r.value) && NoReplacementChar(r.value)
  {
    if parts == [] then None else CleanText(Some(Join(parts)))
  }

  /** `" ".join` gives the empty string only for no pieces or one empty piece: two pieces always
      contribute the separating space. */
  lemma JoinEmpty(parts: seq<string>)
    ensures Join(parts) == "" <==> parts == [] || (|parts| == 1 && parts[0] == "")
  {
    if |parts| > 1 {
      assert Join(parts) == parts[0] + " " + Join(parts[1..]);
    }
  }

  /** The description is absent when the page has no description paragraphs or a single empty one;
      several empty or blank paragraphs give the empty string instead. */
  lemma DescriptionAbsent(parts: seq<string>)
    ensures Description(parts).None? <==> parts == [] || (|parts| == 1 && parts[0] == "")
    ensures |parts| >= 2 && (forall i :: 0 <= i < |parts| ==> forall j :: 0 <= j < |parts[i]| ==> IsSpace(parts[i][j]))
      ==> Description(parts) == Some("")
  {
    JoinEmpty(parts);
    if |parts| >= 2 && (forall i :: 0 <= i < |parts| ==> forall j :: 0 <= j < |parts[i]| ==> IsSpace(parts[i][j])) {
      AllSpaceJoin(parts);
      CleanTextBlank(Join(parts));
    }
  }

  lemma {:induction false} AllSpaceJoin(parts: seq<string>)
    requires forall i :: 0 <= i < |parts| ==> forall j :: 0 <= j < |parts[i]| ==> IsSpace(parts[i][j])
    ensures forall j :: 0 <= j < |Join(parts)| ==> IsSpace(Join(parts)[j])
  {
    if |parts| > 1 {
      AllSpaceJoin(parts[1..]);
      var rest := Join(parts[1..]);
      assert Join(parts) == parts[0] + " " + rest;
      forall j | 0 <= j < |Join(parts)|
        ensures IsSpace(Join(parts)[j])
      {
        if j < |parts[0]| {
          assert Join(parts)[j] == parts[0][j];
        } else if j > |parts[0]| {
          assert Join(parts)[j] == rest[j - |parts[0]| - 1];
        }
      }
    }
  }

  /** The case in which `is_event_ongoing` raises: both cleaned dates parse and the end date is
      the last date `datetime` can hold, so adding a day overflows. */
  predicate Overflows(page: DetailPage) {
    && ParseEventDate(CleanText(page.dateStart), CleanText(page.timeStart)).Some?
    && ParseEventDate(CleanText(page.dateEnd), CleanText(page.timeEnd)).Some?
    && IsMaxDate(ParseEventDate(CleanText(page.dateEnd), CleanText(page.timeEnd)).value)
  }

  /** The record `scrape_event_detail` returns for a page read at instant `now`, or the exception
      that escapes it. The date fields go through `clean_text` before the ongoing check sees them. */
  function EventDetailOf(resolve: Resolver, page: DetailPage, now: DateTime): (r: Result<EventDetail, string>)
    ensures r.Err? <==> Overflows(page)
    ensures r.Err? ==> r.error == OverflowMessage
    ensures r.Ok? ==>
      && DistinctTitles(r.value.raidPokemon)
      && (forall k :: 0 <= k < |r.value.spawns| ==> NamedEntry(r.value.spawns[k]))
      && (forall k :: 0 <= k < |r.value.detailTypes| ==> r.value.detailTypes[k] != "")
      && (r.value.heroImage.Some? <==> Truthy(page.heroSrc))
  {
    var startDate, startTime := CleanText(page.dateStart), CleanText(page.timeStart);
    var endDate, endTime := CleanText(page.dateEnd), CleanText(page.timeEnd);
    var ongoing := IsEventOngoing(startDate, startTime, endDate, endTime, now);
    if ongoing.Err? then Err(ongoing.error)
    else
      RaidPokemonSpec(resolve, page.nodes);
      SpawnsAfterNamed(resolve, page.nodes, Seqs.IndicesWhere(IsSpawnHeading, page.nodes));
      Ok(EventDetail(
        CleanText(page.pageTitle), startDate, startTime, endDate, endTime,
        Description(page.descriptionParts),
        ImageUrl(resolve, page.heroSrc),
        DetailTypes(page.tags),
        RaidPokemon(resolve, page.nodes),
        SpawnEntries(resolve, page.nodes),
        ongoing.value))
  }

  /** `scrape_event_detail` on a fetched page: the raid dict and the spawn list are built by their
      loops, the other fields by their expressions. */
  method ScrapeEventDetail(resolve: Resolver, page: DetailPage, now: DateTime) returns (r: Result<EventDetail, string>)
    ensures r == EventDetailOf(resolve, page, now)
  {
    var title := CleanText(page.pageTitle);
    var startDate := CleanText(page.dateStart);
    var startTime := CleanText(page.timeStart);
    var endDate := CleanText(page.dateEnd);
    var endTime := CleanText(page.timeEnd);
    var description := Description(page.descriptionParts);
    var heroImage := ImageUrl(resolve, page.heroSrc);
    var detailTypes := DetailTypes(page.tags);
    var raidPokemon := GroupRaidTiers(resolve, page.nodes);
    var spawns := CollectSpawns(resolve, page.nodes);
    var isOngoing := IsEventOngoing(startDate, startTime, endDate, endTime, now);
    if isOngoing.Err? {
      return Err(isOngoing.error);
    }
    r := Ok(EventDetail(title, startDate, startTime, endDate, endTime, description, heroImage,
                        detailTypes, raidPokemon, spawns, isOngoing.value));
  }
}
