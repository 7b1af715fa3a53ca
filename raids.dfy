/** The raid-tier grouping of `scrape_event_detail` (app.py:105-131): every h2/h3/h4 whose text
    mentions "raid" (in any case), except the umbrella heading with id "raids", names a tier, and the
    named entries of the next creature list anywhere after it are appended under that tier. */
module Raids {
  import opened Wrappers
  import opened Text
  import opened Records
  import opened Document
  import Seqs

  /** The filter of app.py:106: a heading whose lower-cased text contains "raid". */
  predicate IsRaidHeading(n: Node) {
    IsHeading(n) && Contains(Lower(n.text), "raid")
  }

  /** The first position at or after `j` holding a creature list. */
  function FirstPkmnListFrom(nodes: seq<Node>, j: nat): (r: Option<nat>)
    ensures r.Some? ==> j <= r.value < |nodes| && IsPkmnList(nodes[r.value])
    ensures r.Some? ==> forall k :: j <= k < r.value ==> !IsPkmnList(nodes[k])
    ensures r.None? ==> forall k :: j <= k < |nodes| ==> !IsPkmnList(nodes[k])
    decreases |nodes| - j
  {
    if j >= |nodes| then None
    else if IsPkmnList(nodes[j]) then Some(j)
    else FirstPkmnListFrom(nodes, j + 1)
  }

  /** `hdr.find_next(...)` of app.py:117: the first creature list after the heading at `h`. The
      search runs to the end of the page; a heading in between does not stop it. */
  function NextPkmnList(nodes: seq<Node>, h: nat): (r: Option<nat>)
    ensures r.Some? ==> h < r.value < |nodes| && IsPkmnList(nodes[r.value])
    ensures r.Some? ==> forall k :: h < k < r.value ==> !IsPkmnList(nodes[k])
    ensures r.None? ==> forall k :: h < k < |nodes| ==> !IsPkmnList(nodes[k])
  {
    FirstPkmnListFrom(nodes, h + 1)
  }

  /** The tier key of app.py:112-115: the cleaned heading text with "Appearing in " made "In " and
      "- Star" made "-star". A raid heading's text is never empty, so `clean_text` gives a string. */
  function TierTitle(text: string): string
    requires text != ""
  {
    var cleaned := CleanText(Some(text)).value;
    ReplaceAll(ReplaceAll(cleaned, "Appearing in ", "In "), "- Star", "-star")
  }

  lemma RaidTextNonEmpty(n: Node)
    requires IsRaidHeading(n)
    ensures n.text != ""
  {
  }

  /** The tier key of a raid heading. */
  function TitleAt(nodes: seq<Node>, h: nat): string
    requires h < |nodes| && IsRaidHeading(nodes[h])
  {
    RaidTextNonEmpty(nodes[h]);
    TierTitle(nodes[h].text)
  }

  /** What one raid heading adds to the dict: nothing for the umbrella heading (id "raids") or when
      no creature list follows it anywhere; otherwise its tier key with the named entries of that
      list, in list order. */
  function Contribution(resolve: Resolver, nodes: seq<Node>, h: nat): (r: Option<Tier>)
    requires h < |nodes| && IsRaidHeading(nodes[h])
    ensures r.Some? <==> nodes[h].id != Some("raids") && NextPkmnList(nodes, h).Some?
    ensures r.Some? ==> r.value.title == TitleAt(nodes, h)
    ensures r.Some? ==> forall j :: 0 <= j < |r.value.entries| ==> NamedEntry(r.value.entries[j])
  {
    if nodes[h].id == Some("raids") then None
    else match NextPkmnList(nodes, h)
      case None => None
      case Some(j) => Some(Tier(TitleAt(nodes, h), NamedEntries(resolve, nodes[j].items)))
  }

  /** The heading at `h` puts the key `t` in the dict: a raid heading other than the umbrella one,
      rewriting to `t`, with a creature list somewhere after it. */
  predicate KeyedBy(nodes: seq<Node>, h: nat, t: string) {
    && h < |nodes| && IsRaidHeading(nodes[h]) && nodes[h].id != Some("raids")
    && NextPkmnList(nodes, h).Some? && TitleAt(nodes, h) == t
  }

  predicate RaidPositions(nodes: seq<Node>, hs: seq<nat>) {
    forall m :: 0 <= m < |hs| ==> hs[m] < |nodes| && IsRaidHeading(nodes[hs[m]])
  }

  /** The contribution of each raid heading at the positions `hs`, in heading order. */
  function HeadingContributions(resolve: Resolver, nodes: seq<Node>, hs: seq<nat>): (os: seq<Option<Tier>>)
    requires RaidPositions(nodes, hs)
    ensures |os| == |hs|
  {
    seq(|hs|, m requires 0 <= m < |hs| && RaidPositions(nodes, hs) => Contribution(resolve, nodes, hs[m]))
  }

  /** The contributions that are present, in order. */
  function Somes(os: seq<Option<Tier>>): seq<Tier> {
    if os == [] then []
    else Somes(os[..|os| - 1]) + match os[|os| - 1] case Some(c) => [c] case None => []
  }

  /** A contribution is kept exactly when it is present. */
  lemma {:induction false} SomesMembers(os: seq<Option<Tier>>)
    ensures forall c :: c in Somes(os) <==> Some(c) in os
  {
    if os != [] {
      var init := os[..|os| - 1];
      SomesMembers(init);
      assert os == init + [os[|os| - 1]];
    }
  }

  function Titles(tiers: seq<Tier>): seq<string> {
    seq(|tiers|, k requires 0 <= k < |tiers| => tiers[k].title)
  }

  /** Distinct keys, as in a dict. */
  predicate DistinctTitles(tiers: seq<Tier>) {
    forall k, l :: 0 <= k < l < |tiers| ==> tiers[k].title != tiers[l].title
  }

  /** `tier in raid_pokemon`: where the key sits in the dict's insertion order, if anywhere. */
  function TitleIndex(tiers: seq<Tier>, t: string): (r: Option<nat>)
    ensures r.Some? ==> r.value < |tiers| && tiers[r.value].title == t
    ensures r.None? ==> forall k :: 0 <= k < |tiers| ==> tiers[k].title != t
  {
    if tiers == [] then None
    else if tiers[|tiers| - 1].title == t then Some(|tiers| - 1)
    else TitleIndex(tiers[..|tiers| - 1], t)
  }

  /** `raid_pokemon[tier] = []` when the key is new, then the appends: the entries go at the end of
      the key's list, and a new key goes at the end of the dict. */
  function AddEntries(tiers: seq<Tier>, t: string, es: seq<Entry>): seq<Tier> {
    match TitleIndex(tiers, t)
    case Some(k) => tiers[k := Tier(t, tiers[k].entries + es)]
    case None => tiers + [Tier(t, es)]
  }

  /** The dict built from contributions taken in order. */
  function Group(cs: seq<Tier>): seq<Tier> {
    if cs == [] then []
    else AddEntries(Group(cs[..|cs| - 1]), cs[|cs| - 1].title, cs[|cs| - 1].entries)
  }

  /** `raid_pokemon` as `scrape_event_detail` returns it. */
  function RaidPokemon(resolve: Resolver, nodes: seq<Node>): seq<Tier> {
    Group(Somes(HeadingContributions(resolve, nodes, Seqs.IndicesWhere(IsRaidHeading, nodes))))
  }

  /** A reference definition of one key's list: the entries of every contribution titled `t`,
      concatenated in order. */
  function EntriesFor(cs: seq<Tier>, t: string): seq<Entry> {
    if cs == [] then []
    else EntriesFor(cs[..|cs| - 1], t) + (if cs[|cs| - 1].title == t then cs[|cs| - 1].entries else [])
  }

  /** A title no contribution carries has an empty reference list. */
  lemma {:induction false} EntriesForAbsent(cs: seq<Tier>, t: string)
    requires t !in Titles(cs)
    ensures EntriesFor(cs, t) == []
  {
    if cs != [] {
      var init := cs[..|cs| - 1];
      assert Titles(cs)[|cs| - 1] == cs[|cs| - 1].title;
      forall u | u in Titles(init) ensures u in Titles(cs) {
        var j :| 0 <= j < |init| && Titles(init)[j] == u;
        assert Titles(cs)[j] == u;
      }
      EntriesForAbsent(init, t);
    }
  }

  /** Adding entries under a key keeps the keys distinct, adds the key if it is new (at the end), and
      appends the entries to that key's list only. */
  lemma AddEntriesSpec(tiers: seq<Tier>, t: string, es: seq<Entry>)
    requires DistinctTitles(tiers)
    ensures DistinctTitles(AddEntries(tiers, t, es))
    ensures forall u :: u in Titles(AddEntries(tiers, t, es)) <==> u in Titles(tiers) || u == t
    ensures |AddEntries(tiers, t, es)| == |tiers| + (if t in Titles(tiers) then 0 else 1)
    ensures forall k :: 0 <= k < |tiers| ==>
      AddEntries(tiers, t, es)[k] == (if tiers[k].title == t then Tier(t, tiers[k].entries + es) else tiers[k])
    ensures t !in Titles(tiers) ==> AddEntries(tiers, t, es)[|tiers|] == Tier(t, es)
  {
    var r := AddEntries(tiers, t, es);
    match TitleIndex(tiers, t)
    case Some(k) =>
      assert t in Titles(tiers) by { assert Titles(tiers)[k] == t; }
      forall u ensures u in Titles(r) <==> u in Titles(tiers) || u == t {
        if u in Titles(r) { var j :| 0 <= j < |r| && Titles(r)[j] == u; assert Titles(tiers)[j] == u; }
        if u in Titles(tiers) { var j :| 0 <= j < |tiers| && Titles(tiers)[j] == u; assert Titles(r)[j] == u; }
      }
    case None =>
      assert t !in Titles(tiers);
      forall u ensures u in Titles(r) <==> u in Titles(tiers) || u == t {
        if u in Titles(r) { var j :| 0 <= j < |r| && Titles(r)[j] == u; if j < |tiers| { assert Titles(tiers)[j] == u; } }
        if u in Titles(tiers) { var j :| 0 <= j < |tiers| && Titles(tiers)[j] == u; assert Titles(r)[j] == u; }
        if u == t { assert Titles(r)[|tiers|] == u; }
      }
  }

  /** Grouping keeps the keys distinct, has a key exactly for the titles the contributions carry,
      and holds under each key the reference list for it: contributions with the same title append
      to one key, in order. */
  lemma {:induction false} GroupSpec(cs: seq<Tier>)
    ensures DistinctTitles(Group(cs))
    ensures forall t :: t in Titles(Group(cs)) <==> t in Titles(cs)
    ensures forall k :: 0 <= k < |Group(cs)| ==> Group(cs)[k].entries == EntriesFor(cs, Group(cs)[k].title)
  {
    if cs != [] {
      var init, c := cs[..|cs| - 1], cs[|cs| - 1];
      GroupSpec(init);
      var before, after := Group(init), Group(cs);
      AddEntriesSpec(before, c.title, c.entries);
      forall t ensures t in Titles(cs) <==> t in Titles(init) || t == c.title {
        if t in Titles(cs) {
          var j :| 0 <= j < |cs| && Titles(cs)[j] == t;
          if j < |init| { assert Titles(init)[j] == t; }
        }
        if t in Titles(init) { var j :| 0 <= j < |init| && Titles(init)[j] == t; assert Titles(cs)[j] == t; }
        if t == c.title { assert Titles(cs)[|cs| - 1] == t; }
      }
      forall k | 0 <= k < |after|
        ensures after[k].entries == EntriesFor(cs, after[k].title)
      {
        var u := after[k].title;
        assert EntriesFor(cs, u) == EntriesFor(init, u) + (if u == c.title then c.entries else []);
        if k >= |before| {
          assert c.title !in Titles(before) && after[k] == Tier(c.title, c.entries);
          EntriesForAbsent(init, c.title);
        }
      }
    }
  }

  /** Every entry of every tier is named. */
  predicate AllNamed(cs: seq<Tier>) {
    forall i, j :: 0 <= i < |cs| && 0 <= j < |cs[i].entries| ==> NamedEntry(cs[i].entries[j])
  }

  /** Every entry of a reference list is a named entry when every contribution's entries are. */
  lemma {:induction false} EntriesForNamed(cs: seq<Tier>, t: string)
    requires AllNamed(cs)
    ensures forall j :: 0 <= j < |EntriesFor(cs, t)| ==> NamedEntry(EntriesFor(cs, t)[j])
  {
    if cs != [] {
      EntriesForNamed(cs[..|cs| - 1], t);
    }
  }

  /** Every key comes from some raid heading. */
  lemma RaidKeySource(resolve: Resolver, nodes: seq<Node>, t: string)
    requires t in Titles(Somes(HeadingContributions(resolve, nodes, Seqs.IndicesWhere(IsRaidHeading, nodes))))
    ensures exists h :: KeyedBy(nodes, h, t)
  {
    var hs := Seqs.IndicesWhere(IsRaidHeading, nodes);
    var os := HeadingContributions(resolve, nodes, hs);
    var cs := Somes(os);
    SomesMembers(os);
    var j :| 0 <= j < |cs| && Titles(cs)[j] == t;
    assert cs[j] in cs;
    var m :| 0 <= m < |os| && os[m] == Some(cs[j]);
    assert Contribution(resolve, nodes, hs[m]) == Some(cs[j]);
    assert KeyedBy(nodes, hs[m], t);
  }

  /** Every raid heading other than the umbrella one that has a creature list after it gives a key. */
  lemma RaidKeyPresent(resolve: Resolver, nodes: seq<Node>, h: nat, t: string)
    requires KeyedBy(nodes, h, t)
    ensures t in Titles(Somes(HeadingContributions(resolve, nodes, Seqs.IndicesWhere(IsRaidHeading, nodes))))
  {
    var hs := Seqs.IndicesWhere(IsRaidHeading, nodes);
    var os := HeadingContributions(resolve, nodes, hs);
    var cs := Somes(os);
    SomesMembers(os);
    assert h in hs;
    var m :| 0 <= m < |hs| && hs[m] == h;
    var c := Contribution(resolve, nodes, h).value;
    assert c.title == t;
    assert os[m] == Some(c);
    assert c in cs;
    var j :| 0 <= j < |cs| && cs[j] == c;
    assert Titles(cs)[j] == t;
  }

  /** `raid_pokemon`: distinct keys; a key for a title exactly when some raid heading other than
      the umbrella one rewrites to it and has a creature list anywhere after it; and under each
      key, the named entries of every such heading's list, in heading order and list order. */
  lemma RaidPokemonSpec(resolve: Resolver, nodes: seq<Node>)
    ensures DistinctTitles(RaidPokemon(resolve, nodes))
    ensures forall t :: t in Titles(RaidPokemon(resolve, nodes)) <==>
      exists h :: KeyedBy(nodes, h, t)
    ensures forall k :: 0 <= k < |RaidPokemon(resolve, nodes)| ==>
      var tier := RaidPokemon(resolve, nodes)[k];
      && tier.entries == EntriesFor(Somes(HeadingContributions(resolve, nodes, Seqs.IndicesWhere(IsRaidHeading, nodes))), tier.title)
      && forall j :: 0 <= j < |tier.entries| ==> NamedEntry(tier.entries[j])
  {
    var cs := Somes(HeadingContributions(resolve, nodes, Seqs.IndicesWhere(IsRaidHeading, nodes)));
    GroupSpec(cs);
    RaidKeys(resolve, nodes);
    ContributionsNamed(resolve, nodes);
    forall k | 0 <= k < |Group(cs)|
      ensures forall j :: 0 <= j < |Group(cs)[k].entries| ==> NamedEntry(Group(cs)[k].entries[j])
    {
      EntriesForNamed(cs, Group(cs)[k].title);
    }
  }

  lemma RaidKeys(resolve: Resolver, nodes: seq<Node>)
    ensures forall t :: t in Titles(Somes(HeadingContributions(resolve, nodes, Seqs.IndicesWhere(IsRaidHeading, nodes)))) <==>
      exists h :: KeyedBy(nodes, h, t)
  {
    var cs := Somes(HeadingContributions(resolve, nodes, Seqs.IndicesWhere(IsRaidHeading, nodes)));
    forall t ensures t in Titles(cs) <==> (exists h :: KeyedBy(nodes, h, t))
    {
      if t in Titles(cs) {
        RaidKeySource(resolve, nodes, t);
      }
      if exists h :: KeyedBy(nodes, h, t) {
        var h :| KeyedBy(nodes, h, t);
        RaidKeyPresent(resolve, nodes, h, t);
      }
    }
  }

  lemma ContributionsNamed(resolve: Resolver, nodes: seq<Node>)
    ensures AllNamed(Somes(HeadingContributions(resolve, nodes, Seqs.IndicesWhere(IsRaidHeading, nodes))))
  {
    var hs := Seqs.IndicesWhere(IsRaidHeading, nodes);
    var os := HeadingContributions(resolve, nodes, hs);
    var cs := Somes(os);
    SomesMembers(os);
    forall i, j | 0 <= i < |cs| && 0 <= j < |cs[i].entries| ensures NamedEntry(cs[i].entries[j]) {
      assert cs[i] in cs;
      var m :| 0 <= m < |os| && os[m] == Some(cs[i]);
      assert Contribution(resolve, nodes, hs[m]) == Some(cs[i]);
    }
  }

  /** One more heading handled: the dict grows by that heading's contribution, if any. */
  lemma GroupStep(os: seq<Option<Tier>>, m: nat)
    requires m < |os|
    ensures Group(Somes(os[..m + 1])) ==
      match os[m]
      case Some(c) => AddEntries(Group(Somes(os[..m])), c.title, c.entries)
      case None => Group(Somes(os[..m]))
  {
    assert os[..m + 1][..m] == os[..m] && os[..m + 1][m] == os[m];
    var cs := Somes(os[..m]);
    match os[m]
    case Some(c) =>
      assert Somes(os[..m + 1]) == cs + [c];
      assert (cs + [c])[..|cs|] == cs;
    case None =>
      assert Somes(os[..m + 1]) == cs;
  }

  /** app.py:121-131 for one heading: create the key `tier` if it is new, then append each list
      item with a non-empty cleaned name to that key's list. */
  method AddUnderKey(resolve: Resolver, raidPokemon: seq<Tier>, tier: string, items: seq<Item>) returns (r: seq<Tier>)
    ensures r == AddEntries(raidPokemon, tier, NamedEntries(resolve, items))
  {
    r := raidPokemon;
    var k := TitleIndex(r, tier);
    if k.None? {
      r := r + [Tier(tier, [])];
      k := Some(|r| - 1);
    }
    var appended := AppendNamedEntries(resolve, r[k.value].entries, items);
    r := r[k.value := Tier(tier, appended)];
    if TitleIndex(raidPokemon, tier).None? {
      assert [] + NamedEntries(resolve, items) == NamedEntries(resolve, items);
      assert r == raidPokemon + [Tier(tier, NamedEntries(resolve, items))];
    }
  }

  /** The loop of app.py:108-131: for each raid heading, skip the umbrella heading, compute the
      tier key, find the next creature list (skip the heading when there is none), and add the named
      items of that list under the key. */
  method GroupRaidTiers(resolve: Resolver, nodes: seq<Node>) returns (raidPokemon: seq<Tier>)
    ensures raidPokemon == RaidPokemon(resolve, nodes)
    ensures DistinctTitles(raidPokemon)
  {
    raidPokemon := [];
    var raidHeaders := Seqs.IndicesWhere(IsRaidHeading, nodes);
    ghost var os := HeadingContributions(resolve, nodes, raidHeaders);
    for m := 0 to |raidHeaders|
      invariant raidPokemon == Group(Somes(os[..m]))
    {
      GroupStep(os, m);
      var h := raidHeaders[m];
      assert os[m] == Contribution(resolve, nodes, h);
      if nodes[h].id == Some("raids") {
        assert os[m].None?;
        continue;
      }
      var tier := TitleAt(nodes, h);
      var raidList := NextPkmnList(nodes, h);
      if raidList.None? {
        assert os[m].None?;
        continue;
      }
      assert os[m] == Some(Tier(tier, NamedEntries(resolve, nodes[raidList.value].items)));
      raidPokemon := AddUnderKey(resolve, raidPokemon, tier, nodes[raidList.value].items);
    }
    assert os[..|os|] == os;
    RaidPokemonSpec(resolve, nodes);
  }

  /** The list a raid heading takes is the first creature list after it, whatever lies in between:
      other headings, raid headings included, do not end the search. */
  lemma {:induction false} ContributionTakesFirstList(resolve: Resolver, nodes: seq<Node>, h: nat, j: nat)
    requires h < j < |nodes| && IsRaidHeading(nodes[h]) && nodes[h].id != Some("raids")
    requires IsPkmnList(nodes[j]) && forall k :: h < k < j ==> !IsPkmnList(nodes[k])
    ensures Contribution(resolve, nodes, h) == Some(Tier(TitleAt(nodes, h), NamedEntries(resolve, nodes[j].items)))
  {
    var r := NextPkmnList(nodes, h);
    assert r.Some? && r.value <= j;
    assert !(r.value < j);
  }

  /** Two raid headings with no creature list between them take the same list: each tier they name
      receives the same entries. */
  lemma SharedList(resolve: Resolver, nodes: seq<Node>, h1: nat, h2: nat, j: nat)
    requires h1 < h2 < j < |nodes| && IsRaidHeading(nodes[h1]) && IsRaidHeading(nodes[h2])
    requires nodes[h1].id != Some("raids") && nodes[h2].id != Some("raids")
    requires IsPkmnList(nodes[j]) && forall k :: h1 < k < j ==> !IsPkmnList(nodes[k])
    ensures Contribution(resolve, nodes, h1).Some? && Contribution(resolve, nodes, h2).Some?
    ensures Contribution(resolve, nodes, h1).value.entries == Contribution(resolve, nodes, h2).value.entries
  {
    ContributionTakesFirstList(resolve, nodes, h1, j);
    ContributionTakesFirstList(resolve, nodes, h2, j);
  }

  /** The rewrite of app.py:113-115 on headings shaped like the example in its comment: a cleaned
      heading "Appearing in <tier>- Star<rest>", with no 'A' or '-' in `tier` and `rest`, gives the
      key "In <tier>-star<rest>" ("Appearing in 1- Star Raids" becomes "In 1-star Raids"). */
  lemma TierTitleRewrite(text: string, tier: string, rest: string)
    requires text != ""
    requires CleanText(Some(text)) == Some("Appearing in " + tier + "- Star" + rest)
    requires Avoids(tier, 'A') && Avoids(tier, '-') && Avoids(rest, 'A') && Avoids(rest, '-')
    ensures TierTitle(text) == "In " + tier + "-star" + rest
  {
    var tail := tier + "- Star" + rest;
    AppearingRewrite(tier, rest);
    var head := "In " + tier;
    assert Avoids("In ", '-');
    AvoidsConcat("In ", tier, '-');
    assert "In " + tail == head + "- Star" + rest;
    ReplaceOnce(head, rest, "- Star", "-star");
  }

  lemma AppearingRewrite(tier: string, rest: string)
    requires Avoids(tier, 'A') && Avoids(rest, 'A')
    ensures ReplaceAll("Appearing in " + tier + "- Star" + rest, "Appearing in ", "In ") == "In " + (tier + "- Star" + rest)
  {
    var tail := tier + "- Star" + rest;
    assert Avoids("- Star", 'A');
    AvoidsConcat(tier, "- Star", 'A');
    AvoidsConcat(tier + "- Star", rest, 'A');
    ReplaceAllHit(tail, "Appearing in ", "In ");
    ReplaceAllCopies(tail, [], "Appearing in ", "In ");
    assert tail + [] == tail;
    assert "Appearing in " + tier + "- Star" + rest == "Appearing in " + tail;
  }
}
