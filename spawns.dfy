/** The spawn aggregation of `scrape_event_detail` (app.py:133-154): for every h2/h3/h4 whose text
    mentions "spawn" or "wild encounter" (in any case), the elements after it are scanned up to the
    next h2/h3/h4 that is not equal to it, and the named entries of every creature list met on the
    way are appended to one flat list. */
module Spawns {
  import opened Wrappers
  import opened Text
  import opened Records
  import opened Document
  import Seqs

  /** The filter of app.py:135-137. */
  predicate IsSpawnHeading(n: Node) {
    IsHeading(n) && (Contains(Lower(n.text), "spawn") || Contains(Lower(n.text), "wild encounter"))
  }

  /** The stop test of app.py:142 for the scan that started at `start`: an h2/h3/h4 that is not
      equal to `start`. Tag equality is structural, so a later heading with the same name,
      attributes and contents as `start` does not stop the scan. */
  predicate StopsScan(start: Node, n: Node) {
    IsHeading(n) && !SameTag(n, start)
  }

  /** The first element at or after `j` that stops the scan from `start`, or the end of the page. */
  function StopFrom(nodes: seq<Node>, start: Node, j: nat): (e: nat)
    requires j <= |nodes|
    ensures j <= e <= |nodes|
    ensures forall k :: j <= k < e ==> !StopsScan(start, nodes[k])
    ensures e < |nodes| ==> StopsScan(start, nodes[e])
    decreases |nodes| - j
  {
    if j == |nodes| || StopsScan(start, nodes[j]) then j else StopFrom(nodes, start, j + 1)
  }

  /** Where the scan from the heading at `h` stops: the next heading after it that is not equal to
      it, or the end of the page. */
  function SectionEnd(nodes: seq<Node>, h: nat): (e: nat)
    requires h < |nodes|
    ensures h < e <= |nodes|
    ensures forall k :: h < k < e ==> !IsHeading(nodes[k]) || SameTag(nodes[k], nodes[h])
    ensures e < |nodes| ==> IsHeading(nodes[e]) && !SameTag(nodes[e], nodes[h])
  {
    StopFrom(nodes, nodes[h], h + 1)
  }

  /** The named entries of the creature lists among the elements at positions `lo` to `hi - 1`,
      in document order. */
  function ListEntries(resolve: Resolver, nodes: seq<Node>, lo: nat, hi: nat): seq<Entry>
    requires lo <= hi <= |nodes|
    decreases hi
  {
    if lo == hi then []
    else
      ListEntries(resolve, nodes, lo, hi - 1)
        + (if IsPkmnList(nodes[hi - 1]) then NamedEntries(resolve, nodes[hi - 1].items) else [])
  }

  /** What the scan from one spawn heading collects. */
  function SectionEntries(resolve: Resolver, nodes: seq<Node>, h: nat): seq<Entry>
    requires h < |nodes|
  {
    ListEntries(resolve, nodes, h + 1, SectionEnd(nodes, h))
  }

  predicate Positions(nodes: seq<Node>, hs: seq<nat>) {
    forall m :: 0 <= m < |hs| ==> hs[m] < |nodes|
  }

  /** The list after the headings at positions `hs` have been scanned, in heading order. */
  function SpawnsAfter(resolve: Resolver, nodes: seq<Node>, hs: seq<nat>): seq<Entry>
    requires Positions(nodes, hs)
  {
    if hs == [] then []
    else SpawnsAfter(resolve, nodes, hs[..|hs| - 1]) + SectionEntries(resolve, nodes, hs[|hs| - 1])
  }

  /** `spawns` as `scrape_event_detail` returns it. */
  function SpawnEntries(resolve: Resolver, nodes: seq<Node>): seq<Entry> {
    SpawnsAfter(resolve, nodes, Seqs.IndicesWhere(IsSpawnHeading, nodes))
  }

  /** Scanning the headings of `a` and then those of `b` collects the two lists one after the other:
      the entries of several headings are concatenated in heading order. */
  lemma PositionsConcat(nodes: seq<Node>, a: seq<nat>, b: seq<nat>)
    requires Positions(nodes, a) && Positions(nodes, b)
    ensures Positions(nodes, a + b)
  {
    forall m | 0 <= m < |a + b|
      ensures (a + b)[m] < |nodes|
    {
      if m < |a| { assert (a + b)[m] == a[m]; } else { assert (a + b)[m] == b[m - |a|]; }
    }
  }

  lemma {:induction false} SpawnsAfterConcat(resolve: Resolver, nodes: seq<Node>, a: seq<nat>, b: seq<nat>)
    requires Positions(nodes, a) && Positions(nodes, b)
    ensures Positions(nodes, a + b)
    ensures SpawnsAfter(resolve, nodes, a + b) == SpawnsAfter(resolve, nodes, a) + SpawnsAfter(resolve, nodes, b)
  {
    PositionsConcat(nodes, a, b);
    if b == [] {
      assert a + b == a;
    } else {
      var init, last := b[..|b| - 1], b[|b| - 1];
      assert (a + b)[..|a + b| - 1] == a + init;
      SpawnsAfterConcat(resolve, nodes, a, init);
    }
  }

  /** The entries of positions `lo` to `hi - 1` depend on those elements only. */
  lemma {:induction false} ListEntriesLocal(resolve: Resolver, nodes: seq<Node>, other: seq<Node>, lo: nat, hi: nat)
    requires lo <= hi <= |nodes| && hi <= |other|
    requires forall k :: lo <= k < hi ==> other[k] == nodes[k]
    ensures ListEntries(resolve, other, lo, hi) == ListEntries(resolve, nodes, lo, hi)
    decreases hi
  {
    if lo < hi {
      ListEntriesLocal(resolve, nodes, other, lo, hi - 1);
    }
  }

  /** The stop found from `j` is the same on any page that agrees up to and including it. */
  lemma {:induction false} StopFromLocal(nodes: seq<Node>, other: seq<Node>, start: Node, j: nat)
    requires j <= |nodes| && StopFrom(nodes, start, j) < |nodes|
    requires StopFrom(nodes, start, j) < |other|
    requires forall k :: j <= k <= StopFrom(nodes, start, j) ==> other[k] == nodes[k]
    ensures j <= |other| && StopFrom(other, start, j) == StopFrom(nodes, start, j)
    decreases |nodes| - j
  {
    if !StopsScan(start, nodes[j]) {
      StopFromLocal(nodes, other, start, j + 1);
    }
  }

  /** The scan stops at the next heading that differs from the spawn heading: what a spawn heading
      collects is fixed by the elements up to that stop, and creature lists after it (even right
      after it, under a heading that has none of its own) are never attached to the earlier
      heading. */
  lemma SectionStopsAtHeading(resolve: Resolver, nodes: seq<Node>, other: seq<Node>, h: nat)
    requires h < |nodes| && SectionEnd(nodes, h) < |nodes|
    requires SectionEnd(nodes, h) < |other|
    requires forall k :: 0 <= k <= SectionEnd(nodes, h) ==> other[k] == nodes[k]
    ensures h < |other| && SectionEntries(resolve, other, h) == SectionEntries(resolve, nodes, h)
  {
    StopFromLocal(nodes, other, nodes[h], h + 1);
    ListEntriesLocal(resolve, nodes, other, h + 1, SectionEnd(nodes, h));
  }

  /** The entries of a range are those of its two halves, one after the other. */
  lemma {:induction false} ListEntriesSplit(resolve: Resolver, nodes: seq<Node>, lo: nat, mid: nat, hi: nat)
    requires lo <= mid <= hi <= |nodes|
    ensures ListEntries(resolve, nodes, lo, hi) == ListEntries(resolve, nodes, lo, mid) + ListEntries(resolve, nodes, mid, hi)
    decreases hi
  {
    if mid == hi {
      assert ListEntries(resolve, nodes, mid, hi) == [];
    } else {
      ListEntriesSplit(resolve, nodes, lo, mid, hi - 1);
    }
  }

  /** A scan that passes position `j` without stopping stops where a scan starting at `j` would. */
  lemma {:induction false} StopFromSkip(nodes: seq<Node>, start: Node, i: nat, j: nat)
    requires i <= |nodes| && i <= j <= StopFrom(nodes, start, i)
    ensures StopFrom(nodes, start, j) == StopFrom(nodes, start, i)
    decreases j - i
  {
    if i < j {
      StopFromSkip(nodes, start, i + 1, j);
    }
  }

  /** A copy of the spawn heading inside its own section does not end it: the scan from the first
      heading passes the copy, so both scans stop at the same place and the lists after the copy
      are collected once for each of the two headings. */
  lemma RepeatedHeadingShares(resolve: Resolver, nodes: seq<Node>, h1: nat, h2: nat)
    requires h1 < |nodes| && h1 < h2 < SectionEnd(nodes, h1)
    requires SameTag(nodes[h2], nodes[h1])
    ensures SectionEnd(nodes, h2) == SectionEnd(nodes, h1)
    ensures SectionEntries(resolve, nodes, h1) == ListEntries(resolve, nodes, h1 + 1, h2 + 1) + SectionEntries(resolve, nodes, h2)
  {
    RepeatedHeadingEnd(nodes, h1, h2);
    ListEntriesSplit(resolve, nodes, h1 + 1, h2 + 1, SectionEnd(nodes, h1));
  }

  lemma RepeatedHeadingEnd(nodes: seq<Node>, h1: nat, h2: nat)
    requires h1 < |nodes| && h1 < h2 < SectionEnd(nodes, h1)
    requires SameTag(nodes[h2], nodes[h1])
    ensures SectionEnd(nodes, h2) == SectionEnd(nodes, h1)
  {
    StopFromSkip(nodes, nodes[h1], h1 + 1, h2 + 1);
    SameStops(nodes, nodes[h1], nodes[h2], h2 + 1);
  }

  /** Two equal tags stop a scan at the same elements. */
  lemma {:induction false} SameStops(nodes: seq<Node>, a: Node, b: Node, j: nat)
    requires j <= |nodes| && SameTag(a, b)
    ensures StopFrom(nodes, a, j) == StopFrom(nodes, b, j)
    decreases |nodes| - j
  {
    if j < |nodes| && !StopsScan(a, nodes[j]) {
      SameStops(nodes, a, b, j + 1);
    }
  }

  lemma {:induction false} ListEntriesNamed(resolve: Resolver, nodes: seq<Node>, lo: nat, hi: nat)
    requires lo <= hi <= |nodes|
    ensures forall j :: 0 <= j < |ListEntries(resolve, nodes, lo, hi)| ==> NamedEntry(ListEntries(resolve, nodes, lo, hi)[j])
    decreases hi
  {
    if lo < hi {
      ListEntriesNamed(resolve, nodes, lo, hi - 1);
    }
  }

  /** Every entry of the spawn list has a non-empty normalised name. */
  lemma {:induction false} SpawnsAfterNamed(resolve: Resolver, nodes: seq<Node>, hs: seq<nat>)
    requires Positions(nodes, hs)
    ensures forall j :: 0 <= j < |SpawnsAfter(resolve, nodes, hs)| ==> NamedEntry(SpawnsAfter(resolve, nodes, hs)[j])
  {
    if hs != [] {
      SpawnsAfterNamed(resolve, nodes, hs[..|hs| - 1]);
      ListEntriesNamed(resolve, nodes, hs[|hs| - 1] + 1, SectionEnd(nodes, hs[|hs| - 1]));
    }
  }

  lemma SpawnsAfterStep(resolve: Resolver, nodes: seq<Node>, hs: seq<nat>, m: nat)
    requires Positions(nodes, hs) && m < |hs|
    ensures Positions(nodes, hs[..m]) && Positions(nodes, hs[..m + 1])
    ensures SpawnsAfter(resolve, nodes, hs[..m + 1]) == SpawnsAfter(resolve, nodes, hs[..m]) + SectionEntries(resolve, nodes, hs[m])
  {
    assert hs[..m + 1][..m] == hs[..m];
  }

  /** The inner loop of app.py:140-154 for the spawn heading at `h`: walk the elements after it,
      stop at the first h2/h3/h4 that is not equal to the spawn heading, and collect the named items
      of every creature list passed on the way. `find_all_next()` starts after the heading, so the
      heading itself is never met, but a later copy of it is passed over. */
  method ScanSection(resolve: Resolver, nodes: seq<Node>, h: nat) returns (found: seq<Entry>)
    requires h < |nodes|
    ensures found == SectionEntries(resolve, nodes, h)
  {
    found := [];
    var j := h + 1;
    while j < |nodes|
      invariant h < j <= SectionEnd(nodes, h)
      invariant found == ListEntries(resolve, nodes, h + 1, j)
    {
      var node := nodes[j];
      if IsHeading(node) && !SameTag(node, nodes[h]) {
        break;
      }
      if IsPkmnList(node) {
        found := AppendNamedEntries(resolve, found, node.items);
      }
      j := j + 1;
    }
    assert j == SectionEnd(nodes, h);
  }

  /** The outer loop of app.py:139-154: every spawn heading's section is appended in turn. */
  method CollectSpawns(resolve: Resolver, nodes: seq<Node>) returns (spawns: seq<Entry>)
    ensures spawns == SpawnEntries(resolve, nodes)
    ensures forall j :: 0 <= j < |spawns| ==> NamedEntry(spawns[j])
  {
    spawns := [];
    var spawnHeaders := Seqs.IndicesWhere(IsSpawnHeading, nodes);
    for m := 0 to |spawnHeaders|
      invariant spawns == SpawnsAfter(resolve, nodes, spawnHeaders[..m])
    {
      SpawnsAfterStep(resolve, nodes, spawnHeaders, m);
      var found := ScanSection(resolve, nodes, spawnHeaders[m]);
      spawns := spawns + found;
    }
    assert spawnHeaders[..|spawnHeaders|] == spawnHeaders;
    SpawnsAfterNamed(resolve, nodes, spawnHeaders);
  }
}
