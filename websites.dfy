/**
 * The monitored-site records of the uptime dashboard and the values the
 * dashboard derives from them: the search filter, the removal filter used by
 * deletion, the downtime chart series and the "tracking since N days" count.
 *
 * Instants are integers: milliseconds since the Unix epoch, as `Date.getTime()`
 * returns them.
 */
module Websites {
  import opened Wrappers
  import opened Text
  import opened Seqs

  /** The last recorded outage of a site: when it happened and how many minutes it lasted. */
  datatype Downtime = Downtime(date: int, duration: int)

  /** One monitored site. */
  datatype Website = Website(
    id: string,
    url: string,
    isUp: bool,
    trackingSince: int,
    uptimePercentage: real,
    responseTime: int,
    lastDowntime: Option<Downtime>)

  /** One point of the downtime chart: the site's url and its last outage in minutes. */
  datatype ChartPoint = ChartPoint(name: string, downtime: int)

  /** Milliseconds in a day. */
  const DayMs: nat := 1000 * 60 * 60 * 24

  /** The two sites the dashboard starts with (dates are midnight UTC). */
  function InitialWebsites(): (ws: seq<Website>) {
    [ Website("1", "https://example.com", true, 1672531200000, 99.9, 250,
              Some(Downtime(1687046400000, 15))),
      Website("2", "https://downsite.com", false, 1686787200000, 95.5, 500,
              Some(Downtime(1687392000000, 60))) ]
  }

  /**
   * The site that adding `url` creates when the list holds `count` sites: its id is
   * the decimal notation of `count + 1`, it starts up, at 100% uptime, with no
   * response time and no outage, tracked from `now`.
   */
  function NewWebsite(count: nat, url: string, now: int): (w: Website) {
    Website(NatToDecimal(count + 1), url, true, now, 100.0, 0, None)
  }

  // ---------------------------------------------------------------------------
  // Search filter
  // ---------------------------------------------------------------------------

  /** A site matches a search term when its lower-cased url contains the lower-cased term. */
  predicate Matches(w: Website, term: string) {
    Contains(ToLower(w.url), ToLower(term))
  }

  /** The sites listed for the current search term. */
  function FilteredWebsites(ws: seq<Website>, term: string): (listed: seq<Website>) {
    Filter(ws, w => Matches(w, term))
  }

  /**
   * The listed sites are exactly the matching ones: every matching site as often as
   * it occurs in the list, no other site, in list order.
   */
  lemma FilteredWebsitesExact(ws: seq<Website>, term: string)
    ensures forall w :: w in FilteredWebsites(ws, term) ==> w in ws && Matches(w, term)
    ensures forall w :: multiset(FilteredWebsites(ws, term))[w] ==
                          if Matches(w, term) then multiset(ws)[w] else 0
    ensures IsSubsequence(FilteredWebsites(ws, term), ws)
  {
    forall w ensures multiset(FilteredWebsites(ws, term))[w] ==
                       if Matches(w, term) then multiset(ws)[w] else 0 {
      FilterCount(ws, w => Matches(w, term), w);
    }
    FilterIsSubsequence(ws, w => Matches(w, term));
  }

  /** An empty search term lists every site, in order. */
  lemma FilteredEmptyTerm(ws: seq<Website>)
    ensures FilteredWebsites(ws, "") == ws
  {
    forall i | 0 <= i < |ws| ensures Matches(ws[i], "") {
      ContainsEmpty(ToLower(ws[i].url));
    }
    FilterAllPass(ws, w => Matches(w, ""));
  }

  /** The search ignores the case of the term: a term and its lower-cased form list the same sites. */
  lemma FilteredIgnoresCase(ws: seq<Website>, term: string)
    ensures FilteredWebsites(ws, ToLower(term)) == FilteredWebsites(ws, term)
  {
    ToLowerIdempotent(term);
    FilterAgree(ws, w => Matches(w, ToLower(term)), w => Matches(w, term));
  }

  /** Adding a site to the end of the list adds it to the end of the listing when it matches. */
  lemma FilteredAfterAppend(ws: seq<Website>, w: Website, term: string)
    ensures FilteredWebsites(ws + [w], term) ==
            FilteredWebsites(ws, term) + (if Matches(w, term) then [w] else [])
  {
    FilterSnoc(ws, w, x => Matches(x, term));
  }

  // ---------------------------------------------------------------------------
  // Removal by id
  // ---------------------------------------------------------------------------

  /** The list with every site whose id is `id` removed. */
  function WithoutId(ws: seq<Website>, id: string): (kept: seq<Website>) {
    Filter(ws, (w: Website) => w.id != id)
  }

  /**
   * Removing an id drops every site carrying it and nothing else, and keeps the
   * survivors in their original relative order.
   */
  lemma WithoutIdExact(ws: seq<Website>, id: string)
    ensures forall w :: w in WithoutId(ws, id) <==> w in ws && w.id != id
    ensures forall w :: multiset(WithoutId(ws, id))[w] == if w.id != id then multiset(ws)[w] else 0
    ensures IsSubsequence(WithoutId(ws, id), ws)
  {
    forall w ensures multiset(WithoutId(ws, id))[w] == if w.id != id then multiset(ws)[w] else 0 {
      FilterCount(ws, (x: Website) => x.id != id, w);
    }
    FilterIsSubsequence(ws, (x: Website) => x.id != id);
  }

  /** Removal keeps every site that does not carry the id. */
  lemma RemoveKeepsOthers(ws: seq<Website>, id: string, w: Website)
    requires w in ws && w.id != id
    ensures w in WithoutId(ws, id)
  {
    FilterCount(ws, (x: Website) => x.id != id, w);
  }

  /** Removal keeps a property that every site has. */
  lemma RemoveKeepsDecimalIds(ws: seq<Website>, id: string)
    requires forall w :: w in ws ==> IsDecimal(w.id)
    ensures forall w :: w in WithoutId(ws, id) ==> IsDecimal(w.id)
  {
  }

  /** Removing an id that no site carries leaves the list as it was. */
  lemma WithoutAbsentId(ws: seq<Website>, id: string)
    requires forall i :: 0 <= i < |ws| ==> ws[i].id != id
    ensures WithoutId(ws, id) == ws
  {
    FilterAllPass(ws, (w: Website) => w.id != id);
  }

  // ---------------------------------------------------------------------------
  // Ids
  // ---------------------------------------------------------------------------

  /** Some site of the list carries `id`. */
  predicate HasId(ws: seq<Website>, id: string) {
    exists w :: w in ws && w.id == id
  }

  /** In a list whose ids are decimal numerals, an id that some site carries is not empty. */
  lemma ListedIdNotEmpty(ws: seq<Website>, id: string)
    requires forall w :: w in ws ==> IsDecimal(w.id)
    requires HasId(ws, id)
    ensures id != ""
  {
    var w :| w in ws && w.id == id;
    assert IsDecimal(w.id);
  }

  /** No two sites of the list share an id. */
  predicate UniqueIds(ws: seq<Website>) {
    forall i, j :: 0 <= i < j < |ws| ==> ws[i].id != ws[j].id
  }

  /** The sites carry the ids "1", "2", ... in list order: what a list that was only ever appended to looks like. */
  predicate SequentialIds(ws: seq<Website>) {
    forall i :: 0 <= i < |ws| ==> ws[i].id == NatToDecimal(i + 1)
  }

  /** The initial list is numbered "1", "2". */
  lemma InitialIdsSequential()
    ensures SequentialIds(InitialWebsites())
  {
    assert NatToDecimal(1) == "1";
    assert NatToDecimal(2) == "2";
  }

  /** Sequential ids are pairwise distinct. */
  lemma SequentialIdsUnique(ws: seq<Website>)
    requires SequentialIds(ws)
    ensures UniqueIds(ws)
  {
    forall i, j | 0 <= i < j < |ws| ensures ws[i].id != ws[j].id {
      DecimalInjective(i + 1, j + 1);
    }
  }

  /** Appending a new site keeps a sequentially numbered list sequential. */
  lemma AppendKeepsSequential(ws: seq<Website>, url: string, now: int)
    requires SequentialIds(ws)
    ensures SequentialIds(ws + [NewWebsite(|ws|, url, now)])
  {
  }

  /**
   * Appending a new site keeps the ids distinct exactly when no site already
   * carries the decimal notation of the new length.
   */
  lemma AppendUniqueIff(ws: seq<Website>, url: string, now: int)
    ensures UniqueIds(ws + [NewWebsite(|ws|, url, now)]) <==>
            UniqueIds(ws) && forall i :: 0 <= i < |ws| ==> ws[i].id != NatToDecimal(|ws| + 1)
  {
    var ws' := ws + [NewWebsite(|ws|, url, now)];
    var nextId := NatToDecimal(|ws| + 1);
    assert forall i :: 0 <= i < |ws| ==> ws'[i] == ws[i];
    assert ws'[|ws|].id == nextId;
    if UniqueIds(ws') {
      forall i | 0 <= i < |ws| ensures ws[i].id != nextId {
        assert ws'[i].id != ws'[|ws|].id;
      }
    }
    if UniqueIds(ws) && forall i :: 0 <= i < |ws| ==> ws[i].id != nextId {
      forall i, j | 0 <= i < j < |ws'| ensures ws'[i].id != ws'[j].id {
        if j < |ws| {
          assert ws[i].id != ws[j].id;
        }
      }
    }
  }

  /** Removing sites never makes two of the remaining ones share an id. */
  lemma {:induction false} RemoveKeepsUnique(ws: seq<Website>, id: string)
    requires UniqueIds(ws)
    ensures UniqueIds(WithoutId(ws, id))
    decreases |ws|
  {
    if ws != [] {
      var ws' := ws[..|ws| - 1];
      var last := ws[|ws| - 1];
      assert UniqueIds(ws');
      RemoveKeepsUnique(ws', id);
      var kept := WithoutId(ws', id);
      forall k | 0 <= k < |kept| ensures kept[k].id != last.id {
        assert kept[k] in ws';
        var j :| 0 <= j < |ws'| && ws'[j] == kept[k];
        assert ws[j] == ws'[j];
      }
    }
  }

  /**
   * Ids are not unique: from the initial list, removing "1" and then adding any url
   * numbers the new site "2", the id the surviving site already carries.
   */
  lemma IdCollisionAfterRemoveThenAdd(url: string, now: int)
    ensures var kept := WithoutId(InitialWebsites(), "1");
            var grown := kept + [NewWebsite(|kept|, url, now)];
            |grown| == 2 && grown[0].id == "2" && grown[1].id == "2" && !UniqueIds(grown)
  {
    var seeds := InitialWebsites();
    FilterSnoc([seeds[0]], seeds[1], (w: Website) => w.id != "1");
    assert seeds == [seeds[0]] + [seeds[1]];
    assert WithoutId(seeds, "1") == [seeds[1]];
    assert NatToDecimal(2) == "2";
  }

  // ---------------------------------------------------------------------------
  // Downtime chart
  // ---------------------------------------------------------------------------

  /** The minutes of a site's last outage, 0 when it has none. */
  function DowntimeOf(w: Website): (minutes: int) {
    match w.lastDowntime
    case Some(d) => d.duration
    case None => 0
  }

  /** The chart series: one point per site, in list order, named by the site's url. */
  function DowntimeData(ws: seq<Website>): (points: seq<ChartPoint>)
    ensures |points| == |ws|
    ensures forall i :: 0 <= i < |ws| ==>
              points[i].name == ws[i].url && points[i].downtime == DowntimeOf(ws[i])
    decreases |ws|
  {
    if ws == [] then []
    else
      var last := ws[|ws| - 1];
      DowntimeData(ws[..|ws| - 1]) + [ChartPoint(last.url, DowntimeOf(last))]
  }

  /** Adding a site adds one zero point for its url at the end of the chart. */
  lemma DowntimeAfterAppend(ws: seq<Website>, url: string, now: int)
    ensures DowntimeData(ws + [NewWebsite(|ws|, url, now)]) == DowntimeData(ws) + [ChartPoint(url, 0)]
  {
    var ws' := ws + [NewWebsite(|ws|, url, now)];
    assert ws'[..|ws'| - 1] == ws;
  }

  // ---------------------------------------------------------------------------
  // Days since
  // ---------------------------------------------------------------------------

  function Abs(x: int): (a: nat) {
    if x < 0 then -x else x
  }

  /** Whole days between `date` and `now`, rounded up: `Math.ceil(|now - date| / DayMs)`. */
  function DaysSince(date: int, now: int): (days: nat)
    ensures (days - 1) * DayMs < Abs(now - date) <= days * DayMs
  {
    (Abs(now - date) + DayMs - 1) / DayMs
  }

  /** The day count does not depend on which of the two instants is the later one. */
  lemma DaysSinceSymmetric(date: int, now: int)
    ensures DaysSince(date, now) == DaysSince(now, date)
  {
  }

  /** The count is 0 exactly when no time has elapsed; any elapsed millisecond counts as a day. */
  lemma DaysSinceZeroIff(date: int, now: int)
    ensures DaysSince(date, now) == 0 <==> date == now
    ensures date != now ==> DaysSince(date, now) >= 1
  {
  }

  /** Two and a half days are reported as three. */
  lemma DaysSinceRoundsUp(now: int)
    ensures DaysSince(now - 5 * DayMs / 2, now) == 3
  {
  }

  // ---------------------------------------------------------------------------
  // The initial list
  // ---------------------------------------------------------------------------

  /** The url of the first initial site does not contain "down", in any case. */
  lemma ExampleDoesNotMatchDown()
    ensures !Matches(InitialWebsites()[0], "down")
  {
    var url := InitialWebsites()[0].url;
    var lowered := ToLower(url);
    var term := ToLower("down");
    assert term[0] == 'd';
    forall i | 0 <= i < |lowered| ensures lowered[i] != 'd' {
      assert url[i] != 'd' && url[i] != 'D';
    }
    NotContainsFirstChar(lowered, term);
  }

  /** The url of the second initial site contains "down". */
  lemma DownsiteMatchesDown()
    ensures Matches(InitialWebsites()[1], "down")
  {
    var url := InitialWebsites()[1].url;
    var lowered := ToLower(url);
    var term := ToLower("down");
    assert lowered[8..12] == url[8..12] == "down" == term;
    assert OccursAt(lowered, term, 8);
    ContainsAt(lowered, term);
  }

  /** Searching the initial list for "down" lists only the site with id "2". */
  lemma InitialSearchDown()
    ensures FilteredWebsites(InitialWebsites(), "down") == [InitialWebsites()[1]]
    ensures InitialWebsites()[1].id == "2"
  {
    var seeds := InitialWebsites();
    ExampleDoesNotMatchDown();
    DownsiteMatchesDown();
    FilterSnoc([seeds[0]], seeds[1], w => Matches(w, "down"));
    assert seeds == [seeds[0]] + [seeds[1]];
  }

  /** Removing the site with id "2" from the initial list leaves one chart point, for example.com. */
  lemma InitialRemoveDownsite()
    ensures WithoutId(InitialWebsites(), "2") == [InitialWebsites()[0]]
    ensures DowntimeData(WithoutId(InitialWebsites(), "2")) == [ChartPoint("https://example.com", 15)]
  {
    var seeds := InitialWebsites();
    FilterSnoc([seeds[0]], seeds[1], (w: Website) => w.id != "2");
    assert seeds == [seeds[0]] + [seeds[1]];
  }
}
