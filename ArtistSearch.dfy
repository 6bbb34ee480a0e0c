/**
 * project/scripts/search_artists.py without its printing: which constituents
 * `search_artists` lists and in what order, the per-artist work counts, and the
 * ranking `list_top_artists` shows.
 */
module ArtistSearch {
  import opened Wrappers
  import opened Seqs
  import opened Text
  import opened Tables

  // ---------------------------------------------------------------------------
  // Selecting artists
  // ---------------------------------------------------------------------------

  /** `artistofngaobject == 1`; a missing flag compares unequal. */
  predicate IsNgaArtist(c: Constituent) {
    c.artistOfNgaObject == Some(1)
  }

  /** `str.contains(term, case=False, na=False)` on the display name: a missing name never matches. */
  predicate NameContains(c: Constituent, term: string) {
    c.name.Some? && ContainsIgnoreCase(c.name.value, term)
  }

  /** The constituents `search_artists` lists: the NGA artists, and with a term only those whose name contains it. */
  function SelectArtists(cs: seq<Constituent>, term: string): (r: seq<Constituent>)
    ensures IsSubsequence(r, cs)
    ensures forall c :: c in r <==> c in cs && IsNgaArtist(c) && (|term| == 0 || NameContains(c, term))
    ensures |term| == 0 ==> r == Mask(cs, IsNgaArtist)
  {
    var artists := Mask(cs, IsNgaArtist);
    if |term| > 0 then
      var found := Mask(artists, (c: Constituent) => NameContains(c, term));
      SubsequenceTransitive(found, artists, cs);
      found
    else artists
  }

  // ---------------------------------------------------------------------------
  // Work counts
  // ---------------------------------------------------------------------------

  /** The number of artist-role link rows of a constituent: the reference for `works_count`. */
  function CountArtistLinks(links: seq<Link>, id: int): nat {
    if links == [] then 0
    else
      var last := links[|links| - 1];
      CountArtistLinks(links[..|links| - 1], id) + (if IsArtistLink(last) && last.constituentId == id then 1 else 0)
  }

  /** `fillna(0)` after the left merge with the counts. */
  function WorksCount(counts: map<int, nat>, id: int): nat {
    if id in counts then counts[id] else 0
  }

  /**
   * The artist links counted per constituent: a key for every constituent
   * with at least one artist link, mapped to that number.
   */
  function WorksByConstituent(links: seq<Link>): (counts: map<int, nat>)
    ensures forall id :: id in counts <==> CountArtistLinks(links, id) > 0
    ensures forall id :: id in counts ==> counts[id] == CountArtistLinks(links, id)
  {
    if links == [] then map[]
    else
      var counts := WorksByConstituent(links[..|links| - 1]);
      var last := links[|links| - 1];
      if IsArtistLink(last) then counts[last.constituentId := WorksCount(counts, last.constituentId) + 1]
      else counts
  }

  /** After `fillna(0)` every constituent's count is its number of artist links, zero included. */
  lemma WorksCountIsLinkCount(links: seq<Link>, id: int)
    ensures WorksCount(WorksByConstituent(links), id) == CountArtistLinks(links, id)
  {
  }

  // ---------------------------------------------------------------------------
  // Sorting by a count, descending
  // ---------------------------------------------------------------------------

  predicate NonIncreasing<T>(s: seq<T>, key: T -> int) {
    forall i, j :: 0 <= i < j < |s| ==> key(s[i]) >= key(s[j])
  }

  /** A row ranking at least as high as every row of a sorted table can go in front of it. */
  lemma NonIncreasingCons<T>(h: T, t: seq<T>, key: T -> int)
    requires NonIncreasing(t, key)
    requires forall y :: y in multiset(t) ==> key(h) >= key(y)
    ensures NonIncreasing([h] + t, key)
  {
    forall j | 0 <= j < |t| ensures key(h) >= key(t[j]) {
      assert t[j] in multiset(t);
    }
  }

  /** Insertion of one row before the first row that ranks no higher than it. */
  function Insert<T>(x: T, s: seq<T>, key: T -> int): seq<T> {
    if s == [] then [x]
    else if key(x) >= key(s[0]) then [x] + s
    else [s[0]] + Insert(x, s[1..], key)
  }

  /** Insertion adds exactly the one row. */
  lemma {:induction false} InsertAddsOne<T>(x: T, s: seq<T>, key: T -> int)
    ensures multiset(Insert(x, s, key)) == multiset(s) + multiset{x}
  {
    if s != [] {
      assert s == [s[0]] + s[1..];
      if key(x) < key(s[0]) {
        InsertAddsOne(x, s[1..], key);
      }
    }
  }

  /** Insertion into a sorted table keeps it sorted. */
  lemma {:induction false} InsertKeepsOrder<T>(x: T, s: seq<T>, key: T -> int)
    requires NonIncreasing(s, key)
    ensures NonIncreasing(Insert(x, s, key), key)
  {
    if s != [] {
      if key(x) >= key(s[0]) {
        forall y | y in multiset(s) ensures key(x) >= key(y) {
          assert y in s;
        }
        NonIncreasingCons(x, s, key);
      } else {
        var rest := Insert(x, s[1..], key);
        InsertKeepsOrder(x, s[1..], key);
        InsertAddsOne(x, s[1..], key);
        forall y | y in multiset(rest) ensures key(s[0]) >= key(y) {
          if y != x {
            assert y in s[1..];
            var k :| 0 <= k < |s[1..]| && s[1..][k] == y;
            assert s[k + 1] == y;
          }
        }
        NonIncreasingCons(s[0], rest, key);
      }
    }
  }

  /** `sort_values(key, ascending=False)`: the same rows, in non-increasing order of the key. */
  function SortDescending<T>(s: seq<T>, key: T -> int): (r: seq<T>)
    ensures NonIncreasing(r, key)
    ensures multiset(r) == multiset(s)
  {
    if s == [] then []
    else
      assert s == [s[0]] + s[1..];
      InsertAddsOne(s[0], SortDescending(s[1..], key), key);
      InsertKeepsOrder(s[0], SortDescending(s[1..], key), key);
      Insert(s[0], SortDescending(s[1..], key), key)
  }

  // ---------------------------------------------------------------------------
  // search_artists
  // ---------------------------------------------------------------------------

  /** A printed cell: the value, or `?` when it is missing. */
  function OrQuestion(v: Option<string>): string {
    v.GetOr("?")
  }

  /** One printed row of `search_artists`; `works` only when statistics are shown. */
  datatype ArtistLine = ArtistLine(name: Option<string>, dates: string, nationality: string, works: Option<nat>)

  datatype SearchResult = NotFound | Found(lines: seq<ArtistLine>)

  function LineWorks(l: ArtistLine): int {
    l.works.GetOr(0)
  }

  /** The row shown for one constituent; with statistics, its count of artist links. */
  function ArtistLineOf(c: Constituent, links: seq<Link>, showStats: bool): ArtistLine {
    ArtistLine(c.name, OrQuestion(c.displayDate), OrQuestion(c.nationality),
      if showStats then Some(CountArtistLinks(links, c.constituentId)) else None)
  }

  /** The rows for the selected constituents, in selection order. */
  function Listed(sel: seq<Constituent>, links: seq<Link>, showStats: bool): (r: seq<ArtistLine>)
    ensures |r| == |sel| && forall i :: 0 <= i < |sel| ==> r[i] == ArtistLineOf(sel[i], links, showStats)
  {
    seq(|sel|, i requires 0 <= i < |sel| => ArtistLineOf(sel[i], links, showStats))
  }

  /**
   * `search_artists(term, show_stats)`: nothing when no artist matches;
   * otherwise one row per selected artist, in table order without statistics,
   * and with statistics the same rows re-ordered by non-increasing work count.
   */
  function SearchArtists(cs: seq<Constituent>, links: seq<Link>, term: string, showStats: bool): (r: SearchResult)
    ensures r.NotFound? <==> |SelectArtists(cs, term)| == 0
    ensures r.Found? && !showStats ==> r.lines == Listed(SelectArtists(cs, term), links, false)
    ensures r.Found? && showStats ==>
      multiset(r.lines) == multiset(Listed(SelectArtists(cs, term), links, true)) && NonIncreasing(r.lines, LineWorks)
  {
    var artists := SelectArtists(cs, term);
    if |artists| == 0 then NotFound
    else if showStats then
      var counts := WorksByConstituent(links);
      var rows := seq(|artists|, i requires 0 <= i < |artists| =>
        ArtistLine(artists[i].name, OrQuestion(artists[i].displayDate), OrQuestion(artists[i].nationality),
          Some(WorksCount(counts, artists[i].constituentId))));
      assert rows == Listed(artists, links, true) by {
        forall i | 0 <= i < |artists| ensures rows[i] == Listed(artists, links, true)[i] {
          WorksCountIsLinkCount(links, artists[i].constituentId);
        }
      }
      Found(SortDescending(rows, LineWorks))
    else Found(Listed(artists, links, false))
  }

  // ---------------------------------------------------------------------------
  // list_top_artists
  // ---------------------------------------------------------------------------

  /** A constituent together with its work count. */
  datatype Ranked = Ranked(artist: Constituent, works: nat)

  function RankedWorks(r: Ranked): int {
    r.works
  }

  /** The inner merge of constituents with the counts: only constituents with a count, in table order. */
  function MergedWithWorks(cs: seq<Constituent>, counts: map<int, nat>): (r: seq<Ranked>)
    ensures |r| <= |cs|
    ensures forall x :: x in r <==>
      (x.artist in cs && x.artist.constituentId in counts && x.works == counts[x.artist.constituentId])
  {
    if cs == [] then []
    else
      assert cs == [cs[0]] + cs[1..];
      var id := cs[0].constituentId;
      (if id in counts then [Ranked(cs[0], counts[id])] else []) + MergedWithWorks(cs[1..], counts)
  }

  /** Every constituent with at least one artist link, with its count. */
  function Ranking(cs: seq<Constituent>, links: seq<Link>): (r: seq<Ranked>)
    ensures forall x :: x in r <==>
      (x.artist in cs && x.works == CountArtistLinks(links, x.artist.constituentId) && x.works >= 1)
  {
    MergedWithWorks(cs, WorksByConstituent(links))
  }

  /**
   * `head(n)`: the first `n` rows, or all of them; with a negative `n`, all
   * rows but the last `-n`.
   */
  function Head<T>(s: seq<T>, n: int): (r: seq<T>)
    ensures n >= 0 ==> |r| == (if n <= |s| then n else |s|)
    ensures n < 0 ==> |r| == (if |s| + n >= 0 then |s| + n else 0)
    ensures r == s[..|r|]
  {
    if n >= 0 then (if n <= |s| then s[..n] else s)
    else if |s| + n >= 0 then s[..|s| + n]
    else []
  }

  /** What is left out of a sorted table by a prefix ranks no higher than the prefix's last row. */
  lemma {:induction false} RestNoHigher<T>(sorted: seq<T>, k: nat, key: T -> int)
    requires NonIncreasing(sorted, key) && 0 < k <= |sorted|
    ensures multiset(sorted) - multiset(sorted[..k]) == multiset(sorted[k..])
    ensures forall x :: x in multiset(sorted[k..]) ==> key(x) <= key(sorted[k - 1])
  {
    assert sorted == sorted[..k] + sorted[k..];
    forall x | x in multiset(sorted[k..]) ensures key(x) <= key(sorted[k - 1]) {
      assert x in sorted[k..];
      var j :| 0 <= j < |sorted[k..]| && sorted[k..][j] == x;
      assert sorted[k + j] == x;
    }
  }

  /** The rows `list_top_artists(top_n)` shows: the ranking sorted by count, cut by `head(top_n)`. */
  function TopRanked(cs: seq<Constituent>, links: seq<Link>, topN: int): seq<Ranked> {
    Head(SortDescending(Ranking(cs, links), RankedWorks), topN)
  }

  /**
   * At most `top_n` ranked constituents (all but the last `-top_n` for a
   * negative argument), in non-increasing order, each with a positive count
   * equal to its number of artist links.
   */
  lemma TopRankedShape(cs: seq<Constituent>, links: seq<Link>, topN: int)
    ensures var r, all := TopRanked(cs, links, topN), Ranking(cs, links);
      && (topN >= 0 ==> |r| == (if topN <= |all| then topN else |all|))
      && (topN < 0 ==> |r| == (if |all| + topN >= 0 then |all| + topN else 0))
      && NonIncreasing(r, RankedWorks)
      && multiset(r) <= multiset(all)
      && (forall x :: x in r ==>
            (x.artist in cs && x.works == CountArtistLinks(links, x.artist.constituentId) && x.works >= 1))
  {
    var all := Ranking(cs, links);
    var sorted := SortDescending(all, RankedWorks);
    var top := TopRanked(cs, links, topN);
    assert sorted == top + sorted[|top|..];
    assert multiset(sorted) == multiset(top) + multiset(sorted[|top|..]);
    forall x | x in top ensures x in all {
      assert x in multiset(sorted);
    }
  }

  /** No constituent left out of the top rows has a higher count than the last one shown. */
  lemma TopRankedOmitsNoHigher(cs: seq<Constituent>, links: seq<Link>, topN: int)
    requires |TopRanked(cs, links, topN)| > 0
    ensures var r := TopRanked(cs, links, topN);
      forall x :: x in multiset(Ranking(cs, links)) - multiset(r) ==> x.works <= r[|r| - 1].works
  {
    var sorted := SortDescending(Ranking(cs, links), RankedWorks);
    var top := TopRanked(cs, links, topN);
    RestNoHigher(sorted, |top|, RankedWorks);
  }

  /** One printed row of `list_top_artists`. */
  datatype TopLine = TopLine(rank: nat, name: Option<string>, dates: string, works: nat)

  /** The numbered rows: ranks start at 1 and go up by one; a missing date reads "?". */
  function TopArtists(cs: seq<Constituent>, links: seq<Link>, topN: int): (lines: seq<TopLine>)
    ensures |lines| == |TopRanked(cs, links, topN)|
    ensures forall i :: 0 <= i < |lines| ==> lines[i].rank == i + 1
    ensures forall i :: 0 <= i < |lines| ==>
      var x := TopRanked(cs, links, topN)[i];
      && lines[i].name == x.artist.name && lines[i].works == x.works && lines[i].works >= 1
      && (x.artist.displayDate.None? ==> lines[i].dates == "?")
      && (x.artist.displayDate.Some? ==> lines[i].dates == x.artist.displayDate.value)
  {
    var top := TopRanked(cs, links, topN);
    TopRankedShape(cs, links, topN);
    seq(|top|, i requires 0 <= i < |top| =>
      TopLine(i + 1, top[i].artist.name, OrQuestion(top[i].artist.displayDate), top[i].works))
  }
}
