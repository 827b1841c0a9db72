/**
 * What the station list shows: the dial sorted favourites first and newest
 * first, each row marked active when it is the selected station, with its
 * stream address shown without the scheme; an empty dial shows the empty
 * state instead of rows.
 */
module StationList {
  import opened Optional
  import opened Text
  import opened Stations

  /**
   * The comparator as written: it compares the raw flags with `===`, so a
   * station whose flag is left out and one whose flag is `false` are unequal,
   * and the one in first position is put after the other in both orders.
   */
  function CompareAsWritten(a: Station, b: Station): (r: int)
    ensures a.favorite == b.favorite ==> (r <= 0 <==> a.addedAt >= b.addedAt)
    ensures a.favorite != b.favorite ==> (r == -1 <==> IsFavorite(a.favorite)) && (r == 1 <==> !IsFavorite(a.favorite))
  {
    if a.favorite == b.favorite then b.addedAt - a.addedAt
    else if IsFavorite(a.favorite) then -1 else 1
  }

  /** An unset flag and a `false` flag each sort after the other: the comparator is inconsistent. */
  lemma AsWrittenComparatorInconsistent(a: Station, b: Station)
    requires a.favorite == Unset && b.favorite == Flag(false)
    ensures CompareAsWritten(a, b) > 0 && CompareAsWritten(b, a) > 0
  {
  }

  /** The comparator compared by truthiness, as evidently intended. */
  function Compare(a: Station, b: Station): (r: int)
    ensures IsFavorite(a.favorite) && !IsFavorite(b.favorite) ==> r < 0
    ensures !IsFavorite(a.favorite) && IsFavorite(b.favorite) ==> r > 0
    ensures IsFavorite(a.favorite) == IsFavorite(b.favorite) ==> (r <= 0 <==> a.addedAt >= b.addedAt)
  {
    if IsFavorite(a.favorite) == IsFavorite(b.favorite) then b.addedAt - a.addedAt
    else if IsFavorite(a.favorite) then -1 else 1
  }

  /** Where the two comparators agree: whenever neither flag is left out. */
  lemma CompareAgrees(a: Station, b: Station)
    requires a.favorite.Flag? && b.favorite.Flag?
    ensures CompareAsWritten(a, b) == Compare(a, b)
  {
  }

  /** `a` may stand before `b` in the display order. */
  predicate Precedes(a: Station, b: Station) {
    Compare(a, b) <= 0
  }

  /** The corrected comparator is a total preorder: total and transitive. */
  lemma PrecedesTotalPreorder(a: Station, b: Station, c: Station)
    ensures Precedes(a, b) || Precedes(b, a)
    ensures Precedes(a, b) && Precedes(b, c) ==> Precedes(a, c)
  {
  }

  predicate SortedForDisplay(s: seq<Station>) {
    forall i, j :: 0 <= i < j < |s| ==> Precedes(s[i], s[j])
  }

  /** Places `x` before the first station it may precede, so ahead of the stations it ties with. */
  function Insert(x: Station, sorted: seq<Station>): (r: seq<Station>)
    ensures |r| == |sorted| + 1
    ensures multiset(r) == multiset(sorted) + multiset{x}
  {
    if sorted == [] || Precedes(x, sorted[0]) then [x] + sorted
    else
      assert sorted == [sorted[0]] + sorted[1..];
      [sorted[0]] + Insert(x, sorted[1..])
  }

  /** Inserting into a sorted list keeps it sorted. */
  lemma {:induction false} InsertSorted(x: Station, sorted: seq<Station>)
    requires SortedForDisplay(sorted)
    ensures SortedForDisplay(Insert(x, sorted))
  {
    var r := Insert(x, sorted);
    if sorted == [] {
    } else if Precedes(x, sorted[0]) {
      forall j | 1 <= j < |r| ensures Precedes(x, r[j]) {
        PrecedesTotalPreorder(x, sorted[0], r[j]);
      }
    } else {
      var rest := Insert(x, sorted[1..]);
      assert SortedForDisplay(sorted[1..]);
      InsertSorted(x, sorted[1..]);
      assert r == [sorted[0]] + rest;
      PrecedesTotalPreorder(sorted[0], x, x);
      forall j | 1 <= j < |r| ensures Precedes(r[0], r[j]) {
        assert r[j] in multiset(rest);
        assert r[j] == x || r[j] in sorted[1..];
      }
    }
  }

  /** `[...stations].sort(comparator)`: a sorted copy; the input list is left as it is. */
  function SortForDisplay(s: seq<Station>): (r: seq<Station>)
    ensures |r| == |s|
    ensures multiset(r) == multiset(s)
  {
    if s == [] then []
    else
      assert s == [s[0]] + s[1..];
      Insert(s[0], SortForDisplay(s[1..]))
  }

  /** The display order is sorted by the comparator. */
  lemma {:induction false} SortSorted(s: seq<Station>)
    ensures SortedForDisplay(SortForDisplay(s))
  {
    if s != [] {
      SortSorted(s[1..]);
      InsertSorted(s[0], SortForDisplay(s[1..]));
    }
  }

  /** `a` and `b` tie under the comparator: the same favourite status and the same time. */
  predicate Ties(a: Station, b: Station) {
    Precedes(a, b) && Precedes(b, a)
  }

  /** The stations of `s` that tie with `y`, in the order of `s`. */
  function TiedWith(y: Station, s: seq<Station>): (r: seq<Station>)
    ensures forall k :: 0 <= k < |r| ==> Ties(y, r[k])
  {
    if s == [] then [] else (if Ties(y, s[0]) then [s[0]] else []) + TiedWith(y, s[1..])
  }

  /** Reading the ties of a list one station at a time. */
  lemma TiedWithCons(y: Station, a: Station, s: seq<Station>)
    ensures TiedWith(y, [a] + s) == (if Ties(y, a) then [a] else []) + TiedWith(y, s)
  {
    assert ([a] + s)[0] == a && ([a] + s)[1..] == s;
  }

  /** Inserting puts `x` ahead of every station it ties with. */
  lemma {:induction false} InsertTied(y: Station, x: Station, sorted: seq<Station>)
    ensures TiedWith(y, Insert(x, sorted)) == (if Ties(y, x) then [x] else []) + TiedWith(y, sorted)
  {
    if sorted == [] || Precedes(x, sorted[0]) {
      TiedWithCons(y, x, sorted);
    } else {
      var head, tail := sorted[0], sorted[1..];
      var tx: seq<Station> := if Ties(y, x) then [x] else [];
      var th: seq<Station> := if Ties(y, head) then [head] else [];
      assert Insert(x, sorted) == [head] + Insert(x, tail);
      TiedWithCons(y, head, Insert(x, tail));
      InsertTied(y, x, tail);
      assert sorted == [head] + tail;
      TiedWithCons(y, head, tail);
      TieIsTransitive(x, y, head);
      SwapWithEmpty(th, tx, TiedWith(y, tail));
    }
  }

  /** A station that may not precede `b` ties with nothing `b` ties with. */
  lemma TieIsTransitive(a: Station, y: Station, b: Station)
    requires !Precedes(a, b)
    ensures !(Ties(y, a) && Ties(y, b))
  {
    PrecedesTotalPreorder(a, y, b);
  }

  lemma SwapWithEmpty<T>(p: seq<T>, q: seq<T>, rest: seq<T>)
    requires p == [] || q == []
    ensures p + (q + rest) == q + (p + rest)
  {
  }

  /** The sort is stable: stations that tie keep their dial order. */
  lemma {:induction false} SortStable(y: Station, s: seq<Station>)
    ensures TiedWith(y, SortForDisplay(s)) == TiedWith(y, s)
  {
    if s != [] {
      InsertTied(y, s[0], SortForDisplay(s[1..]));
      SortStable(y, s[1..]);
    }
  }

  /** Every favourite is listed before every station that is not one. */
  lemma FavoritesFirst(s: seq<Station>, i: int, j: int)
    requires 0 <= i < j < |SortForDisplay(s)|
    requires IsFavorite(SortForDisplay(s)[j].favorite)
    ensures IsFavorite(SortForDisplay(s)[i].favorite)
  {
    var r := SortForDisplay(s);
    SortSorted(s);
    assert Precedes(r[i], r[j]);
  }

  /** Among stations equally favourite, the newer one is listed first. */
  lemma NewestFirst(s: seq<Station>, i: int, j: int)
    requires 0 <= i < j < |SortForDisplay(s)|
    requires IsFavorite(SortForDisplay(s)[i].favorite) == IsFavorite(SortForDisplay(s)[j].favorite)
    ensures SortForDisplay(s)[i].addedAt >= SortForDisplay(s)[j].addedAt
  {
    var r := SortForDisplay(s);
    SortSorted(s);
    assert Precedes(r[i], r[j]);
  }

  /** `url.replace(/^https?:\/\//, '')`: one lower-case scheme prefix removed, if present. */
  function DisplayUrl(url: string): (r: string)
    ensures StartsWith(url, "http://") ==> url == "http://" + r
    ensures StartsWith(url, "https://") ==> url == "https://" + r
    ensures !StartsWith(url, "http://") && !StartsWith(url, "https://") ==> r == url
  {
    assert StartsWith(url, "https://") ==> url[4] == 's' && !StartsWith(url, "http://");
    if StartsWith(url, "http://") then url[7..]
    else if StartsWith(url, "https://") then url[8..]
    else url
  }

  /** Showing an address with a scheme added back gives the address without it. */
  lemma DisplayUrlStripsScheme(rest: string)
    ensures DisplayUrl("https://" + rest) == rest
    ensures DisplayUrl("http://" + rest) == rest
  {
    assert ("https://" + rest)[4] == 's';
    assert ("http://" + rest)[..7] == "http://";
  }

  /** `currentStation?.id || null`: an empty id counts as no selection. */
  function CurrentStationId(current: Option<Station>): (r: Option<string>)
    ensures r.Some? <==> current.Some? && current.value.id != ""
    ensures r.Some? ==> r.value == current.value.id
  {
    if current.Some? && current.value.id != "" then Some(current.value.id) else None
  }

  /** `currentStationId === station.id`. */
  predicate IsActive(s: Station, currentId: Option<string>) {
    currentId == Some(s.id)
  }

  datatype Row = Row(station: Station, active: bool, shownUrl: string)

  datatype View = EmptyDial | Rows(rows: seq<Row>)

  function RowOf(s: Station, currentId: Option<string>): Row {
    Row(s, IsActive(s, currentId), DisplayUrl(s.url))
  }

  /** The rendered list: the empty state for an empty dial, otherwise one row per station in display order. */
  function Render(stations: seq<Station>, currentId: Option<string>): (v: View)
    ensures v.EmptyDial? <==> stations == []
    ensures v.Rows? ==> |v.rows| == |stations|
    ensures v.Rows? ==> forall i :: 0 <= i < |v.rows| ==>
      v.rows[i] == RowOf(SortForDisplay(stations)[i], currentId)
  {
    if stations == [] then EmptyDial
    else
      var sorted := SortForDisplay(stations);
      assert |sorted| == |multiset(sorted)| == |stations|;
      Rows(seq(|sorted|, i requires 0 <= i < |sorted| => RowOf(sorted[i], currentId)))
  }

  /** Each station of the dial appears in exactly as many rows as it occurs, and a row is active iff it shows the selected station. */
  lemma RenderShowsEveryStation(stations: seq<Station>, currentId: Option<string>)
    requires stations != []
    ensures multiset(RowStations(Render(stations, currentId).rows)) == multiset(stations)
    ensures forall row :: row in Render(stations, currentId).rows ==>
      (row.active <==> currentId == Some(row.station.id))
  {
    var rows := Render(stations, currentId).rows;
    assert RowStations(rows) == SortForDisplay(stations);
  }

  function RowStations(rows: seq<Row>): (r: seq<Station>)
    ensures |r| == |rows| && forall i :: 0 <= i < |r| ==> r[i] == rows[i].station
  {
    seq(|rows|, i requires 0 <= i < |rows| => rows[i].station)
  }
}
