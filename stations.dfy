/**
 * The station dial kept by the application shell: adding one station,
 * importing a playlist, deleting, toggling a favourite and toggling the
 * colour theme. Every operation builds a new list from the old one.
 */
module Stations {
  import opened Optional

  /**
   * The optional `favorite` flag of a station. The built-in default stations
   * leave it out (so JavaScript sees `undefined`), stations added or imported
   * get `false`, and toggling stores `!favorite`.
   */
  datatype Favorite = Unset | Flag(on: bool)

  /** JavaScript truthiness of the flag. */
  predicate IsFavorite(f: Favorite) {
    f == Flag(true)
  }

  /** `!s.favorite`: `undefined` negates to `true`. */
  function Negate(f: Favorite): (r: Favorite)
    ensures r.Flag? && (IsFavorite(r) <==> !IsFavorite(f))
  {
    Flag(!IsFavorite(f))
  }

  datatype Station = Station(id: string, name: string, url: string, addedAt: int, favorite: Favorite)

  /** A playlist entry before it becomes a station: `{ name, url }`. */
  datatype Entry = Entry(name: string, url: string)

  datatype Theme = Dark | Light

  predicate HasId(list: seq<Station>, id: string) {
    exists i :: 0 <= i < |list| && list[i].id == id
  }

  /** `handleAddStation`: the new station goes first, not a favourite; the rest follows unchanged. */
  function AddStation(list: seq<Station>, id: string, name: string, url: string, now: int): (r: seq<Station>)
    ensures |r| == |list| + 1 && r[1..] == list
    ensures r[0] == Station(id, name, url, now, Flag(false))
  {
    [Station(id, name, url, now, Flag(false))] + list
  }

  /**
   * The stations `handleImportStations` prepares from entries, one fresh id
   * each; the clock is read once per entry, so `times[i]` is what it gave
   * for entry `i`.
   */
  function Prepare(entries: seq<Entry>, ids: seq<string>, times: seq<int>): (r: seq<Station>)
    requires |ids| == |entries| && |times| == |entries|
    ensures |r| == |entries|
    ensures forall i :: 0 <= i < |r| ==>
      r[i] == Station(ids[i], entries[i].name, entries[i].url, times[i], Flag(false))
  {
    seq(|entries|, i requires 0 <= i < |entries| =>
      Station(ids[i], entries[i].name, entries[i].url, times[i], Flag(false)))
  }

  /** `handleImportStations`: the prepared stations, in input order, before the existing list. */
  function ImportStations(list: seq<Station>, entries: seq<Entry>, ids: seq<string>, times: seq<int>): (r: seq<Station>)
    requires |ids| == |entries| && |times| == |entries|
    ensures |r| == |entries| + |list| && r[|entries|..] == list
    ensures forall i :: 0 <= i < |entries| ==>
      r[i].id == ids[i] && r[i].name == entries[i].name && r[i].url == entries[i].url
      && r[i].addedAt == times[i] && r[i].favorite == Flag(false)
  {
    Prepare(entries, ids, times) + list
  }

  /** `prev.filter(s => s.id !== id)`. */
  function Without(list: seq<Station>, id: string): (r: seq<Station>)
    ensures |r| <= |list|
    ensures forall s :: s in r <==> s in list && s.id != id
  {
    if list == [] then []
    else if list[0].id == id then Without(list[1..], id)
    else [list[0]] + Without(list[1..], id)
  }

  /** Filtering keeps the order of what it keeps: it distributes over concatenation. */
  lemma {:induction false} WithoutAppend(a: seq<Station>, b: seq<Station>, id: string)
    ensures Without(a + b, id) == Without(a, id) + Without(b, id)
  {
    if a != [] {
      assert (a + b)[0] == a[0] && (a + b)[1..] == a[1..] + b;
      WithoutAppend(a[1..], b, id);
    } else {
      assert a + b == b;
    }
  }

  /** Deleting an id that is not on the dial changes nothing. */
  lemma {:induction false} WithoutAbsent(list: seq<Station>, id: string)
    requires !HasId(list, id)
    ensures Without(list, id) == list
  {
    if list != [] {
      assert !HasId(list[1..], id) by {
        forall i | 0 <= i < |list[1..]| ensures list[1..][i].id != id {
          assert list[1..][i] == list[i + 1];
        }
      }
      WithoutAbsent(list[1..], id);
    }
  }

  /** `handleDeleteStation`: every station with the id goes; the selection is cleared iff it had that id. */
  function DeleteStation(list: seq<Station>, current: Option<Station>, id: string): (r: (seq<Station>, Option<Station>))
    ensures !HasId(r.0, id)
    ensures forall s :: s in r.0 <==> s in list && s.id != id
    ensures r.1 == None <==> current == None || current.value.id == id
    ensures r.1 != None ==> r.1 == current
  {
    (Without(list, id), if current.Some? && current.value.id == id then None else current)
  }

  /** Adding a station with a fresh id and then deleting that id gives the dial back. */
  lemma AddThenDelete(list: seq<Station>, id: string, name: string, url: string, now: int)
    requires !HasId(list, id)
    ensures DeleteStation(AddStation(list, id, name, url, now), None, id).0 == list
  {
    var added := AddStation(list, id, name, url, now);
    assert added[1..] == list;
    WithoutAbsent(list, id);
  }

  /** Importing with fresh ids and then deleting each of them gives the dial back. */
  lemma ImportThenDelete(list: seq<Station>, entries: seq<Entry>, ids: seq<string>, times: seq<int>)
    requires |ids| == |entries| && |times| == |entries|
    requires forall k :: 0 <= k < |ids| ==> !HasId(list, ids[k])
    ensures DeleteAll(ImportStations(list, entries, ids, times), ids) == list
  {
    var prepared := Prepare(entries, ids, times);
    assert ImportStations(list, entries, ids, times) == prepared + list;
    DeleteAllAppend(prepared, list, ids);
    DeleteAllAbsent(list, ids);
    DeletePrepared(prepared, ids);
  }

  /** Deleting the ids of all stations of a list leaves nothing. */
  lemma DeletePrepared(prepared: seq<Station>, ids: seq<string>)
    requires |prepared| == |ids|
    requires forall i :: 0 <= i < |ids| ==> prepared[i].id == ids[i]
    ensures DeleteAll(prepared, ids) == []
  {
    var rest := DeleteAll(prepared, ids);
    DeleteAllMembers(prepared, ids);
    forall k | 0 <= k < |rest| ensures rest[k] in prepared && rest[k].id !in ids {
      assert rest[k] in rest;
    }
    forall i | 0 <= i < |prepared| ensures prepared[i].id in ids {
      assert ids[i] in ids;
    }
  }

  /** Deleting several ids one after another. */
  function DeleteAll(list: seq<Station>, ids: seq<string>): seq<Station>
  {
    if ids == [] then list else Without(DeleteAll(list, ids[..|ids| - 1]), ids[|ids| - 1])
  }

  lemma {:induction false} DeleteAllMembers(list: seq<Station>, ids: seq<string>)
    ensures forall s :: s in DeleteAll(list, ids) <==> s in list && s.id !in ids
  {
    if ids != [] {
      DeleteAllMembers(list, ids[..|ids| - 1]);
      assert forall x :: x in ids <==> x in ids[..|ids| - 1] || x == ids[|ids| - 1] by {
        assert ids == ids[..|ids| - 1] + [ids[|ids| - 1]];
      }
    }
  }

  lemma {:induction false} DeleteAllAppend(a: seq<Station>, b: seq<Station>, ids: seq<string>)
    ensures DeleteAll(a + b, ids) == DeleteAll(a, ids) + DeleteAll(b, ids)
  {
    if ids != [] {
      DeleteAllAppend(a, b, ids[..|ids| - 1]);
      WithoutAppend(DeleteAll(a, ids[..|ids| - 1]), DeleteAll(b, ids[..|ids| - 1]), ids[|ids| - 1]);
    }
  }

  lemma {:induction false} DeleteAllAbsent(list: seq<Station>, ids: seq<string>)
    requires forall k :: 0 <= k < |ids| ==> !HasId(list, ids[k])
    ensures DeleteAll(list, ids) == list
  {
    if ids != [] {
      DeleteAllAbsent(list, ids[..|ids| - 1]);
      WithoutAbsent(list, ids[|ids| - 1]);
    }
  }

  /** `handleToggleFavorite`: the flag of every station with the id flips; nothing else changes. */
  function ToggleFavorite(list: seq<Station>, id: string): (r: seq<Station>)
    ensures |r| == |list|
    ensures forall i :: 0 <= i < |r| ==>
      && r[i].id == list[i].id && r[i].name == list[i].name
      && r[i].url == list[i].url && r[i].addedAt == list[i].addedAt
      && (r[i].favorite == if list[i].id == id then Negate(list[i].favorite) else list[i].favorite)
  {
    seq(|list|, i requires 0 <= i < |list| =>
      if list[i].id == id then list[i].(favorite := Negate(list[i].favorite)) else list[i])
  }

  /** Toggling twice restores whether each station counts as a favourite. */
  lemma ToggleTwiceTruthiness(list: seq<Station>, id: string)
    ensures forall i :: 0 <= i < |list| ==>
      IsFavorite(ToggleFavorite(ToggleFavorite(list, id), id)[i].favorite) == IsFavorite(list[i].favorite)
  {
  }

  /**
   * Toggling twice restores the list exactly iff no station with the id has
   * the flag left out: `!!undefined` is `false`, not `undefined`.
   */
  lemma ToggleTwice(list: seq<Station>, id: string)
    ensures ToggleFavorite(ToggleFavorite(list, id), id) == list
        <==> forall i :: 0 <= i < |list| && list[i].id == id ==> list[i].favorite.Flag?
  {
    var twice := ToggleFavorite(ToggleFavorite(list, id), id);
    if forall i :: 0 <= i < |list| && list[i].id == id ==> list[i].favorite.Flag? {
      assert forall i :: 0 <= i < |list| ==> twice[i] == list[i];
    } else {
      var i :| 0 <= i < |list| && list[i].id == id && list[i].favorite == Unset;
      assert twice[i].favorite != list[i].favorite;
    }
  }

  /** `toggleTheme`. */
  function ToggleTheme(t: Theme): (r: Theme)
    ensures r != t
  {
    if t == Dark then Light else Dark
  }

  lemma ToggleThemeTwice(t: Theme)
    ensures ToggleTheme(ToggleTheme(t)) == t
  {
  }
}
