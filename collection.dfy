/** The ordered collection `#workouts` as a value: lookup by the text id a
    list item carries (script.js:304-308), removal (script.js:359-366) and
    the copy written to storage (script.js:277-285). */
module Collection {
  import opened Wrappers
  import opened Numbers
  import opened Workouts
  import Decimal

  /** `workout.id === +text`: the text id is converted to a number first, and
      a text that is not a number (NaN) matches nothing. */
  predicate Matches(w: Workout, text: string): (r: bool)
    ensures r <==> Decimal.AllDigits(text) && Decimal.Value(text) == w.id
  {
    ToNumber(text) == Finite(w.id as real)
  }

  /** The text id rendered into a list item, `data-id='${workout.id}'`. */
  function ItemId(w: Workout): (t: string)
    ensures Decimal.AllDigits(t) && Matches(w, t)
  {
    ToNumberOfRender(w.id);
    Decimal.Render(w.id)
  }

  predicate UniqueIds(ws: seq<Workout>) {
    forall i, j :: 0 <= i < j < |ws| ==> ws[i].id != ws[j].id
  }

  function Ids(ws: seq<Workout>): set<nat> {
    set i | 0 <= i < |ws| :: ws[i].id
  }

  /** What the application keeps true of its collection: ids are unique,
      every record is as its constructor built it and carries its marker. */
  predicate Consistent(ws: seq<Workout>) {
    && UniqueIds(ws)
    && forall w :: w in ws ==> WellFormed(w) && w.marker.Some?
  }

  /** `push` of a well-formed record with a marker and a new id keeps the collection consistent. */
  lemma ConsistentAppend(ws: seq<Workout>, w: Workout)
    requires Consistent(ws) && WellFormed(w) && w.marker.Some?
    requires forall i :: 0 <= i < |ws| ==> ws[i].id != w.id
    ensures Consistent(ws + [w])
  {
    var r := ws + [w];
    assert forall i :: 0 <= i < |ws| ==> r[i] == ws[i];
  }

  /** `splice` keeps the collection consistent. */
  lemma ConsistentRemoveAt(ws: seq<Workout>, index: nat)
    requires Consistent(ws) && index < |ws|
    ensures Consistent(RemoveAt(ws, index))
  {
    var r := RemoveAt(ws, index);
    assert forall i :: 0 <= i < |r| ==> r[i] == if i < index then ws[i] else ws[i + 1];
  }

  /** `Array.prototype.indexOf`: the first position of `w`, or -1. JavaScript
      compares objects by identity and this compares values; `Delete` only
      asks for the entry `Find` returned, the first with its id, so both give
      the same position. */
  function IndexOf(ws: seq<Workout>, w: Workout): (i: int)
    ensures -1 <= i < |ws|
    ensures i == -1 <==> w !in ws
    ensures 0 <= i ==> ws[i] == w && forall j :: 0 <= j < i ==> ws[j] != w
  {
    if ws == [] then -1
    else if ws[0] == w then 0
    else var k := IndexOf(ws[1..], w); if k == -1 then -1 else k + 1
  }

  /** `_findWorkoutObj`: `Array.prototype.find`, the first entry whose id
      matches the text, or `undefined`. */
  function Find(ws: seq<Workout>, text: string): (r: Option<Workout>)
    ensures r.None? <==> forall i :: 0 <= i < |ws| ==> !Matches(ws[i], text)
    ensures r.Some? ==> Matches(r.value, text) && r.value in ws
    ensures r.Some? ==> forall j :: 0 <= j < IndexOf(ws, r.value) ==> !Matches(ws[j], text)
  {
    if ws == [] then None
    else if Matches(ws[0], text) then Some(ws[0])
    else Find(ws[1..], text)
  }

  /** `splice(index, 1)` at an index inside the array. */
  function RemoveAt(ws: seq<Workout>, index: nat): (r: seq<Workout>)
    requires index < |ws|
    ensures |r| == |ws| - 1
    ensures forall j :: 0 <= j < index ==> r[j] == ws[j]
    ensures forall j :: index <= j < |r| ==> r[j] == ws[j + 1]
  {
    ws[..index] + ws[index + 1..]
  }

  /** `_deleteWorkout` on the collection: find the entry, locate it with
      `indexOf`, splice it out. No entry: the handler throws before the splice. */
  function Delete(ws: seq<Workout>, text: string): (r: Option<seq<Workout>>)
    ensures r.None? <==> Find(ws, text).None?
    ensures r.Some? ==> |r.value| == |ws| - 1
  {
    match Find(ws, text)
    case None => None
    case Some(w) => Some(RemoveAt(ws, IndexOf(ws, w)))
  }

  /** Reference definition for deletion: the entries with another id, in order. */
  function Without(ws: seq<Workout>, id: nat): (r: seq<Workout>)
    ensures forall w :: w in r <==> w in ws && w.id != id
    ensures |r| <= |ws|
  {
    if ws == [] then []
    else if ws[0].id == id then Without(ws[1..], id)
    else [ws[0]] + Without(ws[1..], id)
  }

  lemma {:induction false} WithoutAbsent(ws: seq<Workout>, id: nat)
    requires forall i :: 0 <= i < |ws| ==> ws[i].id != id
    ensures Without(ws, id) == ws
  {
    if ws != [] {
      WithoutAbsent(ws[1..], id);
    }
  }

  lemma {:induction false} WithoutAppend(ws: seq<Workout>, w: Workout, id: nat)
    requires w.id != id
    ensures Without(ws + [w], id) == Without(ws, id) + [w]
  {
    if ws == [] {
      assert [w][1..] == [];
    } else {
      assert (ws + [w])[1..] == ws[1..] + [w];
      WithoutAppend(ws[1..], w, id);
    }
  }

  /** With unique ids, deleting by a text id that matches an entry removes
      exactly the entries carrying that entry's id and keeps the rest in order;
      the collection shrinks by one. */
  lemma {:induction false} DeleteIsWithout(ws: seq<Workout>, text: string)
    requires UniqueIds(ws) && Find(ws, text).Some?
    ensures Delete(ws, text) == Some(Without(ws, Find(ws, text).value.id))
  {
    var w := Find(ws, text).value;
    if Matches(ws[0], text) {
      DeleteHead(ws, text);
    } else {
      var tail := ws[1..];
      assert UniqueIds(tail) by {
        assert forall i :: 0 <= i < |tail| ==> tail[i] == ws[i + 1];
      }
      DeleteIsWithout(tail, text);
      DeleteStep(ws, text);
    }
  }

  /** One step of the induction: an unmatched first entry stays in front. */
  lemma DeleteStep(ws: seq<Workout>, text: string)
    requires ws != [] && !Matches(ws[0], text) && Find(ws[1..], text).Some?
    requires Delete(ws[1..], text) == Some(Without(ws[1..], Find(ws[1..], text).value.id))
    ensures Delete(ws, text) == Some(Without(ws, Find(ws, text).value.id))
  {
    var tail := ws[1..];
    var w := Find(tail, text).value;
    assert Find(ws, text) == Some(w);
    assert ws[0].id != w.id;
    var i := IndexOf(tail, w);
    assert IndexOf(ws, w) == i + 1;
    RemoveAtAfterFirst(ws, i);
    assert Without(ws, w.id) == [ws[0]] + Without(tail, w.id);
  }

  lemma RemoveAtAfterFirst(ws: seq<Workout>, i: nat)
    requires i + 1 < |ws|
    ensures RemoveAt(ws, i + 1) == [ws[0]] + RemoveAt(ws[1..], i)
  {
    var tail := ws[1..];
    assert ws[..i + 1] == [ws[0]] + tail[..i];
    assert ws[i + 2..] == tail[i + 1..];
  }

  lemma DeleteHead(ws: seq<Workout>, text: string)
    requires UniqueIds(ws) && ws != [] && Matches(ws[0], text)
    ensures Delete(ws, text) == Some(Without(ws, ws[0].id))
  {
    assert RemoveAt(ws, 0) == ws[1..];
    assert forall i :: 0 <= i < |ws[1..]| ==> ws[1..][i].id == ws[i + 1].id != ws[0].id;
    WithoutAbsent(ws[1..], ws[0].id);
  }

  /** Looking up an entry by the text id its list item shows finds that entry. */
  lemma FindItemId(ws: seq<Workout>, k: nat)
    requires UniqueIds(ws) && k < |ws|
    ensures Find(ws, ItemId(ws[k])) == Some(ws[k])
  {
    ToNumberOfRender(ws[k].id);
    FindOnlyMatch(ws, k, ItemId(ws[k]));
  }

  /** With unique ids, an entry that matches is the one `find` returns. */
  lemma FindOnlyMatch(ws: seq<Workout>, k: nat, text: string)
    requires UniqueIds(ws) && k < |ws| && Matches(ws[k], text)
    ensures Find(ws, text) == Some(ws[k])
  {
    var i := IndexOf(ws, Find(ws, text).value);
    assert Matches(ws[i], text);
    assert ws[i].id == ws[k].id;
  }

  /** Appending an entry whose id does not match leaves any lookup unchanged. */
  lemma {:induction false} FindAppend(ws: seq<Workout>, w: Workout, text: string)
    requires !Matches(w, text)
    ensures Find(ws + [w], text) == Find(ws, text)
  {
    if ws == [] {
      assert ([] + [w])[1..] == [];
    } else {
      assert (ws + [w])[1..] == ws[1..] + [w];
      FindAppend(ws[1..], w, text);
    }
  }

  // ---------------------------------------------------------------------
  // The stored copy

  /** `{ ...workout, marker: null }`: every field copied, the marker dropped. */
  function StripMarker(w: Workout): (c: Workout)
    ensures c.marker == None
    ensures c.(marker := w.marker) == w
  {
    w.(marker := None)
  }

  /** `_storeWorkoutDataToLocalStorage`'s `map`: the copy that is serialised. */
  function Snapshot(ws: seq<Workout>): (r: seq<Workout>)
    ensures |r| == |ws|
    ensures forall i :: 0 <= i < |ws| ==> r[i].marker == None && r[i].(marker := ws[i].marker) == ws[i]
  {
    if ws == [] then [] else [StripMarker(ws[0])] + Snapshot(ws[1..])
  }

  /** Taking the snapshot of a snapshot changes nothing. */
  lemma SnapshotIdempotent(ws: seq<Workout>)
    ensures Snapshot(Snapshot(ws)) == Snapshot(ws)
  {
    var s := Snapshot(ws);
    assert forall i :: 0 <= i < |ws| ==> Snapshot(s)[i] == s[i];
  }

  /** The snapshot of the array after a `push` is the old snapshot with the
      new entry's copy at the end. */
  lemma {:induction false} SnapshotAppend(ws: seq<Workout>, w: Workout)
    ensures Snapshot(ws + [w]) == Snapshot(ws) + [StripMarker(w)]
  {
    if ws == [] {
      assert [] + [w] == [w];
    } else {
      assert (ws + [w])[1..] == ws[1..] + [w];
      SnapshotAppend(ws[1..], w);
    }
  }

  /** The ids of the snapshot are those of the collection. */
  lemma SnapshotIds(ws: seq<Workout>)
    ensures Ids(Snapshot(ws)) == Ids(ws)
    ensures UniqueIds(ws) ==> UniqueIds(Snapshot(ws))
  {
    var s := Snapshot(ws);
    assert forall i :: 0 <= i < |ws| ==> s[i].id == ws[i].id;
  }
}
