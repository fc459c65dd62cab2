/** The `App` class (script.js:59-376) without its user-interface and map
    plumbing: the ordered collection `#workouts`, the form mode `#mapEvent`,
    the visibility of the "clear all" button and the stored copy. */
module Lifecycle {
  import opened Wrappers
  import opened Numbers
  import opened Workouts
  import opened Factory
  import opened Collection

  /** What `_showForm` records in `#mapEvent`: a plain map click (create
      mode), or the object `_editWorkout` builds, whose `update` flag is set
      and which names the list item being edited by its text id. */
  datatype MapEvent =
    | MapClick(latlng: Coords)
    | EditRequest(latlng: Coords, selected: string)

  /** How a submission ends. `Aborted`: no map event yet, the handler throws
      reading `latlng`. `Invalid`: the guard rejected the input. `Created`
      and `Replaced`: the new workout is stored (and in edit mode the target
      removed). `TargetMissing`: edit mode, the new workout is stored, then
      the target could not be found and the delete step throws. */
  datatype SubmitOutcome = Aborted | Invalid | Created | Replaced | TargetMissing

  /** The collection after an accepted submission of `w` in mode `ev`: pushed
      at the end, then in edit mode the target deleted (script.js:192, 204-205). */
  function AfterAccept(ws: seq<Workout>, ev: MapEvent, w: Workout): (r: seq<Workout>)
    ensures ev.MapClick? ==> r == ws + [w]
    ensures ev.EditRequest? ==>
      |r| == |ws| + (if Find(ws + [w], ev.selected).None? then 1 else 0)
  {
    match ev
    case MapClick(_) => ws + [w]
    case EditRequest(_, selected) =>
      match Delete(ws + [w], selected)
      case None => ws + [w]
      case Some(rest) => rest
  }

  /** An accepted edit of an entry that is present replaces it: the size is
      unchanged, no entry keeps the old id, the others keep their order and the
      new workout comes last. */
  lemma EditReplaces(ws: seq<Workout>, latlng: Coords, selected: string, w: Workout)
    requires UniqueIds(ws) && Find(ws, selected).Some?
    requires forall i :: 0 <= i < |ws| ==> ws[i].id != w.id
    ensures var old_id := Find(ws, selected).value.id;
      && AfterAccept(ws, EditRequest(latlng, selected), w) == Without(ws, old_id) + [w]
      && |AfterAccept(ws, EditRequest(latlng, selected), w)| == |ws|
      && forall x :: x in AfterAccept(ws, EditRequest(latlng, selected), w) ==> x.id != old_id
  {
    var target := Find(ws, selected).value;
    assert !Matches(w, selected);
    FindAppend(ws, w, selected);
    var pushed := ws + [w];
    assert UniqueIds(pushed);
    DeleteIsWithout(pushed, selected);
    WithoutAppend(ws, w, target.id);
  }

  /** An accepted edit whose target is gone only appends. */
  lemma EditWithoutTargetAppends(ws: seq<Workout>, latlng: Coords, selected: string, w: Workout)
    requires Find(ws, selected).None? && !Matches(w, selected)
    ensures AfterAccept(ws, EditRequest(latlng, selected), w) == ws + [w]
  {
    FindAppend(ws, w, selected);
  }

  /** The form contents `_editWorkout` writes (script.js:338-351) after
      `_showForm` has emptied every input; an empty input reads as 0. */
  function Prefill(t: Workout): (s: Submission)
    ensures s.kind == t.Type()
    ensures s.distance == Finite(t.distance) && s.duration == Finite(t.duration)
    ensures t.metrics.RunningMetrics? ==>
      s.cadence == Finite(t.metrics.cadence) && s.elevation == Finite(0.0)
    ensures t.metrics.CyclingMetrics? ==>
      s.elevation == Finite(t.metrics.elevation) && s.cadence == Finite(0.0)
  {
    match t.metrics
    case RunningMetrics(cadence, _) =>
      Submission(Running, Finite(t.distance), Finite(t.duration), Finite(cadence), ToNumber(""))
    case CyclingMetrics(elevation, _) =>
      Submission(Cycling, Finite(t.distance), Finite(t.duration), ToNumber(""), Finite(elevation))
  }

  /** The prefilled form of a well-formed workout passes its type's guard. */
  lemma PrefillAccepted(t: Workout)
    requires WellFormed(t)
    ensures Accepts(Prefill(t))
  {
    var s := Prefill(t);
    if t.metrics.RunningMetrics? {
      AcceptsRunning(s);
    } else {
      AcceptsCycling(s);
    }
  }

  /** Submitting the prefilled form unchanged is accepted and rebuilds the
      same workout under the new id and date. */
  lemma PrefillRebuilds(t: Workout, id: nat, date: Date)
    requires WellFormed(t) && date.month < 12
    ensures Build(Prefill(t), id, t.coords, date)
         == Ok(t.(id := id, date := date, description := Description(t.Type(), date), marker := None))
  {
    var s := Prefill(t);
    var expected := t.(id := id, date := date, description := Description(t.Type(), date), marker := None);
    match t.metrics {
      case RunningMetrics(cadence, pace) =>
        AcceptsRunning(s);
        PaceDetermined(t.distance, t.duration, pace);
        assert Build(s, id, t.coords, date).value == expected;
      case CyclingMetrics(elevation, speed) =>
        AcceptsCycling(s);
        SpeedDetermined(t.distance, t.duration, speed);
        assert Build(s, id, t.coords, date).value == expected;
    }
  }

  class App {
    var workouts: seq<Workout>
    var mapEvent: Option<MapEvent>
    var clearVisible: bool
    /** The storage entry 'workouts', as the value that is serialised. */
    var stored: Option<seq<Workout>>

    ghost predicate Valid()
      reads this`workouts, this`clearVisible, this`stored
    {
      && Consistent(workouts)
      && clearVisible == (|workouts| > 0)
      && (stored == Some(Snapshot(workouts)) || (stored == None && workouts == []))
    }

    /** A fresh application before anything was loaded. */
    constructor ()
      ensures Valid()
      ensures workouts == [] && mapEvent == None && !clearVisible && stored == None
    {
      workouts := [];
      mapEvent := None;
      clearVisible := false;
      stored := None;
    }

    /** `_showForm`: the map event (or edit request) becomes the form mode. */
    method ShowForm(ev: MapEvent)
      modifies this`mapEvent
      ensures mapEvent == Some(ev)
    {
      mapEvent := Some(ev);
    }

    /** `_storeWorkoutDataToLocalStorage`. */
    method StoreWorkouts()
      modifies this`stored
      ensures stored == Some(Snapshot(workouts))
    {
      stored := Some(Snapshot(workouts));
    }

    /** The steps of `_newWorkout` after the object is built: `push`, show
        the "clear all" button, store the collection. */
    method PushWorkout(workout: Workout)
      requires Valid() && WellFormed(workout) && workout.marker.Some?
      requires forall i :: 0 <= i < |workouts| ==> workouts[i].id != workout.id
      modifies this`workouts, this`clearVisible, this`stored
      ensures Valid()
      ensures workouts == old(workouts) + [workout]
      ensures clearVisible && stored == Some(Snapshot(workouts))
    {
      ConsistentAppend(workouts, workout);
      workouts := workouts + [workout];
      clearVisible := true;
      StoreWorkouts();
    }

    /** `_deleteWorkout`: returns the marker to take off the map, or None when
        no entry matches and the handler throws before changing anything. */
    method DeleteWorkout(selected: string) returns (released: Option<MarkerHandle>)
      requires Valid()
      modifies this`workouts, this`clearVisible, this`stored
      ensures Valid()
      ensures released.None? <==> Find(old(workouts), selected).None?
      ensures released.None? ==>
        workouts == old(workouts) && clearVisible == old(clearVisible) && stored == old(stored)
      ensures released.Some? ==>
        && released == Find(old(workouts), selected).value.marker
        && workouts == Delete(old(workouts), selected).value
        && |workouts| == |old(workouts)| - 1
        && stored == Some(Snapshot(workouts))
        && (clearVisible <==> |workouts| >= 1)
    {
      var found := Find(workouts, selected);
      if found.None? {
        return None;
      }
      var workout := found.value;
      released := workout.marker;
      var index := IndexOf(workouts, workout);
      ConsistentRemoveAt(workouts, index);
      workouts := RemoveAt(workouts, index);
      StoreWorkouts();
      if |workouts| < 1 {
        clearVisible := false;
      }
    }

    /** `_editWorkout`: look the entry up, record an edit request that reuses
        its coordinates, and return the form contents. None: no entry matches
        and the handler throws before changing anything. */
    method EditWorkout(selected: string) returns (prefill: Option<Submission>)
      requires Valid()
      modifies this`mapEvent
      ensures Valid()
      ensures prefill.None? <==> Find(workouts, selected).None?
      ensures prefill.None? ==> mapEvent == old(mapEvent)
      ensures prefill.Some? ==>
        var target := Find(workouts, selected).value;
        mapEvent == Some(EditRequest(target.coords, selected)) && prefill == Some(Prefill(target))
    {
      var found := Find(workouts, selected);
      if found.None? {
        return None;
      }
      var target := found.value;
      prefill := Some(Prefill(target));
      ShowForm(EditRequest(target.coords, selected));
    }

    /** `_moveToMarker`: the loop keeps the last entry whose id matches; the
        result is the point the map is centred on, None if nothing matches. */
    method MoveToMarker(selected: string) returns (view: Option<Coords>)
      requires UniqueIds(workouts)
      ensures view.None? <==> forall i :: 0 <= i < |workouts| ==> !Matches(workouts[i], selected)
      ensures view.Some? ==>
        exists i :: (&& 0 <= i < |workouts| && Matches(workouts[i], selected)
                     && workouts[i].coords == view.value
                     && forall j :: i < j < |workouts| ==> !Matches(workouts[j], selected))
      ensures view == match Find(workouts, selected) case None => None case Some(w) => Some(w.coords)
    {
      var found: Option<Workout> := None;
      ghost var at: int := -1;
      for k := 0 to |workouts|
        invariant -1 <= at < k
        invariant found == if at == -1 then None else Some(workouts[at])
        invariant at != -1 ==> Matches(workouts[at], selected)
        invariant forall j :: at < j < k && 0 <= j ==> !Matches(workouts[j], selected)
      {
        if Matches(workouts[k], selected) {
          found := Some(workouts[k]);
          at := k;
        }
      }
      if found.None? {
        return None;
      }
      view := Some(found.value.coords);
      var first := Find(workouts, selected).value;
      var i := IndexOf(workouts, first);
      assert workouts[i].id == workouts[at].id;
    }

    /** `_newWorkout`. `id`, `date` and `marker` stand for the clock reads and
        the marker the map library creates. */
    method NewWorkout(s: Submission, id: nat, date: Date, marker: MarkerHandle)
      returns (outcome: SubmitOutcome, released: Option<MarkerHandle>)
      requires Valid() && date.month < 12
      requires forall i :: 0 <= i < |workouts| ==> workouts[i].id != id
      modifies this`workouts, this`clearVisible, this`stored
      ensures Valid()
      ensures old(mapEvent).None? ==> outcome == Aborted
      ensures old(mapEvent).Some? && !Accepts(s) ==> outcome == Invalid
      ensures outcome in {Aborted, Invalid} ==>
        && released == None
        && workouts == old(workouts) && clearVisible == old(clearVisible) && stored == old(stored)
      ensures old(mapEvent).Some? && Accepts(s) ==>
        var ev := old(mapEvent).value;
        var w := Build(s, id, ev.latlng, date).value.(marker := Some(marker));
        && workouts == AfterAccept(old(workouts), ev, w)
        && stored == Some(Snapshot(workouts))
        && outcome == (if ev.MapClick? then Created else if released.Some? then Replaced else TargetMissing)
        && (ev.MapClick? ==> released == None)
        && (ev.EditRequest? ==> released.None? == Find(old(workouts) + [w], ev.selected).None?)
        && (ev.EditRequest? && released.Some? ==> released == Find(old(workouts) + [w], ev.selected).value.marker)
    {
      released := None;
      if mapEvent.None? {
        return Aborted, None;
      }
      var ev := mapEvent.value;
      var built := Build(s, id, ev.latlng, date);
      if built.Err? {
        return Invalid, None;
      }
      var workout := built.value.(marker := Some(marker));
      WellFormedWithMarker(built.value, Some(marker));
      PushWorkout(workout);
      outcome := Created;
      if ev.EditRequest? {
        released := DeleteWorkout(ev.selected);
        outcome := if released.Some? then Replaced else TargetMissing;
      }
    }
  }

  /** The edit flow end to end: `_editWorkout` on a list item, then the
      submission of the form. A valid edit replaces the target by a workout
      built from the form at the target's coordinates; an invalid one changes
      nothing, so the target is still there. */
  method EditSession(app: App, selected: string, s: Submission, id: nat, date: Date, marker: MarkerHandle)
    returns (outcome: SubmitOutcome)
    requires app.Valid() && date.month < 12
    requires Find(app.workouts, selected).Some?
    requires forall i :: 0 <= i < |app.workouts| ==> app.workouts[i].id != id
    modifies app
    ensures app.Valid()
    ensures var target := Find(old(app.workouts), selected).value;
      if Accepts(s) then
        && outcome == Replaced
        && app.workouts == Without(old(app.workouts), target.id)
                           + [Build(s, id, target.coords, date).value.(marker := Some(marker))]
        && |app.workouts| == |old(app.workouts)|
        && forall x :: x in app.workouts ==> x.id != target.id
      else
        && outcome == Invalid
        && app.workouts == old(app.workouts)
        && app.stored == old(app.stored) && app.clearVisible == old(app.clearVisible)
        && target in app.workouts
  {
    var target := Find(app.workouts, selected).value;
    var prefill := app.EditWorkout(selected);
    ghost var before := app.workouts;
    var w := Build(s, id, target.coords, date);
    if w.Ok? {
      assert !Matches(w.value.(marker := Some(marker)), selected);
      FindAppend(before, w.value.(marker := Some(marker)), selected);
      EditReplaces(before, target.coords, selected, w.value.(marker := Some(marker)));
    }
    var released;
    outcome, released := app.NewWorkout(s, id, date, marker);
  }

  /** The create flow end to end: a map click, then the submission of the
      form. A valid submission appends exactly one workout, built from the
      form at the clicked point; the entries before it are untouched. */
  method CreateSession(app: App, latlng: Coords, s: Submission, id: nat, date: Date, marker: MarkerHandle)
    returns (outcome: SubmitOutcome)
    requires app.Valid() && date.month < 12
    requires forall i :: 0 <= i < |app.workouts| ==> app.workouts[i].id != id
    modifies app
    ensures app.Valid()
    ensures if Accepts(s) then
        && outcome == Created
        && app.workouts == old(app.workouts) + [Build(s, id, latlng, date).value.(marker := Some(marker))]
      else
        && outcome == Invalid
        && app.workouts == old(app.workouts)
        && app.stored == old(app.stored) && app.clearVisible == old(app.clearVisible)
  {
    app.ShowForm(MapClick(latlng));
    var released;
    outcome, released := app.NewWorkout(s, id, date, marker);
  }

  /** Two workouts added, then the first deleted: the list and the stored
      copy hold only the second. */
  method AddTwoDeleteFirst(date: Date) returns (added: seq<Workout>, remaining: seq<Workout>, storedAfter: Option<seq<Workout>>)
    requires date.month < 12
    ensures |added| == 2 && added[0].id == 1 && added[1].id == 2
    ensures added[0].Type() == Running && added[1].Type() == Cycling
    ensures remaining == [added[1]]
    ensures storedAfter == Some(Snapshot([added[1]]))
  {
    var app := new App();
    var a := Submission(Running, Finite(5.0), Finite(25.0), Finite(178.0), ToNumber(""));
    var b := Submission(Cycling, Finite(20.0), Finite(60.0), ToNumber(""), Finite(200.0));
    AcceptsRunning(a);
    AcceptsCycling(b);
    var outcome := CreateSession(app, Coords(51.5, -0.1), a, 1, date, MarkerHandle(0));
    outcome := CreateSession(app, Coords(40.7, -74.0), b, 2, date, MarkerHandle(1));
    added := app.workouts;
    FindItemId(added, 0);
    var released := app.DeleteWorkout(ItemId(added[0]));
    assert RemoveAt(added, 0) == [added[1]];
    remaining := app.workouts;
    storedAfter := app.stored;
  }
}
