/** Validation and construction of a submitted workout (script.js:142-183). */
module Factory {
  import opened Wrappers
  import opened Numbers
  import opened Workouts

  /** The form's fields after unary plus: the selected type and the four
      numeric inputs (both type-specific inputs exist; only one is read). */
  datatype Submission = Submission(kind: Kind, distance: Num, duration: Num, cadence: Num, elevation: Num)

  /** The one rejection the handler reports, `alert('invalid input data')`. */
  datatype ValidationError = InvalidInputData

  /** `_validateUserData`: `inputs.every(Number.isFinite)`. */
  function AllFinite(inputs: seq<Num>): (r: bool)
    ensures r <==> forall i :: 0 <= i < |inputs| ==> IsFinite(inputs[i])
  {
    inputs == [] || (IsFinite(inputs[0]) && AllFinite(inputs[1..]))
  }

  /** `_allPositive`: `inputs.every(input => input > 0)`. */
  function AllPositive(inputs: seq<Num>): (r: bool)
    ensures r <==> forall i :: 0 <= i < |inputs| ==> IsPositive(inputs[i])
  {
    inputs == [] || (IsPositive(inputs[0]) && AllPositive(inputs[1..]))
  }

  /** The guard of each branch: running checks all three inputs for
      positivity, cycling only distance and duration. */
  predicate Accepts(s: Submission): (r: bool)
    ensures r ==> IsFinite(s.distance) && IsPositive(s.distance)
    ensures r ==> IsFinite(s.duration) && IsPositive(s.duration)
  {
    match s.kind
    case Running =>
      var inputs := [s.distance, s.duration, s.cadence];
      assert inputs[0] == s.distance && inputs[1] == s.duration;
      AllFinite(inputs) && AllPositive(inputs)
    case Cycling =>
      var inputs := [s.distance, s.duration, s.elevation];
      var positive := [s.distance, s.duration];
      assert inputs[0] == positive[0] == s.distance && inputs[1] == positive[1] == s.duration;
      AllFinite(inputs) && AllPositive(positive)
  }

  /** A running submission is accepted exactly when distance, duration and
      cadence are all finite and strictly positive. */
  lemma AcceptsRunning(s: Submission)
    requires s.kind == Running
    ensures Accepts(s) <==>
      && s.distance.Finite? && s.distance.value > 0.0
      && s.duration.Finite? && s.duration.value > 0.0
      && s.cadence.Finite? && s.cadence.value > 0.0
  {
    var xs := [s.distance, s.duration, s.cadence];
    assert xs[0] == s.distance && xs[1] == s.duration && xs[2] == s.cadence;
  }

  /** A cycling submission is accepted exactly when distance and duration are
      finite and strictly positive and elevation is finite, whatever its sign. */
  lemma AcceptsCycling(s: Submission)
    requires s.kind == Cycling
    ensures Accepts(s) <==>
      && s.distance.Finite? && s.distance.value > 0.0
      && s.duration.Finite? && s.duration.value > 0.0
      && s.elevation.Finite?
  {
    var xs := [s.distance, s.duration, s.elevation];
    assert xs[0] == s.distance && xs[1] == s.duration && xs[2] == s.elevation;
    var ys := [s.distance, s.duration];
    assert ys[0] == s.distance && ys[1] == s.duration;
  }

  /** The asymmetry: a cycling workout with zero or negative elevation is accepted. */
  lemma NonPositiveElevationAccepted(distance: real, duration: real, elevation: real, cadence: Num)
    requires distance > 0.0 && duration > 0.0 && elevation <= 0.0
    ensures Accepts(Submission(Cycling, Finite(distance), Finite(duration), cadence, Finite(elevation)))
  {
    AcceptsCycling(Submission(Cycling, Finite(distance), Finite(duration), cadence, Finite(elevation)));
  }

  /** The body of `_newWorkout` up to the new object: the guard, then
      `new Running(...)` or `new Cycling(...)`. `id`, `coords` and `date`
      are the clock reads and the map event's point. */
  function Build(s: Submission, id: nat, coords: Coords, date: Date): (r: Result<Workout, ValidationError>)
    requires date.month < 12
    ensures r.Ok? <==> Accepts(s)
    ensures r.Ok? ==> WellFormed(r.value)
    ensures r.Ok? ==>
      && r.value.Type() == s.kind && r.value.id == id && r.value.coords == coords
      && r.value.date == date && r.value.marker == None
      && s.distance == Finite(r.value.distance) && s.duration == Finite(r.value.duration)
    ensures r.Ok? ==> match r.value.metrics
      case RunningMetrics(cadence, _) => s.cadence == Finite(cadence)
      case CyclingMetrics(elevation, _) => s.elevation == Finite(elevation)
  {
    if !Accepts(s) then Err(InvalidInputData)
    else match s.kind
      case Running =>
        AcceptsRunning(s);
        Ok(NewRunning(id, s.distance.value, s.duration.value, coords, date, s.cadence.value))
      case Cycling =>
        AcceptsCycling(s);
        Ok(NewCycling(id, s.distance.value, s.duration.value, coords, date, s.elevation.value))
  }

  /** Running 5 km in 25 minutes gives a pace of 5 min/km. */
  lemma RunningScenario(id: nat, date: Date)
    requires date.month < 12
    ensures
      var r := Build(Submission(Running, Finite(5.0), Finite(25.0), Finite(178.0), Finite(0.0)),
                     id, Coords(51.5, -0.1), date);
      r.Ok? && r.value.metrics.pace == 5.0
  {
    AcceptsRunning(Submission(Running, Finite(5.0), Finite(25.0), Finite(178.0), Finite(0.0)));
  }

  /** Cycling 20 km in 60 minutes gives a speed of 20 km/h. */
  lemma CyclingScenario(id: nat, date: Date)
    requires date.month < 12
    ensures
      var r := Build(Submission(Cycling, Finite(20.0), Finite(60.0), Finite(0.0), Finite(200.0)),
                     id, Coords(40.7, -74.0), date);
      r.Ok? && r.value.metrics.speed == 20.0
  {
    AcceptsCycling(Submission(Cycling, Finite(20.0), Finite(60.0), Finite(0.0), Finite(200.0)));
  }
}
