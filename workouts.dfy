/** The workout records (script.js:3-47): the fields every workout shares,
    and a payload that is either a running workout's cadence and pace or a
    cycling workout's elevation and speed. */
module Workouts {
  import opened Wrappers
  import Decimal

  datatype Kind = Running | Cycling

  /** Latitude and longitude of the map point the workout was recorded at. */
  datatype Coords = Coords(lat: real, lng: real)

  /** The calendar fields of the creation date that the record uses:
      `getMonth()` (0 for January) and `getDate()` (1 to 31). */
  datatype Date = Date(month: nat, day: nat)

  /** An opaque handle on a map marker; the map library owns what it points at. */
  datatype MarkerHandle = MarkerHandle(handle: nat)

  datatype Metrics =
    | RunningMetrics(cadence: real, pace: real)
    | CyclingMetrics(elevation: real, speed: real)

  datatype Workout = Workout(
    id: nat,
    distance: real,
    duration: real,
    coords: Coords,
    date: Date,
    description: string,
    metrics: Metrics,
    marker: Option<MarkerHandle>)
  {
    /** The `type` field, which the payload determines. */
    function Type(): Kind {
      if metrics.RunningMetrics? then Running else Cycling
    }
  }

  // ---------------------------------------------------------------------
  // Derived metrics

  /** `_calcPace`: minutes per kilometre. */
  function Pace(distance: real, duration: real): (pace: real)
    requires distance > 0.0
    ensures pace * distance == duration
    ensures duration > 0.0 ==> pace > 0.0
  {
    duration / distance
  }

  /** `_calcSpeed`: kilometres per hour, the duration being in minutes. */
  function Speed(distance: real, duration: real): (speed: real)
    requires duration > 0.0
    ensures speed * duration == 60.0 * distance
    ensures distance > 0.0 ==> speed > 0.0
  {
    distance / (duration / 60.0)
  }

  /** A pace that satisfies the law of `Pace` is that pace. */
  lemma PaceDetermined(distance: real, duration: real, pace: real)
    requires distance > 0.0 && pace * distance == duration
    ensures pace == Pace(distance, duration)
  {
    assert (pace - Pace(distance, duration)) * distance == 0.0;
  }

  /** A speed that satisfies the law of `Speed` is that speed. */
  lemma SpeedDetermined(distance: real, duration: real, speed: real)
    requires duration > 0.0 && speed * duration == 60.0 * distance
    ensures speed == Speed(distance, duration)
  {
    assert (speed - Speed(distance, duration)) * duration == 0.0;
  }

  // ---------------------------------------------------------------------
  // Description

  const Months: seq<string> := ["January", "February", "March", "April", "May", "June",
                                "July", "August", "September", "October", "November", "December"]

  function TypeName(k: Kind): string {
    match k
    case Running => "running"
    case Cycling => "cycling"
  }

  function Emoji(k: Kind): string {
    if k == Running then "\U{1F3C3}\U{200D}\U{2642}\U{FE0F}" else "\U{1F6B4}\U{200D}\U{2640}\U{FE0F}"
  }

  /** `toUpperCase` on the lower-case ASCII letters only; every other character
      is left alone, unlike JavaScript, which also maps letters such as 'é'.
      The description only ever applies it to 'r' and 'c'. */
  function UpperCase(c: char): (u: char)
    ensures 'a' <= c <= 'z' ==> 'A' <= u <= 'Z' && u as int - 'A' as int == c as int - 'a' as int
    ensures !('a' <= c <= 'z') ==> u == c
  {
    if 'a' <= c <= 'z' then (c as int - 'a' as int + 'A' as int) as char else c
  }

  /** `String.prototype.replace` with a one-character pattern: only the first
      occurrence of `c` is replaced. */
  function ReplaceFirst(s: string, c: char, d: char): (r: string)
    ensures |r| == |s|
    ensures c !in s ==> r == s
  {
    if s == [] then []
    else if s[0] == c then [d] + s[1..]
    else [s[0]] + ReplaceFirst(s[1..], c, d)
  }

  /** What `replace` does: the first occurrence of `c`, at `i`, becomes `d`
      and every other character is kept. */
  lemma {:induction false} ReplaceFirstAt(s: string, c: char, d: char, i: nat)
    requires i < |s| && s[i] == c
    requires forall j :: 0 <= j < i ==> s[j] != c
    ensures ReplaceFirst(s, c, d) == s[..i] + [d] + s[i + 1..]
  {
    if i > 0 {
      ReplaceFirstAt(s[1..], c, d, i - 1);
      assert s[1..][..i - 1] == s[1..i];
      assert s[1..][i..] == s[i + 1..];
      assert [s[0]] + s[1..i] == s[..i];
    }
  }

  /** The type with its first letter upper-cased, written as the source writes it:
      the first occurrence of the first letter is replaced by its upper case. */
  function Title(k: Kind): (t: string)
    ensures t == if k == Running then "Running" else "Cycling"
  {
    var name := TypeName(k);
    ReplaceFirst(name, name[0], UpperCase(name[0]))
  }

  /** Everything before the month name: emoji, type and the word "on". Its
      length counts Unicode code points; JavaScript's `.length` gives 17, as
      each emoji begins with a surrogate pair. */
  function Header(k: Kind): (h: string)
    ensures |h| == 16
  {
    Emoji(k) + " " + Title(k) + " on "
  }

  /** `_setDescription`, e.g. "🏃‍♂️ Running on April 14". */
  function Description(k: Kind, d: Date): (r: string)
    requires d.month < 12
    ensures Header(k) <= r
  {
    Header(k) + Months[d.month] + " " + Decimal.Render(d.day)
  }

  // Reading a description back, to show that it records the type, the
  // month and the day and nothing is lost.

  /** Index of the first space in `s`, or `|s|` when there is none. */
  function FirstSpace(s: string): (i: nat)
    ensures i <= |s|
    ensures i < |s| ==> s[i] == ' '
    ensures forall j :: 0 <= j < i ==> s[j] != ' '
  {
    if s == [] || s[0] == ' ' then 0 else 1 + FirstSpace(s[1..])
  }

  /** Index of the first occurrence of `x` in `xs`. */
  function IndexIn(xs: seq<string>, x: string): (r: Option<nat>)
    ensures r.None? <==> x !in xs
    ensures r.Some? ==> r.value < |xs| && xs[r.value] == x
    ensures r.Some? ==> forall j :: 0 <= j < r.value ==> xs[j] != x
  {
    if xs == [] then None
    else if xs[0] == x then Some(0)
    else match IndexIn(xs[1..], x)
      case None => None
      case Some(i) => Some(i + 1)
  }

  /** The type whose header `h` is. */
  function KindOfHeader(h: string): Option<Kind> {
    if h == Header(Running) then Some(Running)
    else if h == Header(Cycling) then Some(Cycling)
    else None
  }

  /** Reads "<month name> <day>". */
  function ParseMonthDay(s: string): Option<Date> {
    var i := FirstSpace(s);
    if i == |s| then None
    else
      var month := IndexIn(Months, s[..i]);
      var dayText := s[i + 1..];
      if month.None? || dayText == [] || !Decimal.AllDigits(dayText) then None
      else Some(Date(month.value, Decimal.Value(dayText)))
  }

  function ParseDescription(s: string): Option<(Kind, Date)> {
    if |s| < 16 then None
    else match (KindOfHeader(s[..16]), ParseMonthDay(s[16..]))
      case (Some(k), Some(d)) => Some((k, d))
      case _ => None
  }

  lemma KindOfHeaderOfHeader(k: Kind)
    ensures KindOfHeader(Header(k)) == Some(k)
  {
    assert Header(Running)[0] != Header(Cycling)[0];
  }

  lemma ParseMonthDayOfJoin(d: Date)
    requires d.month < 12
    ensures ParseMonthDay(Months[d.month] + " " + Decimal.Render(d.day)) == Some(d)
  {
    var name := Months[d.month];
    var digits := Decimal.Render(d.day);
    var s := name + " " + digits;
    MonthHasNoSpace(d.month);
    FirstSpaceOfJoin(name, digits);
    assert s[..|name|] == name;
    assert s[|name| + 1..] == digits;
    MonthIndexOfName(d.month);
    Decimal.ValueOfRender(d.day);
  }

  lemma FirstSpaceOfJoin(a: string, b: string)
    requires ' ' !in a
    ensures FirstSpace(a + " " + b) == |a|
  {
    var s := a + " " + b;
    assert s[|a|] == ' ';
    assert forall j :: 0 <= j < |a| ==> s[j] == a[j];
  }

  lemma MonthHasNoSpace(m: nat)
    requires m < 12
    ensures ' ' !in Months[m]
  {
  }

  lemma MonthsAreDistinct(i: nat, j: nat)
    requires i < j < 12
    ensures Months[i] != Months[j]
  {
    var a, b := Months[i], Months[j];
    assert |a| != |b| || a[0] != b[0] || a[1] != b[1] || a[2] != b[2];
  }

  /** `months[m]` looked up by name gives `m` back. */
  lemma MonthIndexOfName(m: nat)
    requires m < 12
    ensures IndexIn(Months, Months[m]) == Some(m)
  {
    forall j | 0 <= j < m
      ensures Months[j] != Months[m]
    {
      MonthsAreDistinct(j, m);
    }
    IndexInFirst(Months, m);
  }

  lemma IndexInFirst(xs: seq<string>, k: nat)
    requires k < |xs|
    requires forall j :: 0 <= j < k ==> xs[j] != xs[k]
    ensures IndexIn(xs, xs[k]) == Some(k)
  {
    assert xs[k] in xs;
  }

  /** The description determines the type and the month and day it was built from. */
  lemma ParseDescriptionOfDescription(k: Kind, d: Date)
    requires d.month < 12
    ensures ParseDescription(Description(k, d)) == Some((k, d))
  {
    var rest := Months[d.month] + " " + Decimal.Render(d.day);
    assert Description(k, d) == Header(k) + rest;
    KindOfHeaderOfHeader(k);
    ParseMonthDayOfJoin(d);
    ParseDescriptionOfJoin(Header(k), rest, k, d);
  }

  lemma ParseDescriptionOfJoin(h: string, rest: string, k: Kind, d: Date)
    requires |h| == 16 && KindOfHeader(h) == Some(k) && ParseMonthDay(rest) == Some(d)
    ensures ParseDescription(h + rest) == Some((k, d))
  {
    assert (h + rest)[..16] == h;
    assert (h + rest)[16..] == rest;
  }

  lemma DescriptionInjective(k1: Kind, d1: Date, k2: Kind, d2: Date)
    requires d1.month < 12 && d2.month < 12
    requires Description(k1, d1) == Description(k2, d2)
    ensures k1 == k2 && d1 == d2
  {
    ParseDescriptionOfDescription(k1, d1);
    ParseDescriptionOfDescription(k2, d2);
  }

  // ---------------------------------------------------------------------
  // Construction

  /** What the constructors establish and no operation later breaks. */
  predicate WellFormed(w: Workout) {
    && w.distance > 0.0
    && w.duration > 0.0
    && w.date.month < 12
    && w.description == Description(w.Type(), w.date)
    && match w.metrics
       case RunningMetrics(cadence, pace) => cadence > 0.0 && pace * w.distance == w.duration
       case CyclingMetrics(_, speed) => speed * w.duration == 60.0 * w.distance
  }

  /** Attaching a marker keeps a record well formed. */
  lemma WellFormedWithMarker(w: Workout, m: Option<MarkerHandle>)
    requires WellFormed(w)
    ensures WellFormed(w.(marker := m))
  {
    assert w.(marker := m).Type() == w.Type();
  }

  /** `new Running(distance, duration, coords, cadence)`; the clock reads
      become the parameters `id` and `date`, and no marker is attached yet. */
  function NewRunning(id: nat, distance: real, duration: real, coords: Coords, date: Date, cadence: real): (w: Workout)
    requires distance > 0.0 && date.month < 12
    ensures w.Type() == Running && w.id == id && w.coords == coords && w.date == date && w.marker == None
    ensures w.distance == distance && w.duration == duration && w.metrics.cadence == cadence
    ensures w.metrics.pace * distance == duration
    ensures duration > 0.0 && cadence > 0.0 ==> WellFormed(w)
  {
    Workout(id, distance, duration, coords, date, Description(Running, date),
            RunningMetrics(cadence, Pace(distance, duration)), None)
  }

  /** `new Cycling(distance, duration, coords, elevation)`. */
  function NewCycling(id: nat, distance: real, duration: real, coords: Coords, date: Date, elevation: real): (w: Workout)
    requires duration > 0.0 && date.month < 12
    ensures w.Type() == Cycling && w.id == id && w.coords == coords && w.date == date && w.marker == None
    ensures w.distance == distance && w.duration == duration && w.metrics.elevation == elevation
    ensures w.metrics.speed * duration == 60.0 * distance
    ensures distance > 0.0 ==> WellFormed(w)
  {
    Workout(id, distance, duration, coords, date, Description(Cycling, date),
            CyclingMetrics(elevation, Speed(distance, duration)), None)
  }
}
