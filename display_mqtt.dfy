// The final demo (Wi-Fi, clock, weather, MQTT): the state shown on screen,
// the drawing of that state, and one pass of the main loop, which refreshes
// the weather at most every fifteen minutes, publishes it, and redraws the
// screen when the shown state changes. The pass is a method on a class that
// holds the loop's variables; a pure function states what one pass does.

module MqttStation {
  import opened Wrappers
  import opened Graphics
  import opened Calendar
  import opened Decimal
  import opened TimeUtils
  import opened WeatherTables
  import opened IconEncoder
  import opened IconDecoder
  import opened MovementQueue

  /** Everything the screen shows; compared field by field to decide on a
      redraw. */
  datatype DisplayState = DisplayState(
    timeStr: string,
    dateStr: string,
    weatherTemp: string,
    weatherDesc: string,
    weatherIcon: string,
    windStr: string,
    humStr: string,
    cityName: string,
    movementEvents: seq<string>)

  /** `DisplayState::new()`. */
  const EmptyState: DisplayState := DisplayState("", "", "", "", "", "", "", "", [])

  /** What the loop needs of a cached report: `weather[0]` exists (indexing
      an empty list panics), and its icon code has two characters whenever a
      city name makes the icon get drawn (slicing a shorter code panics). */
  predicate Drawable(r: WeatherReport) {
    |r.weather| >= 1 && (r.name != "" ==> |r.weather[0].icon| >= 2)
  }

  /** The state a pass builds from the local time, the cached report and the
      movement queue. The zone label is computed from the local fields. */
  function BuildState(local: DateTime, cache: Option<WeatherReport>, events: seq<string>): DisplayState
    requires cache.Some? ==> |cache.value.weather| >= 1
  {
    var clock := DisplayState(
      FormatTime(local.hour, local.minute, local.second),
      FormatDate(local.day, local.month, local.year) + " " + TimezoneStr(local.year, local.month, local.day, local.hour),
      "", "", "", "", "", "", events);
    match cache
    case None => clock
    case Some(r) =>
      clock.(cityName := r.name,
             weatherTemp := r.tempText + MisencodedCelsius,
             weatherDesc := r.weather[0].description,
             weatherIcon := r.weather[0].icon,
             windStr := "W: " + r.windText + "m/s",
             humStr := "H: " + IntToString(r.humidity) + "%")
  }

  /** The time string carries the local second, and the date string ends in
      the label of the local fields. */
  lemma BuildStateClock(local: DateTime, cache: Option<WeatherReport>, events: seq<string>)
    requires ValidDateTime(local)
    requires cache.Some? ==> |cache.value.weather| >= 1
    ensures var s := BuildState(local, cache, events);
      |s.timeStr| == 8 && AllDigits(s.timeStr[6..8]) && ParseNat(s.timeStr[6..8]) == local.second
      && s.movementEvents == events
      && (cache.None? ==> s.cityName == "" && s.weatherIcon == "")
      && (var zone := TimezoneStr(local.year, local.month, local.day, local.hour);
          s.dateStr[|s.dateStr| - |zone|..] == zone
          && (zone == "CEST" <==> IsDst(local.year, local.month, local.day, local.hour)))
  {
    FormatTimeLayout(local.hour, local.minute, local.second);
  }

  /** Near the October changeover the shown label disagrees with the offset
      applied: at 02:30 UTC on 2024-10-27 the clock shows 04:30, two hours
      ahead, labelled "CET". */
  lemma OctoberLabelMismatchOnScreen()
    ensures var s := BuildState(UtcToBerlin(1729996200), None, []);
      s.timeStr == "04:30:00" && s.dateStr == "27.10.2024 CET"
  {
    LabelCanDisagreeInOctober();
    OctoberClockTexts();
  }

  lemma OctoberClockTexts()
    ensures var s := BuildState(DateTime(2024, 10, 27, 4, 30, 0), None, []);
      s.timeStr == "04:30:00" && s.dateStr == "27.10.2024 CET"
  {
    DstFixtures();
    assert NatToString(2024) == "2024" by {
      assert NatToString(202) == "202" by {
        assert NatToString(20) == "20";
      }
    }
  }

  // ---------------------------------------------------------------------
  // Drawing

  /** Event `i` goes to the left column when `i` is even and the right one
      when odd, one row of 20 pixels per pair, starting at y = 220. */
  function EventX(i: nat): int {
    if i % 2 == 0 then 10 else 120
  }

  function EventY(i: nat): int {
    220 + 20 * (i / 2)
  }

  function EventOps(events: seq<string>): seq<DrawOp> {
    seq(|events|, i requires 0 <= i < |events| => Text(events[i], Point(EventX(i), EventY(i)), WhiteOnBlack))
  }

  /** `render_movement_events`: the row offset advances after every odd
      index. */
  method RenderMovementEvents(events: seq<string>) returns (ops: seq<DrawOp>)
    ensures ops == EventOps(events)
  {
    ops := [];
    var yOffset := 220;
    var i := 0;
    while i < |events|
      invariant i <= |events| && |ops| == i
      invariant yOffset == 220 + 20 * (i / 2)
      invariant forall k :: 0 <= k < i ==> ops[k] == Text(events[k], Point(EventX(k), EventY(k)), WhiteOnBlack)
    {
      var xPos := if i % 2 == 0 then 10 else 120;
      ops := ops + [Text(events[i], Point(xPos, yOffset), WhiteOnBlack)];
      if i % 2 != 0 {
        yOffset := yOffset + 20;
      }
      i := i + 1;
    }
  }

  /** The area cleared before the events are drawn: 240x80 at (0, 210). */
  predicate InEventArea(p: Point) {
    0 <= p.x < 240 && 210 <= p.y < 290
  }

  /** Up to six events sit in the cleared area, each at its own position. */
  lemma EventLayoutFits(events: seq<string>, i: nat, j: nat)
    requires |events| <= MaxEvents && i < |events| && j < |events|
    ensures InEventArea(Point(EventX(i), EventY(i))) && OnScreen(Point(EventX(i), EventY(i)))
    ensures (EventX(i), EventY(i)) == (EventX(j), EventY(j)) ==> i == j
  {
  }

  /** The weather part of the screen: five text lines, the icon, the black
      event area, the events. */
  function WeatherBlockOps(s: DisplayState, art: IconName -> Grid): seq<DrawOp>
    requires |s.weatherIcon| >= 2
  {
    [Text(s.cityName, Point(10, 60), WhiteOnBlack),
     Text(s.weatherTemp, Point(10, 90), WhiteOnBlack),
     Text(s.weatherDesc, Point(10, 120), WhiteOnBlack),
     Text(s.windStr, Point(10, 150), WhiteOnBlack),
     Text(s.humStr, Point(10, 180), WhiteOnBlack)]
    + IconOps(s.weatherIcon, IconColor(s.weatherIcon), art)
    + [FillRect(Point(0, 210), 240, 80, Black)]
    + EventOps(s.movementEvents)
  }

  /** Everything `render_display` draws for a state. */
  function DisplayOps(s: DisplayState, art: IconName -> Grid): seq<DrawOp>
    requires s.cityName != "" ==> |s.weatherIcon| >= 2
  {
    [Text(s.dateStr, Point(10, 20), WhiteOnBlack), Text(s.timeStr, Point(10, 40), WhiteOnBlack)]
    + (if s.cityName != "" then WeatherBlockOps(s, art) else [])
  }

  /** `render_display`. */
  method RenderDisplay(s: DisplayState, art: IconName -> Grid) returns (ops: seq<DrawOp>)
    requires s.cityName != "" ==> |s.weatherIcon| >= 2
    ensures ops == DisplayOps(s, art)
  {
    ops := [Text(s.dateStr, Point(10, 20), WhiteOnBlack), Text(s.timeStr, Point(10, 40), WhiteOnBlack)];
    if s.cityName != "" {
      ops := ops + [Text(s.cityName, Point(10, 60), WhiteOnBlack)];
      ops := ops + [Text(s.weatherTemp, Point(10, 90), WhiteOnBlack)];
      ops := ops + [Text(s.weatherDesc, Point(10, 120), WhiteOnBlack)];
      ops := ops + [Text(s.windStr, Point(10, 150), WhiteOnBlack)];
      ops := ops + [Text(s.humStr, Point(10, 180), WhiteOnBlack)];
      var iconColor := IconColor(s.weatherIcon);
      var icon := DrawWeatherIcon(s.weatherIcon, iconColor, art);
      ops := ops + icon;
      ops := ops + [FillRect(Point(0, 210), 240, 80, Black)];
      var eventOps := RenderMovementEvents(s.movementEvents);
      ops := ops + eventOps;
    }
  }

  /** Date and time are always drawn first; the weather block, the clearing
      of the event area and the events only with a city name, and then the
      area is cleared after the icon and before every event. */
  lemma DisplayOpsRules(s: DisplayState, art: IconName -> Grid)
    requires s.cityName != "" ==> |s.weatherIcon| >= 2
    ensures var ops := DisplayOps(s, art);
      |ops| >= 2
      && ops[0] == Text(s.dateStr, Point(10, 20), WhiteOnBlack)
      && ops[1] == Text(s.timeStr, Point(10, 40), WhiteOnBlack)
      && (s.cityName == "" <==> |ops| == 2)
      && (s.cityName != "" ==>
            |ops| == 9 + |s.movementEvents|
            && ops[7] == IconOps(s.weatherIcon, IconColor(s.weatherIcon), art)[0]
            && ops[8] == FillRect(Point(0, 210), 240, 80, Black)
            && ops[9..] == EventOps(s.movementEvents))
  {
  }

  // ---------------------------------------------------------------------
  // The main loop

  /** A report the broker accepted, with its topic; the JSON payload is the
      serialised report. */
  datatype Publication = Publication(topic: string, report: WeatherReport)

  function Topic(city: string): string {
    "weather/" + city
  }

  /** The loop's variables, the cached report, what was published and what
      was drawn. */
  datatype LoopState = LoopState(
    lastWeatherFetch: nat,
    previousState: DisplayState,
    lastSecond: nat,
    cache: Option<WeatherReport>,
    published: seq<Publication>,
    screen: seq<DrawOp>)

  const InitialLoop: LoopState := LoopState(0, EmptyState, 0, None, [], [])

  predicate CacheDrawable(c: Option<WeatherReport>) {
    c.Some? ==> Drawable(c.value)
  }

  predicate OutcomeDrawable(o: FetchOutcome) {
    o.Fetched? ==> Drawable(o.report)
  }

  /** The weather update of a pass whose gate is open. */
  function ApplyFetch(st: LoopState, utc: nat, fetch: FetchOutcome, publishOk: bool, city: string): LoopState {
    match fetch
    case FetchFailed => st
    case Fetched(r) =>
      st.(cache := Some(r),
          published := st.published + (if publishOk then [Publication(Topic(city), r)] else []),
          lastWeatherFetch := utc)
  }

  /** One pass of the loop at UTC second `utc`, given the fetch outcome (used
      only if the gate is open), whether the publish succeeds, the configured
      city, the movement queue's contents and the icon artwork. */
  function Step(st: LoopState, utc: nat, fetch: FetchOutcome, publishOk: bool, city: string,
                events: seq<string>, art: IconName -> Grid): LoopState
    requires CacheDrawable(st.cache) && OutcomeDrawable(fetch)
  {
    var local := UtcToBerlin(utc);
    if local.second == st.lastSecond then st
    else
      var fetched := if ShouldFetch(utc, st.lastWeatherFetch) then ApplyFetch(st, utc, fetch, publishOk, city) else st;
      var current := BuildState(local, fetched.cache, events);
      if current != st.previousState then
        fetched.(lastSecond := local.second, previousState := current, screen := fetched.screen + DisplayOps(current, art))
      else
        fetched.(lastSecond := local.second)
  }

  /** A pass in the same local second changes nothing. */
  lemma StepSkipsSameSecond(st: LoopState, utc: nat, fetch: FetchOutcome, publishOk: bool, city: string,
                            events: seq<string>, art: IconName -> Grid)
    requires CacheDrawable(st.cache) && OutcomeDrawable(fetch)
    requires UtcToBerlin(utc).second == st.lastSecond
    ensures Step(st, utc, fetch, publishOk, city, events, art) == st
  {
  }

  /** The weather part of a pass: the cache and the fetch time change exactly
      when the gate is open and the fetch succeeds, to the new report and the
      current second; a report is published exactly when the broker accepts
      it; a failed publish does not undo the cache update. */
  lemma StepWeatherUpdate(st: LoopState, utc: nat, fetch: FetchOutcome, publishOk: bool, city: string,
                          events: seq<string>, art: IconName -> Grid)
    requires CacheDrawable(st.cache) && OutcomeDrawable(fetch)
    requires UtcToBerlin(utc).second != st.lastSecond
    ensures var st' := Step(st, utc, fetch, publishOk, city, events, art);
      var updated := ShouldFetch(utc, st.lastWeatherFetch) && fetch.Fetched?;
      (updated ==> st'.cache == Some(fetch.report) && st'.lastWeatherFetch == utc)
      && (!updated ==> st'.cache == st.cache && st'.lastWeatherFetch == st.lastWeatherFetch)
      && st'.published == st.published + (if updated && publishOk then [Publication(Topic(city), fetch.report)] else [])
      && st'.cache == Step(st, utc, fetch, !publishOk, city, events, art).cache
      && st'.lastWeatherFetch == Step(st, utc, fetch, !publishOk, city, events, art).lastWeatherFetch
  {
  }

  /** The drawing part of a pass: the shown state is rebuilt from the
      (possibly refreshed) cache, and the screen gets a full redraw exactly
      when it differs from the previous one. */
  lemma StepRedraw(st: LoopState, utc: nat, fetch: FetchOutcome, publishOk: bool, city: string,
                   events: seq<string>, art: IconName -> Grid)
    requires CacheDrawable(st.cache) && OutcomeDrawable(fetch)
    requires UtcToBerlin(utc).second != st.lastSecond
    ensures var st' := Step(st, utc, fetch, publishOk, city, events, art);
      var current := BuildState(UtcToBerlin(utc), st'.cache, events);
      st'.lastSecond == UtcToBerlin(utc).second
      && st'.previousState == current
      && st'.screen == st.screen + (if current != st.previousState then DisplayOps(current, art) else [])
  {
  }

  /** The previous state is empty or shows the last second. */
  predicate ShowsSecond(t: string, second: nat) {
    exists h: nat, m: nat :: h < 24 && m < 60 && t == FormatTime(h, m, second)
  }

  predicate LoopInvariant(st: LoopState) {
    CacheDrawable(st.cache) && st.lastSecond < 60
    && (st.previousState == EmptyState || ShowsSecond(st.previousState.timeStr, st.lastSecond))
  }

  lemma InitialLoopInvariant()
    ensures LoopInvariant(InitialLoop)
  {
  }

  /** The invariant is kept, and every pass that is not skipped redraws: its
      time string shows a new second, so the state always differs from the
      previous one and the equality check never suppresses a redraw. */
  lemma EveryPassRedraws(st: LoopState, utc: nat, fetch: FetchOutcome, publishOk: bool, city: string,
                         events: seq<string>, art: IconName -> Grid)
    requires LoopInvariant(st) && OutcomeDrawable(fetch)
    requires UtcToBerlin(utc).second != st.lastSecond
    ensures var st' := Step(st, utc, fetch, publishOk, city, events, art);
      LoopInvariant(st')
      && st'.previousState != st.previousState
      && st'.screen == st.screen + DisplayOps(st'.previousState, art)
  {
    var local := UtcToBerlin(utc);
    var st' := Step(st, utc, fetch, publishOk, city, events, art);
    StepRedraw(st, utc, fetch, publishOk, city, events, art);
    var current := BuildState(local, st'.cache, events);
    FormatTimeLayout(local.hour, local.minute, local.second);
    if st.previousState == EmptyState {
      assert current.timeStr != EmptyState.timeStr;
    } else {
      var h: nat, m: nat :| h < 24 && m < 60 && st.previousState.timeStr == FormatTime(h, m, st.lastSecond);
      if current.timeStr == st.previousState.timeStr {
        FormatTimeInjective(local.hour, local.minute, local.second, h, m, st.lastSecond);
        assert false;
      }
    }
    assert ShowsSecond(current.timeStr, local.second);
  }

  /** The loop of `main` after setup: the configured city, the icon artwork
      and the shared movement queue, and the variables the loop updates. */
  class WeatherStation {
    const city: string
    const art: IconName -> Grid
    const movements: MovementLog
    var lastWeatherFetch: nat
    var previousState: DisplayState
    var lastSecond: nat
    var cache: Option<WeatherReport>
    var published: seq<Publication>
    var screen: seq<DrawOp>

    function State(): LoopState
      reads this
    {
      LoopState(lastWeatherFetch, previousState, lastSecond, cache, published, screen)
    }

    constructor(city: string, art: IconName -> Grid, movements: MovementLog)
      ensures State() == InitialLoop
      ensures this.city == city && this.art == art && this.movements == movements
    {
      this.city := city;
      this.art := art;
      this.movements := movements;
      lastWeatherFetch := 0;
      previousState := EmptyState;
      lastSecond := 0;
      cache := None;
      published := [];
      screen := [];
    }

    /** One pass of the loop body. */
    method Tick(utc: nat, fetch: FetchOutcome, publishOk: bool)
      requires CacheDrawable(cache) && OutcomeDrawable(fetch)
      modifies this
      ensures State() == Step(old(State()), utc, fetch, publishOk, city, movements.events, art)
    {
      var local := UtcToBerlin(utc);
      var second := local.second;
      if second == lastSecond {
        return;
      }
      ghost var before := State();
      lastSecond := second;

      if utc >= lastWeatherFetch + WeatherInterval || lastWeatherFetch == 0 {
        UpdateWeather(utc, fetch, publishOk);
      }
      assert State() == (if ShouldFetch(utc, before.lastWeatherFetch)
        then ApplyFetch(before, utc, fetch, publishOk, city) else before).(lastSecond := second);

      var current := BuildState(local, cache, movements.events);
      if current != previousState {
        var ops := RenderDisplay(current, art);
        screen := screen + ops;
        previousState := current;
      }
    }

    /** The weather update of a pass whose gate is open: cache the report,
        publish it on the city's topic, and note the time of the fetch; a
        failed fetch changes nothing. */
    method UpdateWeather(utc: nat, fetch: FetchOutcome, publishOk: bool)
      modifies this
      ensures State() == ApplyFetch(old(State()), utc, fetch, publishOk, city)
    {
      match fetch {
        case Fetched(weather) =>
          cache := Some(weather);
          var topic := "weather/" + city;
          if publishOk {
            published := published + [Publication(topic, weather)];
          }
          lastWeatherFetch := utc;
        case FetchFailed =>
      }
    }

    /** A movement message from the listener. */
    method OnMovement(utc: nat)
      modifies movements
      ensures movements.events == Pushed(old(movements.events), MovementStamp(utc))
      ensures old(movements.Valid()) ==> movements.Valid()
    {
      HandleMovementEvent(movements, utc);
    }
  }
}
