// The clock demo without MQTT: every pass of its loop redraws the clock
// line, and when the refresh gate is open and the fetch succeeds it first
// clears the screen and draws the weather. It has no cache and no redraw
// suppression; the loop's only variable is the time of the last fetch.

module RtcStation {
  import opened Wrappers
  import opened Graphics
  import opened Calendar
  import opened Decimal
  import opened TimeUtils
  import opened WeatherTables
  import opened IconEncoder
  import opened IconDecoder
  import MqttStation

  /** What the success arm draws: a black screen, five text lines, the
      icon. */
  function WeatherScreen(r: WeatherReport, art: IconName -> Grid): seq<DrawOp>
    requires ReportDrawable(r)
  {
    var code := r.weather[0].icon;
    [Clear(Black),
     Text(r.name, Point(10, 60), WhiteOnBlack),
     Text(r.tempText + MisencodedCelsius, Point(10, 90), WhiteOnBlack),
     Text(r.weather[0].description, Point(10, 120), WhiteOnBlack),
     Text("W: " + r.windText + "m/s", Point(10, 150), WhiteOnBlack),
     Text("H: " + IntToString(r.humidity) + "%", Point(10, 180), WhiteOnBlack)]
    + IconOps(code, IconColor(code), art)
  }

  /** The clock line of every pass: date and zone label of the local fields,
      then the local time. */
  function ClockOps(local: DateTime): seq<DrawOp> {
    [Text(FormatDate(local.day, local.month, local.year) + " " + TimezoneStr(local.year, local.month, local.day, local.hour),
          Point(10, 20), WhiteOnBlack),
     Text(FormatTime(local.hour, local.minute, local.second), Point(10, 40), WhiteOnBlack)]
  }

  /** The loop's variable and everything drawn so far. */
  datatype RtcState = RtcState(lastWeatherFetch: nat, screen: seq<DrawOp>)

  /** One pass of the loop at UTC second `utc`, given the fetch outcome (used
      only if the gate is open). */
  function RtcStep(st: RtcState, utc: nat, fetch: FetchOutcome, art: IconName -> Grid): RtcState
    requires FetchDrawable(fetch)
  {
    var fetched :=
      if ShouldFetch(utc, st.lastWeatherFetch) && fetch.Fetched? then
        RtcState(utc, st.screen + WeatherScreen(fetch.report, art))
      else st;
    fetched.(screen := fetched.screen + ClockOps(UtcToBerlin(utc)))
  }

  /** The fetch time changes exactly when the gate is open and the fetch
      succeeds, and then the weather is drawn before the clock line; a failed
      or skipped fetch adds nothing but the clock line. */
  lemma RtcStepFetch(st: RtcState, utc: nat, fetch: FetchOutcome, art: IconName -> Grid)
    requires FetchDrawable(fetch)
    ensures var st' := RtcStep(st, utc, fetch, art);
      var updated := ShouldFetch(utc, st.lastWeatherFetch) && fetch.Fetched?;
      st'.lastWeatherFetch == (if updated then utc else st.lastWeatherFetch)
      && st'.screen == st.screen + (if updated then WeatherScreen(fetch.report, art) else []) + ClockOps(UtcToBerlin(utc))
  {
  }

  /** Every pass, whether or not it fetched, keeps what was drawn and ends
      with the clock line of the local time. */
  lemma RtcStepDrawsClock(st: RtcState, utc: nat, fetch: FetchOutcome, art: IconName -> Grid)
    requires FetchDrawable(fetch)
    ensures var st' := RtcStep(st, utc, fetch, art);
      |st'.screen| >= |st.screen| + 2
      && st'.screen[|st'.screen| - 2..] == ClockOps(UtcToBerlin(utc))
      && st'.screen[..|st.screen|] == st.screen
  {
    var st' := RtcStep(st, utc, fetch, art);
    var updated := ShouldFetch(utc, st.lastWeatherFetch) && fetch.Fetched?;
    var drawn := st.screen + (if updated then WeatherScreen(fetch.report, art) else []);
    RtcStepFetch(st, utc, fetch, art);
    assert st'.screen == drawn + ClockOps(UtcToBerlin(utc));
    assert drawn[..|st.screen|] == st.screen;
  }

  /** After a successful fetch at `t > 0`, passes before `t + 900` draw only
      the clock line and keep the fetch time. */
  lemma RtcNoRefetchWithinInterval(st: RtcState, utc: nat, fetch: FetchOutcome, art: IconName -> Grid)
    requires FetchDrawable(fetch)
    requires st.lastWeatherFetch > 0 && utc < st.lastWeatherFetch + WeatherInterval
    ensures RtcStep(st, utc, fetch, art) == RtcState(st.lastWeatherFetch, st.screen + ClockOps(UtcToBerlin(utc)))
  {
  }

  /** The weather drawn here is the weather block of the MQTT demo for the
      same report: the same five lines at the same places, and the same icon
      in the same colour. */
  lemma WeatherScreenMatchesMqtt(r: WeatherReport, local: DateTime, events: seq<string>, art: IconName -> Grid)
    requires ReportDrawable(r)
    ensures var s := MqttStation.BuildState(local, Some(r), events);
      WeatherScreen(r, art)[1..] == MqttStation.WeatherBlockOps(s, art)[..6]
  {
  }

  /** The loop of `main` after setup, over the icon artwork. */
  class RtcClock {
    const art: IconName -> Grid
    var lastWeatherFetch: nat
    var screen: seq<DrawOp>

    function State(): RtcState
      reads this
    {
      RtcState(lastWeatherFetch, screen)
    }

    /** The display is cleared black before the loop starts. */
    constructor(art: IconName -> Grid)
      ensures State() == RtcState(0, [Clear(Black)]) && this.art == art
    {
      this.art := art;
      lastWeatherFetch := 0;
      screen := [Clear(Black)];
    }

    /** One pass of the loop body. */
    method Iterate(utc: nat, fetch: FetchOutcome)
      requires FetchDrawable(fetch)
      modifies this
      ensures State() == RtcStep(old(State()), utc, fetch, art)
    {
      var local := UtcToBerlin(utc);
      if utc >= lastWeatherFetch + WeatherInterval || lastWeatherFetch == 0 {
        match fetch {
          case Fetched(weather) =>
            var ops := DrawWeather(weather);
            screen := screen + ops;
            lastWeatherFetch := utc;
          case FetchFailed =>
        }
      }
      var timeStr := FormatTime(local.hour, local.minute, local.second);
      var dateStr := FormatDate(local.day, local.month, local.year);
      var tzStr := TimezoneStr(local.year, local.month, local.day, local.hour);
      screen := screen + [Text(dateStr + " " + tzStr, Point(10, 20), WhiteOnBlack)];
      screen := screen + [Text(timeStr, Point(10, 40), WhiteOnBlack)];
    }

    /** The success arm's drawing. */
    method DrawWeather(weather: WeatherReport) returns (ops: seq<DrawOp>)
      requires ReportDrawable(weather)
      ensures ops == WeatherScreen(weather, art)
    {
      ops := [Clear(Black)];
      var iconCode := weather.weather[0].icon;
      var iconColor := IconColor(iconCode);
      ops := ops + [Text(weather.name, Point(10, 60), WhiteOnBlack)];
      var tempStr := weather.tempText + MisencodedCelsius;
      ops := ops + [Text(tempStr, Point(10, 90), WhiteOnBlack)];
      ops := ops + [Text(weather.weather[0].description, Point(10, 120), WhiteOnBlack)];
      var windStr := "W: " + weather.windText + "m/s";
      ops := ops + [Text(windStr, Point(10, 150), WhiteOnBlack)];
      var humStr := "H: " + IntToString(weather.humidity) + "%";
      ops := ops + [Text(humStr, Point(10, 180), WhiteOnBlack)];
      var icon := DrawWeatherIcon(iconCode, iconColor, art);
      ops := ops + icon;
    }
  }
}
