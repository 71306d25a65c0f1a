// The first weather demo: every pass of its loop fetches the weather, clears
// the screen and draws either the report or an error banner, then waits a
// fixed fifteen minutes. It has no refresh gate and no state besides the
// screen.

module OpenWeatherStation {
  import opened Graphics
  import opened Decimal
  import opened WeatherTables
  import opened IconEncoder
  import opened IconDecoder

  /** The fixed wait after every pass, in milliseconds. */
  const PassDelayMs: nat := 15 * 60 * 1000

  /** What one pass draws for a fetch outcome: a black screen with five text
      lines and the icon, drawn in the colour of the older table; or a red
      screen with "Error". */
  function PassOps(fetch: FetchOutcome, art: IconName -> Grid): seq<DrawOp>
    requires FetchDrawable(fetch)
  {
    match fetch
    case Fetched(r) =>
      var code := r.weather[0].icon;
      [Clear(Black),
       Text(r.name, Point(10, 30), WhiteTransparent),
       Text(r.tempText + Celsius, Point(10, 60), WhiteTransparent),
       Text(r.weather[0].description, Point(10, 90), WhiteTransparent),
       Text("Wind: " + r.windText + " m/s", Point(10, 120), WhiteTransparent),
       Text("Feuchte: " + IntToString(r.humidity) + "%", Point(10, 150), WhiteTransparent)]
      + IconOps(code, LegacyIconColor(code), art)
    case FetchFailed =>
      [Clear(Red), Text("Error", Point(10, 30), WhiteTransparent)]
  }

  /** The operations drawn since the last clear of the screen (all of them if
      it was never cleared): what is visible. */
  function SinceLastClear(ops: seq<DrawOp>): seq<DrawOp> {
    if ops == [] then []
    else if ops[|ops| - 1].Clear? then [ops[|ops| - 1]]
    else SinceLastClear(ops[..|ops| - 1]) + [ops[|ops| - 1]]
  }

  predicate NoClear(ops: seq<DrawOp>) {
    forall i :: 0 <= i < |ops| ==> !ops[i].Clear?
  }

  /** Operations after a clear are what remains visible. */
  lemma {:induction false} SinceLastClearAfterClear(before: seq<DrawOp>, c: Color, after: seq<DrawOp>)
    requires NoClear(after)
    ensures SinceLastClear(before + [Clear(c)] + after) == [Clear(c)] + after
    decreases |after|
  {
    var all := before + [Clear(c)] + after;
    if after == [] {
      assert all[|all| - 1] == Clear(c);
    } else {
      var init := after[..|after| - 1];
      assert all[..|all| - 1] == before + [Clear(c)] + init;
      SinceLastClearAfterClear(before, c, init);
      assert [Clear(c)] + init + [after[|after| - 1]] == [Clear(c)] + after;
    }
  }

  /** Each pass starts with a clear and draws no other, whatever it fetched:
      after any pass, exactly that pass's drawing is visible. */
  lemma PassReplacesScreen(screen: seq<DrawOp>, fetch: FetchOutcome, art: IconName -> Grid)
    requires FetchDrawable(fetch)
    ensures var ops := PassOps(fetch, art);
      ops[0] == Clear(if fetch.Fetched? then Black else Red)
      && SinceLastClear(screen + ops) == ops
  {
    var ops := PassOps(fetch, art);
    var c := if fetch.Fetched? then Black else Red;
    assert ops == [Clear(c)] + ops[1..];
    assert NoClear(ops[1..]);
    SinceLastClearAfterClear(screen, c, ops[1..]);
    assert screen + ops == screen + [Clear(c)] + ops[1..];
  }

  /** A failed fetch leaves only the red error banner visible. */
  lemma ErrorScreen(screen: seq<DrawOp>, art: IconName -> Grid)
    ensures SinceLastClear(screen + PassOps(FetchFailed, art)) == [Clear(Red), Text("Error", Point(10, 30), WhiteTransparent)]
  {
    PassReplacesScreen(screen, FetchFailed, art);
  }

  /** The loop of `main` after setup: the screen and the time spent
      waiting. */
  class OpenWeatherDisplay {
    const art: IconName -> Grid
    var screen: seq<DrawOp>
    var waitedMs: nat

    /** The display is cleared black before the loop starts. */
    constructor(art: IconName -> Grid)
      ensures screen == [Clear(Black)] && waitedMs == 0 && this.art == art
    {
      this.art := art;
      screen := [Clear(Black)];
      waitedMs := 0;
    }

    /** One pass of the loop body: a fetch on every pass, no gate. */
    method Iterate(fetch: FetchOutcome)
      requires FetchDrawable(fetch)
      modifies this
      ensures screen == old(screen) + PassOps(fetch, art)
      ensures waitedMs == old(waitedMs) + PassDelayMs
    {
      match fetch {
        case Fetched(weather) =>
          screen := screen + [Clear(Black)];
          var iconCode := weather.weather[0].icon;
          var iconColor := LegacyIconColor(iconCode);
          screen := screen + [Text(weather.name, Point(10, 30), WhiteTransparent)];
          var tempStr := weather.tempText + Celsius;
          screen := screen + [Text(tempStr, Point(10, 60), WhiteTransparent)];
          screen := screen + [Text(weather.weather[0].description, Point(10, 90), WhiteTransparent)];
          var windStr := "Wind: " + weather.windText + " m/s";
          screen := screen + [Text(windStr, Point(10, 120), WhiteTransparent)];
          var humidityStr := "Feuchte: " + IntToString(weather.humidity) + "%";
          screen := screen + [Text(humidityStr, Point(10, 150), WhiteTransparent)];
          var icon := DrawWeatherIconUnguarded(iconCode, iconColor, art);
          screen := screen + icon;
        case FetchFailed =>
          screen := screen + [Clear(Red)];
          screen := screen + [Text("Error", Point(10, 30), WhiteTransparent)];
      }
      waitedMs := waitedMs + PassDelayMs;
    }
  }
}
