// The weather report the demos fetch, and the lookup tables they draw it
// with: the fallback glyph for an OpenWeatherMap icon code, and the colour the
// icon is drawn in (one table in the RTC and MQTT demos, an older one in the
// first weather demo).

module WeatherTables {
  import opened Graphics
  import opened IconEncoder

  /** One entry of the report's `weather` list. */
  datatype Condition = Condition(description: string, icon: string)

  /** The fields of a report the demos use. Temperature and wind speed are
      floats in the report; here they are their one-decimal renderings. */
  datatype WeatherReport = WeatherReport(
    weather: seq<Condition>,
    tempText: string,
    humidity: int,
    windText: string,
    name: string)

  /** The result of the HTTPS request for a report, supplied from outside. */
  datatype FetchOutcome = Fetched(report: WeatherReport) | FetchFailed

  /** What drawing a report needs: `weather[0]` exists (indexing an empty
      list panics) and its icon code has two characters (the colour match
      slices it). */
  predicate ReportDrawable(r: WeatherReport) {
    |r.weather| >= 1 && |r.weather[0].icon| >= 2
  }

  predicate FetchDrawable(o: FetchOutcome) {
    o.Fetched? ==> ReportDrawable(o.report)
  }

  /** The refresh interval of the two clock demos: fifteen minutes, in
      seconds. */
  const WeatherInterval: nat := 15 * 60

  /** The refresh gate of the two clock demos: a full interval since the last
      successful fetch, or no successful fetch yet. */
  predicate ShouldFetch(utc: nat, lastFetch: nat) {
    utc >= lastFetch + WeatherInterval || lastFetch == 0
  }

  /** The temperature suffix of the two clock demos, spelt as their source
      text spells it: a UTF-8 degree sign read as Latin-1, then "C". */
  const MisencodedCelsius: string := "\U{00C2}\U{00B0}C"

  /** The temperature suffix of the first weather demo: degree sign, "C". */
  const Celsius: string := "\U{00B0}C"

  /** `get_weather_symbol` (the same table in all three demos). */
  function WeatherSymbol(code: string): Glyph {
    match code
    case "01d" => SunGlyph
    case "01n" => MoonGlyph
    case "02d" => SunBehindCloudGlyph
    case "02n" => CloudGlyph
    case "03d" => CloudGlyph
    case "03n" => CloudGlyph
    case "04d" => CloudGlyph
    case "04n" => CloudGlyph
    case "09d" => RainGlyph
    case "09n" => RainGlyph
    case "10d" => SunRainGlyph
    case "10n" => RainGlyph
    case "11d" => ThunderGlyph
    case "11n" => ThunderGlyph
    case "13d" => SnowGlyph
    case "13n" => SnowGlyph
    case "50d" => FogGlyph
    case "50n" => FogGlyph
    case _ => UnknownGlyph
  }

  /** The glyph that pictures the same thing as an icon's artwork. */
  function GlyphOfIcon(n: IconName): Glyph {
    match n
    case Sun => SunGlyph
    case Moon => MoonGlyph
    case PartlySunny => SunBehindCloudGlyph
    case Cloud => CloudGlyph
    case Rain => RainGlyph
    case Thunder => ThunderGlyph
    case Snow => SnowGlyph
    case Fog => FogGlyph
  }

  /** The glyph table knows exactly the codes the icon table knows. */
  lemma WeatherSymbolKnownCodes(code: string)
    ensures WeatherSymbol(code) != UnknownGlyph <==> IsIconCode(code)
  {
    if WeatherSymbol(code) != UnknownGlyph {
      var j :| 0 <= j < |IconMap| && IconMap[j].0 == code by {
        var k := match code
          case "01d" => 0 case "01n" => 1 case "02d" => 2 case "02n" => 3
          case "03d" => 4 case "03n" => 5 case "04d" => 6 case "04n" => 7
          case "09d" => 8 case "09n" => 9 case "10d" => 10 case "10n" => 11
          case "11d" => 12 case "11n" => 13 case "13d" => 14 case "13n" => 15
          case "50d" => 16 case _ => 17;
        assert IconMap[k].0 == code;
      }
    }
  }

  /** The glyph pictures the same weather as the icon artwork for every table
      code but one: "10d" has the rain artwork but the sun-and-rain glyph. */
  lemma WeatherSymbolMatchesIcon(code: string, n: IconName)
    requires (code, n) in IconMap
    ensures WeatherSymbol(code) == GlyphOfIcon(n) <==> code != "10d"
  {
  }

  /** Night few-clouds, scattered and broken clouds share the cloud glyph, and
      no other code has it. */
  lemma CloudGlyphCodes(code: string)
    ensures WeatherSymbol(code) == CloudGlyph <==> code in ["02n", "03d", "03n", "04d", "04n"]
  {
  }

  /** `get_weather_icon_color` of the MQTT demo, and the inline table of the
      RTC demo: chosen by the first two characters (slicing a shorter code
      panics). */
  function IconColor(code: string): Color
    requires |code| >= 2
  {
    match code[..2]
    case "01" => Yellow
    case "02" => Yellow
    case "11" => Yellow
    case "09" => Blue
    case "10" => Blue
    case "13" => White
    case "03" => CssGray
    case "04" => CssGray
    case "50" => CssGray
    case _ => White
  }

  /** The inline colour table of the first weather demo. */
  function LegacyIconColor(code: string): Color
    requires |code| >= 2
  {
    match code[..2]
    case "01" => Yellow
    case "02" => Yellow
    case "03" => CssLightGray
    case "04" => CssLightGray
    case "09" => Blue
    case "10" => Blue
    case "11" => Yellow
    case "13" => White
    case "50" => CssGray
    case _ => White
  }

  /** The colour an icon's artwork is drawn in, by what it pictures. */
  function ColorOfIcon(n: IconName): Color {
    match n
    case Sun => Yellow
    case Moon => Yellow
    case PartlySunny => Yellow
    case Thunder => Yellow
    case Rain => Blue
    case Snow => White
    case Cloud => CssGray
    case Fog => CssGray
  }

  /** Every table code is drawn in the colour of what its artwork pictures,
      except "02n": cloud artwork, drawn yellow because of its "02" prefix. */
  lemma IconColorMatchesIcon(code: string, n: IconName)
    requires (code, n) in IconMap
    ensures |code| == 3
    ensures IconColor(code) == ColorOfIcon(n) <==> code != "02n"
  {
    var j :| 0 <= j < |IconMap| && IconMap[j] == (code, n);
    if j == 0 {
      assert code[..2] == "01";
    } else if j == 1 {
      assert code[..2] == "01";
    } else if j == 2 {
      assert code[..2] == "02";
    } else if j == 3 {
      assert code[..2] == "02";
    } else if j == 4 {
      assert code[..2] == "03";
    } else if j == 5 {
      assert code[..2] == "03";
    } else if j == 6 {
      assert code[..2] == "04";
    } else if j == 7 {
      assert code[..2] == "04";
    } else if j == 8 {
      assert code[..2] == "09";
    } else if j == 9 {
      assert code[..2] == "09";
    } else if j == 10 {
      assert code[..2] == "10";
    } else if j == 11 {
      assert code[..2] == "10";
    } else if j == 12 {
      assert code[..2] == "11";
    } else if j == 13 {
      assert code[..2] == "11";
    } else if j == 14 {
      assert code[..2] == "13";
    } else if j == 15 {
      assert code[..2] == "13";
    } else if j == 16 {
      assert code[..2] == "50";
    } else {
      assert code[..2] == "50";
    }
  }

  /** The two colour tables differ exactly on the cloud prefixes "03" and
      "04", which the older table draws light gray. */
  lemma ColorTablesDiffer(code: string)
    requires |code| >= 2
    ensures LegacyIconColor(code) != IconColor(code) <==> code[..2] == "03" || code[..2] == "04"
    ensures LegacyIconColor(code) != IconColor(code) ==>
      LegacyIconColor(code) == CssLightGray && IconColor(code) == CssGray
  {
  }

  /** A prefix outside both tables is drawn white by both. */
  lemma UnknownPrefixIsWhite(code: string)
    requires |code| >= 2
    requires code[..2] !in ["01", "02", "03", "04", "09", "10", "11", "13", "50"]
    ensures IconColor(code) == White && LegacyIconColor(code) == White
  {
  }
}
