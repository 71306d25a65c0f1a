// The firmware's icon decoder: a 40x40 bitmap, one bit per pixel, most
// significant bit first, turned into coloured pixels at (160, 70) on the
// screen. The MQTT and RTC demos check the byte index against the length of
// the data; the first weather demo indexes without that check. Paired with the
// converter script's packing, decoding gives back exactly the black pixels.

module IconDecoder {
  import opened Wrappers
  import opened Graphics
  import opened IconEncoder
  import opened WeatherTables

  const IconLeft: int := 160
  const IconTop: int := 70

  /** Whether the decoder emits pixel (x, y) of the icon: byte `5*y + x/8`
      exists and its bit `7 - x%8` is set. */
  predicate Lit(data: seq<bv8>, x: nat, y: nat) {
    5 * y + x / 8 < |data| && (data[5 * y + x / 8] >> (7 - x % 8)) & 1 == 1
  }

  function IconPixel(x: nat, y: nat, color: Color): Pixel {
    Pixel(Point(IconLeft + x, IconTop + y), color)
  }

  /** The pixels emitted for columns `0 .. n-1` of row `y`, left to right. */
  function RowPixels(data: seq<bv8>, color: Color, y: nat, n: nat): seq<Pixel>
  {
    if n == 0 then []
    else RowPixels(data, color, y, n - 1) + (if Lit(data, n - 1, y) then [IconPixel(n - 1, y, color)] else [])
  }

  /** The pixels emitted for rows `0 .. m-1`, top to bottom. */
  function RowsPixels(data: seq<bv8>, color: Color, m: nat): seq<Pixel>
  {
    if m == 0 then [] else RowsPixels(data, color, m - 1) + RowPixels(data, color, m - 1, IconSize)
  }

  /** Everything the decoder emits for an icon, in emission order. */
  function Decode(data: seq<bv8>, color: Color): seq<Pixel> {
    RowsPixels(data, color, IconSize)
  }

  /** One step of the column loop: the pixel is appended exactly when lit. */
  lemma RowPixelsStep(data: seq<bv8>, color: Color, y: nat, x: nat, prefix: seq<Pixel>, before: seq<Pixel>, after: seq<Pixel>)
    requires before == prefix + RowPixels(data, color, y, x)
    requires after == before + (if Lit(data, x, y) then [IconPixel(x, y, color)] else [])
    ensures after == prefix + RowPixels(data, color, y, x + 1)
  {
  }

  /** The guarded decoder of the MQTT and RTC demos. */
  method DecodeGuarded(data: seq<bv8>, color: Color) returns (pixels: seq<Pixel>)
    ensures pixels == Decode(data, color)
  {
    var iconWidth, iconHeight := IconSize, IconSize;
    var bytesPerRow := iconWidth / 8;
    assert bytesPerRow == 5;
    pixels := [];
    var y := 0;
    while y < iconHeight
      invariant y <= IconSize
      invariant pixels == RowsPixels(data, color, y)
    {
      var x := 0;
      while x < iconWidth
        invariant x <= IconSize
        invariant pixels == RowsPixels(data, color, y) + RowPixels(data, color, y, x)
      {
        var byteIndex := y * bytesPerRow + x / 8;
        var bitIndex := 7 - x % 8;
        assert byteIndex == 5 * y + x / 8;
        ghost var before := pixels;
        if byteIndex < |data| {
          if (data[byteIndex] >> bitIndex) & 1 == 1 {
            pixels := pixels + [IconPixel(x, y, color)];
          }
        }
        RowPixelsStep(data, color, y, x, RowsPixels(data, color, y), before, pixels);
        x := x + 1;
      }
      y := y + 1;
    }
  }

  /** The largest index the decoder computes is 199. */
  lemma ByteIndexBound(x: nat, y: nat)
    requires x < IconSize && y < IconSize
    ensures 5 * y + x / 8 <= 199
  {
  }

  /** The unguarded decoder of the first weather demo; the icon arrays are
      200 bytes long, so every index it computes is in bounds. */
  method DecodeUnguarded(data: seq<bv8>, color: Color) returns (pixels: seq<Pixel>)
    requires |data| == BytesPerIcon
    ensures pixels == Decode(data, color)
  {
    var iconWidth, iconHeight := IconSize, IconSize;
    var bytesPerRow := iconWidth / 8;
    assert bytesPerRow == 5;
    pixels := [];
    var y := 0;
    while y < iconHeight
      invariant y <= IconSize
      invariant pixels == RowsPixels(data, color, y)
    {
      var x := 0;
      while x < iconWidth
        invariant x <= IconSize
        invariant pixels == RowsPixels(data, color, y) + RowPixels(data, color, y, x)
      {
        var byteIndex := y * bytesPerRow + x / 8;
        var bitIndex := 7 - x % 8;
        assert byteIndex == 5 * y + x / 8;
        ByteIndexBound(x, y);
        ghost var before := pixels;
        var pixelOn := (data[byteIndex] >> bitIndex) & 1 == 1;
        if pixelOn {
          pixels := pixels + [IconPixel(x, y, color)];
        }
        RowPixelsStep(data, color, y, x, RowsPixels(data, color, y), before, pixels);
        x := x + 1;
      }
      y := y + 1;
    }
  }

  lemma {:induction false} RowPixelsMembers(data: seq<bv8>, color: Color, y: nat, n: nat, p: Pixel)
    ensures p in RowPixels(data, color, y, n) <==>
      exists x :: 0 <= x < n && Lit(data, x, y) && p == IconPixel(x, y, color)
    decreases n
  {
    if n > 0 {
      RowPixelsMembers(data, color, y, n - 1, p);
    }
  }

  lemma {:induction false} RowsPixelsMembers(data: seq<bv8>, color: Color, m: nat, p: Pixel)
    ensures p in RowsPixels(data, color, m) <==>
      exists x, y :: 0 <= x < IconSize && 0 <= y < m && Lit(data, x, y) && p == IconPixel(x, y, color)
    decreases m
  {
    if m > 0 {
      RowsPixelsMembers(data, color, m - 1, p);
      RowPixelsMembers(data, color, m - 1, IconSize, p);
      if p in RowsPixels(data, color, m) {
        if p !in RowsPixels(data, color, m - 1) {
          var x :| 0 <= x < IconSize && Lit(data, x, m - 1) && p == IconPixel(x, m - 1, color);
          assert 0 <= m - 1 < m;
        }
      } else {
        forall x, y | 0 <= x < IconSize && 0 <= y < m && Lit(data, x, y)
          ensures p != IconPixel(x, y, color)
        {
          if y == m - 1 {
            assert p !in RowPixels(data, color, m - 1, IconSize);
          }
        }
      }
    }
  }

  /** A pixel is emitted exactly when its bit is lit. */
  lemma DecodeMembers(data: seq<bv8>, color: Color, p: Pixel)
    ensures p in Decode(data, color) <==>
      exists x, y :: 0 <= x < IconSize && 0 <= y < IconSize && Lit(data, x, y) && p == IconPixel(x, y, color)
  {
    RowsPixelsMembers(data, color, IconSize, p);
  }

  /** Every emitted pixel has the icon colour and lies in the 40x40 square at
      (160, 70). */
  lemma DecodeInIconSquare(data: seq<bv8>, color: Color, p: Pixel)
    requires p in Decode(data, color)
    ensures p.color == color
    ensures 160 <= p.at.x < 200 && 70 <= p.at.y < 110
    ensures OnScreen(p.at)
  {
    DecodeMembers(data, color, p);
  }

  // ---------------------------------------------------------------------
  // Round trip with the converter script

  /** The black pixels of a grid, in the decoder's order. */
  function BlackRow(g: Grid, color: Color, y: nat, n: nat): seq<Pixel>
    requires y < IconSize && n <= IconSize
  {
    if n == 0 then []
    else BlackRow(g, color, y, n - 1) + (if IsBlack(g, n - 1, y) then [IconPixel(n - 1, y, color)] else [])
  }

  function BlackRows(g: Grid, color: Color, m: nat): seq<Pixel>
    requires m <= IconSize
  {
    if m == 0 then [] else BlackRows(g, color, m - 1) + BlackRow(g, color, m - 1, IconSize)
  }

  function BlackPixels(g: Grid, color: Color): seq<Pixel> {
    BlackRows(g, color, IconSize)
  }

  /** A packed pixel is lit exactly when it was black. */
  lemma LitPacked(g: Grid, x: nat, y: nat)
    requires x < IconSize && y < IconSize
    ensures Lit(Pack(g), x, y) <==> IsBlack(g, x, y)
  {
    PackBit(g, x, y);
  }

  lemma {:induction false} RowRoundTrip(g: Grid, color: Color, y: nat, n: nat)
    requires y < IconSize && n <= IconSize
    ensures RowPixels(Pack(g), color, y, n) == BlackRow(g, color, y, n)
    decreases n
  {
    if n > 0 {
      RowRoundTrip(g, color, y, n - 1);
      LitPacked(g, n - 1, y);
    }
  }

  lemma {:induction false} RowsRoundTrip(g: Grid, color: Color, m: nat)
    requires m <= IconSize
    ensures RowsPixels(Pack(g), color, m) == BlackRows(g, color, m)
    decreases m
  {
    if m > 0 {
      RowsRoundTrip(g, color, m - 1);
      RowRoundTrip(g, color, m - 1, IconSize);
    }
  }

  /** Decoding a packed icon emits exactly the black pixels of the artwork,
      shifted to (160, 70), in row-major order. */
  lemma DecodePackRoundTrip(g: Grid, color: Color)
    ensures Decode(Pack(g), color) == BlackPixels(g, color)
  {
    RowsRoundTrip(g, color, IconSize);
  }

  /** So a screen point of the icon is coloured exactly when its artwork pixel
      is black. */
  lemma DecodePackMembers(g: Grid, color: Color, x: nat, y: nat)
    requires x < IconSize && y < IconSize
    ensures IconPixel(x, y, color) in Decode(Pack(g), color) <==> IsBlack(g, x, y)
  {
    var p := IconPixel(x, y, color);
    DecodeMembers(Pack(g), color, p);
    LitPacked(g, x, y);
    if p in Decode(Pack(g), color) {
      var x', y' :| 0 <= x' < IconSize && 0 <= y' < IconSize && Lit(Pack(g), x', y') && p == IconPixel(x', y', color);
      assert x' == x && y' == y;
    }
  }

  // ---------------------------------------------------------------------
  // Drawing the weather icon

  /** What the demos draw for an icon code: the decoded bitmap in the given
      colour when the generated lookup has an array for the code, otherwise
      the fallback glyph in the symbol style at (160, 70). */
  function IconOps(code: string, color: Color, art: IconName -> Grid): seq<DrawOp> {
    match GetWeatherIcon(code, art)
    case Some(data) => [Pixels(Decode(data, color))]
    case None => [Symbol(WeatherSymbol(code), Point(IconLeft, IconTop))]
  }

  /** `render_weather_icon` with the guarded decoder (MQTT and RTC demos). */
  method DrawWeatherIcon(code: string, color: Color, art: IconName -> Grid) returns (ops: seq<DrawOp>)
    ensures ops == IconOps(code, color, art)
  {
    var icon := GetWeatherIcon(code, art);
    if icon.Some? {
      var pixels := DecodeGuarded(icon.value, color);
      ops := [Pixels(pixels)];
    } else {
      var symbol := WeatherSymbol(code);
      ops := [Symbol(symbol, Point(IconLeft, IconTop))];
    }
  }

  /** The same with the unguarded decoder (first weather demo); the lookup
      only ever answers with 200-byte arrays. */
  method DrawWeatherIconUnguarded(code: string, color: Color, art: IconName -> Grid) returns (ops: seq<DrawOp>)
    ensures ops == IconOps(code, color, art)
  {
    var icon := GetWeatherIcon(code, art);
    if icon.Some? {
      GetWeatherIconDefined(code, art);
      var pixels := DecodeUnguarded(icon.value, color);
      ops := [Pixels(pixels)];
    } else {
      var symbol := WeatherSymbol(code);
      ops := [Symbol(symbol, Point(IconLeft, IconTop))];
    }
  }

  /** A table code is drawn as its artwork's black pixels at (160, 70) in the
      given colour; any other code as the unknown-weather glyph. */
  lemma IconOpsShowsArtwork(code: string, color: Color, art: IconName -> Grid)
    ensures IsIconCode(code) ==> exists n :: (code, n) in IconMap && IconOps(code, color, art) == [Pixels(BlackPixels(art(n), color))]
    ensures !IsIconCode(code) ==> IconOps(code, color, art) == [Symbol(UnknownGlyph, Point(IconLeft, IconTop))]
  {
    GetWeatherIconDefined(code, art);
    WeatherSymbolKnownCodes(code);
    if IsIconCode(code) {
      var n := LookupIcon(code).value;
      LookupIconAgreesWithTable(code, n);
      DecodePackRoundTrip(art(n), color);
    }
  }
}
