// Shared vocabulary of the firmware demos: an optional value, and the
// drawing operations the programs issue against the 240x320 display.
// Drawing is modelled as a log of operations; the pixels they light up,
// fonts and the SPI transfer are not modelled.

module Wrappers {
  datatype Option<+T> = None | Some(value: T)

  /** The smaller of two naturals. */
  function Min(a: nat, b: nat): nat {
    if a <= b then a else b
  }
}

module Graphics {
  /** A screen coordinate (embedded-graphics `Point`). */
  datatype Point = Point(x: int, y: int)

  /** The Rgb565 constants the demos use. */
  datatype Color = Black | White | Red | Yellow | Blue | CssGray | CssLightGray

  /** One coloured pixel handed to `draw_iter`. */
  datatype Pixel = Pixel(at: Point, color: Color)

  /** The text styles: 10x20 font white on black (the RTC and MQTT demos),
      10x20 font white without background (the first weather demo). */
  datatype TextStyle = WhiteOnBlack | WhiteTransparent

  /** The fallback weather glyphs of `get_weather_symbol`. The source spells
      them as emoji literals; here they are opaque, pairwise distinct values. */
  datatype Glyph = SunGlyph | MoonGlyph | SunBehindCloudGlyph | CloudGlyph
                 | RainGlyph | SunRainGlyph | ThunderGlyph | SnowGlyph | FogGlyph
                 | UnknownGlyph

  /** One drawing primitive, in the order the program issues them. A symbol is
      always drawn in the 24-point yellow symbol style. */
  datatype DrawOp =
    | Text(text: string, at: Point, style: TextStyle)
    | Symbol(glyph: Glyph, at: Point)
    | Pixels(pixels: seq<Pixel>)
    | FillRect(corner: Point, width: nat, height: nat, fill: Color)
    | Clear(color: Color)

  /** The display is 240 pixels wide and 320 high. */
  const ScreenWidth: int := 240
  const ScreenHeight: int := 320

  /** A point the display can show. */
  predicate OnScreen(p: Point) {
    0 <= p.x < ScreenWidth && 0 <= p.y < ScreenHeight
  }
}
