// The icon converter script: 40x40 monochrome artwork packed into 200 bytes,
// one bit per pixel, most significant bit first, rows top to bottom; the
// table from weather code to icon; and the Rust source the script writes
// (one byte array per icon, then a lookup from code to array). The text is
// modelled as a sequence of lines without their line breaks.

module IconEncoder {
  import opened Wrappers
  import opened Decimal

  const IconSize: nat := 40
  const BytesPerIcon: nat := 200

  /** An image after conversion to 1-bit mode: `g[y][x]` is the value PIL
      reports for column x of row y, and 0 is black. */
  predicate IsGrid(g: seq<seq<int>>) {
    |g| == IconSize && forall y :: 0 <= y < IconSize ==> |g[y]| == IconSize
  }

  type Grid = g: seq<seq<int>> | IsGrid(g) witness seq(40, _ => seq(40, _ => 255))

  predicate IsBlack(g: Grid, x: nat, y: nat)
    requires x < IconSize && y < IconSize
  {
    g[y][x] == 0
  }

  /** The mask `1 << (7 - bit)`: bit 0 is the most significant. */
  function BitMask(bit: nat): bv8
    requires bit < 8
  {
    (1 as bv8) << (7 - bit)
  }

  /** Whether the most-significant-first bit `k` of `b` is set. */
  predicate HasBit(b: bv8, k: nat)
    requires k < 8
  {
    (b >> (7 - k)) & 1 == 1
  }

  /** The byte for columns `8*xb .. 8*xb+7` of row `y` after its first `n`
      bits have been accumulated. */
  function PartialByte(g: Grid, y: nat, xb: nat, n: nat): bv8
    requires y < IconSize && xb < 5 && n <= 8
  {
    if n == 0 then 0
    else PartialByte(g, y, xb, n - 1) | (if IsBlack(g, 8 * xb + n - 1, y) then BitMask(n - 1) else 0)
  }

  function PackedByte(g: Grid, y: nat, xb: nat): bv8
    requires y < IconSize && xb < 5
  {
    PartialByte(g, y, xb, 8)
  }

  /** The packed icon: byte `5*y + xb` holds columns `8*xb .. 8*xb+7` of row `y`. */
  function Pack(g: Grid): (data: seq<bv8>)
    ensures |data| == BytesPerIcon
  {
    seq(200, i requires 0 <= i < 200 => PackedByte(g, i / 5, i % 5))
  }

  lemma OrHasBit(a: bv8, b: bv8, k: nat)
    requires k < 8
    ensures HasBit(a | b, k) <==> HasBit(a, k) || HasBit(b, k)
  {
  }

  lemma MaskHasBit(j: nat, k: nat)
    requires j < 8 && k < 8
    ensures HasBit(BitMask(j), k) <==> j == k
    ensures !HasBit(0, k)
  {
  }

  /** After `n` bits, bit `k` is set exactly when `k` is among them and its
      pixel is black. */
  lemma {:induction false} PartialByteBits(g: Grid, y: nat, xb: nat, n: nat, k: nat)
    requires y < IconSize && xb < 5 && n <= 8 && k < 8
    ensures HasBit(PartialByte(g, y, xb, n), k) <==> k < n && IsBlack(g, 8 * xb + k, y)
    decreases n
  {
    MaskHasBit(0, k);
    if n > 0 {
      PartialByteBits(g, y, xb, n - 1, k);
      var before := PartialByte(g, y, xb, n - 1);
      var m: bv8 := if IsBlack(g, 8 * xb + n - 1, y) then BitMask(n - 1) else 0;
      assert PartialByte(g, y, xb, n) == before | m;
      OrHasBit(before, m, k);
      MaskHasBit(n - 1, k);
    }
  }

  lemma IndexSplit(y: nat, xb: nat)
    requires xb < 5
    ensures (5 * y + xb) / 5 == y && (5 * y + xb) % 5 == xb
  {
  }

  /** The bit layout of a packed icon: bit `7 - x%8` of byte `5*y + x/8` is set
      exactly when pixel (x, y) is black. */
  lemma PackBit(g: Grid, x: nat, y: nat)
    requires x < IconSize && y < IconSize
    ensures 5 * y + x / 8 < BytesPerIcon
    ensures HasBit(Pack(g)[5 * y + x / 8], x % 8) <==> IsBlack(g, x, y)
  {
    IndexSplit(y, x / 8);
    PartialByteBits(g, y, x / 8, 8, x % 8);
    assert 8 * (x / 8) + x % 8 == x;
  }

  /** The bytes of the first `|data| / 5` rows, and of the first
      `|data| % 5` byte columns of the row after them. */
  predicate PackedPrefix(g: Grid, data: seq<bv8>) {
    |data| <= BytesPerIcon && forall i :: 0 <= i < |data| ==> data[i] == PackedByte(g, i / 5, i % 5)
  }

  lemma PackedPrefixAppend(g: Grid, data: seq<bv8>, y: nat, xb: nat, byte: bv8)
    requires y < IconSize && xb < 5 && |data| == 5 * y + xb
    requires PackedPrefix(g, data) && byte == PackedByte(g, y, xb)
    ensures PackedPrefix(g, data + [byte])
  {
    IndexSplit(y, xb);
  }

  lemma PackedPrefixComplete(g: Grid, data: seq<bv8>)
    requires PackedPrefix(g, data) && |data| == BytesPerIcon
    ensures data == Pack(g)
  {
  }

  /** `png_to_bytes` over the converted image: rows top to bottom, five bytes
      per row, bits accumulated most significant first. */
  method PngToBytes(g: Grid) returns (data: seq<bv8>)
    ensures data == Pack(g)
  {
    var bytesPerRow := IconSize / 8;
    assert bytesPerRow == 5;
    data := [];
    var y := 0;
    while y < IconSize
      invariant y <= IconSize
      invariant |data| == 5 * y && PackedPrefix(g, data)
    {
      var xb := 0;
      while xb < bytesPerRow
        invariant xb <= 5
        invariant |data| == 5 * y + xb && PackedPrefix(g, data)
      {
        var byte: bv8 := 0;
        var bit := 0;
        while bit < 8
          invariant bit <= 8
          invariant byte == PartialByte(g, y, xb, bit)
        {
          var x := xb * 8 + bit;
          var pixel := g[y][x];
          if pixel == 0 {
            byte := byte | BitMask(bit);
          }
          bit := bit + 1;
        }
        PackedPrefixAppend(g, data, y, xb, byte);
        data := data + [byte];
        xb := xb + 1;
      }
      y := y + 1;
    }
    PackedPrefixComplete(g, data);
  }

  // ---------------------------------------------------------------------
  // The code-to-icon table and the generated lookup

  /** The icon artwork files (`<name>.png`). */
  datatype IconName = Sun | Moon | PartlySunny | Cloud | Rain | Thunder | Snow | Fog

  function IconStem(n: IconName): string {
    match n
    case Sun => "sun"
    case Moon => "moon"
    case PartlySunny => "partly_sunny"
    case Cloud => "cloud"
    case Rain => "rain"
    case Thunder => "thunder"
    case Snow => "snow"
    case Fog => "fog"
  }

  /** `ICON_MAP` in its insertion order. */
  const IconMap: seq<(string, IconName)> := [
    ("01d", Sun), ("01n", Moon), ("02d", PartlySunny), ("02n", Cloud),
    ("03d", Cloud), ("03n", Cloud), ("04d", Cloud), ("04n", Cloud),
    ("09d", Rain), ("09n", Rain), ("10d", Rain), ("10n", Rain),
    ("11d", Thunder), ("11n", Thunder), ("13d", Snow), ("13n", Snow),
    ("50d", Fog), ("50n", Fog)
  ]

  predicate IsIconCode(code: string) {
    exists j :: 0 <= j < |IconMap| && IconMap[j].0 == code
  }

  /** The first arm at or after `i` whose code is `code`, as the generated
      `match` picks it. */
  function LookupFrom(code: string, i: nat): (r: Option<IconName>)
    requires i <= |IconMap|
    ensures r.Some? <==> exists j :: i <= j < |IconMap| && IconMap[j].0 == code
    ensures r.Some? ==> exists j :: i <= j < |IconMap| && IconMap[j] == (code, r.value)
    decreases |IconMap| - i
  {
    if i == |IconMap| then None
    else if IconMap[i].0 == code then Some(IconMap[i].1)
    else LookupFrom(code, i + 1)
  }

  function LookupIcon(code: string): Option<IconName> {
    LookupFrom(code, 0)
  }

  /** The generated `get_weather_icon`: the packed artwork of the icon the
      code maps to. The artwork itself is a parameter. */
  function GetWeatherIcon(code: string, art: IconName -> Grid): Option<seq<bv8>> {
    match LookupIcon(code)
    case None => None
    case Some(n) => Some(Pack(art(n)))
  }

  lemma IconMapCodesDistinct()
    ensures forall i, j :: 0 <= i < j < |IconMap| ==> IconMap[i].0 != IconMap[j].0
  {
  }

  /** The lookup finds exactly the icon the table lists for the code. */
  lemma LookupIconAgreesWithTable(code: string, n: IconName)
    ensures LookupIcon(code) == Some(n) <==> (code, n) in IconMap
  {
    IconMapCodesDistinct();
    if (code, n) in IconMap {
      var j :| 0 <= j < |IconMap| && IconMap[j] == (code, n);
      var r := LookupIcon(code);
      assert r.Some?;
      var j' :| 0 <= j' < |IconMap| && IconMap[j'] == (code, r.value);
      assert j == j';
    }
  }

  /** `get_weather_icon` answers for exactly the 18 table codes, and every
      answer is a full 200-byte icon. */
  lemma GetWeatherIconDefined(code: string, art: IconName -> Grid)
    ensures GetWeatherIcon(code, art).Some? <==> IsIconCode(code)
    ensures GetWeatherIcon(code, art).Some? ==> |GetWeatherIcon(code, art).value| == BytesPerIcon
  {
  }

  /** Codes that share an icon name share the array. */
  lemma SameIconSameArray(a: string, b: string, n: IconName, art: IconName -> Grid)
    requires (a, n) in IconMap && (b, n) in IconMap
    ensures GetWeatherIcon(a, art).Some? && GetWeatherIcon(a, art) == GetWeatherIcon(b, art)
  {
    LookupIconAgreesWithTable(a, n);
    LookupIconAgreesWithTable(b, n);
  }

  /** The five cloud codes all answer with the cloud artwork. */
  lemma CloudCodesShareArray(art: IconName -> Grid)
    ensures forall c :: c in ["02n", "03d", "03n", "04d", "04n"] ==>
      GetWeatherIcon(c, art) == Some(Pack(art(Cloud)))
  {
    forall c | c in ["02n", "03d", "03n", "04d", "04n"]
      ensures GetWeatherIcon(c, art) == Some(Pack(art(Cloud)))
    {
      assert (c, Cloud) in IconMap;
      LookupIconAgreesWithTable(c, Cloud);
    }
  }

  // ---------------------------------------------------------------------
  // The generated Rust text

  function HexDigit(v: nat): (c: char)
    requires v < 16
  {
    if v < 10 then ('0' as int + v) as char else ('A' as int + v - 10) as char
  }

  function HexValue(c: char): int {
    if '0' <= c <= '9' then c as int - '0' as int
    else if 'A' <= c <= 'F' then c as int - 'A' as int + 10
    else -1
  }

  predicate IsUpperHex(c: char) {
    '0' <= c <= '9' || 'A' <= c <= 'F'
  }

  /** `f"0x{b:02X}"`. */
  function ByteLiteral(b: bv8): string {
    "0x" + [HexDigit(b as nat / 16), HexDigit(b as nat % 16)]
  }

  /** A byte literal is "0x" and two upper-case hex digits, and reads back as
      the byte. */
  lemma ByteLiteralParse(b: bv8)
    ensures var s := ByteLiteral(b);
      |s| == 4 && s[..2] == "0x" && IsUpperHex(s[2]) && IsUpperHex(s[3])
      && HexValue(s[2]) * 16 + HexValue(s[3]) == b as nat
  {
  }

  /** `", ".join(...)` of the byte literals. */
  function JoinLiterals(bytes: seq<bv8>): string
    decreases |bytes|
  {
    if |bytes| == 0 then ""
    else if |bytes| == 1 then ByteLiteral(bytes[0])
    else ByteLiteral(bytes[0]) + ", " + JoinLiterals(bytes[1..])
  }

  /** The joined text is the literals six characters apart, separated by ", ". */
  lemma {:induction false} JoinLiteralsLayout(bytes: seq<bv8>, k: nat)
    requires k < |bytes|
    ensures |JoinLiterals(bytes)| == 6 * |bytes| - 2
    ensures JoinLiterals(bytes)[6 * k .. 6 * k + 4] == ByteLiteral(bytes[k])
    ensures k + 1 < |bytes| ==> JoinLiterals(bytes)[6 * k + 4 .. 6 * k + 6] == ", "
    decreases |bytes|
  {
    var s := JoinLiterals(bytes);
    if |bytes| > 1 {
      var tail := JoinLiterals(bytes[1..]);
      assert s == ByteLiteral(bytes[0]) + ", " + tail;
      if k == 0 {
        JoinLiteralsLayout(bytes[1..], 0);
        assert s[..6] == ByteLiteral(bytes[0]) + ", ";
      } else {
        JoinLiteralsLayout(bytes[1..], k - 1);
        assert s[6 * k .. 6 * k + 4] == tail[6 * (k - 1) .. 6 * (k - 1) + 4];
        if k + 1 < |bytes| {
          assert s[6 * k + 4 .. 6 * k + 6] == tail[6 * (k - 1) + 4 .. 6 * (k - 1) + 6];
        }
      }
    }
  }

  /** One data line: four spaces, the joined literals, a trailing comma. */
  function DataLine(chunk: seq<bv8>): string {
    "    " + JoinLiterals(chunk) + ","
  }

  /** `data[16*j : 16*j+16]`, clipped at the end as Python slices are. */
  function Chunk(data: seq<bv8>, j: nat): seq<bv8>
    requires 16 * j <= |data|
  {
    data[16 * j .. Min(16 * j + 16, |data|)]
  }

  /** The number of values `range(0, n, 16)` yields. */
  function ChunkCount(n: nat): nat {
    (n + 15) / 16
  }

  function DataLines(data: seq<bv8>): seq<string> {
    seq(ChunkCount(|data|), j requires 0 <= j < ChunkCount(|data|) => DataLine(Chunk(data, j)))
  }

  /** The chunks cover the data in order, sixteen to a line: byte `p` is entry
      `p % 16` of line `p / 16`, every line holds one to sixteen bytes, and
      only the last may hold fewer than sixteen. */
  lemma ChunksCoverData(data: seq<bv8>, p: nat)
    requires p < |data|
    ensures p / 16 < ChunkCount(|data|) && 16 * (p / 16) <= |data|
    ensures p % 16 < |Chunk(data, p / 16)| && Chunk(data, p / 16)[p % 16] == data[p]
    ensures forall j :: 0 <= j < ChunkCount(|data|) ==> 16 * j < |data| && 1 <= |Chunk(data, j)| <= 16
    ensures forall j :: 0 <= j < ChunkCount(|data|) - 1 ==> |Chunk(data, j)| == 16
  {
    assert p == 16 * (p / 16) + p % 16;
  }

  /** Where each byte of the icon lands in the text: byte `p` is written as
      its literal at column `4 + 6 * (p % 16)` of data line `p / 16`. */
  lemma DataLinesLayout(data: seq<bv8>, p: nat)
    requires p < |data|
    ensures p / 16 < |DataLines(data)|
    ensures var line := DataLines(data)[p / 16];
      4 + 6 * (p % 16) + 4 <= |line| && line[4 + 6 * (p % 16) .. 8 + 6 * (p % 16)] == ByteLiteral(data[p])
  {
    ChunksCoverData(data, p);
    var c := Chunk(data, p / 16);
    var k := p % 16;
    JoinLiteralsLayout(c, k);
    var line := DataLine(c);
    assert line[4 + 6 * k .. 8 + 6 * k] == JoinLiterals(c)[6 * k .. 6 * k + 4];
  }

  /** A 200-byte icon takes thirteen lines, the last with eight bytes. */
  lemma IconLineCount(data: seq<bv8>)
    requires |data| == BytesPerIcon
    ensures |DataLines(data)| == 13 && |Chunk(data, 12)| == 8
  {
  }

  /** ASCII upper case (`str.upper()` on the icon names). */
  function Upper(s: string): (u: string)
    ensures |u| == |s|
  {
    seq(|s|, i requires 0 <= i < |s| => if 'a' <= s[i] <= 'z' then (s[i] as int - 32) as char else s[i])
  }

  function ConstName(n: IconName): string {
    Upper(IconStem(n))
  }

  /** Distinct icons get distinct Rust constants. */
  lemma ConstNameInjective(a: IconName, b: IconName)
    requires ConstName(a) == ConstName(b)
    ensures a == b
  {
    var sa, sb := IconStem(a), IconStem(b);
    assert ConstName(a)[0] == ConstName(b)[0] && |sa| == |sb|;
    assert sa[0] == sb[0] by {
      assert 'a' <= sa[0] <= 'z' && 'a' <= sb[0] <= 'z';
    }
  }

  function ArrayHeader(n: IconName): string {
    "pub const " + ConstName(n) + ": [u8; " + NatToString(BytesPerIcon) + "] = ["
  }

  /** The text written for one icon. */
  function IconArrayText(n: IconName, data: seq<bv8>): seq<string> {
    [ArrayHeader(n)] + DataLines(data) + ["];", ""]
  }

  /** Writes one icon's array: the header, one line per sixteen bytes, the
      closing bracket and a blank line. */
  method EmitIconArray(n: IconName, g: Grid) returns (lines: seq<string>)
    ensures lines == IconArrayText(n, Pack(g))
  {
    var data := PngToBytes(g);
    lines := [ArrayHeader(n)];
    var body: seq<string> := [];
    var i := 0;
    while i < |data|
      invariant i == 16 * |body| && i <= |data| + 15
      invariant |body| <= ChunkCount(|data|)
      invariant forall j :: 0 <= j < |body| ==> 16 * j <= |data| && body[j] == DataLine(Chunk(data, j))
      decreases |data| - i
    {
      var line := DataLine(data[i .. Min(i + 16, |data|)]);
      body := body + [line];
      i := i + 16;
    }
    assert |body| == ChunkCount(|data|);
    lines := lines + body + ["];", ""];
  }

  function LookupArm(entry: (string, IconName)): string {
    "        \"" + entry.0 + "\" => Some(&" + ConstName(entry.1) + "),"
  }

  const LookupOpening: seq<string> := [
    "pub fn get_weather_icon(code: &str) -> Option<&'static [u8; 200]> {",
    "    match code {"
  ]

  const LookupClosing: seq<string> := ["        _ => None,", "    }", "}"]

  /** The generated function's text: one arm per table entry in order, then
      the catch-all `None`. */
  function LookupText(): seq<string> {
    LookupOpening + seq(|IconMap|, j requires 0 <= j < |IconMap| => LookupArm(IconMap[j])) + LookupClosing
  }

  /** Arm `j` of the generated text names code `j` of the table and the
      constant of its icon, and nothing else in the text is an arm. */
  lemma LookupTextArms(j: nat)
    requires j < |IconMap|
    ensures |LookupText()| == |IconMap| + 5
    ensures LookupText()[j + 2] == "        \"" + IconMap[j].0 + "\" => Some(&" + ConstName(IconMap[j].1) + "),"
  {
  }

  method EmitLookup() returns (lines: seq<string>)
    ensures lines == LookupText()
  {
    lines := LookupOpening;
    var j := 0;
    while j < |IconMap|
      invariant j <= |IconMap| && |lines| == 2 + j
      invariant lines[..2] == LookupOpening
      invariant forall k :: 0 <= k < j ==> lines[2 + k] == LookupArm(IconMap[k])
    {
      lines := lines + [LookupArm(IconMap[j])];
      j := j + 1;
    }
    lines := lines + LookupClosing;
  }

  /** Every icon name is the value of some table entry, so
      `set(ICON_MAP.values())` holds all eight names. */
  lemma TableUsesEveryIcon(n: IconName)
    ensures exists j :: 0 <= j < |IconMap| && IconMap[j].1 == n
  {
    var j := match n
      case Sun => 0 case Moon => 1 case PartlySunny => 2 case Cloud => 3
      case Rain => 8 case Thunder => 12 case Snow => 14 case Fog => 16;
    assert IconMap[j].1 == n;
  }

  /** The icon names, each once, in some order (the script iterates a Python
      set, whose order is not modelled). */
  predicate IsIconOrder(order: seq<IconName>) {
    (forall i, j :: 0 <= i < j < |order| ==> order[i] != order[j]) && forall n: IconName :: n in order
  }

  function ArraysText(order: seq<IconName>, art: IconName -> Grid): seq<string>
    decreases |order|
  {
    if order == [] then []
    else IconArrayText(order[0], Pack(art(order[0]))) + ArraysText(order[1..], art)
  }

  function FileText(order: seq<IconName>, art: IconName -> Grid): seq<string> {
    ["// Auto-generated Rust file", ""] + ArraysText(order, art) + LookupText()
  }

  /** The whole generated file: a banner, each icon's array, the lookup. */
  lemma ArraysTextStep(order: seq<IconName>, i: nat, art: IconName -> Grid)
    requires i < |order|
    ensures ArraysText(order[i..], art) == IconArrayText(order[i], Pack(art(order[i]))) + ArraysText(order[i + 1..], art)
  {
    assert order[i..][1..] == order[i + 1..];
  }

  method EmitFile(order: seq<IconName>, art: IconName -> Grid) returns (lines: seq<string>)
    requires IsIconOrder(order)
    ensures lines == FileText(order, art)
  {
    ghost var banner := ["// Auto-generated Rust file", ""];
    lines := ["// Auto-generated Rust file", ""];
    var i := 0;
    assert order[0..] == order;
    while i < |order|
      invariant i <= |order|
      invariant lines + ArraysText(order[i..], art) == banner + ArraysText(order, art)
    {
      var text := EmitIconArray(order[i], art(order[i]));
      ArraysTextStep(order, i, art);
      lines := lines + text;
      i := i + 1;
    }
    assert order[i..] == [];
    var lookup := EmitLookup();
    lines := lines + lookup;
  }
}
