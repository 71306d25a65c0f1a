# Weather-station demos for the ESP32: a verified model

The repository holds a series of ESP32 firmware demos. Each one draws on a
240x320 display:

- the first weather demo shows an OpenWeatherMap report;
- the clock demo adds a CET/CEST clock;
- the final demo adds a movement log fed over MQTT, and publishes each report
  it fetches back to the broker.

A Python script packs the 40x40 weather-icon PNGs into the byte arrays these
demos embed. It also generates the `get_weather_icon` lookup.

This project models their logic in Dafny and proves properties of the model.

**The clock.**
- `is_dst` decides summer time from the last-Sunday closed form
  `31 - ((5*year/4 + k) % 7)`. The formula is kept verbatim, including Rust's
  truncating `/` and `%`.
- `utc_to_berlin` adds one or two hours and splits the result into calendar
  fields. A proleptic Gregorian calendar over non-negative timestamps stands
  in for chrono.
- The formatters zero-pad the fields, and `get_timezone_str` picks the zone
  label.

**The icon pipeline.**
- `png_to_bytes` packs a grid one bit per pixel, most significant bit first.
- The generated lookup table is modelled with it.
- The text of the generated file is modelled too.
- The firmware's decoder comes in two forms: guarded by a length test, and
  unguarded. Both are proved to undo the packing.

**The three demo loops.** Each is a class whose pass is proved against a pure
step function:

- the display state of the final demo, its redraw rule, the refresh gate, the
  cache and the publications;
- the newest-first movement queue of at most six entries;
- the clock demo's redraw of the clock line on every pass, and its gated
  weather screen;
- the first demo's unconditional fetch and error banner.

Drawing is a log of abstract operations (`DrawOp`): texts, symbols, pixel
batches, filled rectangles and clears.

Several things are shown by concrete lemmas:

- **Zone label near a changeover.** The final and clock demos label the zone
  from the local fields. The offset, however, is chosen from the UTC fields.
  Near a changeover the label can therefore contradict the offset
  (`TimeUtils.LabelCanDisagreeInOctober`, `TimeUtils.LabelCanDisagreeInMarch`,
  `MqttStation.OctoberLabelMismatchOnScreen`).
- **Last-Sunday formula.** It gives the right Sunday for every year from 1970
  to 2099, and the wrong day in 2100.
- **Redraw check.** In the final demo the equality check never suppresses a
  redraw: each pass that is not skipped shows a new second.

The timestamp 1711852800 is 02:40 UTC on 31 March 2024, and the clock reads
04:40:00 CEST then (`TimeUtils.ChangeoverMorningExample`).

Files:
- `graphics.dfy`: `Option`, points, colours, glyphs, draw operations.
- `decimal.dfy`: Rust integer formatting with a digit parser as its inverse.
- `calendar.dfy`: the days-to-civil calendar.
- `time_utils.dfy`: both copies of `time_utils.rs`, which differ only in
  comments and tests.
- `weather.dfy`: the report, the glyph table, both colour tables, the refresh
  gate.
- `icon_encoder.dfy`: `icons_to_rust_code.py`.
- `icon_decoder.dfy`: the decoders and the shared icon drawing.
- `movement.dfy`: the movement queue.
- `display_mqtt.dfy`: the final demo.
- `display_rtc.dfy`: the clock demo.
- `display_openweather.dfy`: the first demo.

## Model

| member | source | states |
|---|---|---|
| Decimal.NatToString | wifi_display_openweather_rtc_mqtt/src/time_utils.rs:81 | the `{}` rendering of a natural is a non-empty string of digits, at least two for values from 10 |
| Decimal.ParseNatToString | wifi_display_openweather_rtc_mqtt/src/time_utils.rs:81 | parsing the rendering of a natural gives the natural back |
| Decimal.NatToStringNoLeadingZero | wifi_display_openweather_rtc_mqtt/src/time_utils.rs:81 | the rendering starts with '0' exactly for zero |
| Decimal.NatToStringInjective | wifi_display_openweather_rtc_mqtt/src/time_utils.rs:81 | distinct naturals render differently |
| Decimal.Pad2Digits | wifi_display_openweather_rtc_mqtt/src/time_utils.rs:76 | `{:02}` of a value below 100 is its tens digit then its units digit |
| Decimal.Pad2Parse | wifi_display_openweather_rtc_mqtt/src/time_utils.rs:76 | `{:02}` of a value below 100 reads back as the value |
| Decimal.FourDigits | wifi_display_openweather_rtc_mqtt/src/time_utils.rs:81 | years 1000..9999 print with four digits |
| Decimal.IntToStringShape | wifi_display_openweather_rtc_mqtt/src/main.rs:809 | a signed integer prints with a '-' exactly when negative, and its digits read back as its magnitude |
| Calendar.DaysInMonth | wifi_display_openweather_rtc_mqtt/src/time_utils.rs:46 | every month has 28 to 31 days |
| Calendar.DaysBeforeMonthStep | wifi_display_openweather_rtc_mqtt/src/time_utils.rs:46 | month offsets accumulate month lengths, and the whole year is 365 or 366 days |
| Calendar.LeapsStep | wifi_display_openweather_rtc_mqtt/src/time_utils.rs:46 | the closed-form leap count grows by one exactly at a Gregorian leap year |
| Calendar.DaysBeforeYearClosedForm | wifi_display_openweather_rtc_mqtt/src/time_utils.rs:46 | the days before a year equal 365 per year plus the leap days since 1970 |
| Calendar.DaysBeforeYearMonotone | wifi_display_openweather_rtc_mqtt/src/time_utils.rs:46 | later years start at least 365 days per year later |
| Calendar.YearOf | wifi_display_openweather_rtc_mqtt/src/time_utils.rs:46 | a day count splits into a year and a day of that year |
| Calendar.MonthOf | wifi_display_openweather_rtc_mqtt/src/time_utils.rs:46 | a day of the year splits into a month and a valid day of that month |
| Calendar.CivilFromDays | wifi_display_openweather_rtc_mqtt/src/time_utils.rs:46-50 | the calendar date of a day count is valid, and counting its days gives the day count back |
| Calendar.DateBounds | wifi_display_openweather_rtc_mqtt/src/time_utils.rs:46-50 | a valid date's day count lies within its year and its month |
| Calendar.MonthsMonotone | wifi_display_openweather_rtc_mqtt/src/time_utils.rs:46 | later months start at least 28 days per month later |
| Calendar.DaysFromCivilInjective | wifi_display_openweather_rtc_mqtt/src/time_utils.rs:46-50 | distinct valid dates have distinct day counts |
| Calendar.CivilFromDaysOfCivil | wifi_display_openweather_rtc_mqtt/src/time_utils.rs:46-50 | the calendar date of a valid date's day count is that date |
| Calendar.FromTimestamp | wifi_display_openweather_rtc_mqtt/src/time_utils.rs:46-50 | the UTC fields of a non-negative timestamp form a valid instant |
| Calendar.ToTimestampOfFromTimestamp | wifi_display_openweather_rtc_mqtt/src/time_utils.rs:46-50 | splitting a timestamp into fields and counting back gives the timestamp |
| Calendar.FromTimestampOfToTimestamp | wifi_display_openweather_rtc_mqtt/src/time_utils.rs:62-71 | a valid instant's timestamp splits back into that instant |
| Calendar.ModHourFacts | wifi_display_openweather_rtc_mqtt/src/time_utils.rs:62-71 | minute and second of a timestamp do not depend on the day |
| Calendar.ModShiftByHours | wifi_display_openweather_rtc_mqtt/src/time_utils.rs:61 | adding whole hours keeps the timestamp's minute and second residues |
| Calendar.MinuteAndSecondOf | wifi_display_openweather_rtc_mqtt/src/time_utils.rs:62-71 | the minute and second fields are the timestamp's residues |
| Calendar.ShiftByHoursKeepsMinuteAndSecond | wifi_display_openweather_rtc_mqtt/src/time_utils.rs:61-71 | shifting by whole hours keeps the minute and second fields |
| TimeUtils.TruncRemRange | wifi_display_openweather_rtc_mqtt/src/time_utils.rs:9-12 | Rust's `/` and `%` agree with the Euclidean ones on non-negative operands; the remainder takes the dividend's sign |
| TimeUtils.ChangeoverDayRange | wifi_display_openweather_rtc_mqtt/src/time_utils.rs:9-12 | the computed changeover day lies in 25..37 for every year, and in 25..31 from year 0 on |
| TimeUtils.IsDstByMonth | wifi_display_openweather_rtc_mqtt/src/time_utils.rs:14-41 | months 1, 2, 11, 12 and months outside 1..12 are never summer time; April to September always are |
| TimeUtils.IsDstMarch | wifi_display_openweather_rtc_mqtt/src/time_utils.rs:9-26 | in March: winter before the computed day, summer after it, and on it summer exactly from hour 2 |
| TimeUtils.IsDstOctober | wifi_display_openweather_rtc_mqtt/src/time_utils.rs:12-38 | in October: summer before the computed day, winter after it, and on it summer exactly before hour 3 |
| TimeUtils.IsDstWindow | wifi_display_openweather_rtc/src/time_utils.rs:5-42 | summer time holds exactly from (March, computed day, 02:00 UTC) up to but excluding (October, computed day, 03:00 UTC) |
| TimeUtils.ChangeoverHourSwitch | wifi_display_openweather_rtc/src/time_utils.rs:22-37 | on the changeover days the rule is monotone in the hour and flips exactly between hours 1 and 2 in March and between 2 and 3 in October |
| TimeUtils.DstFixtures | wifi_display_openweather_rtc_mqtt/src/time_utils.rs:97-113 | the five test fixtures hold |
| TimeUtils.UtcToBerlin | wifi_display_openweather_rtc_mqtt/src/time_utils.rs:45-72 | the local fields are a valid instant with month 1..12, day 1..31, hour < 24, minute < 60, second < 60 |
| TimeUtils.UtcToBerlinShift | wifi_display_openweather_rtc/src/time_utils.rs:45-72 | the local instant is exactly 7200 seconds after the UTC one when summer time holds on the UTC fields, and 3600 seconds after otherwise |
| TimeUtils.UtcToBerlinKeepsMinuteAndSecond | wifi_display_openweather_rtc_mqtt/src/time_utils.rs:56-71 | local minute and second equal the UTC ones |
| TimeUtils.FormatTimeLayout | wifi_display_openweather_rtc_mqtt/src/time_utils.rs:75-77 | fields below 100 give eight characters with ':' at 2 and 5, and the three two-digit fields read back as hour, minute and second |
| TimeUtils.FormatTimeInjective | wifi_display_openweather_rtc/src/time_utils.rs:75-77 | distinct times of fields below 100 format differently |
| TimeUtils.FormatDateLayout | wifi_display_openweather_rtc_mqtt/src/time_utils.rs:80-82 | the date is "DD.MM." with fields that read back, then the unpadded year; ten characters for four-digit years |
| TimeUtils.TimezoneStr | wifi_display_openweather_rtc_mqtt/src/time_utils.rs:85-91 | the label is "CEST" exactly when summer time holds on the same arguments, and "CET" exactly when it does not |
| TimeUtils.TimestampOf | wifi_display_openweather_rtc_mqtt/src/time_utils.rs:46-50 | a timestamp computed from a valid instant's day count splits back into that instant |
| TimeUtils.ChangeoverMorningExample | wifi_display_openweather_rtc_mqtt/src/time_utils.rs:45-72 | 1711852800 (02:40 UTC on the March changeover day) shows 04:40:00 on 31.03.2024, labelled CEST |
| TimeUtils.LabelCanDisagreeInOctober | wifi_display_openweather_rtc_mqtt/src/main.rs:722-795 | at 02:30 UTC on 27 October 2024 the offset applied is two hours, but the label computed from local 04:30 is CET |
| TimeUtils.LabelCanDisagreeInMarch | wifi_display_openweather_rtc_mqtt/src/main.rs:722-795 | at 01:30 UTC on 31 March 2024 the offset applied is one hour, but the label computed from local 02:30 is CEST |
| TimeUtils.LeapsUntil2099 | wifi_display_openweather_rtc_mqtt/src/time_utils.rs:9-12 | from 1970 to 2099 the leap count is the plain quarter-year count |
| TimeUtils.LeapYearUntil2099 | wifi_display_openweather_rtc_mqtt/src/time_utils.rs:9-12 | from 1970 to 2099 a year is a leap year exactly when divisible by four |
| TimeUtils.DaysBeforeYearUntil2099 | wifi_display_openweather_rtc_mqtt/src/time_utils.rs:9-12 | from 1970 to 2099 the year's first day has a closed form with no century terms |
| TimeUtils.LastSundayFormulaNonNegative | wifi_display_openweather_rtc_mqtt/src/time_utils.rs:9-12 | for years from 0 the formula equals `31 - (year + year/4 + k) % 7` |
| TimeUtils.ChangeoverArithmetic | wifi_display_openweather_rtc_mqtt/src/time_utils.rs:9-12 | the day the formula picks falls on a weekday 0 (Sunday) when counted from 1970 |
| TimeUtils.ChangeoverIsSunday | wifi_display_openweather_rtc_mqtt/src/time_utils.rs:9-12 | from 1970 to 2099 the computed March and October days are Sundays |
| TimeUtils.FormulaIsLastSunday | wifi_display_openweather_rtc/src/time_utils.rs:8-12 | from 1970 to 2099 the computed days are Sundays within the last seven days of their months: the last Sundays |
| TimeUtils.LastSundayFormulaFailsIn2100 | wifi_display_openweather_rtc_mqtt/src/time_utils.rs:9 | in 2100 the March formula gives the 27th, a Saturday, while the 28th is the last Sunday |
| IconEncoder.Pack | scripts/weather_icons/icons_to_rust_code.py:24-40 | a grid packs into exactly 200 bytes, `BYTES_PER_ICON` |
| IconEncoder.OrHasBit | scripts/weather_icons/icons_to_rust_code.py:38 | a bit of `a \| b` is set exactly when it is set in a or in b |
| IconEncoder.MaskHasBit | scripts/weather_icons/icons_to_rust_code.py:38 | `1 << (7 - j)` has exactly bit position j set, and 0 has none |
| IconEncoder.PartialByteBits | scripts/weather_icons/icons_to_rust_code.py:33-38 | after n bits of the inner loop, position k is set exactly when k < n and pixel (8·x_byte + k, y) is black |
| IconEncoder.PackBit | scripts/weather_icons/icons_to_rust_code.py:31-39 | bit `7 - x%8` of byte `5y + x/8` is set exactly when pixel (x, y) is black |
| IconEncoder.PackedPrefixComplete | scripts/weather_icons/icons_to_rust_code.py:39-40 | 200 bytes each equal to their packed byte are the packing |
| IconEncoder.PngToBytes | scripts/weather_icons/icons_to_rust_code.py:27-40 | the nested loops return the packing of the grid |
| IconEncoder.LookupFrom | scripts/weather_icons/icons_to_rust_code.py:55-61 | the match finds an arm exactly when some later entry has the code, and returns an icon paired with the code in the table |
| IconEncoder.IconMapCodesDistinct | scripts/weather_icons/icons_to_rust_code.py:3-22 | the 18 table codes are pairwise distinct |
| IconEncoder.LookupIconAgreesWithTable | scripts/weather_icons/icons_to_rust_code.py:3-22 | the generated lookup maps a code to an icon exactly when the table pairs them |
| IconEncoder.GetWeatherIconDefined | scripts/weather_icons/icons_to_rust_code.py:55-61 | `get_weather_icon` returns Some exactly for the 18 table codes, always 200 bytes |
| IconEncoder.SameIconSameArray | scripts/weather_icons/icons_to_rust_code.py:58 | codes mapped to one icon return the same array |
| IconEncoder.CloudCodesShareArray | scripts/weather_icons/icons_to_rust_code.py:7-11 | 02n, 03d, 03n, 04d and 04n all return the cloud array |
| IconEncoder.ByteLiteralParse | scripts/weather_icons/icons_to_rust_code.py:50 | a byte literal is "0x" and two upper-case hex digits that read back as the byte |
| IconEncoder.JoinLiteralsLayout | scripts/weather_icons/icons_to_rust_code.py:50 | joined literals take six characters each minus the last separator, literal k at 6k and ", " after every literal but the last |
| IconEncoder.ChunksCoverData | scripts/weather_icons/icons_to_rust_code.py:49-50 | the 16-byte slices cover the data in order, each holds 1 to 16 bytes, and only the last may be short |
| IconEncoder.DataLinesLayout | scripts/weather_icons/icons_to_rust_code.py:49-51 | byte p is written as its literal in line p/16 at column 4 + 6·(p%16) |
| IconEncoder.IconLineCount | scripts/weather_icons/icons_to_rust_code.py:49-51 | 200 bytes give 13 lines, the last with 8 bytes |
| IconEncoder.Upper | scripts/weather_icons/icons_to_rust_code.py:48 | upper-casing keeps the length |
| IconEncoder.ConstNameInjective | scripts/weather_icons/icons_to_rust_code.py:48 | distinct icons get distinct constant names |
| IconEncoder.EmitIconArray | scripts/weather_icons/icons_to_rust_code.py:46-52 | one icon's text is its header, its data lines and the closing bracket |
| IconEncoder.LookupTextArms | scripts/weather_icons/icons_to_rust_code.py:55-61 | the lookup text has 23 lines, and line j + 2 is the arm for table entry j |
| IconEncoder.EmitLookup | scripts/weather_icons/icons_to_rust_code.py:55-61 | the writer's loop produces the lookup text |
| IconEncoder.TableUsesEveryIcon | scripts/weather_icons/icons_to_rust_code.py:3-22 | every icon name appears among the table's values |
| IconEncoder.ArraysTextStep | scripts/weather_icons/icons_to_rust_code.py:46-52 | the array text of an icon order is the first icon's array followed by the rest |
| IconEncoder.EmitFile | scripts/weather_icons/icons_to_rust_code.py:42-61 | for any order that names every icon once, the file is the banner, each icon's array in that order, then the lookup |
| IconDecoder.RowPixelsStep | wifi_display_openweather_rtc_mqtt/src/main.rs:563-573 | one column step appends the pixel exactly when it is lit |
| IconDecoder.DecodeGuarded | wifi_display_openweather_rtc_mqtt/src/main.rs:556-574 | the guarded nested loops emit the decoded pixels, row by row, left to right |
| IconDecoder.ByteIndexBound | wifi_display_openweather/src/main.rs:349-353 | for x, y < 40 the unguarded index `5y + x/8` is at most 199 |
| IconDecoder.DecodeUnguarded | wifi_display_openweather/src/main.rs:347-362 | on 200 bytes the unguarded loops index in bounds and emit the same pixels as the guarded ones |
| IconDecoder.RowPixelsMembers | wifi_display_openweather_rtc_mqtt/src/main.rs:563-573 | a row emits exactly the lit columns, at their offset points |
| IconDecoder.RowsPixelsMembers | wifi_display_openweather_rtc_mqtt/src/main.rs:562-574 | the first m rows emit exactly their lit pixels |
| IconDecoder.DecodeMembers | wifi_display_openweather_rtc_mqtt/src/main.rs:562-574 | (160+x, 70+y) is emitted exactly when `5y + x/8 < len` and bit `7 - x%8` of that byte is set |
| IconDecoder.DecodeInIconSquare | wifi_display_openweather_rtc_mqtt/src/main.rs:570-571 | every emitted pixel has the icon colour and lies in [160,200)×[70,110), on the 240×320 screen |
| IconDecoder.LitPacked | scripts/weather_icons/icons_to_rust_code.py:31-39 | a pixel of the packed bytes is lit exactly when it was black |
| IconDecoder.RowRoundTrip | wifi_display_openweather_rtc_mqtt/src/main.rs:563-573 | decoding a packed row emits exactly that row's black pixels, in order |
| IconDecoder.RowsRoundTrip | wifi_display_openweather_rtc_mqtt/src/main.rs:562-574 | decoding packed rows emits exactly their black pixels, in order |
| IconDecoder.DecodePackRoundTrip | scripts/weather_icons/icons_to_rust_code.py:31-39 | decoding a packed grid emits exactly the grid's black pixels offset by (160, 70), in row order |
| IconDecoder.DecodePackMembers | wifi_display_openweather_rtc_mqtt/src/main.rs:562-574 | a point is drawn from packed bytes exactly when its grid pixel is black |
| IconDecoder.DrawWeatherIcon | wifi_display_openweather_rtc_mqtt/src/main.rs:549-581 | the icon is drawn as decoded pixels when the lookup has artwork, and as the fallback glyph at (160, 70) otherwise |
| IconDecoder.DrawWeatherIconUnguarded | wifi_display_openweather/src/main.rs:341-372 | the first demo's icon drawing does the same with the unguarded decoder |
| IconDecoder.IconOpsShowsArtwork | wifi_display_openweather_rtc/src/main.rs:389-420 | a table code draws exactly its icon's black pixels; any other code draws the unknown glyph |
| WeatherTables.WeatherSymbolKnownCodes | wifi_display_openweather_rtc/src/main.rs:72-88 | the glyph is known exactly for the 18 table codes; everything else gets the unknown glyph |
| WeatherTables.WeatherSymbolMatchesIcon | wifi_display_openweather/src/main.rs:63-79 | the glyph pictures what the icon artwork pictures for every table code except "10d" |
| WeatherTables.CloudGlyphCodes | wifi_display_openweather_rtc_mqtt/src/main.rs:182-198 | 02n, 03d, 03n, 04d and 04n, and no other code, share the cloud glyph |
| WeatherTables.IconColorMatchesIcon | wifi_display_openweather_rtc_mqtt/src/main.rs:201-209 | every table code's colour is that of what its artwork pictures, except "02n" |
| WeatherTables.ColorTablesDiffer | wifi_display_openweather/src/main.rs:297-306 | the first demo's table differs from the later one exactly on prefixes 03 and 04, light gray instead of gray |
| WeatherTables.UnknownPrefixIsWhite | wifi_display_openweather_rtc/src/main.rs:346-352 | a prefix outside the tables is white in both |
| MovementQueue.PushedShape | wifi_display_openweather_rtc_mqtt/src/main.rs:405-408 | a push puts the entry first, grows the queue by one up to six, and keeps the old entries in order, dropping only the oldest on overflow |
| MovementQueue.PushedBound | wifi_display_openweather_rtc_mqtt/src/main.rs:405-408 | a queue of at most six stays at most six, with length min(old + 1, 6) |
| MovementQueue.ReverseAt | wifi_display_openweather_rtc_mqtt/src/main.rs:405 | entry i of the reversed batch is entry n-1-i of the batch |
| MovementQueue.PushedAllKeepsNewest | wifi_display_openweather_rtc_mqtt/src/main.rs:405-408 | after any batch of pushes the queue holds the newest six entries, newest first |
| MovementQueue.SevenPushesKeepSix | wifi_display_openweather_rtc_mqtt/src/main.rs:405-408 | seven pushes onto an empty queue leave the last six, newest first |
| MovementQueue.MovementLog.constructor | wifi_display_openweather_rtc_mqtt/src/main.rs:630-633 | the queue starts empty |
| MovementQueue.MovementLog.Push | wifi_display_openweather_rtc_mqtt/src/main.rs:405-408 | the push updates the queue as specified and keeps it at most six |
| MovementQueue.MovementStampShape | wifi_display_openweather_rtc_mqtt/src/main.rs:397-399 | an entry is "HH:MM:SS" of the local hour and of the UTC minute and second |
| MovementQueue.HandleMovementEvent | wifi_display_openweather_rtc_mqtt/src/main.rs:393-411 | a movement pushes its local time stamp onto the queue |
| MqttStation.BuildStateClock | wifi_display_openweather_rtc_mqtt/src/main.rs:788-821 | the shown time string reads back as the local second, the date string ends in the label of the local fields, and without a cache no city or icon is set |
| MqttStation.OctoberLabelMismatchOnScreen | wifi_display_openweather_rtc_mqtt/src/main.rs:788-795 | at 02:30 UTC on 27 October 2024 the screen shows 04:30:00 under "27.10.2024 CET" |
| MqttStation.RenderMovementEvents | wifi_display_openweather_rtc_mqtt/src/main.rs:584-601 | event i is drawn at x = 10 for even i and 120 for odd i, at y = 220 + 20·(i div 2) |
| MqttStation.EventLayoutFits | wifi_display_openweather_rtc_mqtt/src/main.rs:584-601 | up to six events lie inside the cleared 240×80 area at (0, 210), each at its own position on the 240×320 screen |
| MqttStation.RenderDisplay | wifi_display_openweather_rtc_mqtt/src/main.rs:497-546 | the drawing is the date, the time, and with a city the weather block, the icon, the cleared event area and the events |
| MqttStation.DisplayOpsRules | wifi_display_openweather_rtc_mqtt/src/main.rs:507-545 | date and time are always drawn first; the weather lines, icon, clear and events appear exactly when the city is non-empty, the clear after the icon and before the events |
| MqttStation.StepSkipsSameSecond | wifi_display_openweather_rtc_mqtt/src/main.rs:726-730 | a pass in the same local second changes nothing |
| MqttStation.StepWeatherUpdate | wifi_display_openweather_rtc_mqtt/src/main.rs:734-784 | cache and fetch time change exactly when the gate is open and the fetch succeeds, to the report and the current second; a report is published on "weather/<city>" exactly when the broker accepts it; the publish outcome does not affect the cache |
| MqttStation.StepRedraw | wifi_display_openweather_rtc_mqtt/src/main.rs:786-827 | the state is rebuilt from the refreshed cache, the screen is redrawn exactly when the state differs from the previous one, and the previous state becomes the current one |
| MqttStation.InitialLoopInvariant | wifi_display_openweather_rtc_mqtt/src/main.rs:710-713 | the loop starts in its invariant |
| MqttStation.EveryPassRedraws | wifi_display_openweather_rtc_mqtt/src/main.rs:726-827 | the invariant is kept, and every pass that is not skipped shows a new second and so redraws |
| MqttStation.WeatherStation.constructor | wifi_display_openweather_rtc_mqtt/src/main.rs:710-713 | no fetch yet, empty previous state, last second 0, no cache, nothing published or drawn |
| MqttStation.WeatherStation.Tick | wifi_display_openweather_rtc_mqtt/src/main.rs:715-831 | one loop pass updates the loop's variables, cache, publications and screen as the step function says |
| MqttStation.WeatherStation.UpdateWeather | wifi_display_openweather_rtc_mqtt/src/main.rs:745-783 | a successful fetch caches the report, publishes it if the broker accepts, and records the fetch time; a failed one changes nothing |
| MqttStation.WeatherStation.OnMovement | wifi_display_openweather_rtc_mqtt/src/main.rs:393-411 | a movement message pushes its stamp onto the shared queue |
| RtcStation.RtcStepFetch | wifi_display_openweather_rtc/src/main.rs:329-428 | the fetch time changes exactly when the gate is open and the fetch succeeds, and the weather screen is then drawn before the clock; an error changes no state |
| RtcStation.RtcStepDrawsClock | wifi_display_openweather_rtc/src/main.rs:431-449 | every pass keeps what was drawn and ends with the clock line (date and label at y = 20, time at y = 40) |
| RtcStation.RtcNoRefetchWithinInterval | wifi_display_openweather_rtc/src/main.rs:315-329 | within 900 seconds of a fetch at a non-zero time only the clock line is drawn |
| RtcStation.WeatherScreenMatchesMqtt | wifi_display_openweather_rtc/src/main.rs:341-420 | the clock demo draws the same weather lines and icon, at the same places and in the same colour, as the final demo's weather block |
| RtcStation.RtcClock.constructor | wifi_display_openweather_rtc/src/main.rs:301-316 | the screen is cleared black and no fetch has happened |
| RtcStation.RtcClock.Iterate | wifi_display_openweather_rtc/src/main.rs:318-453 | one loop pass changes fetch time and screen as the step function says |
| RtcStation.RtcClock.DrawWeather | wifi_display_openweather_rtc/src/main.rs:341-420 | the success arm draws a black screen, five lines and the icon in the table colour |
| OpenWeatherStation.SinceLastClearAfterClear | wifi_display_openweather/src/main.rs:374-380 | after a clear followed by no other clear, exactly those operations are visible |
| OpenWeatherStation.PassReplacesScreen | wifi_display_openweather/src/main.rs:288-380 | every pass starts with a clear (black on success, red on error), so exactly that pass's drawing is visible afterwards |
| OpenWeatherStation.ErrorScreen | wifi_display_openweather/src/main.rs:374-380 | after a failed fetch only the red screen with "Error" at (10, 30) is visible |
| OpenWeatherStation.OpenWeatherDisplay.constructor | wifi_display_openweather/src/main.rs:272 | the screen is cleared black |
| OpenWeatherStation.OpenWeatherDisplay.Iterate | wifi_display_openweather/src/main.rs:279-385 | every pass fetches with no gate, draws five lines at y = 30..150 and the icon in the older table's colour or the error banner, then waits 15 minutes |

## Left out

- Wi-Fi join and reconnect, SNTP polling, the HTTPS request, the MQTT client, its TLS certificate and its listener thread are left out. These are network I/O and concurrency. A fetch is a `FetchOutcome` parameter, a publish is a boolean parameter, and movements arrive by sequential method calls.
- The mutexes and global statics (`MOVEMENT_EVENTS`, `LAST_WEATHER_DATA`) are not modelled, nor are their lock failures. The `?` on a lock, on `is_connected` and on `duration_since` would end `main` with an error. The cache and the queue are plain fields.
- Display drivers, SPI and GPIO wrappers, fonts and styles are left out. Drawing is the `DrawOp` log, and text styles are reduced to "on black" and "transparent".
- Temperature and wind speed are floats printed with `{:.1}` and stay opaque strings. serde (de)serialisation is left out: the published payload is the report itself.
- The emoji glyph literals are mis-encoded in the source. They become distinct `Glyph` constants.
- The clock demos' "°C" literal is a UTF-8 degree sign read as Latin-1. It is kept as the three characters the source text holds.
- chrono is replaced by a proleptic Gregorian calendar. It is defined for non-negative timestamps only, so `UtcToBerlin` takes a `nat`. chrono's range limits and its `unwrap` panics are not modelled.
- The 32-bit arithmetic of `5 * year` in `is_dst` is modelled on unbounded integers. It overflows only for years beyond 429 million.
- Panics become preconditions: `weather[0]` on an empty list, and `&icon_code[..2]` on a code shorter than two characters.
- WeatherTables.IconColor, WeatherTables.LegacyIconColor: icon codes are taken to be ASCII, as OpenWeatherMap's codes are, and the precondition counts characters. Rust's `&icon_code[..2]` slices UTF-8 bytes: it panics on a code such as "a€", whose second byte is inside a character, and accepts a single two-byte character such as "é". This byte/character difference is not modelled.
- The delays are left out: 100 ms and 50 ms in the final demo, 1000 ms in the clock demo. The first demo's 15-minute wait is kept only as a counter of waited milliseconds.
- PNG loading and file writing in the icon script are left out. `png_to_bytes` works on an abstract 40x40 grid. The order in which `set(ICON_MAP.values())` yields icons is not modelled: `EmitFile` takes any order that names every icon once.
- The other repository files are not part of this model: the Wi-Fi-only and display-only demos, the PSRAM check, `icons_to_png.py`, the `secrets.rs` files and the build scripts.
- The last-Sunday formula is kept as written. For 2100 it gives a wrong day (`TimeUtils.LastSundayFormulaFailsIn2100`), and the model keeps that behaviour.
