# Cidar utility helpers, modelled in Dafny

This project models the helpers in `src/util.rs` of Cidar, a media-catalog
application:

- **Duration formatter** (`milli_to_hhmmss`). A track length in milliseconds
  becomes a clock reading. The hours wrap at 24. The text has one of three
  shapes: `SS`, `MM:SS` or `H:MM:SS`, and only the hour is left unpadded.
- **Artwork URL templater** (`wh`). Every `{w}` in the template becomes the
  decimal width, then every `{h}` becomes the decimal height.
- **Author normalizer** (`split_authors`). The list is split on `:` and the
  pieces are joined with `", "`.
- **Conversion counter** (`increment_conversion`, `create_conversion_counter`).
  The counter reads the record (`stats`, `conversions`), creating it with the
  default payload on a miss. It adds one to `total_conversions` and writes the
  whole record back.

Modules, one per concern:

| file | module | what it holds |
|---|---|---|
| `wrappers.dfy` | `Wrappers` | `Option`, `Result` |
| `decimal.dfy` | `Decimal` | Rust's `{}` and `{:02}` rendering of unsigned integers, and `ParseNat`, which reads digits back |
| `strings.dfy` | `Strings` | Rust's `str::replace`, `split` (on a character or a string) and `join` on `seq<char>` |
| `duration.dfy` | `Duration` | `MilliToHhmmss`, its fields `Components` and the reader `ParseClock` |
| `template.dfy` | `Template` | `Wh` and the reference definition `Expand`, which substitutes both placeholders in a single pass |
| `authors.dfy` | `Authors` | `SplitAuthors` |
| `conversions.dfy` | `Conversions` | the record cell `StatsTable`, `CreateConversionCounter` and `IncrementConversion` |

The database is one record cell, `StatsTable.record : Option<Store>`. Each of
its three calls (`Select`, `Create`, `Update`) may fail, and the model leaves
that choice open. A successful `Create` or `Update` is appended to the ghost
log `writes`, so the contracts can say which writes an increment made. The
`panic!` in `create_conversion_counter` is a distinguished result
(`OrPanic.Panicked`, then `Outcome.Aborted`) that carries the panic message.

## Model

| member | source | states |
|---|---|---|
| `Duration.MilliToHhmmss` | src/util.rs:8-23 | the text has at least two characters, and it holds a colon exactly when the hours or the minutes are non-zero. Its exact shape is pinned by `ParseClockRoundTrip` and the three shape lemmas |
| `Duration.Components` | src/util.rs:9-14 | seconds, minutes and hours are in range (`ss < 60`, `mm < 60`, `hh < 24`), and together they name the second of the day that `millis / 1000` reaches, so whole days are dropped |
| `Duration.ParseClockRoundTrip` | src/util.rs:16-22 | reading the formatted text back (split on `:`, parse each field) recovers exactly the hours, minutes and seconds computed, in all three shapes |
| `Duration.SecondsOnlyShape` | src/util.rs:18-19 | when hours and minutes are zero the text is two digits with no colon |
| `Duration.MinutesShape` | src/util.rs:16-17 | when hours are zero and minutes are not, the text is `DD:DD` |
| `Duration.HoursShape` | src/util.rs:20-21 | when hours are non-zero the text is a decimal hour without a leading zero, then `:DD:DD` |
| `Duration.ShapeByLength` | src/util.rs:11-14 | under a minute gives hours = minutes = 0 and seconds = millis / 1000. From a minute up to an hour gives hours = 0 and minutes ≠ 0. From an hour up to a day gives hours = millis / 3600000 |
| `Duration.DayWraps` | src/util.rs:14 | adding a whole day to the duration does not change the text (hours wrap modulo 24) |
| `Duration.ClockBySecondOfDay` | src/util.rs:12-14 | two in-range clocks that name the same second of the day are equal |
| `Duration.Examples` | src/util.rs:8-23 | 0 ms gives `"00"`, 59000 gives `"59"`, 60000 gives `"01:00"`, 3599000 gives `"59:59"`, 3600000 gives `"1:00:00"` and 3661000 gives `"1:01:01"` |
| `Decimal.NatToString` | src/util.rs:21 | `{}` prints a non-empty run of digits, with a leading `0` only for zero, and a single digit exactly for values below ten |
| `Decimal.ParseNatToString` | src/util.rs:26-27 | reading the decimal rendering back gives the number |
| `Decimal.DigitsExclude` | src/util.rs:21 | a rendered number holds no character that is not a digit, such as `:` or `{` |
| `Decimal.Pad2` | src/util.rs:17 | `{:02}` prints digits that read back as the number, exactly two of them for values below 100 and never fewer than two |
| `Template.Wh` | src/util.rs:25-28 | `wh` equals the single-pass substitution that expands each `{w}` to the width and each `{h}` to the height where they start, and copies every other character |
| `Template.WhOrderIrrelevant` | src/util.rs:26-27 | substituting the height before the width gives the same URL as the code's width-then-height order |
| `Template.WhLeavesNoPlaceholder` | src/util.rs:25-28 | no `{w}` and no `{h}` remains in the result |
| `Template.WhWithoutPlaceholders` | src/util.rs:25-28 | a template containing neither placeholder is returned unchanged |
| `Template.WhFillsBoth` | src/util.rs:25-28 | a template of brace-free text around one `{w}` and one `{h}` gets the decimal width and height in their places |
| `Template.WhExampleUrl` | src/util.rs:25-28 | `"https://ex/{w}x{h}.jpg"` with 100 and 200 gives `"https://ex/100x200.jpg"` |
| `Template.WhExampleRepeated` | src/util.rs:26 | `"{w}{w}"` with width 5 gives `"55"` (every occurrence is replaced) |
| `Template.SequentialIsSimultaneous` | src/util.rs:26-27 | for two distinct placeholders and decimal replacements, two global replaces in a row equal the simultaneous substitution |
| `Template.StartsWithAfterReplace` | src/util.rs:26-27 | after a placeholder is replaced by a decimal, the text starts with a placeholder exactly when the original did and it is not the one replaced |
| `Template.NoneLeft` | src/util.rs:26 | replacing a placeholder by a decimal leaves no occurrence of that placeholder |
| `Template.ExpandSymmetric` | src/util.rs:26-27 | the simultaneous substitution does not depend on which placeholder is listed first |
| `Strings.ReplaceAll` | src/util.rs:26-27 | `str::replace` with a non-empty pattern. No contract of its own; pinned by `ReplaceAllAbsent`, `ReplaceAllSkips`, `Template.NoneLeft` and `Template.Wh` |
| `Strings.ReplaceAllSkips` | src/util.rs:26-27 | a prefix without the pattern's first character is copied unchanged to the front of the result, and replacing continues on the rest |
| `Strings.ReplaceAllAbsent` | src/util.rs:26 | `replace` returns a text without an occurrence of the pattern unchanged |
| `Strings.Split` | src/util.rs:60 | `split(':')` yields at least one piece, and no piece holds the delimiter. Joining the pieces with the delimiter gives the input back |
| `Strings.Join` | src/util.rs:60 | `join` of the pieces with the separator between them. No contract of its own; pinned by `Split`, `SplitJoin`, `Authors.SplitOnJoin` and `Authors.SplitAuthors` |
| `Strings.SplitJoin` | src/util.rs:60 | splitting undoes joining when no piece holds the delimiter |
| `Authors.SplitAuthors` | src/util.rs:59-61 | `split_authors` equals replacing each `:` by `", "` and keeping every other character |
| `Authors.SplitAuthorsSingle` | src/util.rs:59-61 | a list without `:` is returned unchanged |
| `Authors.SplitAuthorsRoundTrip` | src/util.rs:59-61 | splitting the output on `", "` recovers the `:`-separated names, empty ones included, when no name contains `", "` |
| `Authors.SplitOnJoin` | src/util.rs:60 | splitting on `", "` undoes joining with `", "` when no piece contains `", "` |
| `Authors.SplitAuthorsExamples` | src/util.rs:59-61 | `"a:b:c"` gives `"a, b, c"`, `"solo"` gives `"solo"`, `"a::b"` gives `"a, , b"` and `""` gives `""` |
| `Conversions.IncrementConversion` | src/util.rs:30-45 | on success the record holds the previous count plus one, or 1 if it was absent. The writes were one create of the default (only if it was absent) and one full update. On an error either nothing was written, or only the default record was created. On a panic the message is `"Failed to create conversions store"` and nothing was written |
| `Conversions.CreateConversionCounter` | src/util.rs:47-57 | on success the default record (count 0) is stored and returned. On failure the call panics with `"Failed to create conversions store"` and nothing changes |
| `Conversions.StatsTable.Select` | src/util.rs:31 | a successful read returns the stored record, or `None` when it is absent |
| `Conversions.StatsTable.Create` | src/util.rs:48-51 | a successful create stores the content in an absent record. A failed one changes nothing |
| `Conversions.StatsTable.Update` | src/util.rs:39-42 | a successful update replaces the whole record with the content. A failed one changes nothing |
| `Conversions.IncrementsAdd` | src/util.rs:37 | `n` successful increments raise the count by `n` and leave a record behind |
| `Conversions.IncrementsFromNothing` | src/util.rs:31-37 | starting from no record, `n > 0` successful increments store exactly `n` |

## Left out

- `connect_to_db` (src/util.rs:63-83) is not part of this model. It reads environment variables, opens a websocket, signs in as root and selects namespace `cider` and database `cidar`. All of that is I/O against a client library that is not shown.
- The database client's internals are not modelled. It is a single optional record cell, and the choice between success and failure is left open on every call.
- The client's `Option` around the created record is always `Some` in this model, so the `unwrap` panic at src/util.rs:56 cannot occur in it.
- The `info!` log line (src/util.rs:36) has no semantic content and is left out.
- `async` suspension and the lost update between two concurrent increments are left out. The code makes no atomicity promise, and the model runs one call at a time.
- `Conversions.Store` keeps only `total_conversions`. The application's `Store` type is defined elsewhere and its other fields are not shown.
- `Conversions.IncrementConversion`: `total_conversions` is an unbounded `nat`. The width of the field in `Store` is not shown, so overflow of `+= 1` is not modelled.
- `Duration.Components`: the millisecond count is an unbounded `nat` rather than a `u128`. A `Duration` cannot exceed the `u128` range, so nothing is lost.
- `Strings.ReplaceAll` requires a non-empty pattern. Rust's `replace` with an empty pattern inserts between characters, but util.rs only replaces `{w}` and `{h}`.
- `Template.Wh` replaces every occurrence of each placeholder, as `str::replace` does (see `Template.WhExampleRepeated`); a template with several `{w}` gets the width at each.
