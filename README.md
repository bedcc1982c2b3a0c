# par progress bar, modelled in Dafny

This project models the core of `par`, a Rust library that draws one
self-overwriting progress line on a terminal (`src/lib.rs`). It covers three
parts:

- the `Bar`: a `usize` counter with a fixed total, its display configuration
  (label, counter/percent/bar toggles, units, reporter, five-glyph format), and
  the redraw that follows every change of the counter;
- the line formatter `to_str`: a prefix (label plus `cur / total `), a percent
  suffix, a bar segment sized to what the terminal width leaves over, and
  trailing spaces up to the terminal width;
- the stream proxies `Reader` and `Writer`, which add the number of bytes they
  pass to the bar.

Modules, in dependency order:

- `Base`: the `usize` range (`WORD` = 2^64), the 16-bit column count, and
  `Option`/`Result`.
- `Units`: the `unit` helper of `counter_str`. It holds decimal printing with
  its parser, and the `as i64` cast before the humanized-size formatter.
- `Layout`: `to_str` as the pure function `Render`. It is a function of the
  counter, the total, a `Style` (the configuration) and an `Env` (the terminal
  and the foreign formatters). `RenderAsWritten` keeps the source's arithmetic,
  and the lemmas compare the two.
- `Reporting`: where a rendered line goes. Output is a log of `Emission`s,
  not real writes.
- `Progress`: the class `Bar`. Its methods change `current` (and the glyph
  fields for `Format`) in place. Each redraw appends to the field `log`.
- `Streams`: the classes `Reader` and `Writer`. They hold a reference to the
  `Bar` they update.

Redraws go through `Redraw`. While the counter is within the total, it is one
rendered line for the reporter, and otherwise nothing. This is the gate in
`update`. `Display` renders with no gate, so it is the one path that can ask
for a bar past its total. It returns the failure as `Err(FillOverrun)`.

In these cases the model keeps the code's behaviour:

- `Bar::new(0)` is accepted. A zero total is handled the way the float
  arithmetic and Rust's saturating casts handle it: `0/0` is NaN, which casts
  to a fill of 0, and `x/0` is infinite, which casts to `usize::MAX`.
  With a zero total the counter at its total is 0, so the fill is 0 and the
  bar is drawn empty; as written, `cur_count - 1` underflows there.
- A format spec whose length is not five is ignored, and the previous format
  is kept.
- The writer proxy never forwards bytes to the writer it wraps.
- `flush` does not flush the wrapped writer.

The `Bar` class uses corrected definitions in three places, each listed under
"## Findings": the two `usize` underflows in `to_str` and the `StdOut` arm of
`progress`.

## Model

| member | source | states |
|---|---|---|
| Units.Decimal | src/lib.rs:211 | `usize::to_string` is non-empty and all digits, and starts with `0` only for zero |
| Units.DecimalRoundTrip | src/lib.rs:211 | parsing the decimal text of a counter gives back the counter |
| Units.DecimalInjective | src/lib.rs:211 | two counters print the same only when they are equal |
| Units.Unit | src/lib.rs:209-214 | `Units::None` prints the value in decimal, which reads back to the value; `Units::Bytes` hands `value as i64` to the humanized-size formatter |
| Units.AsI64 | src/lib.rs:212 | `value as i64` is the two's-complement reading of the same 64 bits (in range, and congruent to `value` mod 2^64) |
| Layout.ParseFormat | src/lib.rs:149-158 | a spec is accepted exactly when it has five glyphs |
| Layout.FormatRoundTrip | src/lib.rs:149-158 | an accepted spec gives its five glyphs in order (start, fill, leading edge, empty, end), and printing them gives the spec back |
| Layout.Width | src/lib.rs:190-192 | the width is the terminal's column count when there is one, and 80 otherwise |
| Layout.Repeat | src/lib.rs:223-225 | `repeat(what, n)` is exactly `n` copies of the glyph |
| Layout.CounterText | src/lib.rs:208-219 | for either units, `counter_str` is the counter's unit text, ` / `, the total's unit text and a space; in decimal (`Units::None`), the digits before the ` / ` read back to the counter and those after it to the total |
| Layout.PrefixSegment | src/lib.rs:230-237 | the prefix starts with the label; it is followed by the counter text when the counter is shown, and is the label alone otherwise |
| Layout.SuffixSegment | src/lib.rs:239-242 | with the percent shown the suffix is ` <percent> %` (a leading space and a trailing ` %`); otherwise it is empty |
| Layout.Pad | src/lib.rs:260-264 | padding keeps the line, appends only spaces, and never truncates: the length is `max(len, width)` |
| Layout.PadKeepsHead | src/lib.rs:260-264 | padding leaves every prefix of the line in place |
| Layout.FillCount | src/lib.rs:247-249 | for a positive total the fill count is the ceiling of `current * size / total`; for a zero total it is zero exactly when the counter is zero (NaN casts to 0, infinity to `usize::MAX`) |
| Layout.FillFits | src/lib.rs:247-250 | the fill fits in the bar (`size - cur_count` does not underflow) exactly when `current <= total` |
| Layout.FillZero | src/lib.rs:247-249 | with a positive total, the fill is zero exactly when the counter is zero |
| Layout.FillFull | src/lib.rs:247-249 | for a positive total, a counter at its total fills every cell |
| Layout.LeadingShownIff | src/lib.rs:252-256 | a leading-edge cell appears exactly when the bar is partly filled (`0 < fill < size`) |
| Layout.Segment | src/lib.rs:251-257 | the segment is `size + 2` glyphs: start, then cell `k` shows fill, leading edge or empty as the reference `CellAt` says, then end |
| Layout.SegmentFull | src/lib.rs:254-257 | a full segment is start, `size` fill glyphs, end |
| Layout.SegmentEmpty | src/lib.rs:251-257 | an empty segment is start, `size` empty glyphs, end |
| Layout.BarSegment | src/lib.rs:245-258 | corrected: the segment is drawn exactly when the fill fits in the bar, and then has `size + 2` glyphs; otherwise it fails with `FillOverrun` |
| Layout.BarSegmentAsWritten | src/lib.rs:245-258 | as written: it fails with `EdgeUnderflow` exactly when there is room for a bar and the fill is zero; any segment it draws has `size + 2` glyphs |
| Layout.BarSegmentShape | src/lib.rs:245-258 | for `size > 0` and `current <= total`: `fill <= size`, the segment is drawn with exactly `size + 2` glyphs (start, the cells `CellAt` describes for the ceiling fill, end) |
| Layout.BarSegmentOverrun | src/lib.rs:250 | a counter past its total makes the segment fail, both as written and corrected |
| Layout.BarSegmentFull | src/lib.rs:254-257 | for a positive total, at `current == total` the segment is start, fill glyphs only, end: no leading edge and no empty glyph |
| Layout.BarSegmentEmpty | src/lib.rs:252-253 | corrected: at `current == 0` the segment is start, empty glyphs only, end, for any total, zero included |
| Layout.BarSegmentCorrection | src/lib.rs:250-257 | the source's segment fails with `EdgeUnderflow` exactly when the counter is zero; wherever it succeeds, the corrected segment is the same string |
| Layout.Render | src/lib.rs:222-266 | corrected `to_str`: a produced line is at least as wide as the terminal, and the only failure is `FillOverrun` |
| Layout.RenderAsWritten | src/lib.rs:222-266 | `to_str` as written: it fails with `WidthUnderflow` exactly when the bar is shown and the terminal is narrower than prefix + suffix + 3; a produced line is at least as wide as the terminal |
| Layout.RenderFailsIff | src/lib.rs:244-259 | the corrected formatter fails only when it must draw a bar and `current > total`, and then with `FillOverrun` |
| Layout.RenderLayout | src/lib.rs:244-265 | for `current <= total` the line is prefix ++ bar ++ suffix, followed by spaces, of length `max(len, width)`; when a bar is drawn it is the segment of the ceiling fill (`size + 2` glyphs: start, cell `k` as `CellAt` says, end) and the line is exactly `width` long; otherwise there is no bar |
| Layout.RenderContent | src/lib.rs:260-264 | a rendered line is the padded concatenation of the prefix, the drawn bar segment (or nothing when no bar is drawn) and the suffix |
| Layout.RenderPrefix | src/lib.rs:208-237 | a line starts with the label; with the counter shown it continues `unit(current) / unit(total) `, and in decimal for `Units::None` |
| Layout.RenderFull | src/lib.rs:254-257 | for a positive total, at `current == total` the drawn bar is fill glyphs only, between start and end |
| Layout.NarrowTerminal | src/lib.rs:245 | as written, a terminal narrower than prefix + suffix + 3 underflows `usize`; corrected, the bar is left out |
| Layout.EmptyBarUnderflow | src/lib.rs:252-253 | as written, every line with room for a bar and a zero counter underflows `cur_count - 1`, whatever the total, zero included; corrected, it shows an empty bar |
| Layout.RenderCorrection | src/lib.rs:244-265 | wherever the source produces a line, the corrected formatter produces the same line |
| Reporting.SinkAsWritten | src/lib.rs:268-282 | as written: a line goes somewhere exactly when the reporter is not `None`, and never to standard output |
| Reporting.ReporterSink | src/lib.rs:270-281 | a line is delivered somewhere exactly when the reporter is not `None` |
| Reporting.StdOutAsWritten | src/lib.rs:274-276 | as written, the `StdOut` reporter writes to standard error, like `StdErr` |
| Reporting.ReporterSinkInjective | src/lib.rs:270-281 | corrected, distinct reporters reach distinct sinks, and `StdOut`/`StdErr` reach the streams they name |
| Reporting.EmitTo | src/lib.rs:270-281 | one redraw is at most one emission on the chosen sink: `\r` + line on a stream, the bare line to a callback |
| Reporting.Emit | src/lib.rs:268-282 | one redraw with a reporter is one emission on that reporter's corrected sink; with `Reporter::None` nothing is emitted |
| Progress.Redraw | src/lib.rs:178-183 | a redraw emits at most one line, nothing once the counter is past the total, and exactly one while it is within the total and there is a reporter |
| Progress.RedrawOnce | src/lib.rs:178-183 | `update` emits exactly one line when `current <= total` and there is a reporter, and nothing otherwise; the line is the one the corrected `Render` produces, on the sink the corrected `ReporterSink` picks (so `StdOut` reaches standard output and a zero counter draws an empty bar), and is at least as wide as the terminal |
| Progress.Bar.constructor | src/lib.rs:135-145 | a new bar has the counter at zero, every part shown, no label, decimal units, the standard-error reporter and the format `[=>_]` |
| Progress.Bar.Format | src/lib.rs:149-158 | installs the five glyphs in order for a five-glyph spec, else keeps the format; nothing else changes |
| Progress.Bar.Add | src/lib.rs:166-170 | returns the previous counter, leaves `current == (prev + delta) mod 2^64`, then redraws |
| Progress.Bar.Incr | src/lib.rs:161-163 | has the same effect and result as `add(1)` |
| Progress.Bar.Set | src/lib.rs:173-176 | leaves `current == value`, also below the previous value, then redraws; the total and the configuration are unchanged |
| Progress.Bar.Update | src/lib.rs:178-183 | appends one redraw, gated on `current <= total`, and never changes the counter |
| Progress.Bar.Progress | src/lib.rs:268-282 | renders the line with the corrected `Render` and hands it to the reporter through the corrected `ReporterSink`, so `StdOut` reaches standard output and a zero counter draws an empty bar |
| Progress.Bar.Display | src/lib.rs:285-289 | renders with no gate, and fails exactly when a bar past its total would have to be drawn |
| Progress.Bar.FinishPrint | src/lib.rs:185-188 | writes an empty line, then the message on its own line, to standard output |
| Streams.InnerRead | src/lib.rs:84 | an inner read returns at most the buffer's capacity, and the bytes read followed by what remains are what was pending |
| Streams.Reader.constructor | src/lib.rs:74-79 | wraps the inner reader and the bar |
| Streams.Reader.Read | src/lib.rs:83-87 | returns the inner count `n` and adds exactly `n` to the counter; on an inner error, returns that error and leaves the counter and log unchanged |
| Streams.Writer.constructor | src/lib.rs:91-96 | wraps the inner writer and the bar |
| Streams.Writer.Write | src/lib.rs:100-104 | returns `buf.len()`, adds it to the counter, and leaves the inner writer untouched |
| Streams.Writer.Flush | src/lib.rs:105-107 | always succeeds, and does nothing |

## Findings

| source | as written | input that shows it | evidently intended | confidence | as-written member | corrected member |
|---|---|---|---|---|---|---|
| src/lib.rs:253 | `cur_count - 1` on `usize` when cells remain empty; it underflows when `cur_count` is 0 | `Bar::new(100)` then `update()` on an 80-column terminal: counter 0, so fill 0 with 62 empty cells | draw an empty bar: start, empty glyphs, end | high; not executed | Layout.EmptyBarUnderflow | Layout.BarSegmentEmpty |
| src/lib.rs:245 | `width - (prefix.len() + suffix.len() + 3)` on `usize` underflows when the terminal is narrower than that | an 80-column terminal and a label of 80 characters | leave the bar out and print prefix and suffix | high; not executed | Layout.NarrowTerminal | Layout.Render |
| src/lib.rs:274-276 | the `Reporter::StdOut` arm writes to standard error | `bar.reporter = Reporter::StdOut`, then `add(1)` | write to standard output | high; not executed | Reporting.StdOutAsWritten | Reporting.ReporterSinkInjective |

The rest of the model uses the corrected versions (`Layout.Render`,
`Reporting.ReporterSink`).

## Left out

- Terminal size query (`termsize::get`): replaced by the `cols` field of `Env`, a 16-bit column count that may be absent.
- Humanized byte sizes (`capsize::Capacity`): replaced by the function `capacity` in `Env`. The model only fixes that it receives `value as i64`.
- Percentage (`percent_completed`, `percent_completed_str`): the `f64` arithmetic and `{:.2}` formatting are replaced by the function `percentDigits` in `Env`. The suffix is modelled as `" " + digits + " %"`.
- Layout.FillCount: the fill is an exact rational ceiling, `(current*size + total - 1) / total`, instead of `f64` `ceil`. The two can differ where the `f64` quotient rounds.
- Panics: the `usize` underflows are `Fault` results rather than a panic (debug builds) or wrap-around (release builds).
- Lengths are counted in characters, not UTF-8 bytes. This applies to `prefix.len()`, `display.len()` and the five-glyph test in `format`. Glyphs are single characters.
- Concurrency: the atomic counter with `Ordering::Relaxed` is a plain field, and only sequential calls are modelled. `to_str` reads the counter once here, where the source reads it separately for the counter and the percentage.
- Output: writes to stderr/stdout, `println!` and the callback are appended to the `log` field. The callback's own behaviour is not modelled.
- `Default` for `Bar` (derived): a default bar has empty glyph strings, which single-character glyphs cannot represent.
- Streams.Reader.Read: on an inner error, the buffer is left unchanged. A real inner reader may have written into it before failing.
- Ownership: the proxies own their `Bar` by value in the source. Here they hold a reference to it.
- The unit test `it_works` relies on the `f64` percentage and is not modelled.
