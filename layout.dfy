/** The line formatter `Bar::to_str` as a pure function of the counter, the
    total, the display configuration and the terminal.

    The line is built in four steps: a prefix (label and `cur / total `
    counter), a percent suffix, a bar segment sized to what the terminal width
    leaves over, and trailing spaces up to the terminal width.

    Two versions of the bar arithmetic are given. `RenderAsWritten` follows
    the source literally, including its two `usize` underflows; `Render`
    corrects them and is the one the rest of the model uses. */
module Layout {
  import opened Base
  import opened Units

  /** The five glyphs of a bar format: start, fill, leading edge, empty, end. */
  datatype Glyphs = Glyphs(start: char, fill: char, edge: char, empty: char, end: char)

  /** The built-in format `[=>_]`. */
  const DefaultFormat: string := "[=>_]"

  /** Display configuration of a bar. */
  datatype Style = Style(
    prefix: string,
    showCounter: bool,
    showPercent: bool,
    showBar: bool,
    units: Units,
    glyphs: Glyphs)

  /** What the formatter asks of the outside world: the terminal's column
      count (absent when there is no terminal), the humanized-size formatter
      for `Units::Bytes`, and the two-decimal rendering of the floating-point
      percentage of `current` in `total`. */
  datatype Env = Env(
    cols: Option<u16>,
    capacity: int -> string,
    percentDigits: (nat, nat) -> string)

  /** Ways the arithmetic of the bar segment goes wrong.
      WidthUnderflow: `width - (prefix + suffix + 3)` below zero.
      FillOverrun:    `size - cur_count` below zero (more fill than room).
      EdgeUnderflow:  `cur_count - 1` below zero (nothing filled yet). */
  datatype Fault = WidthUnderflow | FillOverrun | EdgeUnderflow

  const FallbackWidth: nat := 80

  /** The characters of a format spec, as `Bar::format` takes them apart:
      a spec of exactly five glyphs, and nothing otherwise. */
  function ParseFormat(spec: string): (r: Option<Glyphs>)
    ensures r.Some? <==> |spec| == 5
  {
    if |spec| == 5 then Some(Glyphs(spec[0], spec[1], spec[2], spec[3], spec[4])) else None
  }

  /** The five glyphs written back out as a spec, in order. */
  function FormatText(g: Glyphs): (spec: string)
  {
    [g.start, g.fill, g.edge, g.empty, g.end]
  }

  /** Parsing a printed spec gives back its glyphs, and every accepted spec
      is the printed form of what it parses to. */
  lemma FormatRoundTrip(g: Glyphs, spec: string)
    ensures ParseFormat(FormatText(g)) == Some(g)
    ensures ParseFormat(spec).Some? ==> FormatText(ParseFormat(spec).value) == spec
  {
  }

  /** `Bar::width`: the terminal's column count, or 80 when it is unknown. */
  function Width(cols: Option<u16>): (w: nat)
    ensures w < 0x1_0000
    ensures cols == None ==> w == FallbackWidth
    ensures cols.Some? ==> w == cols.value as nat
  {
    match cols
    case None => FallbackWidth
    case Some(c) => c as nat
  }

  /** `repeat(what, n)`: `n` copies of one glyph. */
  function Repeat(c: char, n: nat): (r: string)
    ensures |r| == n
    ensures forall i | 0 <= i < n :: r[i] == c
  {
    if n == 0 then [] else Repeat(c, n - 1) + [c]
  }

  /** `s` followed by spaces up to `width`; never truncated. */
  function Pad(s: string, width: nat): (r: string)
    ensures |r| == Max(|s|, width)
    ensures r[..|s|] == s
    ensures forall i | |s| <= i < |r| :: r[i] == ' '
  {
    if |s| < width then s + Repeat(' ', width - |s|) else s
  }

  /** `counter_str`: `"<current> / <total> "` in the configured units, for
      either units; in decimal the two numbers read back from either side of
      the separator. */
  function CounterText(current: nat, total: nat, units: Units, env: Env): (r: string)
    requires current < WORD && total < WORD
    ensures
      var a := Unit(current, units, env.capacity);
      var b := Unit(total, units, env.capacity);
      && |r| == |a| + |b| + 4
      && r[..|a|] == a && r[|a|..|a| + 3] == " / "
      && r[|a| + 3..|r| - 1] == b && r[|r| - 1] == ' '
    ensures units == NoUnits ==>
      var k := |Decimal(current)|;
      && |r| == k + |Decimal(total)| + 4
      && r[k..k + 3] == " / " && r[|r| - 1] == ' '
      && AllDigits(r[..k]) && DecimalValue(r[..k]) == current
      && AllDigits(r[k + 3..|r| - 1]) && DecimalValue(r[k + 3..|r| - 1]) == total
  {
    var a := Unit(current, units, env.capacity);
    var b := Unit(total, units, env.capacity);
    var r := a + " / " + b + " ";
    assert r[..|a|] == a && r[|a|..|a| + 3] == " / " && r[|a| + 3..|r| - 1] == b;
    r
  }

  /** The label, followed by the counter when it is shown. */
  function PrefixSegment(style: Style, current: nat, total: nat, env: Env): (r: string)
    requires current < WORD && total < WORD
    ensures |style.prefix| <= |r| && r[..|style.prefix|] == style.prefix
    ensures style.showCounter ==> r[|style.prefix|..] == CounterText(current, total, style.units, env)
    ensures !style.showCounter ==> r == style.prefix
  {
    if style.showCounter then style.prefix + CounterText(current, total, style.units, env)
    else style.prefix
  }

  /** `percent_completed_str`: `" <percent> %"` when the percentage is shown. */
  function SuffixSegment(style: Style, current: nat, total: nat, env: Env): (r: string)
    ensures style.showPercent ==> |r| >= 3 && r[0] == ' ' && r[|r| - 2..] == " %"
    ensures !style.showPercent ==> r == []
  {
    if style.showPercent then " " + env.percentDigits(current, total) + " %" else ""
  }

  /** Columns the prefix, the suffix and the three reserved columns take. */
  function Reserved(style: Style, current: nat, total: nat, env: Env): nat
    requires current < WORD && total < WORD
  {
    |PrefixSegment(style, current, total, env)| + |SuffixSegment(style, current, total, env)| + 3
  }

  /** Number of fill cells: `ceil(current / total * size)`, computed on exact
      rationals. With a zero total the float quotient is NaN (when `current`
      is zero) or infinite, and the saturating cast to `usize` turns these
      into 0 and, for a positive size, `usize::MAX` (the model only asks for
      a fill when the size is positive). */
  function FillCount(current: nat, total: nat, size: nat): (fill: nat)
    ensures total > 0 ==> fill * total >= current * size
    ensures total > 0 ==> fill * total < current * size + total
    ensures total == 0 ==> (fill == 0 <==> current == 0)
  {
    if total > 0 then (current * size + total - 1) / total
    else if current == 0 then 0
    else WORD - 1
  }

  // Division and multiplication facts the fill lemmas rely on.

  lemma DivBelow(x: nat, t: nat, q: nat)
    requires t > 0 && x < q * t
    ensures x / t < q
  {
  }

  lemma DivAtLeast(x: nat, t: nat, q: nat)
    requires t > 0 && x >= q * t
    ensures x / t >= q
  {
    var d := x / t;
    assert d * t + x % t == x;
    if d < q {
      MulLeq(d + 1, q, t);
    }
  }

  lemma MulLeq(a: nat, b: nat, c: nat)
    requires a <= b
    ensures a * c <= b * c
  {
  }

  /** There is room for the fill exactly when the bar is not past its total. */
  lemma FillFits(current: nat, total: nat, size: nat)
    requires 0 < size < WORD - 1
    ensures FillCount(current, total, size) <= size <==> current <= total
  {
    if total > 0 {
      var x := current * size + total - 1;
      if current <= total {
        MulLeq(current, total, size);
        assert x < (size + 1) * total;
        DivBelow(x, total, size + 1);
      } else {
        MulLeq(total + 1, current, size);
        assert x >= (size + 1) * total;
        DivAtLeast(x, total, size + 1);
      }
    }
  }

  /** No fill at all exactly when nothing has been counted. */
  lemma FillZero(current: nat, total: nat, size: nat)
    requires total > 0 && size > 0
    ensures FillCount(current, total, size) == 0 <==> current == 0
  {
  }

  /** A bar at its total is filled to the last cell. */
  lemma FillFull(total: nat, size: nat)
    requires total > 0
    ensures FillCount(total, total, size) == size
  {
    var x := total * size + total - 1;
    DivAtLeast(x, total, size);
    DivBelow(x, total, size + 1);
  }

  // ---------------------------------------------------------------------
  // The bar segment, cell by cell

  /** What a cell between the start and end glyphs shows. */
  datatype Cell = Filled | Leading | Vacant

  /** Reference description of cell `k` (1-based) of a bar with `fill` of
      `size` cells filled: filled cells, then the leading edge in place of the
      last filled cell unless the bar is full, then empty cells. */
  function CellAt(fill: nat, size: nat, k: nat): Cell
  {
    if k < fill then Filled
    else if k == fill then (if fill < size then Leading else Filled)
    else Vacant
  }

  function GlyphOf(g: Glyphs, c: Cell): char
  {
    match c
    case Filled => g.fill
    case Leading => g.edge
    case Vacant => g.empty
  }

  /** The leading edge is drawn exactly when the bar is partly filled. */
  lemma LeadingShownIff(fill: nat, size: nat)
    requires fill <= size
    ensures (exists k | 1 <= k <= size :: CellAt(fill, size, k) == Leading) <==> 0 < fill < size
  {
    if 0 < fill < size {
      assert CellAt(fill, size, fill) == Leading;
    }
  }

  /** The glyphs of a bar of `size` cells with `fill` of them filled. When
      the bar is partly filled the last filled cell shows the leading edge;
      otherwise (empty or full) there is no leading edge. */
  function Segment(g: Glyphs, fill: nat, size: nat): (s: string)
    requires fill <= size
    ensures |s| == size + 2
    ensures s[0] == g.start && s[size + 1] == g.end
    ensures forall k | 1 <= k <= size :: s[k] == GlyphOf(g, CellAt(fill, size, k))
  {
    if 0 < fill < size then
      [g.start] + Repeat(g.fill, fill - 1) + [g.edge] + Repeat(g.empty, size - fill) + [g.end]
    else
      [g.start] + Repeat(g.fill, fill) + Repeat(g.empty, size - fill) + [g.end]
  }

  /** The bar segment of `to_str` with the `cur_count - 1` underflow
      corrected: an empty bar is drawn as start, empty cells, end. */
  function BarSegment(g: Glyphs, current: nat, total: nat, size: nat): (r: Result<string, Fault>)
    ensures r.Ok? <==> FillCount(current, total, size) <= size
    ensures r.Ok? ==> |r.value| == size + 2
    ensures r.Err? ==> r.error == FillOverrun
  {
    var fill := FillCount(current, total, size);
    if fill > size then Err(FillOverrun) else Ok(Segment(g, fill, size))
  }

  /** The bar segment exactly as the source computes it: `size - cur_count`
      and, when cells remain empty, `cur_count - 1`, both on `usize`. */
  function BarSegmentAsWritten(g: Glyphs, current: nat, total: nat, size: nat): (r: Result<string, Fault>)
    ensures r == Err(EdgeUnderflow) <==> FillCount(current, total, size) == 0 && size > 0
    ensures r.Ok? ==> |r.value| == size + 2
  {
    var fill := FillCount(current, total, size);
    if fill > size then Err(FillOverrun)
    else if size - fill > 0 then
      if fill == 0 then Err(EdgeUnderflow)
      else Ok([g.start] + Repeat(g.fill, fill - 1) + [g.edge] + Repeat(g.empty, size - fill) + [g.end])
    else Ok([g.start] + Repeat(g.fill, fill) + Repeat(g.empty, size - fill) + [g.end])
  }

  /** On a bar not past its total the segment is drawn, has `size + 2`
      glyphs, and each cell shows what `CellAt` says for the ceiling fill. */
  lemma BarSegmentShape(g: Glyphs, current: nat, total: nat, size: nat)
    requires 0 < size < WORD - 1 && current <= total
    ensures FillCount(current, total, size) <= size
    ensures BarSegment(g, current, total, size) == Ok(Segment(g, FillCount(current, total, size), size))
    ensures |BarSegment(g, current, total, size).value| == size + 2
    ensures BarSegment(g, current, total, size).value[0] == g.start
    ensures BarSegment(g, current, total, size).value[size + 1] == g.end
    ensures forall k | 1 <= k <= size ::
      BarSegment(g, current, total, size).value[k] == GlyphOf(g, CellAt(FillCount(current, total, size), size, k))
  {
    FillFits(current, total, size);
  }

  /** A bar past its total cannot be drawn. */
  lemma BarSegmentOverrun(g: Glyphs, current: nat, total: nat, size: nat)
    requires 0 < size < WORD - 1 && current > total
    ensures BarSegment(g, current, total, size) == Err(FillOverrun)
    ensures BarSegmentAsWritten(g, current, total, size) == Err(FillOverrun)
  {
  }

  /** A bar at its total is start, `size` fill glyphs, end. */
  lemma BarSegmentFull(g: Glyphs, total: nat, size: nat)
    requires total > 0
    ensures BarSegment(g, total, total, size) == Ok([g.start] + Repeat(g.fill, size) + [g.end])
  {
    FillFull(total, size);
    SegmentFull(g, size);
  }

  lemma SegmentFull(g: Glyphs, size: nat)
    ensures Segment(g, size, size) == [g.start] + Repeat(g.fill, size) + [g.end]
  {
  }

  /** A bar at zero is start, `size` empty glyphs, end, a zero total
      included. */
  lemma BarSegmentEmpty(g: Glyphs, total: nat, size: nat)
    requires size > 0
    ensures BarSegment(g, 0, total, size) == Ok([g.start] + Repeat(g.empty, size) + [g.end])
  {
    if total > 0 {
      FillZero(0, total, size);
    }
    SegmentEmpty(g, size);
  }

  lemma SegmentEmpty(g: Glyphs, size: nat)
    ensures Segment(g, 0, size) == [g.start] + Repeat(g.empty, size) + [g.end]
  {
  }

  /** The source's segment fails exactly on an empty bar with room to draw;
      wherever it succeeds the corrected segment is the same string. */
  lemma BarSegmentCorrection(g: Glyphs, current: nat, total: nat, size: nat)
    requires 0 < size < WORD - 1
    ensures BarSegmentAsWritten(g, current, total, size) == Err(EdgeUnderflow) <==> current == 0
    ensures BarSegmentAsWritten(g, current, total, size).Ok? ==>
      BarSegment(g, current, total, size) == BarSegmentAsWritten(g, current, total, size)
  {
  }

  // ---------------------------------------------------------------------
  // The whole line

  /** Whether the corrected formatter draws a bar segment: the bar is shown
      and at least one cell is left after the prefix, the suffix and the
      three reserved columns. */
  predicate DrawsBar(style: Style, current: nat, total: nat, env: Env)
    requires current < WORD && total < WORD
  {
    style.showBar && Reserved(style, current, total, env) < Width(env.cols)
  }

  /** `to_str` with both underflows corrected: on a terminal too narrow for
      even one cell the bar segment is left out, and an empty bar is drawn
      without a leading edge. */
  function Render(style: Style, current: nat, total: nat, env: Env): (r: Result<string, Fault>)
    requires current < WORD && total < WORD
    ensures r.Ok? ==> |r.value| >= Width(env.cols)
    ensures r.Err? ==> r.error == FillOverrun
  {
    var prefix := PrefixSegment(style, current, total, env);
    var suffix := SuffixSegment(style, current, total, env);
    var width := Width(env.cols);
    if DrawsBar(style, current, total, env) then
      match BarSegment(style.glyphs, current, total, width - Reserved(style, current, total, env))
      case Err(f) => Err(f)
      case Ok(mid) => Ok(Pad(prefix + mid + suffix, width))
    else
      Ok(Pad(prefix + suffix, width))
  }

  /** `to_str` as the source writes it. */
  function RenderAsWritten(style: Style, current: nat, total: nat, env: Env): (r: Result<string, Fault>)
    requires current < WORD && total < WORD
    ensures r == Err(WidthUnderflow) <==> style.showBar && Width(env.cols) < Reserved(style, current, total, env)
    ensures r.Ok? ==> |r.value| >= Width(env.cols)
  {
    var prefix := PrefixSegment(style, current, total, env);
    var suffix := SuffixSegment(style, current, total, env);
    var width := Width(env.cols);
    if style.showBar then
      if width < Reserved(style, current, total, env) then Err(WidthUnderflow)
      else
        var size := width - Reserved(style, current, total, env);
        if size > 0 then
          match BarSegmentAsWritten(style.glyphs, current, total, size)
          case Err(f) => Err(f)
          case Ok(mid) => Ok(Pad(prefix + mid + suffix, width))
        else Ok(Pad(prefix + suffix, width))
    else Ok(Pad(prefix + suffix, width))
  }

  /** The corrected formatter fails only when it has to draw a bar that is
      past its total, and then with `FillOverrun`. */
  lemma RenderFailsIff(style: Style, current: nat, total: nat, env: Env)
    requires current < WORD && total < WORD
    ensures Render(style, current, total, env).Err? <==> DrawsBar(style, current, total, env) && current > total
    ensures Render(style, current, total, env).Err? ==> Render(style, current, total, env).error == FillOverrun
  {
    if DrawsBar(style, current, total, env) {
      var size := Width(env.cols) - Reserved(style, current, total, env);
      FillFits(current, total, size);
    }
  }

  /** Cells left for the bar once the prefix, the suffix and the three
      reserved columns are placed (only meaningful when a bar is drawn). */
  function BarSize(style: Style, current: nat, total: nat, env: Env): nat
    requires current < WORD && total < WORD
  {
    if Reserved(style, current, total, env) < Width(env.cols) then Width(env.cols) - Reserved(style, current, total, env) else 0
  }

  /** The bar segment that appears in the line: the segment of the ceiling
      fill when a bar is drawn, nothing otherwise. */
  function BarMid(style: Style, current: nat, total: nat, env: Env): string
    requires current < WORD && total < WORD
    requires DrawsBar(style, current, total, env) ==> current <= total
  {
    if DrawsBar(style, current, total, env) then
      FillFits(current, total, BarSize(style, current, total, env));
      Segment(style.glyphs, FillCount(current, total, BarSize(style, current, total, env)), BarSize(style, current, total, env))
    else []
  }

  /** Layout of a rendered line: the prefix, the bar segment of the ceiling
      fill (`size + 2` glyphs when drawn, cell `k` as `CellAt` says), the
      suffix, then spaces; the line is as wide as the terminal or as its
      content, whichever is more, and exactly as wide as the terminal
      whenever the bar is drawn. */
  lemma RenderLayout(style: Style, current: nat, total: nat, env: Env)
    requires current < WORD && total < WORD && current <= total
    ensures Render(style, current, total, env).Ok?
    ensures
      var prefix := PrefixSegment(style, current, total, env);
      var suffix := SuffixSegment(style, current, total, env);
      var width := Width(env.cols);
      var line := Render(style, current, total, env).value;
      var mid := BarMid(style, current, total, env);
      && (DrawsBar(style, current, total, env) ==> |mid| == BarSize(style, current, total, env) + 2)
      && (!DrawsBar(style, current, total, env) ==> mid == [])
      && |line| == Max(|prefix + mid + suffix|, width)
      && line[..|prefix + mid + suffix|] == prefix + mid + suffix
      && (forall i | |prefix + mid + suffix| <= i < |line| :: line[i] == ' ')
      && (DrawsBar(style, current, total, env) ==> |line| == width)
    ensures
      var prefix := PrefixSegment(style, current, total, env);
      var line := Render(style, current, total, env).value;
      var size := BarSize(style, current, total, env);
      var fill := FillCount(current, total, size);
      DrawsBar(style, current, total, env) ==>
        && line[|prefix|] == style.glyphs.start
        && line[|prefix| + size + 1] == style.glyphs.end
        && (forall k | 1 <= k <= size :: line[|prefix| + k] == GlyphOf(style.glyphs, CellAt(fill, size, k)))
  {
    var prefix := PrefixSegment(style, current, total, env);
    var suffix := SuffixSegment(style, current, total, env);
    var width := Width(env.cols);
    var mid := BarMid(style, current, total, env);
    if DrawsBar(style, current, total, env) {
      var size := BarSize(style, current, total, env);
      BarSegmentShape(style.glyphs, current, total, size);
    }
    var line := Render(style, current, total, env).value;
    assert line == Pad(prefix + mid + suffix, width);
    assert forall i | 0 <= i < |mid| :: line[|prefix| + i] == mid[i] by {
      forall i | 0 <= i < |mid| ensures line[|prefix| + i] == mid[i] {
        assert line[|prefix| + i] == (prefix + mid + suffix)[|prefix| + i];
      }
    }
  }

  /** Padding never disturbs the start of a line. */
  lemma PadKeepsHead(head: string, rest: string, width: nat)
    ensures |head| <= |Pad(head + rest, width)|
    ensures Pad(head + rest, width)[..|head|] == head
  {
  }

  /** The line as padded content: prefix, the drawn bar segment or nothing,
      suffix. */
  lemma RenderContent(style: Style, current: nat, total: nat, env: Env)
    requires current < WORD && total < WORD
    requires Render(style, current, total, env).Ok?
    ensures DrawsBar(style, current, total, env) ==> current <= total
    ensures Render(style, current, total, env).value
      == Pad(PrefixSegment(style, current, total, env)
             + (BarMid(style, current, total, env) + SuffixSegment(style, current, total, env)), Width(env.cols))
  {
    RenderFailsIff(style, current, total, env);
    var prefix := PrefixSegment(style, current, total, env);
    var suffix := SuffixSegment(style, current, total, env);
    var mid := BarMid(style, current, total, env);
    if DrawsBar(style, current, total, env) {
      BarSegmentShape(style.glyphs, current, total, BarSize(style, current, total, env));
    }
    assert prefix + mid + suffix == prefix + (mid + suffix);
  }

  /** A rendered line starts with the label; with the counter shown it
      continues with `current / total ` (in decimal for `Units::None`). */
  lemma RenderPrefix(style: Style, current: nat, total: nat, env: Env)
    requires current < WORD && total < WORD
    requires Render(style, current, total, env).Ok?
    ensures
      var line := Render(style, current, total, env).value;
      var head := if style.showCounter then
                    style.prefix + Unit(current, style.units, env.capacity) + " / "
                      + Unit(total, style.units, env.capacity) + " "
                  else style.prefix;
      |head| <= |line| && line[..|head|] == head
    ensures
      var line := Render(style, current, total, env).value;
      var head := style.prefix + Decimal(current) + " / " + Decimal(total) + " ";
      style.showCounter && style.units == NoUnits ==> |head| <= |line| && line[..|head|] == head
  {
    var prefix := PrefixSegment(style, current, total, env);
    var line := Render(style, current, total, env).value;
    RenderContent(style, current, total, env);
    var mid := BarMid(style, current, total, env);
    PadKeepsHead(prefix, mid + SuffixSegment(style, current, total, env), Width(env.cols));
    assert |prefix| <= |line| && line[..|prefix|] == prefix;
    PrefixSpelled(style, current, total, env);
  }

  /** The prefix segment spelled out piece by piece. */
  lemma PrefixSpelled(style: Style, current: nat, total: nat, env: Env)
    requires current < WORD && total < WORD
    ensures style.showCounter ==> (PrefixSegment(style, current, total, env)
      == style.prefix + Unit(current, style.units, env.capacity) + " / " + Unit(total, style.units, env.capacity) + " ")
    ensures !style.showCounter ==> PrefixSegment(style, current, total, env) == style.prefix
  {
  }

  /** With a bar at its total, the segment drawn is all fill glyphs between
      start and end. */
  lemma RenderFull(style: Style, total: nat, env: Env)
    requires 0 < total < WORD && DrawsBar(style, total, total, env)
    ensures
      var prefix := PrefixSegment(style, total, total, env);
      var suffix := SuffixSegment(style, total, total, env);
      var size := Width(env.cols) - Reserved(style, total, total, env);
      var g := style.glyphs;
      Render(style, total, total, env)
        == Ok(Pad(prefix + ([g.start] + Repeat(g.fill, size) + [g.end]) + suffix, Width(env.cols)))
  {
    BarSegmentFull(style.glyphs, total, Width(env.cols) - Reserved(style, total, total, env));
  }

  /** The source fails on a terminal narrower than the prefix, the suffix
      and the three reserved columns; the correction leaves the bar out. */
  lemma NarrowTerminal(style: Style, current: nat, total: nat, env: Env)
    requires current < WORD && total < WORD
    requires style.showBar && Width(env.cols) < Reserved(style, current, total, env)
    ensures RenderAsWritten(style, current, total, env) == Err(WidthUnderflow)
    ensures Render(style, current, total, env)
      == Ok(Pad(PrefixSegment(style, current, total, env) + SuffixSegment(style, current, total, env), Width(env.cols)))
  {
  }

  /** The source fails whenever it has room for a bar and nothing counted
      yet, for instance on the first redraw of a new bar or on any redraw of
      a bar whose total is zero; the correction draws an empty bar there. */
  lemma EmptyBarUnderflow(style: Style, total: nat, env: Env)
    requires total < WORD && DrawsBar(style, 0, total, env)
    ensures RenderAsWritten(style, 0, total, env) == Err(EdgeUnderflow)
    ensures
      var g := style.glyphs;
      var size := Width(env.cols) - Reserved(style, 0, total, env);
      Render(style, 0, total, env) == Ok(Pad(PrefixSegment(style, 0, total, env)
        + ([g.start] + Repeat(g.empty, size) + [g.end]) + SuffixSegment(style, 0, total, env), Width(env.cols)))
  {
    var size := Width(env.cols) - Reserved(style, 0, total, env);
    BarSegmentCorrection(style.glyphs, 0, total, size);
    BarSegmentEmpty(style.glyphs, total, size);
  }

  /** Wherever the source produces a line, the corrected formatter produces
      the same line. */
  lemma RenderCorrection(style: Style, current: nat, total: nat, env: Env)
    requires current < WORD && total < WORD
    requires RenderAsWritten(style, current, total, env).Ok?
    ensures Render(style, current, total, env) == RenderAsWritten(style, current, total, env)
  {
  }
}
