/** `Bar`: the progress counter, its display configuration, and the redraw
    that follows every change of the counter. */
module Progress {
  import opened Base
  import opened Units
  import opened Layout
  import opened Reporting

  /** The output of `update`: one rendered line for the reporter while the
      counter is not past the total, nothing once it is. */
  function Redraw(style: Style, reporter: Reporter, current: nat, total: nat, env: Env): (out: seq<Emission>)
    requires current < WORD && total < WORD
    ensures |out| <= 1
    ensures current > total ==> out == []
    ensures current <= total && reporter != NoReporter ==> |out| == 1
  {
    if current <= total then
      RenderFailsIff(style, current, total, env);
      Emit(reporter, Render(style, current, total, env).value)
    else []
  }

  /** A redraw emits exactly one line when the counter is within the total
      and there is a reporter, and nothing otherwise; what it emits is the
      rendered line, at least as wide as the terminal, on the reporter's
      sink. */
  lemma RedrawOnce(style: Style, reporter: Reporter, current: nat, total: nat, env: Env)
    requires current < WORD && total < WORD
    ensures |Redraw(style, reporter, current, total, env)| == if current <= total && reporter != NoReporter then 1 else 0
    ensures forall e | e in Redraw(style, reporter, current, total, env) ::
      var rendered := Render(style, current, total, env);
      && Some(e.sink) == ReporterSink(reporter)
      && rendered.Ok?
      && |rendered.value| >= Width(env.cols)
      && e.text == (if reporter == Callback then rendered.value else "\r" + rendered.value)
  {
    if current <= total {
      RenderLayout(style, current, total, env);
    }
  }

  class Bar {
    const total: nat
    var current: nat
    var showPercent: bool
    var showCounter: bool
    var showBar: bool
    var prefix: string
    var reporter: Reporter
    var units: Units
    var barStart: char
    var barFill: char
    var barEdge: char
    var barEmpty: char
    var barEnd: char
    /** Everything the bar has written, oldest first. */
    var log: seq<Emission>

    /** Both counters are `usize` values. */
    ghost predicate Valid()
      reads this
    {
      total < WORD && current < WORD
    }

    /** The installed bar format. */
    function CurrentGlyphs(): Glyphs
      reads this
    {
      Glyphs(barStart, barFill, barEdge, barEmpty, barEnd)
    }

    /** The display configuration the formatter reads. */
    function Config(): Style
      reads this
    {
      Style(prefix, showCounter, showPercent, showBar, units, CurrentGlyphs())
    }

    /** `Bar::new`: counter at zero, everything shown, decimal units,
        reporting to standard error, format `[=>_]`. */
    constructor (total: nat)
      requires total < WORD
      ensures Valid() && this.total == total && current == 0
      ensures showPercent && showCounter && showBar && prefix == ""
      ensures reporter == StdErr && units == NoUnits && log == []
      ensures CurrentGlyphs() == Glyphs('[', '=', '>', '_', ']')
    {
      this.total := total;
      current := 0;
      showPercent, showCounter, showBar := true, true, true;
      prefix := "";
      reporter := StdErr;
      units := NoUnits;
      log := [];
      new;
      Format(DefaultFormat);
    }

    /** `Bar::format`: installs the five glyphs of `spec` in order when it
        has exactly five, and keeps the current format otherwise. */
    method Format(spec: string)
      modifies this`barStart, this`barFill, this`barEdge, this`barEmpty, this`barEnd
      ensures CurrentGlyphs() == match ParseFormat(spec) case Some(g) => g case None => old(CurrentGlyphs())
    {
      if |spec| == 5 {
        barStart := spec[0];
        barFill := spec[1];
        barEdge := spec[2];
        barEmpty := spec[3];
        barEnd := spec[4];
      }
    }

    /** `Bar::add`: a wrapping `fetch_add` of `delta`, then a redraw;
        returns the counter as it was before. */
    method Add(delta: nat, env: Env) returns (prev: nat)
      requires Valid() && delta < WORD
      modifies this`current, this`log
      ensures Valid()
      ensures prev == old(current)
      ensures current == (old(current) + delta) % WORD
      ensures log == old(log) + Redraw(Config(), reporter, current, total, env)
    {
      prev := current;
      current := (current + delta) % WORD;
      Update(env);
    }

    /** `Bar::incr`: the same as adding one. */
    method Incr(env: Env) returns (prev: nat)
      requires Valid()
      modifies this`current, this`log
      ensures Valid()
      ensures prev == old(current)
      ensures current == (old(current) + 1) % WORD
      ensures log == old(log) + Redraw(Config(), reporter, current, total, env)
    {
      prev := Add(1, env);
    }

    /** `Bar::set`: overwrites the counter, up or down, then redraws. */
    method Set(value: nat, env: Env)
      requires Valid() && value < WORD
      modifies this`current, this`log
      ensures Valid()
      ensures current == value
      ensures log == old(log) + Redraw(Config(), reporter, current, total, env)
    {
      current := value;
      Update(env);
    }

    /** `Bar::update`: redraws only while the counter is within the total. */
    method Update(env: Env)
      requires Valid()
      modifies this`log
      ensures log == old(log) + Redraw(Config(), reporter, current, total, env)
    {
      if current <= total {
        Progress(env);
      }
    }

    /** `Bar::progress`: renders the line and hands it to the reporter. Only
        reached from `update`, behind its gate. */
    method Progress(env: Env)
      requires Valid() && current <= total
      modifies this`log
      ensures log == old(log) + Redraw(Config(), reporter, current, total, env)
    {
      RenderFailsIff(Config(), current, total, env);
      var display := Render(Config(), current, total, env).value;
      log := log + Emit(reporter, display);
    }

    /** `Display::fmt`: the rendered line with no gate on the counter, so it
        fails exactly when a bar past its total would have to be drawn. */
    method Display(env: Env) returns (r: Result<string, Fault>)
      requires Valid()
      ensures r == Render(Config(), current, total, env)
      ensures r.Err? <==> DrawsBar(Config(), current, total, env) && current > total
    {
      RenderFailsIff(Config(), current, total, env);
      r := Render(Config(), current, total, env);
    }

    /** `Bar::finish_print`: an empty line, then the message on its own line,
        both on standard output. */
    method FinishPrint(msg: string)
      modifies this`log
      ensures log == old(log) + [Emission(Stdout, "\n"), Emission(Stdout, msg + "\n")]
    {
      log := log + [Emission(Stdout, "\n")];
      log := log + [Emission(Stdout, msg + "\n")];
    }
  }
}
