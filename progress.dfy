/** The progress bar: its width follows the terminal width, and its value is
    advanced by a fixed step on each timer tick until it passes 1.0. */
module Progress {

  const Padding: int := 2
  const MaxWidth: int := 50
  const TickStep: real := 0.25

  /** Progress-bar width for a terminal of width w: w minus the padding on
      both sides and four more columns, capped at MaxWidth, with no lower bound. */
  function BarWidth(w: int): (r: int)
    ensures r <= MaxWidth && r <= w - 8
    ensures r == MaxWidth || r == w - 8
  {
    var width := w - Padding * 2 - 4;
    if width > MaxWidth then MaxWidth else width
  }

  lemma BarWidthExamples()
    ensures BarWidth(30) == 22
    ensures BarWidth(200) == 50
    ensures BarWidth(58) == 50 && BarWidth(57) == 49
    ensures BarWidth(0) == -8
  {
  }

  /** The new percent after one tick, and whether the tick ends the program. */
  datatype TickOutcome = TickOutcome(percent: real, quit: bool)

  /** One tick: add TickStep; a sum strictly above 1.0 is clamped to 1.0 and quits. */
  function AfterTick(p: real): (t: TickOutcome)
    ensures t.percent <= 1.0
    ensures t.quit <==> p > 1.0 - TickStep
    ensures t.quit || t.percent == p + TickStep
    ensures p <= 1.0 - TickStep ==> t.percent == p + TickStep
  {
    var q := p + TickStep;
    if q > 1.0 then TickOutcome(1.0, true) else TickOutcome(q, false)
  }

  /** A tick from a value in [0, 1] stays in [0, 1] and never lowers it. */
  lemma AfterTickInRange(p: real)
    requires 0.0 <= p <= 1.0
    ensures 0.0 <= AfterTick(p).percent <= 1.0
    ensures p <= AfterTick(p).percent
  {
  }

  /** The state after the event loop has delivered n ticks; once a tick has
      quit the program no further tick arrives. */
  function TickRun(p: real, n: nat): TickOutcome
    decreases n
  {
    if n == 0 then TickOutcome(p, false)
    else
      var t := AfterTick(p);
      if t.quit then t else TickRun(t.percent, n - 1)
  }

  /** From k steps of 0.25 (k <= 4), n more ticks reach (k + n) steps while
      k + n <= 4, and after that the program has quit at 1.0. */
  lemma {:induction false} TickRunFrom(k: nat, n: nat)
    requires k <= 4
    ensures TickRun(k as real * TickStep, n) ==
      if k + n <= 4 then TickOutcome((k + n) as real * TickStep, false) else TickOutcome(1.0, true)
    decreases n
  {
    if n > 0 {
      if k < 4 {
        assert AfterTick(k as real * TickStep) == TickOutcome((k + 1) as real * TickStep, false);
        TickRunFrom(k + 1, n - 1);
      }
    }
  }

  /** Starting from 0, the fourth tick reaches 1.0 without quitting and the
      fifth tick (1.25) is the one that quits. */
  lemma TicksFromZero()
    ensures TickRun(0.0, 3) == TickOutcome(0.75, false)
    ensures TickRun(0.0, 4) == TickOutcome(1.0, false)
    ensures TickRun(0.0, 5) == TickOutcome(1.0, true)
    ensures forall n :: n >= 5 ==> TickRun(0.0, n) == TickOutcome(1.0, true)
  {
    TickRunFrom(0, 3);
    TickRunFrom(0, 4);
    forall n: nat | n >= 5 ensures TickRun(0.0, n) == TickOutcome(1.0, true) {
      TickRunFrom(0, n);
    }
  }
}
