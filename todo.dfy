/** The interaction controller of the to-do program: the application model and
    its Update handler, which maps one message (a timer tick, a terminal
    resize, a key press or an error) to a new model and a command for the
    event loop. State is the model as a value and Step is the handler as a
    function; Model is the same record as an object whose Update method
    changes its fields step by step and is proved to agree with Step. */
module Todo {
  import opened Markers
  import opened Completion
  import opened Tasks
  import opened Progress

  /** Initial width of the list widget. */
  const DefaultListWidth: int := 20
  /** The index the Enter handler inserts at; past the end it appends. */
  const AppendIndex: nat := 99999

  datatype Option<T> = None | Some(value: T)

  /** The keys the handler tells apart; every other key is passed to the widgets. */
  datatype Key = CtrlC | CtrlD | Esc | Enter | OtherKey(name: string)

  /** The messages Update receives; OtherMsg stands for every message it does
      not inspect (the text field's blink messages, for one), which like
      OtherKey goes to the widgets. */
  datatype Msg =
    | Tick
    | WindowSize(width: int, height: int)
    | KeyPress(key: Key)
    | Error(err: string)
    | OtherMsg

  /** What Update hands back to the event loop: nothing, quit, schedule the
      next tick, the text input's cursor blink, or whatever the widgets return
      for a message they handle themselves. */
  datatype Cmd = NoCmd | Quit | ScheduleTick | Blink | Delegated

  /** The application model with the widgets reduced to their values: the
      list's items, the last submitted text (input), the text field's current
      value (buffer), the stored error, the percent shown by the progress bar,
      and the widths of the bar and of the list. */
  datatype State = State(
    items: seq<string>,
    input: string,
    buffer: string,
    err: Option<string>,
    percent: real,
    progressWidth: int,
    listWidth: int)

  /** The model's invariant: every task line is well-formed and the bar's value lies in [0, 1]. */
  predicate Valid(s: State) {
    AllWellFormed(s.items) && 0.0 <= s.percent <= 1.0
  }

  /** The list widget's selection is in range whenever there is anything to select. */
  predicate Selectable(s: State, index: int) {
    s.items != [] ==> 0 <= index < |s.items|
  }

  /** The model built at start-up; barWidth is the progress widget's own default width. */
  function Initial(barWidth: int): (s: State)
    ensures Valid(s) && s.items == [] && s.percent == 0.0
  {
    State([], "", "", None, 0.0, barWidth, DefaultListWidth)
  }

  /** The task line for submitted text: the open marker, a space, the text. */
  function NewTask(text: string): (t: string)
    ensures WellFormed(t) && HasPrefix(t, Open) && !HasPrefix(t, Done)
    ensures |t| == |text| + 4 && t[4..] == text
  {
    Open + " " + text
  }

  /** ctrl+c: toggle the marker of the selected task and recompute the percent. */
  function ToggleSelected(s: State, index: int): State
    requires Selectable(s, index)
  {
    if |s.items| == 0 then s
    else
      var items := SetAt(s.items, index, Toggle(s.items[index]));
      s.(items := items, percent := Ratio(items))
  }

  /** ctrl+d: remove the selected task and recompute the percent. */
  function RemoveSelected(s: State, index: int): State
    requires Selectable(s, index)
  {
    if |s.items| == 0 then s
    else
      var items := RemoveAt(s.items, index);
      s.(items := items, percent := Ratio(items))
  }

  /** Enter: take the text field's value, insert it as an open task, clear the field. */
  function Submit(s: State): State {
    var items := InsertAt(s.items, AppendIndex, NewTask(s.buffer));
    s.(items := items, input := s.buffer, buffer := "", percent := Ratio(items))
  }

  /** A window-size message: the list takes the full width, the bar BarWidth of it. */
  function Resize(s: State, width: int): State {
    s.(listWidth := width, progressWidth := BarWidth(width))
  }

  /** The Update handler as a function of the model, the message and the list
      widget's selected index. */
  function Step(s: State, msg: Msg, index: int): (State, Cmd)
    requires Selectable(s, index)
  {
    match msg
    case Tick =>
      var t := AfterTick(s.percent);
      (s.(percent := t.percent), if t.quit then Quit else ScheduleTick)
    case WindowSize(width, _) => (Resize(s, width), NoCmd)
    case KeyPress(key) =>
      (match key
       case CtrlC => (ToggleSelected(s, index), NoCmd)
       case CtrlD => (RemoveSelected(s, index), NoCmd)
       case Esc => (s, Quit)
       case Enter => (Submit(s), NoCmd)
       case OtherKey(_) => (s, Delegated))
    case Error(e) => (s.(err := Some(e)), NoCmd)
    case OtherMsg => (s, Delegated)
  }

  /** ctrl+c and ctrl+d on an empty list return the model unchanged. */
  lemma EmptyListKeysNoop(s: State, index: int)
    requires s.items == []
    ensures Step(s, KeyPress(CtrlC), index) == (s, NoCmd)
    ensures Step(s, KeyPress(CtrlD), index) == (s, NoCmd)
  {
  }

  /** On a non-empty list ctrl+c rewrites only the selected task, and on a
      well-formed task it swaps the marker and keeps the description; the
      percent becomes the new completion ratio, and the done count moves by one. */
  lemma ToggleSpec(s: State, index: int)
    requires s.items != [] && 0 <= index < |s.items|
    ensures var r := Step(s, KeyPress(CtrlC), index).0;
      |r.items| == |s.items| &&
      r.items[index] == Toggle(s.items[index]) &&
      (forall k :: 0 <= k < |s.items| && k != index ==> r.items[k] == s.items[k]) &&
      r.percent == Ratio(r.items) &&
      r == s.(items := r.items, percent := r.percent)
    ensures var r := Step(s, KeyPress(CtrlC), index).0;
      WellFormed(s.items[index]) ==>
        WellFormed(r.items[index]) &&
        r.items[index][3..] == s.items[index][3..] &&
        (HasPrefix(r.items[index], Done) <==> !HasPrefix(s.items[index], Done)) &&
        CountDone(r.items) == if HasPrefix(s.items[index], Done) then CountDone(s.items) - 1
                              else CountDone(s.items) + 1
  {
    var v := s.items[index];
    var r := Step(s, KeyPress(CtrlC), index).0;
    CountDoneSetAt(s.items, index, Toggle(v));
    if WellFormed(v) {
      WellFormedMarked(v);
      ToggleWellFormed(v);
      ToggleKeepsSuffix(v);
      if HasPrefix(v, Done) { ToggleDone(v); } else { ToggleOpen(v); }
      assert r.items[index] == Toggle(v);
    }
  }

  /** On a non-empty list ctrl+d removes exactly the selected task: the list
      loses one element, the others keep their order, and the done count drops
      by that task's bit. */
  lemma RemoveSpec(s: State, index: int)
    requires s.items != [] && 0 <= index < |s.items|
    ensures var r := Step(s, KeyPress(CtrlD), index).0;
      |r.items| == |s.items| - 1 &&
      r.items == s.items[..index] + s.items[index + 1..] &&
      CountDone(r.items) + DoneBit(s.items[index]) == CountDone(s.items) &&
      r.percent == Ratio(r.items) &&
      r == s.(items := r.items, percent := r.percent)
  {
    CountDoneRemoveAt(s.items, index);
  }

  /** Enter inserts "[ ] " + the field's value, even when it is empty: the list
      grows by one, and while it holds at most AppendIndex items the new task
      goes at the end with the earlier items unchanged. The submitted text is
      kept in input, the field is cleared, and the done count is unchanged. */
  lemma SubmitSpec(s: State, index: int)
    requires Selectable(s, index)
    ensures var r := Step(s, KeyPress(Enter), index).0;
      |r.items| == |s.items| + 1 &&
      (|s.items| <= AppendIndex ==> r.items == s.items + [Open + " " + s.buffer]) &&
      r.input == s.buffer && r.buffer == "" &&
      CountDone(r.items) == CountDone(s.items) &&
      r.percent == Ratio(r.items) &&
      r == s.(items := r.items, input := r.input, buffer := "", percent := r.percent)
  {
    var t := NewTask(s.buffer);
    var r := Step(s, KeyPress(Enter), index).0;
    if |s.items| <= AppendIndex {
      InsertPastEnd(s.items, AppendIndex, t);
      CountDoneConcat(s.items, [t]);
      assert CountDone([t]) == 0 by { assert [t][..0] == []; }
    } else {
      var p := AppendIndex;
      var shifted := s.items[..p] + [t] + s.items[p..];
      assert r.items == shifted;
      CountDoneConcat(s.items[..p] + [t], s.items[p..]);
      CountDoneConcat(s.items[..p], [t]);
      assert CountDone([t]) == 0 by { assert [t][..0] == []; }
      CountDoneConcat(s.items[..p], s.items[p..]);
      assert s.items[..p] + s.items[p..] == s.items;
    }
  }

  /** A tick adds 0.25; a sum strictly above 1.0 becomes exactly 1.0 and
      quits, any other sum is kept and the next tick is scheduled. Nothing
      else changes, and a percent of at most 1.0 stays at most 1.0. */
  lemma TickSpec(s: State, index: int)
    requires Selectable(s, index)
    ensures var (r, cmd) := Step(s, Tick, index);
      (cmd == Quit <==> s.percent + 0.25 > 1.0) &&
      (cmd == Quit ==> r.percent == 1.0) &&
      (cmd != Quit ==> cmd == ScheduleTick && r.percent == s.percent + 0.25) &&
      r.percent <= 1.0 &&
      r == s.(percent := r.percent)
  {
  }

  /** A resize sets the bar to min(width - 8, 50) and the list to the full
      width, and leaves the tasks and the percent alone. */
  lemma ResizeSpec(s: State, width: int, height: int, index: int)
    requires Selectable(s, index)
    ensures var (r, cmd) := Step(s, WindowSize(width, height), index);
      cmd == NoCmd && r.listWidth == width &&
      r.progressWidth <= MaxWidth &&
      r.progressWidth == (if width - 8 < MaxWidth then width - 8 else MaxWidth) &&
      r == s.(listWidth := width, progressWidth := r.progressWidth)
  {
  }

  /** Esc quits and changes nothing. */
  lemma EscSpec(s: State, index: int)
    requires Selectable(s, index)
    ensures Step(s, KeyPress(Esc), index) == (s, Quit)
  {
  }

  /** The handler's own branches quit only on Esc and on a tick past 1.0; a
      delegated message returns whatever the widgets return, which the model
      does not look into. */
  lemma QuitOnlyOnEscOrTick(s: State, msg: Msg, index: int)
    requires Selectable(s, index)
    requires Step(s, msg, index).1 == Quit
    ensures msg == KeyPress(Esc) || (msg == Tick && s.percent > 0.75)
    ensures Step(s, KeyPress(OtherKey("q")), index).1 == Delegated
  {
  }

  /** Every message keeps the model's invariant. */
  lemma StepKeepsValid(s: State, msg: Msg, index: int)
    requires Valid(s) && Selectable(s, index)
    ensures Valid(Step(s, msg, index).0)
  {
    match msg
    case Tick =>
      AfterTickInRange(s.percent);
    case KeyPress(CtrlC) =>
      if s.items != [] {
        ToggleWellFormed(s.items[index]);
        SetAtWellFormed(s.items, index, Toggle(s.items[index]));
      }
    case KeyPress(CtrlD) =>
      if s.items != [] {
        RemoveAtWellFormed(s.items, index);
      }
    case KeyPress(Enter) =>
      InsertAtWellFormed(s.items, AppendIndex, NewTask(s.buffer));
    case _ =>
  }

  /** A sequence of messages, each with the index the list widget had selected
      when it arrived, in which every index is in range at its turn. The loop
      stops delivering messages after a Quit. */
  predicate Feasible(s: State, events: seq<(Msg, int)>)
    decreases |events|
  {
    events == [] ||
    (Selectable(s, events[0].1) &&
     var (r, cmd) := Step(s, events[0].0, events[0].1);
     cmd == Quit || Feasible(r, events[1..]))
  }

  /** The model after the event loop has delivered the messages, up to and
      including the first one that quits. */
  function Run(s: State, events: seq<(Msg, int)>): State
    requires Feasible(s, events)
    decreases |events|
  {
    if events == [] then s
    else
      var (r, cmd) := Step(s, events[0].0, events[0].1);
      if cmd == Quit then r else Run(r, events[1..])
  }

  /** Any run from a valid model, in particular from the initial one, ends in a
      valid model: every stored task starts with "[ ] " or "[x] " and the
      percent lies in [0, 1]. */
  lemma {:induction false} RunKeepsValid(s: State, events: seq<(Msg, int)>)
    requires Valid(s) && Feasible(s, events)
    ensures Valid(Run(s, events))
    decreases |events|
  {
    if events != [] {
      StepKeepsValid(s, events[0].0, events[0].1);
      var (r, cmd) := Step(s, events[0].0, events[0].1);
      if cmd != Quit {
        RunKeepsValid(r, events[1..]);
      }
    }
  }

  /** Appending "buy milk", toggling it and removing it. */
  lemma BuyMilkScenario(barWidth: int)
    ensures var s0 := Initial(barWidth).(buffer := "buy milk");
      var s1 := Step(s0, KeyPress(Enter), 0).0;
      var s2 := Step(s1, KeyPress(CtrlC), 0).0;
      var s3 := Step(s2, KeyPress(CtrlD), 0).0;
      s1.items == ["[ ] buy milk"] && s1.buffer == "" && s1.input == "buy milk" && s1.percent == 0.0 &&
      s2.items == ["[x] buy milk"] && s2.percent == 1.0 &&
      s3.items == [] && s3.percent == 0.0
  {
    var s0 := Initial(barWidth).(buffer := "buy milk");
    SubmitSpec(s0, 0);
    var s1 := Step(s0, KeyPress(Enter), 0).0;
    assert Open + " " + "buy milk" == "[ ] buy milk";
    assert s1.items == [] + ["[ ] buy milk"];
    assert HasPrefix(s1.items[0], Open);
    ToggleOpen(s1.items[0]);
    assert Toggle(s1.items[0]) == Done + "[ ] buy milk"[3..] == "[x] buy milk";
    var s2 := Step(s1, KeyPress(CtrlC), 0).0;
    assert s2.items == ["[x] buy milk"];
    RatioExtremes(s1.items);
    RatioExtremes(s2.items);
  }

  /** The application model as an object, updated in place by Update. */
  class Model {
    var items: seq<string>
    var input: string
    var buffer: string
    var err: Option<string>
    var percent: real
    var progressWidth: int
    var listWidth: int

    /** The fields as a State value. */
    function Snapshot(): State
      reads this
    {
      State(items, input, buffer, err, percent, progressWidth, listWidth)
    }

    /** initialModel; barWidth is the progress widget's default width. */
    constructor (barWidth: int)
      ensures Snapshot() == Initial(barWidth) && Valid(Snapshot())
    {
      items := [];
      input := "";
      buffer := "";
      err := None;
      percent := 0.0;
      progressWidth := barWidth;
      listWidth := DefaultListWidth;
    }

    /** Init starts only the text field's cursor blink, never a tick. */
    method Init() returns (cmd: Cmd)
      ensures cmd == Blink
    {
      cmd := Blink;
    }

    /** Update: handle one message; index is the list widget's selected index. */
    method Update(msg: Msg, index: int) returns (cmd: Cmd)
      requires Selectable(Snapshot(), index)
      modifies this
      ensures (Snapshot(), cmd) == Step(old(Snapshot()), msg, index)
      ensures old(Valid(Snapshot())) ==> Valid(Snapshot())
    {
      ghost var before := Snapshot();
      if Valid(before) {
        StepKeepsValid(before, msg, index);
      }
      match msg
      case Tick =>
        percent := percent + TickStep;
        if percent > 1.0 {
          percent := 1.0;
          return Quit;
        }
        return ScheduleTick;
      case WindowSize(width, _) =>
        listWidth := width;
        progressWidth := width - Padding * 2 - 4;
        if progressWidth > MaxWidth {
          progressWidth := MaxWidth;
        }
        return NoCmd;
      case KeyPress(key) =>
        match key {
          case CtrlC =>
            if |items| == 0 {
              return NoCmd;
            }
            var selected := items[index];
            var updated;
            if HasPrefix(selected, Done) {
              updated := ReplaceFirst(selected, Done, Open);
            } else {
              updated := ReplaceFirst(selected, Open, Done);
            }
            items := SetAt(items, index, updated);
            percent := CalculatePercent(items);
            return NoCmd;
          case CtrlD =>
            if |items| == 0 {
              return NoCmd;
            }
            items := RemoveAt(items, index);
            percent := CalculatePercent(items);
            return NoCmd;
          case Esc =>
            return Quit;
          case Enter =>
            input := buffer;
            var taskFormatted := Open + " " + input;
            items := InsertAt(items, AppendIndex, taskFormatted);
            buffer := "";
            percent := CalculatePercent(items);
            return NoCmd;
          case OtherKey(_) =>
            return Delegated;
        }
      case Error(e) =>
        err := Some(e);
        return NoCmd;
      case OtherMsg =>
        return Delegated;
    }
  }
}
