# A verified model of the godo terminal to-do list

godo is a small terminal program. It shows a list of tasks, a text field for
typing a new task, and a progress bar. Each task is one display string that
begins with a three-character marker: `[ ]` for an open task, `[x]` for a done
one. The program's only logic is its `Update` handler:

- `ctrl+c` toggles the selected task's marker.
- `ctrl+d` deletes the selected task.
- `Enter` appends the text field's value as a new open task.
- `Esc` quits.
- A window-size message resizes the list and the progress bar.
- A timer tick advances the bar by 0.25.

After each toggle, delete and submit, the handler sets the bar's value to the
list's completion ratio (`calculatePercent`).

This project models that handler in Dafny. The list widget becomes a sequence of
strings plus the selected index that the widget supplies. The text field
becomes its current value. The progress bar becomes its value and its width.
Commands for the event loop become a `Cmd` value.

Modules, following the program's parts:

- `Markers` (markers.dfy): the marker protocol. It has `HasPrefix`, a
  first-occurrence search `IndexOf` (Go's `strings.Index`), `ReplaceFirst`
  (Go's `strings.Replace(s, old, new, 1)`, modelled for any pattern) and the
  ctrl+c transform `Toggle`.
- `Completion` (completion.dfy): the done count `CountDone`, the ratio
  `Ratio`, and `CalculatePercent`, the counting loop of `calculatePercent`,
  proved equal to `Ratio`.
- `Tasks` (tasks.dfy): the three list edits the handler uses: `SetAt`
  (`SetItem`), `RemoveAt` (`RemoveItem`) and `InsertAt` (`InsertItem`). Also
  the list invariant `AllWellFormed`: every task starts with `"[ ] "` or
  `"[x] "`.
- `Progress` (progress.dfy): the constants `padding = 2` and `maxWidth = 50`,
  the bar width `BarWidth`, one tick `AfterTick`, and `TickRun`, a chain of
  ticks that stops after the tick that quits.
- `Todo` (todo.dfy): the model and the handler.
  - `State` is the model as a value.
  - `Step` is `Update` as a function, built from `ToggleSelected`,
    `RemoveSelected`, `Submit` and `Resize`.
  - `Run` feeds `Step` a sequence of messages, stopping at the first `Quit`.
  - `Model` is the same record as a class. Its `Update` method changes the
    fields step by step, as the Go handler does. It is proved to produce
    exactly `Step`'s new model and command, and to keep the invariant.

Points where the code behaves in a way a reader might not expect:

- The timer test is strictly `> 1.0`. Starting from 0, the fourth tick reaches
  exactly 1.0 without quitting. The fifth tick (1.25) is clamped to 1.0 and
  quits (`Progress.TicksFromZero`).
- `Enter` inserts `"[ ] " + value` even when the text field is empty.
- `Enter` copies the text field's value into the model's `input` field. It then
  clears the text field (`buffer` here), not `input`. So `input` keeps the
  last submitted text.
- The tick handler has no guard on the current value. A tick at 1.0 (all tasks
  done) quits at once. `Init` starts only the cursor blink (`Model.Init`), so
  no tick is ever scheduled.
- The insert index 99999 appends only while the list has at most 99999 items.
  Past that, the list widget inserts at position 99999. `InsertAt` models the
  widget's rule ("an index past the end appends"), and `Todo.SubmitSpec` states
  both halves.

## Model

| member | source | states |
|---|---|---|
| Markers.IndexOf | main.go:160-162 | the result is -1 exactly when the pattern occurs nowhere, otherwise a position where it occurs with no occurrence before it |
| Markers.ReplaceFirstAt | main.go:160-162 | replacing with count 1 rewrites exactly the first occurrence and keeps the text before and after it |
| Markers.ReplaceFirstAbsent | main.go:162 | replacing a pattern that does not occur returns the string unchanged |
| Markers.ReplaceFirstPrefix | main.go:159-163 | when the string starts with the pattern, only that prefix is replaced |
| Markers.ToggleDone | main.go:159-160 | a string starting with "[x]" toggles to "[ ]" followed by the same suffix |
| Markers.ToggleOpen | main.go:161-162 | a string starting with "[ ]" toggles to "[x]" followed by the same suffix |
| Markers.ToggleKeepsSuffix | main.go:159-163 | on a marked string the length is kept, the marker is swapped (both directions) and every character from position 3 on is unchanged |
| Markers.ToggleInvolution | main.go:159-163 | toggling a marked string yields a marked string, and toggling twice gives back the original, whatever the description contains |
| Markers.ToggleWellFormed | main.go:159-164 | a task line starting "[ ] " or "[x] " still starts with one of them after toggling |
| Markers.ToggleUnmarked | main.go:161-162 | a string that neither starts with "[x]" nor contains "[ ]" is left unchanged by the toggle |
| Completion.CountDone | main.go:69-74 | the number of "[x]"-prefixed items never exceeds the list length |
| Completion.CountDoneZero | main.go:69-74 | the count is 0 exactly when no item starts with "[x]" |
| Completion.CountDoneAll | main.go:69-74 | the count equals the length exactly when every item starts with "[x]" |
| Completion.CountDoneConcat | main.go:69-74 | the count of a concatenation is the sum of the counts |
| Completion.Ratio | main.go:64-77 | the completion ratio always lies in [0, 1] |
| Completion.RatioExtremes | main.go:64-77 | the ratio is 1 exactly for a non-empty all-done list, and 0 exactly when no item is done (the empty list included) |
| Completion.CalculatePercent | main.go:64-77 | the counting loop returns 0 for an empty list and otherwise done count / length, the value of Ratio |
| Tasks.SetAt | main.go:164 | the list keeps its length, holds the new value at the index and is unchanged elsewhere |
| Tasks.RemoveAt | main.go:172 | the list loses one element; earlier items stay put, later ones move down by one, and the multiset loses exactly the removed item |
| Tasks.InsertAt | main.go:183 | the list gains one element at the index, or at the end when the index is past it; the others keep their order |
| Tasks.InsertPastEnd | main.go:183 | inserting at an index at or past the end is an append |
| Tasks.SetAtWellFormed | main.go:164 | writing a well-formed line keeps every line well-formed |
| Tasks.RemoveAtWellFormed | main.go:172 | removing a line keeps every line well-formed |
| Tasks.InsertAtWellFormed | main.go:182-183 | inserting a well-formed line keeps every line well-formed |
| Tasks.CountDoneSetAt | main.go:164-165 | replacing one item changes the done count by exactly the difference of the old and new item's done bit |
| Tasks.CountDoneRemoveAt | main.go:172-173 | removing one item lowers the done count by that item's done bit |
| Progress.BarWidth | main.go:145-148 | the bar width is min(W - 8, 50): at most maxWidth, at most W - 8, and equal to one of them; no lower bound |
| Progress.BarWidthExamples | main.go:145-148 | W = 30 gives 22, W = 200 gives 50, W = 58 gives 50, W = 57 gives 49, W = 0 gives -8 |
| Progress.AfterTick | main.go:136-142 | a tick quits exactly when the old value plus 0.25 exceeds 1.0; without a quit the value grows by exactly 0.25; the new value never exceeds 1.0 |
| Progress.AfterTickInRange | main.go:136-141 | a tick from a value in [0, 1] stays in [0, 1] and does not lower it |
| Progress.TickRunFrom | main.go:136-142 | from k quarter steps, n more ticks give (k + n) quarters without quitting while k + n <= 4, and 1.0 with a quit after that |
| Progress.TicksFromZero | main.go:136-142 | from 0, three ticks give 0.75, four give 1.0 without a quit, and the fifth tick quits at 1.0 |
| Todo.Initial | main.go:99-126 | the initial model has an empty list and percent 0, and satisfies the invariant |
| Todo.NewTask | main.go:182 | a submitted task line is well-formed, open, and is the submitted text after a 4-character "[ ] " prefix |
| Todo.EmptyListKeysNoop | main.go:152-171 | ctrl+c and ctrl+d on an empty list return the model unchanged |
| Todo.ToggleSpec | main.go:157-166 | on a non-empty list ctrl+c replaces only the selected item with its toggle and keeps the length; on a well-formed item the marker flips, the description stays, and the done count moves by one; percent is the new ratio; nothing else changes |
| Todo.RemoveSpec | main.go:172-174 | on a non-empty list ctrl+d removes exactly the selected item, keeping the others in order; the done count drops by that item's bit; percent is the new ratio; nothing else changes |
| Todo.SubmitSpec | main.go:180-186 | Enter grows the list by one, even for an empty field; with at most 99999 items the list becomes the old items plus "[ ] " + field value; input holds the submitted text, the field is cleared, and the done count is unchanged; percent is the new ratio |
| Todo.TickSpec | main.go:136-142 | a tick quits exactly when percent + 0.25 > 1.0, and then sets percent to 1.0; otherwise it adds 0.25 and schedules the next tick; percent ends at most 1.0; nothing else changes |
| Todo.ResizeSpec | main.go:143-149 | a resize sets the list to the full width and the bar to min(W - 8, 50), and changes nothing else in the model |
| Todo.EscSpec | main.go:178-179 | Esc quits and leaves the model unchanged |
| Todo.QuitOnlyOnEscOrTick | main.go:132-198 | the handler's own branches quit only on Esc and on a tick from a percent above 0.75; a delegated message (any other key, such as q, or any other message) returns the widgets' command, modelled as Delegated |
| Todo.StepKeepsValid | main.go:132-198 | every message keeps every task well-formed and percent in [0, 1] |
| Todo.RunKeepsValid | main.go:132-198 | any sequence of messages with in-range selections, starting from a valid model, ends in a valid model |
| Todo.BuyMilkScenario | main.go:152-186 | submitting "buy milk" stores "[ ] buy milk" with percent 0; toggling it gives "[x] buy milk" with percent 1; removing it empties the list with percent 0 |
| Todo.Model.constructor | main.go:99-126 | the new object's fields are the initial model |
| Todo.Model.Init | main.go:128-130 | Init returns only the cursor blink, so no tick is started |
| Todo.Model.Update | main.go:132-198 | updating the fields in place gives exactly Step's new model and command, and keeps the invariant |

The functions `HasPrefix`, `ReplaceFirst`, `Toggle`, `ToggleSelected`,
`RemoveSelected`, `Submit`, `Resize`, `Step`, `Feasible` and `Run` have no
contracts of their own. The lemmas above state their properties.

## Left out

- The Bubble Tea event loop and `main` (main.go:79-84) are not modelled. Neither is driving ticks with `tickCmd` and its one-second `tea.Tick` (main.go:213-217). A command is the `Cmd` value that `Update` returns. A chain of ticks is `Progress.TickRun` or `Todo.Run`.
- The list widget's internals are not modelled: cursor movement, pagination, and how `Index()` moves after `RemoveItem`. The selected index is a parameter. It is required to be in range whenever the list is non-empty. The Go code would panic on a `nil` `SelectedItem()` otherwise.
- Todo.QuitOnlyOnEscOrTick: the command the widgets return for a delegated message (main.go:195-197) is not modelled; it is the opaque `Delegated`. That includes the list widget's own key bindings, such as its default quit binding on "q", so the lemma covers only the quits of the handler's own branches.
- Text editing in the text field is not modelled: typing, cursor blink, the 156-character limit and the width of 20 (main.go:102-106). For any other key and any other message (`OtherKey`, `OtherMsg`; main.go:195-197) the model returns `Delegated` and leaves its own fields unchanged. The text field's change to `buffer` from typing is not modelled.
- Rendering is not modelled: `itemDelegate`, `View`, the lipgloss styles, the list title, `listHeight` and the bar's `ViewAs` (main.go:20-29, 41-62, 200-211). The height in a window-size message is unused by the code and ignored here. The list's width is kept; its height is not.
- `percent` is a Go `float64`. The model uses exact `real` arithmetic. Steps of 0.25 are exact in both, but ratios such as 1/3 are rounded in the program and not in the model.
- Progress.BarWidth: widths are unbounded integers here. The wrap-around of Go's 64-bit `int` for widths near its minimum is not modelled.
- Go strings are byte sequences, and the model uses `seq<char>`. The markers are ASCII, so finding them is the same at either level.
- The progress widget's default width is a constructor parameter. It comes from the progress library, not from this program.
- `Update` has a value receiver in Go and returns an updated copy of the model. The event loop keeps only the returned copy, so `Model.Update` changes the object in place.
