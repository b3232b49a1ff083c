# little-bat, modelled in Dafny

little-bat is a terminal battery display. Once a second it reads the primary
battery's charge and power state and draws them in the middle of the
terminal, either as a percentage or as a ten-cell bar plus the percentage.
It can also add a "Battery" label above and the state text below. It stops
when `q` or Escape is pressed. This project models the pure part of
`src/main.rs` and proves what it promises:

- `rounding.dfy` (`Rounding`): the two rounding rules the display uses. The
  bar uses round-half-away-from-zero (`f32::round`). The percentage text uses
  fixed-precision formatting, which rounds a tie to the even neighbour. Each
  rule has a characterisation and a uniqueness lemma.
- `decimal.dfy` (`Decimal`): the decimal digits of a whole number, with a
  reading function and the round trip between the two.
- `presentation.dfy` (`Presentation`): the optional value (Rust's
  `Option`), the colour threshold, the state text, the percentage text, the
  bar, the two frame layouts, the content chosen for one tick, and the size
  of the box it is centred in.
- `event_loop.dfy` (`EventLoop`): the quit test and the loop, run over a
  finite trace of ticks. Each tick records the reading drawn, whether the
  draw succeeded, and what the one-second wait produced.
- `session.dfy` (`Session`): `main`'s ordering of terminal set-up, battery
  manager start-up, the loop and terminal restoration.

A line on screen is a sequence of glyphs, each one cell wide, plus one
foreground colour (`Green | Yellow | Red | DarkGray | Default`). A charge is
an exact `real`.

Points where the code's behaviour is easy to misread, and which the model
follows exactly:
- The bar rounds `charge / 10` half away from zero (`f32::round`), so 5%
  already fills one cell and 25% fills three.
- The percentage text is formatted with `{:.0}`, which sends a tie to the
  even neighbour, so 2.5% reads "2%" and 3.5% reads "4%".
- `main` makes the terminal interactive before it opens the battery manager
  (see Findings).
- The bar code only needs the charge below 105, which keeps `10 - filled`
  from underflowing; a negative rounded count saturates to zero in the
  `as usize` cast. `Filled` carries exactly that precondition.

## Model

| member | source | states |
|---|---|---|
| Rounding.RoundHalfAway | src/main.rs:123 | the result is an integer within one half of `x`, and a tie goes away from zero |
| Rounding.HalfAwayUnique | src/main.rs:123 | only one integer rounds `x` half away from zero |
| Rounding.HalfAwaySymmetric | src/main.rs:123 | rounding `-x` gives minus the rounding of `x` |
| Rounding.HalfAwayMonotone | src/main.rs:123 | a larger value never rounds to a smaller integer |
| Rounding.RoundHalfEven | src/main.rs:107 | the result is an integer within one half of `x`, and a tie goes to the even neighbour |
| Rounding.HalfEvenUnique | src/main.rs:107 | only one integer rounds `x` half to even |
| Rounding.RulesAgreeOffTies | src/main.rs:107 | the text's rounding and the bar's rounding agree everywhere except exactly half-way |
| Decimal.DecimalString | src/main.rs:107 | the text is at least one digit, and a leading `0` appears only for zero; one digit exactly below ten |
| Decimal.DecimalRoundTrip | src/main.rs:107 | reading the written digits back gives the number |
| Decimal.DecimalInjective | src/main.rs:107 | different numbers are written differently |
| Decimal.DecimalLength | src/main.rs:107 | a number fits in `k` digits exactly when it is below `10^k` |
| Presentation.ChargeColor | src/main.rs:155-163 | green exactly above 50, yellow exactly in (20, 50], red exactly at or below 20; never grey or default |
| Presentation.ChargeColorMonotone | src/main.rs:155-163 | a lower charge is never shown in a less alarming colour |
| Presentation.ChargeColorBoundaries | src/main.rs:155-163 | 50 is yellow and 20 is red |
| Presentation.StateText | src/main.rs:165-173 | Charging, Discharging, Full and Empty read as their own names; the text is "Unknown" exactly for the states without a name of their own; every text is non-empty and at most 11 glyphs |
| Presentation.StateTextDistinguishesNamed | src/main.rs:165-173 | Charging, Discharging, Full and Empty all get different texts |
| Presentation.PercentText | src/main.rs:107 | the text ends in `%`; before it are the digits of the charge rounded half to even, and a leading `-` for a negative charge |
| Presentation.PercentTextNoLeadingZero | src/main.rs:107 | the digits never start with `0` unless the charge rounds to 0, which reads "0%" (or "-0%" below zero) |
| Presentation.PercentTextWidth | src/main.rs:107 | for a charge in [0, 100] the text is at most four glyphs |
| Presentation.Filled | src/main.rs:123-124 | below 105 the fill is at most ten cells; no cell below 5%; otherwise `n` cells exactly when the charge is in [10n - 5, 10n + 5) |
| Presentation.FilledEnds | src/main.rs:123-124 | 0% fills no cell and 100% fills all ten |
| Presentation.FilledTies | src/main.rs:123 | 5%, 15% and 25% fill one, two and three cells |
| Presentation.FilledMonotone | src/main.rs:123 | more charge never fills fewer cells |
| Presentation.Bar | src/main.rs:126-130 | twelve glyphs: `[`, then `filled` full blocks, then light shades up to cell ten, then `]` |
| Presentation.BarCellCounts | src/main.rs:126-130 | counting a bar's glyphs gives `filled` full blocks and `10 - filled` light shades |
| Presentation.RenderPercentage | src/main.rs:98-119 | one line without the label and three with it; "Battery" first, the percentage in the charge colour, the state text in grey last |
| Presentation.RenderGraphic | src/main.rs:121-153 | two lines without the label and four with it; the bar in the charge colour with `Filled(charge)` full blocks, then the percentage line; label first and state last |
| Presentation.LabelFramesContent | src/main.rs:98-153 | in both modes the label adds exactly "Battery" before and the state line after the unlabelled frame |
| Presentation.GraphicAddsBar | src/main.rs:98-153 | graphic mode is percentage mode with the bar inserted just above the percentage line |
| Presentation.FrameColors | src/main.rs:98-153 | only the label line is default-coloured, only the state line is grey, and every other line has the charge colour |
| Presentation.Content | src/main.rs:79-88 | without a reading, the single line "No battery found" whatever the flags; with one, 1, 2, 3 or 4 lines as the flags say; never empty |
| Presentation.ContentMode | src/main.rs:79-88 | with a reading, `graphicMode` alone chooses between the two layouts |
| Presentation.MaxWidth | src/main.rs:91 | none exactly for no lines; otherwise a width no line exceeds and some line reaches |
| Presentation.Footprint | src/main.rs:90-92 | `u16` sizes; height is the line count and width the widest line plus two whenever they fit in `u16`; with no lines the width falls back to 20 plus two |
| Presentation.ContentFootprint | src/main.rs:79-92 | for any tick's content, the box is the widest line (at most 16) plus two by the line count; the width-20 fallback is never used and no `u16` cast loses anything |
| Presentation.PlainFrameAt75 | src/main.rs:98-119 | 75%, Charging, no flags gives the one line "75%" in green |
| Presentation.FullFrameAt15 | src/main.rs:121-153 | 15%, Discharging, both flags gives "Battery", a red bar with two of ten cells filled, "15%" in red, then "Discharging" in grey |
| Presentation.PercentTextTies | src/main.rs:107-123 | the text and the bar round ties differently: 2.5% reads "2%" and 3.5% reads "4%", while 25% fills three cells |
| EventLoop.IsQuit | src/main.rs:65-66 | exactly two events quit: a press of `q` and a press of Escape |
| EventLoop.OnlyPressesQuit | src/main.rs:65-66 | key repeats and releases never quit, whatever the key |
| EventLoop.QuitKeys | src/main.rs:65-66 | a press quits exactly for `q` and Escape; an upper-case `Q` does not |
| EventLoop.FirstStop | src/main.rs:60-72 | the index of the first tick after which the loop does not go round again: every earlier tick continues, and that one does not |
| EventLoop.Run | src/main.rs:59-74 | the loop draws at most one frame per tick, and one for every tick when the trace ends with the loop still running |
| EventLoop.RunFollowsFirstStop | src/main.rs:59-74 | with `k` the first tick that does not continue: the loop is still running exactly when there is none; it quits exactly when tick `k` is a quit press; otherwise it failed; it draws every tick before `k`, and `k` itself only if that draw succeeded, each from its own reading |
| EventLoop.Frames | src/main.rs:61 | one frame per drawn tick, the content of that tick's reading |
| EventLoop.RunStopsAtFirstQuit | src/main.rs:59-74 | if tick `k` is the first quit press, the loop quits having drawn exactly ticks 0 to `k` |
| EventLoop.RunWithoutQuit | src/main.rs:59-74 | timeouts and non-quit events keep the loop running and draw once per tick |
| EventLoop.RunIgnoresRest | src/main.rs:60-72 | once a prefix of the trace has stopped the loop, nothing after it is drawn or changes the outcome |
| EventLoop.RunSplits | src/main.rs:60-72 | a loop still running after one trace goes on with the next as if it started there |
| EventLoop.QuitOnFirstTick | src/main.rs:59-74 | a quit press in the first wait gives one frame, that reading's content, and a clean stop |
| Session.RunProgramAsWritten | src/main.rs:50-57 | as written: once the battery manager is open, the terminal is interactive exactly while the loop runs; exit code 0 exactly when the manager opened and the loop quit |
| Session.StartupErrorLeavesTerminalInteractive | src/main.rs:52-53 | as written, a manager error exits with code 1 while the terminal is still interactive |
| Session.RunProgram | src/main.rs:50-57 | on every path the terminal is interactive exactly while the loop runs; exit code 0 exactly on a quit; a start-up error draws nothing; otherwise the same as the written order |
| Session.QuitExitsCleanly | src/main.rs:50-74 | a session that reaches a quit press exits with code 0, the terminal restored, and one frame per tick up to the press |

## Left out

- Terminal I/O (`ratatui::init`, `restore`, `terminal.draw`) is not modelled. The terminal is reduced to its mode, and a draw to "succeeded or failed" in each tick.
- `event::poll` and `event::read` with the one-second timeout are blocking I/O. Each tick records only their outcome: a timeout, an event, or an error.
- `centered_rect` is not modelled. It is a thin wrapper over the layout library's centring, whose arithmetic is not visible. Only the footprint handed to it is modelled.
- `App::new` and `get_battery_info` are device access. The first is a boolean input (`managerReady`). The second is the optional reading recorded in each tick.
- Argument parsing with clap is not modelled; the two flags are the `Config` booleans.
- `f32` arithmetic is not modelled. The charge is an exact real, and `charge / 10.0` is exact. NaN and infinities are out of scope. The sign of a negative zero is lost.
- Presentation.PercentText: formatting with `{:.0}` rounds the exact binary value of the `f32`. The model rounds the exact real, so a charge whose `f32` is a hair off a half may round differently. A negative charge is written as `-` plus the rounded magnitude; the driver never reports one.
- Presentation.Filled: the model divides exact reals rather than `f32` values. In `f32` no charge below 105 divides to 10.5 either, so the precondition `charge < 105` is the exact no-panic bound in both.
- Presentation.Footprint: `width + 2` is modelled as wrapping `u16` addition, as in a release build; a debug build would panic on overflow instead. `ContentFootprint` shows that the width stays at most 18, so neither happens.
- Unicode display width is not modelled: every glyph, including the two block characters, is one cell wide.

## Findings

| source | as written | input that shows it | evidently intended | confidence | as-written member | corrected member |
|---|---|---|---|---|---|---|
| src/main.rs:52-56 | `ratatui::init()` puts the terminal in interactive mode before `App::new(...)?`. A battery manager error then returns from `main` without reaching `ratatui::restore()` | the battery manager cannot be created (`managerReady = false`) | open the manager first, or restore on that path, so the terminal is normal whenever the process exits | medium, not executed | Session.RunProgramAsWritten, Session.StartupErrorLeavesTerminalInteractive | Session.RunProgram |
