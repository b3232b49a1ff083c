/** The polling loop of little-bat: draw a frame, wait up to one second for
    input, and stop on the first press of `q` or Escape.

    The loop is modelled over a finite trace of ticks. Each tick records
    what the outside world supplied to one iteration: the battery reading
    the render used, whether the draw call succeeded, and what the one
    second wait produced. The one-second timeout itself, the terminal and
    the battery driver are not modelled; they only shape the trace. */
module EventLoop {
  import opened Presentation

  datatype KeyEventKind = Press | Repeat | Release

  /** A key code; `OtherKey` stands for every key other than a character
      key and Escape (Enter, arrows, function keys, ...). */
  datatype KeyCode = Char(c: char) | Esc | OtherKey(id: nat)

  datatype KeyEvent = KeyEvent(code: KeyCode, kind: KeyEventKind)

  /** A terminal event; `NonKey` stands for focus, mouse, paste and resize
      events. */
  datatype Event = Key(key: KeyEvent) | NonKey

  /** The result of the bounded wait: nothing within the second, an event
      that was then read, or an error from polling or reading. */
  datatype Input = Timeout | Arrived(event: Event) | InputError

  datatype Tick = Tick(reading: Option<Reading>, drawOk: bool, input: Input)

  /** `Running`: the trace ended while the loop was still going. `Quit`:
      the loop broke out and returned `Ok`. `Failed`: an error left the
      loop through `?`. */
  datatype Status = Running | Quit | Failed

  /** The readings of the frames drawn successfully, in order, and how the
      loop ended. */
  datatype Outcome = Outcome(drawn: seq<Option<Reading>>, status: Status)

  /** The quit test: a key event that is a press (not a repeat or a
      release) and whose code is `q` or Escape. Exactly two events pass it. */
  function IsQuit(e: Event): (q: bool)
    ensures q <==> e in {Key(KeyEvent(Char('q'), Press)), Key(KeyEvent(Esc, Press))}
  {
    && e.Key?
    && e.key.kind == Press
    && (e.key.code == Char('q') || e.key.code == Esc)
  }

  /** Key repeats and releases never quit, whatever the key. */
  lemma OnlyPressesQuit(code: KeyCode, kind: KeyEventKind)
    requires kind != Press
    ensures !IsQuit(Key(KeyEvent(code, kind)))
  {
  }

  /** A press quits exactly for `q` and Escape; in particular an upper-case
      `Q` does not. */
  lemma QuitKeys(code: KeyCode)
    ensures IsQuit(Key(KeyEvent(code, Press))) <==> code in {Char('q'), Esc}
    ensures !IsQuit(Key(KeyEvent(Char('Q'), Press)))
  {
  }

  /** A tick after which the loop goes round again: the draw succeeded and
      the wait timed out or delivered an event that is not a quit press. */
  predicate Continues(t: Tick) {
    t.drawOk && (t.input.Timeout? || (t.input.Arrived? && !IsQuit(t.input.event)))
  }

  /** A tick that ends the loop normally. */
  predicate QuitsAt(t: Tick) {
    t.drawOk && t.input.Arrived? && IsQuit(t.input.event)
  }

  /** The index of the first tick that does not continue the loop, or the
      length of the trace when every tick continues. */
  function FirstStop(ticks: seq<Tick>): (k: nat)
    ensures k <= |ticks|
    ensures forall i :: 0 <= i < k ==> Continues(ticks[i])
    ensures k < |ticks| ==> !Continues(ticks[k])
  {
    if |ticks| == 0 || !Continues(ticks[0]) then 0 else 1 + FirstStop(ticks[1..])
  }

  function Prepend(reading: Option<Reading>, o: Outcome): Outcome {
    Outcome([reading] + o.drawn, o.status)
  }

  /** The loop run over a trace: it draws at most one frame per tick, and
      one per tick exactly when it is still running at the end. */
  function Run(ticks: seq<Tick>): (o: Outcome)
    ensures |o.drawn| <= |ticks|
    ensures o.status == Running ==> |o.drawn| == |ticks|
  {
    if |ticks| == 0 then Outcome([], Running)
    else
      var t := ticks[0];
      if !t.drawOk then Outcome([], Failed)
      else
        match t.input
        case Timeout => Prepend(t.reading, Run(ticks[1..]))
        case Arrived(e) =>
          if IsQuit(e) then Outcome([t.reading], Quit) else Prepend(t.reading, Run(ticks[1..]))
        case InputError => Outcome([t.reading], Failed)
  }

  /** With `k` the first tick that does not continue: the loop is still
      running exactly when there is no such tick, quits exactly when tick
      `k` is a quit press and fails otherwise; it draws every tick before
      `k`, and `k` itself when that draw succeeded, each from its own
      reading, and nothing after `k`. */
  lemma {:induction false} RunFollowsFirstStop(ticks: seq<Tick>)
    ensures var o, k := Run(ticks), FirstStop(ticks);
      && (o.status == Running <==> k == |ticks|)
      && (o.status == Quit <==> k < |ticks| && QuitsAt(ticks[k]))
      && (o.status == Failed <==> k < |ticks| && !QuitsAt(ticks[k]))
      && |o.drawn| == (if k < |ticks| && ticks[k].drawOk then k + 1 else k)
      && o.drawn == Readings(ticks[..|o.drawn|])
  {
    if |ticks| > 0 {
      var t, rest := ticks[0], ticks[1..];
      if Continues(t) {
        RunFollowsFirstStop(rest);
        var o', k' := Run(rest), FirstStop(rest);
        assert FirstStop(ticks) == k' + 1;
        assert Run(ticks) == Prepend(t.reading, o');
        assert k' < |rest| ==> ticks[k' + 1] == rest[k'];
        assert Readings(ticks[..|o'.drawn| + 1]) == [t.reading] + Readings(rest[..|o'.drawn|]);
      } else {
        assert FirstStop(ticks) == 0;
        assert Readings(ticks[..1]) == [t.reading];
        assert Readings(ticks[..0]) == [];
      }
    } else {
      assert Readings(ticks[..0]) == [];
    }
  }

  /** Every reading the loop drew from can be rendered under `config`. */
  predicate RenderableAll(config: Config, readings: seq<Option<Reading>>) {
    forall i :: 0 <= i < |readings| ==> Renderable(readings[i], config)
  }

  /** The frames the run put on screen, in order. */
  function Frames(config: Config, drawn: seq<Option<Reading>>): (frames: seq<seq<Line>>)
    requires RenderableAll(config, drawn)
    ensures |frames| == |drawn|
    ensures forall i :: 0 <= i < |frames| ==> frames[i] == Content(drawn[i], config)
  {
    if |drawn| == 0 then [] else [Content(drawn[0], config)] + Frames(config, drawn[1..])
  }

  /** The loop stops at the first quit press: it draws one frame per tick
      up to and including that one, each from its own reading. */
  lemma {:induction false} RunStopsAtFirstQuit(ticks: seq<Tick>, k: nat)
    requires k < |ticks| && QuitsAt(ticks[k])
    requires forall i :: 0 <= i < k ==> Continues(ticks[i])
    ensures Run(ticks).status == Quit
    ensures Run(ticks).drawn == Readings(ticks[..k + 1])
  {
    RunFollowsFirstStop(ticks);
    assert FirstStop(ticks) == k;
  }

  function Readings(ticks: seq<Tick>): (rs: seq<Option<Reading>>)
    ensures |rs| == |ticks|
    ensures forall i :: 0 <= i < |ticks| ==> rs[i] == ticks[i].reading
  {
    seq(|ticks|, i requires 0 <= i < |ticks| => ticks[i].reading)
  }

  /** Timeouts, other keys and non-quit key events keep the loop running:
      a trace without a stopping tick draws once per tick. */
  lemma {:induction false} RunWithoutQuit(ticks: seq<Tick>)
    requires forall i :: 0 <= i < |ticks| ==> Continues(ticks[i])
    ensures Run(ticks).status == Running
    ensures Run(ticks).drawn == Readings(ticks)
  {
    RunFollowsFirstStop(ticks);
    assert ticks[..|ticks|] == ticks;
  }

  /** Nothing after the stop matters: once a prefix has stopped the loop,
      whatever the trace goes on to contain is never drawn. */
  lemma {:induction false} RunIgnoresRest(a: seq<Tick>, b: seq<Tick>)
    requires Run(a).status != Running
    ensures Run(a + b) == Run(a)
  {
    assert (a + b)[0] == a[0];
    if Continues(a[0]) {
      assert (a + b)[1..] == a[1..] + b;
      RunIgnoresRest(a[1..], b);
    }
  }

  /** A tick that continues draws its reading and hands over to the rest. */
  lemma RunCons(t: Tick, rest: seq<Tick>)
    requires Continues(t)
    ensures Run([t] + rest) == Prepend(t.reading, Run(rest))
  {
  }

  /** A run that is still going after `a` continues with `b` as if it had
      started there, having drawn `a`'s ticks first. */
  lemma {:induction false} RunSplits(a: seq<Tick>, b: seq<Tick>)
    requires Run(a).status == Running
    ensures Run(a + b).drawn == Run(a).drawn + Run(b).drawn
    ensures Run(a + b).status == Run(b).status
    decreases |a|, 1
  {
    if |a| == 0 {
      assert a + b == b;
      assert Run(a).drawn == [];
    } else {
      var t, rest := a[0], a[1..];
      assert a == [t] + rest;
      assert a + b == [t] + (rest + b);
      RunningContinues(t, rest);
      RunSplitsCons(t, rest, b);
    }
  }

  /** A loop still running after a tick went round again at that tick. */
  lemma RunningContinues(t: Tick, rest: seq<Tick>)
    requires Run([t] + rest).status == Running
    ensures Continues(t)
    ensures Run(rest).status == Running
  {
  }

  lemma {:induction false} RunSplitsCons(t: Tick, rest: seq<Tick>, b: seq<Tick>)
    requires Continues(t)
    requires Run(rest).status == Running
    ensures Run([t] + (rest + b)).drawn == Run([t] + rest).drawn + Run(b).drawn
    ensures Run([t] + (rest + b)).status == Run(b).status
    decreases |rest| + 1, 0
  {
    RunCons(t, rest);
    RunCons(t, rest + b);
    RunSplits(rest, b);
    var x, y := Run(rest).drawn, Run(b).drawn;
    assert [t.reading] + (x + y) == ([t.reading] + x) + y;
  }

  /** A quit press arriving in the very first wait: one frame, then stop. */
  lemma QuitOnFirstTick(config: Config, reading: Option<Reading>, rest: seq<Tick>)
    requires Renderable(reading, config)
    ensures var o := Run([Tick(reading, true, Arrived(Key(KeyEvent(Char('q'), Press))))] + rest);
      && o.status == Quit
      && RenderableAll(config, o.drawn)
      && Frames(config, o.drawn) == [Content(reading, config)]
  {
  }
}
