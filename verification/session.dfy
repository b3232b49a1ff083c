/** The program entry point: put the terminal in interactive mode, open the
    battery manager, run the loop, put the terminal back and report.

    The terminal is reduced to its mode and the battery manager to whether
    it could be opened. `main` returning `Err` ends the process with exit
    code 1, returning `Ok` with exit code 0. */
module Session {
  import opened Presentation
  import opened EventLoop

  datatype TerminalMode = Normal | Interactive

  /** Still inside the loop (the trace ended first), or exited with a code. */
  datatype ProcessStatus = InLoop | Exited(code: nat)

  datatype Report = Report(mode: TerminalMode, status: ProcessStatus, drawn: seq<Option<Reading>>)

  const Success: nat := 0
  const Failure: nat := 1

  function ExitOf(s: Status): ProcessStatus {
    match s
    case Running => InLoop
    case Quit => Exited(Success)
    case Failed => Exited(Failure)
  }

  /** `main` in the order it is written: the terminal goes interactive
      before the battery manager is opened, and a manager error returns
      through `?` before the terminal is restored. Once the manager is open,
      the terminal is interactive exactly while the loop runs, and the
      process succeeds exactly when the loop ends on a quit press. */
  function RunProgramAsWritten(managerReady: bool, ticks: seq<Tick>): (r: Report)
    ensures managerReady ==> (r.mode == Interactive <==> r.status == InLoop)
    ensures r.status == Exited(Success) <==> managerReady && Run(ticks).status == Quit
    ensures managerReady ==> r.drawn == Run(ticks).drawn
  {
    if !managerReady then Report(Interactive, Exited(Failure), [])
    else
      var o := Run(ticks);
      if o.status == Running then Report(Interactive, InLoop, o.drawn)
      else Report(Normal, ExitOf(o.status), o.drawn)
  }

  /** The discrepancy: when the battery manager cannot be opened the process
      exits with an error while the terminal is still interactive. */
  lemma StartupErrorLeavesTerminalInteractive(ticks: seq<Tick>)
    ensures RunProgramAsWritten(false, ticks).status == Exited(Failure)
    ensures RunProgramAsWritten(false, ticks).mode == Interactive
  {
  }

  /** `main` with the battery manager opened before the terminal goes
      interactive: on every path the terminal is interactive exactly while
      the loop runs, so it is restored whenever the process exits, and a
      startup error draws nothing. Once the manager is open it behaves as
      the written order does. */
  function RunProgram(managerReady: bool, ticks: seq<Tick>): (r: Report)
    ensures r.mode == Interactive <==> r.status == InLoop
    ensures r.status == Exited(Success) <==> managerReady && Run(ticks).status == Quit
    ensures !managerReady ==> r.status == Exited(Failure) && r.drawn == []
    ensures managerReady ==> r == RunProgramAsWritten(true, ticks)
  {
    if !managerReady then Report(Normal, Exited(Failure), [])
    else
      var o := Run(ticks);
      if o.status == Running then Report(Interactive, InLoop, o.drawn)
      else Report(Normal, ExitOf(o.status), o.drawn)
  }

  /** A session that ends on a quit press exits cleanly, with the terminal
      back to normal and one frame per tick up to and including the press. */
  lemma QuitExitsCleanly(ticks: seq<Tick>, k: nat)
    requires k < |ticks| && QuitsAt(ticks[k])
    requires forall i :: 0 <= i < k ==> Continues(ticks[i])
    ensures RunProgram(true, ticks) == Report(Normal, Exited(Success), Readings(ticks[..k + 1]))
  {
    RunStopsAtFirstQuit(ticks, k);
  }
}
