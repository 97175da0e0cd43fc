/** One pass of the imperative daemon is a piece of a run. */
module TimerServing {
  import opened MachineWord
  import opened TimerState
  import opened TimerWorld
  import opened TimerRuns
  import opened TimerDaemon

  /** The tick counts as the daemon reads them. */
  function Lows(nows: seq<nat>): (r: seq<Tick>)
    ensures |r| == |nows|
  {
    if nows == [] then [] else [Low(nows[0])] + Lows(nows[1..])
  }

  ghost function Accepts(d: State, nows: seq<nat>): seq<Event>
    requires CommandsServed(d, Lows(nows))
    decreases |nows|
  {
    if d.queue == [] then [] else [AcceptAt(nows[0])] + Accepts(Receive(d, Low(nows[0])), nows[1..])
  }

  lemma {:induction false} CommandsAreRun(d: State, nows: seq<nat>)
    requires CommandsServed(d, Lows(nows))
    ensures Commands(d, Lows(nows)) == RunWrapped(d, Accepts(d, nows))
    decreases |nows|
  {
    hide Receive, Known, Low;
    if d.queue != [] {
      var e := Receive(d, Low(nows[0]));
      CommandsAreRun(e, nows[1..]);
      assert NextWrapped(d, AcceptAt(nows[0])) == e;
      assert Accepts(d, nows)[1..] == Accepts(e, nows[1..]);
    }
  }

  /** What Daemon.ServeOnce computes is the run of one turn followed by one acceptance for each command
      met, at the absolute ticks behind the tick counts. */
  lemma ServeIsRun(d: State, nows: seq<nat>)
    requires nows != [] && Served(d, Lows(nows))
    ensures var first := ProcessOrBlock(d, Low(nows[0]));
      Serve(d, Lows(nows)) == RunWrapped(d, [TurnAt(nows[0])] + Accepts(first, nows[1..]))
  {
    hide Receive, Known, Low, ProcessOrBlock;
    var first := ProcessOrBlock(d, Low(nows[0]));
    assert Lows(nows)[1..] == Lows(nows[1..]);
    CommandsAreRun(first, nows[1..]);
    var evs := [TurnAt(nows[0])] + Accepts(first, nows[1..]);
    assert evs[1..] == Accepts(first, nows[1..]) && NextWrapped(d, evs[0]) == first;
  }
}
