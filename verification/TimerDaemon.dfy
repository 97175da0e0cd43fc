/** The timer service task of timers.c: two list objects behind two pointers that are swapped at
    roll-over, the command queue, and the last sampled time.  Each routine is proved to compute the
    function of the same role in TimerState. */
module TimerDaemon {
  import opened MachineWord
  import opened TimerState

  class TimerList {
    var items: seq<Item>
    constructor ()
      ensures items == []
    {
      items := [];
    }
  }

  class Daemon {
    var pxCurrentTimerList: TimerList
    var pxOverflowTimerList: TimerList
    var timers: map<int, Timer>
    var xTimerQueue: seq<Command>
    var xLastTime: Tick
    var calls: seq<int>
    var failed: bool
    var script: seq<seq<Command>>

    ghost predicate Valid()
      reads this
    {
      pxCurrentTimerList != pxOverflowTimerList
    }

    ghost function Abs(): State
      reads this, pxCurrentTimerList, pxOverflowTimerList
    {
      State(pxCurrentTimerList.items, pxOverflowTimerList.items, timers, xTimerQueue, xLastTime, calls, failed, script)
    }

    ghost function Lists(): set<object>
      reads this
    {
      {pxCurrentTimerList, pxOverflowTimerList}
    }

    constructor (timers: map<int, Timer>, script: seq<seq<Command>>)
      ensures Valid() && Abs() == State([], [], timers, [], 0, [], false, script)
    {
      var list1 := new TimerList();
      var list2 := new TimerList();
      pxCurrentTimerList, pxOverflowTimerList := list1, list2;
      this.timers, xTimerQueue, xLastTime, calls, failed, this.script := timers, [], 0, [], false, script;
    }

    /** xTimerGenericCommand as the daemon uses it on itself, followed by its configASSERT. */
    method PostToSelf(c: Command)
      requires Valid()
      modifies this`xTimerQueue, this`failed
      ensures Abs() == PostInternal(old(Abs()), c)
    {
      if |xTimerQueue| < QUEUE_LENGTH {
        xTimerQueue := xTimerQueue + [c];
      } else {
        failed := true;
      }
    }

    /** The application's callback, which may post commands. */
    method CallBack(timer: int)
      requires Valid()
      modifies this`calls, this`xTimerQueue, this`script
      ensures Abs() == Callback(old(Abs()), timer)
    {
      calls := calls + [timer];
      if script != [] {
        xTimerQueue := Fitting(xTimerQueue, script[0]);
        script := script[1..];
      }
    }

    /** prvInsertTimerInActiveList. */
    method InsertTimerInActiveList(timer: int, xNextExpiryTime: Tick, xTimeNow: Tick, xCommandTime: Tick)
      returns (xProcessTimerNow: bool)
      requires Valid() && timer in timers
      modifies Lists()
      ensures (Abs(), xProcessTimerNow) == InsertTimer(old(Abs()), timer, xNextExpiryTime, xTimeNow, xCommandTime)
    {
      xProcessTimerNow := false;
      if xNextExpiryTime <= xTimeNow {
        if Sub32(xTimeNow, xCommandTime) >= timers[timer].period {
          xProcessTimerNow := true;
        } else {
          pxOverflowTimerList.items := SortedInsert(pxOverflowTimerList.items, Item(xNextExpiryTime, timer));
        }
      } else {
        if xTimeNow < xCommandTime && xNextExpiryTime >= xCommandTime {
          xProcessTimerNow := true;
        } else {
          pxCurrentTimerList.items := SortedInsert(pxCurrentTimerList.items, Item(xNextExpiryTime, timer));
        }
      }
    }

    /** prvProcessExpiredTimer. */
    method ProcessExpiredTimer(xNextExpireTime: Tick, xTimeNow: Tick)
      requires Valid() && pxCurrentTimerList.items != [] && pxCurrentTimerList.items[0].owner in timers
      modifies Lists(), this`xTimerQueue, this`failed, this`calls, this`script
      ensures Abs() == ProcessExpired(old(Abs()), xNextExpireTime, xTimeNow)
    {
      var timer := pxCurrentTimerList.items[0].owner;
      pxCurrentTimerList.items := pxCurrentTimerList.items[1..];
      if timers[timer].autoReload {
        var xReload := Add32(xNextExpireTime, timers[timer].period);
        var due := InsertTimerInActiveList(timer, xReload, xTimeNow, xNextExpireTime);
        if due {
          PostToSelf(Command(Start, timer, xNextExpireTime));
        }
      }
      CallBack(timer);
    }

    /** prvSwitchTimerLists: the loop drains the current list, into which it may itself re-insert
        timers; it ends because the ticks left before the wrap shrink at every turn. */
    method SwitchTimerLists()
      requires Valid() && Known(Abs())
      modifies this`pxCurrentTimerList, this`pxOverflowTimerList, Lists(),
               this`xTimerQueue, this`failed, this`calls, this`script
      ensures Valid() && Lists() == old(Lists())
      ensures Abs() == Switch(old(Abs()))
    {
      while pxCurrentTimerList.items != []
        invariant Valid() && Known(Abs())
        invariant pxCurrentTimerList == old(pxCurrentTimerList) && pxOverflowTimerList == old(pxOverflowTimerList)
        invariant Drain(Abs()) == Drain(old(Abs()))
        decreases Remaining(pxCurrentTimerList.items)
      {
        ghost var before := Abs();
        var xNextExpireTime := pxCurrentTimerList.items[0].value;
        var timer := pxCurrentTimerList.items[0].owner;
        pxCurrentTimerList.items := pxCurrentTimerList.items[1..];
        CallBack(timer);
        if timers[timer].autoReload {
          var xReloadTime := Add32(xNextExpireTime, timers[timer].period);
          if xReloadTime > xNextExpireTime {
            pxCurrentTimerList.items := SortedInsert(pxCurrentTimerList.items, Item(xReloadTime, timer));
          } else {
            PostToSelf(Command(Start, timer, xNextExpireTime));
          }
        }
        assert Abs() == DrainOne(before);
      }
      var pxTemp := pxCurrentTimerList;
      pxCurrentTimerList := pxOverflowTimerList;
      pxOverflowTimerList := pxTemp;
    }

    /** prvSampleTimeNow; `tick` is what xTaskGetTickCount returns. */
    method SampleTimeNow(tick: Tick) returns (xTimeNow: Tick, switched: bool)
      requires Valid() && Known(Abs())
      modifies this`pxCurrentTimerList, this`pxOverflowTimerList, Lists(), this`xLastTime,
               this`xTimerQueue, this`failed, this`calls, this`script
      ensures Valid() && Lists() == old(Lists()) && xTimeNow == tick
      ensures (Abs(), switched) == Sample(old(Abs()), tick)
    {
      xTimeNow := tick;
      if xTimeNow < xLastTime {
        SwitchTimerLists();
        switched := true;
      } else {
        switched := false;
      }
      xLastTime := xTimeNow;
    }

    /** prvGetNextExpireTime. */
    method GetNextExpireTime() returns (xNextExpireTime: Tick, xListWasEmpty: bool)
      requires Valid()
      ensures (xNextExpireTime, xListWasEmpty) == NextExpire(Abs())
    {
      xListWasEmpty := pxCurrentTimerList.items == [];
      if !xListWasEmpty {
        xNextExpireTime := pxCurrentTimerList.items[0].value;
      } else {
        xNextExpireTime := 0;
      }
    }

    /** prvProcessTimerOrBlockTask, including the test in vQueueWaitForMessageRestricted. */
    method ProcessTimerOrBlockTask(xNextExpireTime: Tick, wasEmpty: bool, tick: Tick) returns (wait: Wait)
      requires Valid() && Known(Abs()) && (xNextExpireTime, wasEmpty) == NextExpire(Abs())
      modifies this`pxCurrentTimerList, this`pxOverflowTimerList, Lists(), this`xLastTime,
               this`xTimerQueue, this`failed, this`calls, this`script
      ensures Valid() && Lists() == old(Lists())
      ensures Abs() == ProcessOrBlock(old(Abs()), tick) && wait == BlockTime(old(Abs()), tick)
    {
      wait := NoWait;
      var xTimeNow, xTimerListsWereSwitched := SampleTimeNow(tick);
      if !xTimerListsWereSwitched {
        if !wasEmpty && xNextExpireTime <= xTimeNow {
          ProcessExpiredTimer(xNextExpireTime, xTimeNow);
        } else {
          var xListWasEmpty := wasEmpty;
          if xListWasEmpty {
            xListWasEmpty := pxOverflowTimerList.items == [];
          }
          if xTimerQueue == [] {
            wait := if xListWasEmpty then WaitForever else WaitTicks(Sub32(xNextExpireTime, xTimeNow));
          }
        }
      }
    }

    /** The switch statement of prvProcessReceivedCommands. */
    method HandleCommand(xMessage: Command, xTimeNow: Tick)
      requires Valid() && xMessage.timer in timers
      modifies this`timers, Lists(), this`xTimerQueue, this`failed, this`calls, this`script
      ensures Valid() && Lists() == old(Lists())
      ensures Abs() == Handle(old(Abs()), xMessage, xTimeNow)
    {
      hide InsertTimer, Callback, PostInternal;
      var timer := xMessage.timer;
      match xMessage.kind {
        case Start =>
          var xNextExpiryTime := Add32(xMessage.value, timers[timer].period);
          var due := InsertTimerInActiveList(timer, xNextExpiryTime, xTimeNow, xMessage.value);
          if due {
            CallBack(timer);
            if timers[timer].autoReload {
              PostToSelf(Command(Start, timer, Add32(xMessage.value, timers[timer].period)));
            }
          }
        case Stop =>
        case ChangePeriod =>
          timers := timers[timer := timers[timer].(period := xMessage.value)];
          var due := InsertTimerInActiveList(timer, Add32(xTimeNow, timers[timer].period), xTimeNow, xTimeNow);
        case Delete =>
          timers := timers - {timer};
      }
    }

    /** One turn of the loop of prvProcessReceivedCommands: the timer is unlisted before the time
        is sampled, and the sample may itself drain and switch the lists. */
    method ProcessCommand(tick: Tick)
      requires Valid() && Known(Abs()) && xTimerQueue != [] && xTimerQueue[0].timer in timers
      modifies this, Lists()
      ensures Valid() && Lists() == old(Lists())
      ensures Abs() == Receive(old(Abs()), tick)
    {
      ghost var before := Abs();
      TakenKnown(before);
      hide Sample, Handle, Unlist, Known;
      var xMessage := xTimerQueue[0];
      var timer := xMessage.timer;
      xTimerQueue := xTimerQueue[1..];
      pxCurrentTimerList.items := Unlist(pxCurrentTimerList.items, timer);
      pxOverflowTimerList.items := Unlist(pxOverflowTimerList.items, timer);
      assert Abs() == Taken(before);
      SampleTimers(Taken(before), tick);
      var xTimeNow, xTimerListsWereSwitched := SampleTimeNow(tick);
      HandleCommand(xMessage, xTimeNow);
    }

    /** One pass of the daemon's main loop; `ticks` are the successive tick counts it reads, the
        first for the timers and one more for each command. */
    method ServeOnce(ticks: seq<Tick>) returns (wait: Wait)
      requires Valid() && ticks != [] && Served(Abs(), ticks)
      modifies this, Lists()
      ensures Valid() && Lists() == old(Lists())
      ensures Abs() == Serve(old(Abs()), ticks) && xTimerQueue == []
    {
      hide Receive, ProcessOrBlock, BlockTime, NextExpire, Known;
      var xNextExpireTime, xListWasEmpty := GetNextExpireTime();
      wait := ProcessTimerOrBlockTask(xNextExpireTime, xListWasEmpty, ticks[0]);
      var i := 1;
      assert ticks[1..] == ticks[i..];
      while xTimerQueue != []
        invariant 1 <= i <= |ticks| && Valid() && Lists() == old(Lists())
        invariant CommandsServed(Abs(), ticks[i..])
        invariant Commands(Abs(), ticks[i..]) == Serve(old(Abs()), ticks)
        decreases |ticks| - i
      {
        assert ticks[i..][1..] == ticks[i + 1..];
        ProcessCommand(ticks[i]);
        i := i + 1;
      }
    }
  }

  /** The ticks suffice to empty the queue, and every command met is for a timer that still exists. */
  ghost predicate CommandsServed(d: State, ticks: seq<Tick>)
    decreases |ticks|
  {
    d.queue == [] ||
    (ticks != [] && Known(d) && d.queue[0].timer in d.timers && CommandsServed(Receive(d, ticks[0]), ticks[1..]))
  }

  ghost function Commands(d: State, ticks: seq<Tick>): (r: State)
    requires CommandsServed(d, ticks)
    ensures r.queue == []
    decreases |ticks|
  {
    if d.queue == [] then d else Commands(Receive(d, ticks[0]), ticks[1..])
  }

  ghost predicate Served(d: State, ticks: seq<Tick>)
    requires ticks != []
  {
    Known(d) && CommandsServed(ProcessOrBlock(d, ticks[0]), ticks[1..])
  }

  ghost function Serve(d: State, ticks: seq<Tick>): State
    requires ticks != [] && Served(d, ticks)
  {
    Commands(ProcessOrBlock(d, ticks[0]), ticks[1..])
  }
}
