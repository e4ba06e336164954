/** A handler as it runs: the debounce state together with the number of
    inactivity loops (`start_inactivity_timer` calls) currently executing
    for it. Events, loop iterations and `stop` interleave in any order; a
    run over a sequence of such steps records what an observer would see:
    accepted events, fired callbacks and stops. */
module Watch {
  import Debounce

  datatype Live = Live(handler: Debounce.Handler, loops: nat)

  /** A file-system event, one iteration of a running loop (with whether
      the callback raises, should the iteration call it), or `stop`. */
  datatype Step = Change(path: string, isDir: bool, at: int) | Tick(at: int, callbackRaises: bool) | Halt

  /** What a step makes visible. */
  datatype Obs = Accepted(at: int) | Fired(at: int) | Stopped

  /** At most one loop runs, and only while `timer_running` is set. The
      flag can outlive the loop: a loop that leaves because the handler
      was stopped, or because the callback raised, does not clear it. */
  predicate Inv(w: Live)
  {
    && w.loops <= 1
    && (w.loops == 1 ==> w.handler.timerRunning)
  }

  /** `timer_running` is set but no loop runs: no event starts a timer any
      more, so the handler never calls its callback again. */
  predicate Stuck(w: Live)
  {
    w.handler.timerRunning && w.loops == 0
  }

  /** A handler as `add_folder` creates it: active, with no loop. */
  function Spawn(now: int, inactivityPeriod: int): (w: Live)
    ensures Inv(w) && w.loops == 0 && w.handler.active && !w.handler.timerRunning
    ensures w.handler.lastModified == now && w.handler.inactivityPeriod == inactivityPeriod
  {
    Live(Debounce.New(now, inactivityPeriod), 0)
  }

  /** The time of the last accepted event in `log`, or `start` if none. */
  function LastAccepted(log: seq<Obs>, start: int): int
  {
    if |log| == 0 then start
    else if log[|log| - 1].Accepted? then log[|log| - 1].at
    else LastAccepted(log[..|log| - 1], start)
  }

  /** One step. A loop iteration happens only while a loop runs; an event
      that starts the timer adds a loop; a loop that leaves removes one. */
  function Next(w: Live, s: Step): (r: (Live, seq<Obs>))
    ensures Inv(w) ==> Inv(r.0)
    ensures |r.1| <= 1
    ensures r.0.handler.inactivityPeriod == w.handler.inactivityPeriod
    ensures r.0.handler.active ==> w.handler.active
    ensures !s.Halt? ==> r.0.handler.active == w.handler.active
    ensures r.0.handler.lastModified == LastAccepted(r.1, w.handler.lastModified)
    ensures r.1 == [Stopped] <==> s.Halt?
    ensures |r.1| == 1 && r.1[0].Fired? ==>
      && s.Tick? && r.1[0].at == s.at
      && w.loops > 0 && r.0.loops == w.loops - 1
      && r.0.handler.timerRunning == (s.callbackRaises && w.handler.timerRunning)
      && s.at >= w.handler.lastModified + w.handler.inactivityPeriod
    ensures Inv(w) && |r.1| == 1 && r.1[0].Fired? && s.callbackRaises ==> Stuck(r.0)
    ensures |r.1| == 1 && r.1[0].Accepted? ==> w.handler.active
    ensures |r.1| == 1 && r.1[0].Accepted? && !w.handler.timerRunning ==> r.0.loops == w.loops + 1
    ensures Stuck(w) ==> Stuck(r.0) && (r.1 == [] || r.1[0].Accepted? || r.1[0].Stopped?)
    ensures r.0.loops > w.loops ==> |r.1| == 1 && r.1[0].Accepted?
    ensures s.Halt? ==> !r.0.handler.active
    ensures !w.handler.active ==> r.1 == [] || r.1 == [Stopped]
  {
    match s
    case Change(path, isDir, at) =>
      var e := Debounce.OnEvent(w.handler, path, isDir, at);
      var loops := if e.timerStarted then w.loops + 1 else w.loops;
      (Live(e.handler, loops), if Debounce.Qualifies(w.handler, path, isDir) then [Accepted(at)] else [])
    case Tick(at, callbackRaises) =>
      if w.loops == 0 then (w, [])
      else
        var p := Debounce.Poll(w.handler, at, callbackRaises);
        var loops := if p.continues then w.loops else w.loops - 1;
        (Live(p.handler, loops), if p.fired then [Fired(at)] else [])
    case Halt =>
      (Live(Debounce.Stop(w.handler), w.loops), [Stopped])
  }

  /** The converse directions of `Next`: what each step must do. An event
      the handler reacts to is accepted and arms a loop unless the timer is
      already running, and any other event changes nothing; a due iteration
      of a running loop on an active handler fires; an iteration that is not
      due, or has no loop to run in, changes nothing; and an iteration on a
      stopped handler just ends its loop. */
  lemma NextProgress(w: Live, s: Step)
    ensures s.Change? && Debounce.Qualifies(w.handler, s.path, s.isDir) ==>
      && Next(w, s).1 == [Accepted(s.at)]
      && Next(w, s).0.handler.timerRunning
      && Next(w, s).0.loops == (if w.handler.timerRunning then w.loops else w.loops + 1)
    ensures s.Change? && !Debounce.Qualifies(w.handler, s.path, s.isDir) ==> Next(w, s) == (w, [])
    ensures s.Tick? && w.loops > 0 && w.handler.active
            && s.at - w.handler.lastModified >= w.handler.inactivityPeriod ==>
      Next(w, s).1 == [Fired(s.at)]
    ensures s.Tick? && (w.loops == 0 || (w.handler.active && s.at - w.handler.lastModified < w.handler.inactivityPeriod)) ==>
      Next(w, s) == (w, [])
    ensures s.Tick? && w.loops > 0 && !w.handler.active ==> Next(w, s) == (w.(loops := w.loops - 1), [])
  {
  }

  /** The steps in order. A stopped handler stays stopped and shows nothing
      but further stops. */
  function Run(w: Live, steps: seq<Step>): (r: (Live, seq<Obs>))
    ensures Inv(w) ==> Inv(r.0)
    ensures r.0.handler.inactivityPeriod == w.handler.inactivityPeriod
    ensures r.0.handler.active ==> w.handler.active
    ensures !w.handler.active ==> forall i :: 0 <= i < |r.1| ==> r.1[i] == Stopped
    decreases |steps|
  {
    if |steps| == 0 then (w, [])
    else
      var first := Next(w, steps[0]);
      var rest := Run(first.0, steps[1..]);
      (rest.0, first.1 + rest.1)
  }

  lemma {:induction false} LastAcceptedConcat(a: seq<Obs>, b: seq<Obs>, start: int)
    ensures LastAccepted(a + b, start) == LastAccepted(b, LastAccepted(a, start))
    decreases |b|
  {
    if |b| > 0 {
      assert (a + b)[..|a + b| - 1] == a + b[..|b| - 1];
      LastAcceptedConcat(a, b[..|b| - 1], start);
    } else {
      assert a + b == a;
    }
  }

  /** The handler's clock is the time of the last accepted event of the run
      (or its creation time when no event was accepted). */
  lemma {:induction false} ClockIsLastAccepted(w: Live, steps: seq<Step>)
    ensures Run(w, steps).0.handler.lastModified == LastAccepted(Run(w, steps).1, w.handler.lastModified)
    decreases |steps|
  {
    if |steps| > 0 {
      var first := Next(w, steps[0]);
      ClockIsLastAccepted(first.0, steps[1..]);
      LastAcceptedConcat(first.1, Run(first.0, steps[1..]).1, w.handler.lastModified);
    }
  }

  /** Every fire in `log` comes at least `period` after the last event
      accepted before it (or after `start` if none was). */
  ghost predicate FiresAfterQuiet(log: seq<Obs>, start: int, period: int)
  {
    forall i :: 0 <= i < |log| && log[i].Fired? ==> log[i].at >= LastAccepted(log[..i], start) + period
  }

  /** No early fire: every callback comes at least `inactivity_period`
      after the last event accepted before it. */
  lemma {:induction false} NoEarlyFire(w: Live, steps: seq<Step>)
    ensures FiresAfterQuiet(Run(w, steps).1, w.handler.lastModified, w.handler.inactivityPeriod)
    decreases |steps|
  {
    if |steps| > 0 {
      var first := Next(w, steps[0]);
      var rest := Run(first.0, steps[1..]).1;
      var log := Run(w, steps).1;
      assert log == first.1 + rest;
      NoEarlyFire(first.0, steps[1..]);
      forall i | 0 <= i < |log| && log[i].Fired?
        ensures log[i].at >= LastAccepted(log[..i], w.handler.lastModified) + w.handler.inactivityPeriod
      {
        if i < |first.1| {
          assert log[i] == first.1[0];
          assert log[..i] == [];
        } else {
          var j := i - |first.1|;
          assert rest[j] == log[i];
          assert log[..i] == first.1 + rest[..j];
          assert rest[j].at >= LastAccepted(rest[..j], first.0.handler.lastModified) + first.0.handler.inactivityPeriod;
          LastAcceptedConcat(first.1, rest[..j], w.handler.lastModified);
        }
      }
    }
  }

  /** Only stops follow a stop in `log`. */
  ghost predicate SilentAfterStop(log: seq<Obs>)
  {
    forall i, j :: 0 <= i < j < |log| && log[i].Stopped? ==> log[j].Stopped?
  }

  /** After a stop nothing is accepted and nothing fires. */
  lemma {:induction false} NothingAfterStop(w: Live, steps: seq<Step>)
    ensures SilentAfterStop(Run(w, steps).1)
    decreases |steps|
  {
    if |steps| > 0 {
      var first := Next(w, steps[0]);
      var rest := Run(first.0, steps[1..]).1;
      var log := Run(w, steps).1;
      assert log == first.1 + rest;
      NothingAfterStop(first.0, steps[1..]);
      forall i, j | 0 <= i < j < |log| && log[i].Stopped?
        ensures log[j].Stopped?
      {
        if i < |first.1| {
          assert log[i] == first.1[0];
          assert first.1 == [Stopped];
          assert !first.0.handler.active;
          assert |first.1| == 1;
          assert rest[j - 1] == log[j];
          assert rest[j - 1] == Stopped;
        } else {
          assert rest[i - |first.1|] == log[i];
          assert rest[j - |first.1|] == log[j];
        }
      }
    }
  }

  /** No callback in `log`. */
  ghost predicate NoFires(log: seq<Obs>)
  {
    forall i :: 0 <= i < |log| ==> !log[i].Fired?
  }

  /** A stuck handler stays stuck and never calls its callback again,
      whatever events, loop iterations and stops follow. */
  lemma {:induction false} StuckNeverFires(w: Live, steps: seq<Step>)
    requires Stuck(w)
    ensures Stuck(Run(w, steps).0)
    ensures NoFires(Run(w, steps).1)
    decreases |steps|
  {
    if |steps| > 0 {
      var first := Next(w, steps[0]);
      var rest := Run(first.0, steps[1..]).1;
      var log := Run(w, steps).1;
      assert log == first.1 + rest;
      StuckNeverFires(first.0, steps[1..]);
      forall i | 0 <= i < |log|
        ensures !log[i].Fired?
      {
        if i < |first.1| {
          assert log[i] == first.1[0];
        } else {
          assert log[i] == rest[i - |first.1|];
        }
      }
    }
  }

  /** Fires and accepted events alternate: a fire needs a pending timer
      (`armed`), which only an accepted event can set after a fire. */
  predicate Separated(log: seq<Obs>, armed: bool)
    decreases |log|
  {
    |log| == 0 ||
    match log[0]
    case Accepted(_) => Separated(log[1..], true)
    case Fired(_) => armed && Separated(log[1..], false)
    case Stopped => Separated(log[1..], armed)
  }

  lemma {:induction false} SeparatedWeaken(log: seq<Obs>)
    requires Separated(log, false)
    ensures Separated(log, true)
    decreases |log|
  {
    if |log| > 0 && log[0].Stopped? {
      SeparatedWeaken(log[1..]);
    }
  }

  /** Starting from a consistent handler, the fires of any run are
      separated by accepted events, and the first one needs an accepted
      event unless a timer was already pending. */
  lemma {:induction false} FiresSeparatedByEvents(w: Live, steps: seq<Step>)
    requires Inv(w)
    ensures Separated(Run(w, steps).1, w.loops > 0)
    decreases |steps|
  {
    if |steps| > 0 {
      var first := Next(w, steps[0]);
      var rest := Run(first.0, steps[1..]).1;
      FiresSeparatedByEvents(first.0, steps[1..]);
      assert Run(w, steps).1 == first.1 + rest;
      if first.0.loops == 0 {
        SeparatedWeaken(rest);
      }
      if |first.1| == 0 {
        assert first.1 + rest == rest;
      } else {
        assert (first.1 + rest)[0] == first.1[0];
        assert (first.1 + rest)[1..] == rest;
      }
    }
  }

  /** Read on positions: in a separated log, some accepted event lies
      strictly between any two fires. */
  lemma {:induction false} AcceptedBetweenFires(log: seq<Obs>, armed: bool, i: int, j: int)
    requires Separated(log, armed)
    requires 0 <= i < j < |log| && log[i].Fired? && log[j].Fired?
    ensures exists k :: i < k < j && log[k].Accepted?
    decreases |log|
  {
    if i > 0 {
      var tail := log[1..];
      assert tail[i - 1] == log[i] && tail[j - 1] == log[j];
      if log[0].Accepted? {
        AcceptedBetweenFires(tail, true, i - 1, j - 1);
      } else if log[0].Fired? {
        AcceptedBetweenFires(tail, false, i - 1, j - 1);
      } else {
        AcceptedBetweenFires(tail, armed, i - 1, j - 1);
      }
      var k :| i - 1 < k < j - 1 && tail[k].Accepted?;
      assert log[k + 1] == tail[k];
    } else {
      AcceptedBefore(log[1..], j - 1);
      var k :| 0 <= k < j - 1 && log[1..][k].Accepted?;
      assert log[k + 1] == log[1..][k];
    }
  }

  /** With no pending timer, an accepted event comes before any fire. */
  lemma {:induction false} AcceptedBefore(log: seq<Obs>, j: int)
    requires Separated(log, false)
    requires 0 <= j < |log| && log[j].Fired?
    ensures exists k :: 0 <= k < j && log[k].Accepted?
    decreases |log|
  {
    if log[0].Accepted? {
      assert j != 0;
    } else {
      assert log[1..][j - 1] == log[j];
      AcceptedBefore(log[1..], j - 1);
      var k :| 0 <= k < j - 1 && log[1..][k].Accepted?;
      assert log[k + 1] == log[1..][k];
    }
  }

  lemma ConsAppend<T>(a: seq<T>, b: seq<T>)
    requires |a| > 0
    ensures a == [a[0]] + a[1..]
    ensures a + b == [a[0]] + (a[1..] + b)
  {
    assert a == [a[0]] + a[1..];
  }

  lemma AppendAssoc<T>(x: seq<T>, y: seq<T>, z: seq<T>)
    ensures x + (y + z) == (x + y) + z
  {
  }

  /** The inductive step of `RunConcat`, given its claim for the tail. */
  lemma RunConcatStep(w: Live, s: Step, t: seq<Step>, b: seq<Step>)
    requires Run(Next(w, s).0, t + b).0 == Run(Run(Next(w, s).0, t).0, b).0
    requires Run(Next(w, s).0, t + b).1 == Run(Next(w, s).0, t).1 + Run(Run(Next(w, s).0, t).0, b).1
    ensures Run(w, [s] + (t + b)).0 == Run(Run(w, [s] + t).0, b).0
    ensures Run(w, [s] + (t + b)).1 == Run(w, [s] + t).1 + Run(Run(w, [s] + t).0, b).1
  {
    var first := Next(w, s);
    var mid := Run(first.0, t);
    var last := Run(mid.0, b);
    RunCons(w, s, t);
    RunCons(w, s, t + b);
    AppendAssoc(first.1, mid.1, last.1);
  }

  /** Running two step sequences one after the other is running their
      concatenation. */
  lemma {:induction false} RunConcat(w: Live, a: seq<Step>, b: seq<Step>)
    ensures Run(w, a + b).0 == Run(Run(w, a).0, b).0
    ensures Run(w, a + b).1 == Run(w, a).1 + Run(Run(w, a).0, b).1
    decreases |a|
  {
    if |a| == 0 {
      assert a + b == b;
    } else {
      RunConcat(Next(w, a[0]).0, a[1..], b);
      ConsAppend(a, b);
      RunConcatStep(w, a[0], a[1..], b);
    }
  }

  /** One step in front of a run. */
  lemma RunCons(w: Live, s: Step, rest: seq<Step>)
    ensures Run(w, [s] + rest).0 == Run(Next(w, s).0, rest).0
    ensures Run(w, [s] + rest).1 == Next(w, s).1 + Run(Next(w, s).0, rest).1
  {
    assert ([s] + rest)[0] == s;
    assert ([s] + rest)[1..] == rest;
  }

  lemma PlainNamesNotHidden()
    ensures !Debounce.Hidden("a") && !Debounce.Hidden("b") && !Debounce.Hidden("c")
  {
  }

  /** The three events of a burst at `t`, `t + 1` and `t + 2` arm one timer
      and leave the clock at `t + 2`. */
  lemma BurstEvents(created: int, t: int)
    ensures var r := Run(Spawn(created, 5), [Change("a", false, t), Change("b", false, t + 1), Change("c", false, t + 2)]);
      r.0 == Live(Debounce.Handler(t + 2, 5, true, true), 1) && r.1 == [Accepted(t), Accepted(t + 1), Accepted(t + 2)]
  {
    PlainNamesNotHidden();
    var a, b, c := Change("a", false, t), Change("b", false, t + 1), Change("c", false, t + 2);
    var w0 := Spawn(created, 5);
    var w1 := Live(Debounce.Handler(t, 5, true, true), 1);
    var w2 := Live(Debounce.Handler(t + 1, 5, true, true), 1);
    var w3 := Live(Debounce.Handler(t + 2, 5, true, true), 1);
    assert Next(w0, a) == (w1, [Accepted(t)]);
    assert Next(w1, b) == (w2, [Accepted(t + 1)]);
    assert Next(w2, c) == (w3, [Accepted(t + 2)]);
    RunCons(w2, c, []);
    assert [c] + [] == [c];
    var r2 := Run(w2, [c]);
    assert r2.0 == w3;
    assert r2.1 == [Accepted(t + 2)] + [];
    RunCons(w1, b, [c]);
    assert [b] + [c] == [b, c];
    var r1 := Run(w1, [b, c]);
    assert r1.0 == w3;
    assert r1.1 == [Accepted(t + 1)] + r2.1;
    RunCons(w0, a, [b, c]);
    assert [a] + [b, c] == [a, b, c];
    var r0 := Run(w0, [a, b, c]);
    assert r0.1 == [Accepted(t)] + r1.1;
  }

  /** Loop checks 5, 7 and 20 s after a burst that ended at `t` with a
      5 s period: only the one at 7 s fires. */
  lemma BurstChecks(t: int)
    ensures Run(Live(Debounce.Handler(t, 5, true, true), 1), [Tick(t + 3, false), Tick(t + 5, false), Tick(t + 18, false)]).1 == [Fired(t + 5)]
  {
    var armed := Live(Debounce.Handler(t, 5, true, true), 1);
    var idle := Live(Debounce.Handler(t, 5, false, true), 0);
    var x, y, z := Tick(t + 3, false), Tick(t + 5, false), Tick(t + 18, false);
    assert Next(armed, x) == (armed, []);
    assert Next(armed, y) == (idle, [Fired(t + 5)]);
    assert Next(idle, z) == (idle, []);
    RunCons(idle, z, []);
    assert [z] + [] == [z];
    var r2 := Run(idle, [z]);
    assert r2.1 == [] + [];
    RunCons(armed, y, [z]);
    assert [y] + [z] == [y, z];
    var r1 := Run(armed, [y, z]);
    assert r1.1 == [Fired(t + 5)] + r2.1;
    RunCons(armed, x, [y, z]);
    assert [x] + [y, z] == [x, y, z];
    var r0 := Run(armed, [x, y, z]);
    assert r0.1 == [] + r1.1;
  }

  /** Events at `t`, `t + 1` and `t + 2` with a 5 s period, whenever the
      handler was created: the loop checking at `t + 5` waits, the one
      checking at `t + 7` fires, and a later check does not fire again. */
  lemma ScenarioBurst(created: int, t: int)
    ensures Run(Spawn(created, 5),
                [Change("a", false, t), Change("b", false, t + 1), Change("c", false, t + 2),
                 Tick(t + 5, false), Tick(t + 7, false), Tick(t + 20, false)]).1
            == [Accepted(t), Accepted(t + 1), Accepted(t + 2), Fired(t + 7)]
  {
    var events := [Change("a", false, t), Change("b", false, t + 1), Change("c", false, t + 2)];
    var checks := [Tick(t + 5, false), Tick(t + 7, false), Tick(t + 20, false)];
    assert events + checks ==
      [Change("a", false, t), Change("b", false, t + 1), Change("c", false, t + 2),
       Tick(t + 5, false), Tick(t + 7, false), Tick(t + 20, false)];
    RunConcat(Spawn(created, 5), events, checks);
    BurstEvents(created, t);
    BurstChecks(t + 2);
    assert [Accepted(t), Accepted(t + 1), Accepted(t + 2)] + [Fired(t + 7)]
        == [Accepted(t), Accepted(t + 1), Accepted(t + 2), Fired(t + 7)];
  }

  /** The source's own schedule for one queued event: the event is
      delivered when no loop runs, and the loop it starts runs inside the
      event callback, checking at `t` and again 10 s later, when it fires. */
  lemma QueuedDelivery(w: Live, path: string, t: int)
    requires w.handler.active && !w.handler.timerRunning && w.loops == 0
    requires w.handler.inactivityPeriod == 5 && !Debounce.Hidden(path)
    ensures var r := Run(w, [Change(path, false, t), Tick(t, false), Tick(t + 10, false)]);
      r.0 == Live(w.handler.(lastModified := t), 0) && r.1 == [Accepted(t), Fired(t + 10)]
  {
    var c, x, y := Change(path, false, t), Tick(t, false), Tick(t + 10, false);
    var armed := Live(w.handler.(lastModified := t, timerRunning := true), 1);
    var idle := Live(w.handler.(lastModified := t), 0);
    assert Next(w, c) == (armed, [Accepted(t)]);
    assert Next(armed, x) == (armed, []);
    assert Next(armed, y) == (idle, [Fired(t + 10)]);
    RunCons(armed, y, []);
    assert [y] + [] == [y];
    var r2 := Run(armed, [y]);
    assert r2.0 == idle && r2.1 == [Fired(t + 10)] + [];
    RunCons(armed, x, [y]);
    assert [x] + [y] == [x, y];
    var r1 := Run(armed, [x, y]);
    assert r1.0 == idle && r1.1 == [] + r2.1;
    RunCons(w, c, [x, y]);
    assert [c] + [x, y] == [c, x, y];
    var r0 := Run(w, [c, x, y]);
    assert r0.1 == [Accepted(t)] + r1.1;
  }

  /** Two changes of one burst, at `t` and `t + 1`, under the source's
      schedule: the second waits in the observer's queue until the loop
      started by the first has fired at `t + 10`, is then stamped `t + 10`,
      and starts a loop of its own. The burst gives two notifications. */
  lemma QueuedBurst(created: int, t: int)
    ensures Run(Spawn(created, 5),
                [Change("a", false, t), Tick(t, false), Tick(t + 10, false),
                 Change("b", false, t + 10), Tick(t + 10, false), Tick(t + 20, false)]).1
            == [Accepted(t), Fired(t + 10), Accepted(t + 10), Fired(t + 20)]
  {
    PlainNamesNotHidden();
    var w := Spawn(created, 5);
    var first := [Change("a", false, t), Tick(t, false), Tick(t + 10, false)];
    var second := [Change("b", false, t + 10), Tick(t + 10, false), Tick(t + 20, false)];
    assert first + second ==
      [Change("a", false, t), Tick(t, false), Tick(t + 10, false),
       Change("b", false, t + 10), Tick(t + 10, false), Tick(t + 20, false)];
    RunConcat(w, first, second);
    QueuedDelivery(w, "a", t);
    QueuedDelivery(Live(w.handler.(lastModified := t), 0), "b", t + 10);
    assert [Accepted(t), Fired(t + 10)] + [Accepted(t + 10), Fired(t + 20)]
        == [Accepted(t), Fired(t + 10), Accepted(t + 10), Fired(t + 20)];
  }
}
