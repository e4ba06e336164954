/** The per-folder debounce state of `SyncthingHandler`, with the clock as
    integer seconds passed in by the caller. The three steps are the event
    callback, one iteration of the inactivity loop, and `stop`. */
module Debounce {
  import Text

  /** `last_modified`, `inactivity_period`, `timer_running`, `active`. */
  datatype Handler = Handler(lastModified: int, inactivityPeriod: int, timerRunning: bool, active: bool)

  /** A freshly constructed handler: its clock starts at `now`, it accepts
      events and no inactivity timer runs. */
  function New(now: int, inactivityPeriod: int): (h: Handler)
    ensures h.active && !h.timerRunning
    ensures h.lastModified == now && h.inactivityPeriod == inactivityPeriod
  {
    Handler(now, inactivityPeriod, false, true)
  }

  /** The final '/'-separated segment of the path starts with '.'. */
  predicate Hidden(path: string)
  {
    var segment := Text.LastSegment(path);
    |segment| > 0 && segment[0] == '.'
  }

  /** A position that starts the path or follows a '/', with no '/' after
      it, is where the last segment starts: a '/' just before the segment
      would lie after it, and one just before it would lie in the segment. */
  lemma SegmentStart(path: string, k: int)
    requires 0 <= k <= |path| && (k == 0 || path[k - 1] == '/') && '/' !in path[k..]
    ensures k == |path| - |Text.LastSegment(path)|
  {
    var segment := Text.LastSegment(path);
    var start := |path| - |segment|;
    assert forall i :: k <= i < |path| ==> path[i] != '/' by {
      forall i | k <= i < |path| ensures path[i] != '/' { assert path[i] == path[k..][i - k]; }
    }
    assert forall i :: start <= i < |path| ==> path[i] != '/' by {
      forall i | start <= i < |path| ensures path[i] != '/' { assert path[i] == segment[i - start]; }
    }
  }

  /** `Hidden` in terms of the path itself: some '.' starts the path or
      follows a '/', and no '/' comes after it. */
  lemma HiddenIff(path: string)
    ensures Hidden(path) <==>
      exists k :: 0 <= k < |path| && path[k] == '.' && (k == 0 || path[k - 1] == '/') && '/' !in path[k..]
  {
    var segment := Text.LastSegment(path);
    var start := |path| - |segment|;
    assert path[start..] == segment;
    if Hidden(path) {
      assert path[start] == '.' && (start == 0 || path[start - 1] == '/') && '/' !in path[start..];
    }
    if exists k :: 0 <= k < |path| && path[k] == '.' && (k == 0 || path[k - 1] == '/') && '/' !in path[k..] {
      var k :| 0 <= k < |path| && path[k] == '.' && (k == 0 || path[k - 1] == '/') && '/' !in path[k..];
      SegmentStart(path, k);
      assert segment[0] == path[k];
    }
  }

  /** An event the handler reacts to: the handler is active, the event is
      about a file and the file is not hidden. */
  predicate Qualifies(h: Handler, path: string, isDir: bool)
  {
    h.active && !isDir && !Hidden(path)
  }

  datatype EventOutcome = EventOutcome(handler: Handler, timerStarted: bool)

  /** `on_any_event`: a qualifying event moves the activity clock to `now`
      and starts the inactivity timer unless one already runs; any other
      event changes nothing. */
  function OnEvent(h: Handler, path: string, isDir: bool, now: int): (r: EventOutcome)
    ensures !Qualifies(h, path, isDir) ==> r.handler == h
    ensures Qualifies(h, path, isDir) ==>
      && r.handler.lastModified == now
      && r.handler.timerRunning
      && r.handler.active
      && r.handler.inactivityPeriod == h.inactivityPeriod
    ensures r.timerStarted <==> Qualifies(h, path, isDir) && !h.timerRunning
  {
    if !h.active || isDir || Hidden(path) then
      EventOutcome(h, false)
    else
      var h' := h.(lastModified := now);
      if !h'.timerRunning then
        EventOutcome(h'.(timerRunning := true), true)
      else
        EventOutcome(h', false)
  }

  datatype PollOutcome = PollOutcome(handler: Handler, fired: bool, continues: bool)

  /** One iteration of `start_inactivity_timer` at time `now`. The loop leaves
      (`continues` false) when the handler is no longer active, without
      touching `timer_running`, or when the quiet period has elapsed, in
      which case it calls the callback. A callback that returns is followed
      by clearing `timer_running`; one that raises (`callbackRaises`) ends
      the loop by the exception before that assignment, so the flag stays
      set. Otherwise the loop sleeps and checks again. */
  function Poll(h: Handler, now: int, callbackRaises: bool): (r: PollOutcome)
    ensures r.fired <==> h.active && now - h.lastModified >= h.inactivityPeriod
    ensures r.fired ==> now >= h.lastModified + h.inactivityPeriod
    ensures r.continues <==> h.active && !r.fired
    ensures r.fired && !callbackRaises ==> !r.handler.timerRunning
    ensures !r.fired || callbackRaises ==> r.handler == h
    ensures r.handler.lastModified == h.lastModified
    ensures r.handler.active == h.active
    ensures r.handler.inactivityPeriod == h.inactivityPeriod
  {
    if !h.active then
      PollOutcome(h, false, false)
    else if now - h.lastModified >= h.inactivityPeriod then
      if callbackRaises then PollOutcome(h, true, false)
      else PollOutcome(h.(timerRunning := false), true, false)
    else
      PollOutcome(h, false, true)
  }

  /** `stop`: only `active` changes, and it becomes false. */
  function Stop(h: Handler): (r: Handler)
    ensures !r.active
    ensures r.lastModified == h.lastModified
    ensures r.inactivityPeriod == h.inactivityPeriod
    ensures r.timerRunning == h.timerRunning
  {
    h.(active := false)
  }

  /** Stopping a stopped handler has no further effect. */
  lemma StopIdempotent(h: Handler)
    ensures Stop(Stop(h)) == Stop(h)
  {
  }

  /** A stopped handler accepts no event and its loop never fires. */
  lemma StoppedIsInert(h: Handler, path: string, isDir: bool, now: int)
    ensures OnEvent(Stop(h), path, isDir, now).handler == Stop(h)
    ensures !OnEvent(Stop(h), path, isDir, now).timerStarted
    ensures forall raises :: !Poll(Stop(h), now, raises).fired && !Poll(Stop(h), now, raises).continues
  {
  }
}
