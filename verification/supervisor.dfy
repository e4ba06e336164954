/** `MonitorService`: the registry of watched folders (`config["folders"]`
    and the copy last written to disk), the notification provider of each
    folder, and the live handlers and observers. File-system existence is
    the set `existing` of paths; sending is the function `send` supplied by
    the caller; the clock is integer seconds. */
module Supervisor {
  import opened Outcomes
  import Text
  import Debounce
  import Watch
  import Notify

  /** The text of the default template before its placeholder. */
  const DefaultPrefix := "Sync complete for "

  /** The message used when the notification config has no `message` key:
      `Sync complete for {folder}`. */
  const DefaultTemplate := DefaultPrefix + Text.Placeholder

  /** The `notification_config` dictionary given to `add_folder`: its `type`
      and `config` keys, and its `message` key, which may be absent or hold
      None. */
  datatype Request = Request(kind: Option<string>, settings: Option<Notify.Settings>, message: Option<Option<string>>)

  /** One entry of `config["folders"]`. */
  datatype Entry = Entry(path: string, notification: Request, inactivityPeriod: int, messageTemplate: Option<string>)

  datatype Monitor = Monitor(
    folders: map<string, Entry>,
    saved: map<string, Entry>,
    services: map<string, Notify.Provider>,
    handlers: map<string, Watch.Live>,
    observers: map<string, string>)

  /** `after` is `before` with the key `k` inserted or overwritten and every other
      key untouched. */
  ghost predicate UpdatedAt<V>(before: map<string, V>, after: map<string, V>, k: string)
  {
    && k in after
    && after.Keys == before.Keys + {k}
    && forall j :: j in before && j != k ==> after[j] == before[j]
  }

  lemma UpdateIsUpdatedAt<V>(before: map<string, V>, k: string, v: V)
    ensures UpdatedAt(before, before[k := v], k) && before[k := v][k] == v
  {
  }

  lemma UpdateThenRemove<V>(before: map<string, V>, k: string, v: V)
    ensures before[k := v] - {k} == before - {k}
    ensures k !in before ==> before - {k} == before
  {
  }

  /** `after` is `before` without the key `k`, every other key untouched. */
  ghost predicate RemovedAt<V>(before: map<string, V>, after: map<string, V>, k: string)
  {
    && after.Keys == before.Keys - {k}
    && forall j :: j in after ==> after[j] == before[j]
  }

  /** What every reachable monitor satisfies: observers and handlers exist
      for the same names, each backed by a registry entry and a provider;
      each observer watches its entry's path; each handler is active, uses
      its entry's period and runs at most one loop. */
  ghost predicate Valid(m: Monitor)
  {
    && m.observers.Keys == m.handlers.Keys
    && m.observers.Keys <= m.folders.Keys
    && m.observers.Keys <= m.services.Keys
    && (forall n :: n in m.observers ==> m.observers[n] == m.folders[n].path)
    && (forall n :: n in m.handlers ==>
          && m.handlers[n].handler.active
          && Watch.Inv(m.handlers[n])
          && m.handlers[n].handler.inactivityPeriod == m.folders[n].inactivityPeriod)
  }

  /** The service as constructed: the registry loaded from disk, nothing
      watched yet. */
  function Load(persisted: map<string, Entry>): (m: Monitor)
    ensures Valid(m)
    ensures m.folders == persisted && m.saved == persisted
    ensures m.observers.Keys == {} && m.services.Keys == {}
  {
    Monitor(persisted, persisted, map[], map[], map[])
  }

  /** The provider `add_folder` builds: reading `type`, then `config`, then
      calling the factory; each failure is a `KeyError`. */
  function Service(req: Request): (r: Result<Notify.Provider, Notify.ConfigError>)
    ensures req.kind.None? ==> r == Failure(Notify.MissingKey("type"))
    ensures req.kind.Some? && req.settings.None? ==> r == Failure(Notify.MissingKey("config"))
    ensures r.Success? <==>
      && req.kind.Some? && req.settings.Some?
      && req.kind.value in Notify.Kinds
      && forall k :: k in Notify.Required(req.kind.value) ==> k in req.settings.value
    ensures r.Success? ==> Notify.Kind(r.value) == req.kind.value && Notify.BuiltFrom(r.value, req.settings.value)
  {
    if req.kind.None? then Failure(Notify.MissingKey("type"))
    else if req.settings.None? then Failure(Notify.MissingKey("config"))
    else Notify.Create(req.kind.value, req.settings.value)
  }

  /** The template stored for a request: the `message` value whenever the
      key is present, even when that value is None; the default otherwise. */
  function TemplateOf(req: Request): (t: Option<string>)
    ensures t.None? <==> req.message == Some(None)
    ensures req.message.Some? ==> t == req.message.value
    ensures req.message.None? ==> t == Some(DefaultTemplate)
  {
    if req.message.Some? then req.message.value else Some(DefaultTemplate)
  }

  datatype AddOutcome = Added | Duplicate | NoSuchPath | InvalidNotification(error: Notify.ConfigError)

  /** `add_folder`. The checks run in order: a name already observed, a path
      that does not exist, a provider that cannot be built. A failure leaves
      the monitor as it was. A success writes the name into the registry
      (overwriting a persisted entry of that name), saves it, and installs
      the provider, a fresh handler and an observer of `path`; no other name
      is touched. */
  function AddFolder(m: Monitor, name: string, path: string, req: Request, inactivityPeriod: int,
                     existing: set<string>, now: int): (r: (Monitor, AddOutcome))
    ensures r.1 == Duplicate <==> name in m.observers
    ensures r.1 == NoSuchPath <==> name !in m.observers && path !in existing
    ensures r.1.InvalidNotification? <==> name !in m.observers && path in existing && Service(req).Failure?
    ensures r.1.InvalidNotification? ==> r.1.error == Service(req).error
    ensures r.1 == Added <==> name !in m.observers && path in existing && Service(req).Success?
    ensures r.1 != Added ==> r.0 == m
    ensures r.1 == Added ==>
      && UpdatedAt(m.folders, r.0.folders, name)
      && r.0.folders[name] == Entry(path, req, inactivityPeriod, TemplateOf(req))
      && r.0.saved == r.0.folders
      && UpdatedAt(m.services, r.0.services, name)
      && r.0.services[name] == Service(req).value
      && UpdatedAt(m.handlers, r.0.handlers, name)
      && r.0.handlers[name] == Watch.Spawn(now, inactivityPeriod)
      && UpdatedAt(m.observers, r.0.observers, name)
      && r.0.observers[name] == path
  {
    if name in m.observers then (m, Duplicate)
    else if path !in existing then (m, NoSuchPath)
    else
      match Service(req)
      case Failure(e) => (m, InvalidNotification(e))
      case Success(provider) => (Install(m, name, path, req, inactivityPeriod, provider, now), Added)
  }

  /** The successful tail of `add_folder`: registry entry, save, provider,
      handler and observer for `name`, and nothing else. */
  function Install(m: Monitor, name: string, path: string, req: Request, inactivityPeriod: int,
                   provider: Notify.Provider, now: int): (m': Monitor)
    ensures UpdatedAt(m.folders, m'.folders, name)
    ensures m'.folders[name] == Entry(path, req, inactivityPeriod, TemplateOf(req))
    ensures m'.saved == m'.folders
    ensures UpdatedAt(m.services, m'.services, name) && m'.services[name] == provider
    ensures UpdatedAt(m.handlers, m'.handlers, name) && m'.handlers[name] == Watch.Spawn(now, inactivityPeriod)
    ensures UpdatedAt(m.observers, m'.observers, name) && m'.observers[name] == path
  {
    var folders := m.folders[name := Entry(path, req, inactivityPeriod, TemplateOf(req))];
    UpdateIsUpdatedAt(m.folders, name, Entry(path, req, inactivityPeriod, TemplateOf(req)));
    UpdateIsUpdatedAt(m.services, name, provider);
    UpdateIsUpdatedAt(m.handlers, name, Watch.Spawn(now, inactivityPeriod));
    UpdateIsUpdatedAt(m.observers, name, path);
    Monitor(folders, folders,
            m.services[name := provider],
            m.handlers[name := Watch.Spawn(now, inactivityPeriod)],
            m.observers[name := path])
  }

  /** Adding a folder keeps the monitor consistent. */
  lemma AddKeepsValid(m: Monitor, name: string, path: string, req: Request, inactivityPeriod: int,
                      existing: set<string>, now: int)
    requires Valid(m)
    ensures Valid(AddFolder(m, name, path, req, inactivityPeriod, existing, now).0)
  {
    var r := AddFolder(m, name, path, req, inactivityPeriod, existing, now);
    if r.1 == Added {
      var m' := r.0;
      forall n | n in m'.observers
        ensures n in m'.folders && m'.observers[n] == m'.folders[n].path
      {
        if n != name {
          assert n in m.observers;
        }
      }
      forall n | n in m'.handlers
        ensures n in m'.folders
        ensures m'.handlers[n].handler.active && Watch.Inv(m'.handlers[n])
        ensures m'.handlers[n].handler.inactivityPeriod == m'.folders[n].inactivityPeriod
      {
        if n != name {
          assert n in m.handlers;
        }
      }
    }
  }

  /** A request without a `message` key stores the default template. */
  lemma AddStoresDefaultTemplate(m: Monitor, name: string, path: string, req: Request, inactivityPeriod: int,
                                 existing: set<string>, now: int)
    requires req.message.None?
    requires AddFolder(m, name, path, req, inactivityPeriod, existing, now).1 == Added
    ensures AddFolder(m, name, path, req, inactivityPeriod, existing, now).0.folders[name].messageTemplate
            == Some(DefaultTemplate)
  {
  }

  /** The result of `remove_folder`, with the handler it stopped. Joining
      the observer waits for its dispatch thread, which runs the handler's
      loop inline; that loop's next test of `active` fails, so when
      `remove_folder` returns the handler has no loop left. */
  datatype Removal = Removal(monitor: Monitor, removed: bool, stopped: Option<Watch.Live>)

  /** `remove_folder`. An unobserved name fails and changes nothing.
      Otherwise the handler is stopped, and the name leaves the observers,
      the handlers and the registry, which is saved; its provider stays. */
  function RemoveFolder(m: Monitor, name: string): (r: Removal)
    requires name in m.observers ==> name in m.handlers && name in m.folders
    ensures r.removed <==> name in m.observers
    ensures !r.removed ==> r.monitor == m && r.stopped.None?
    ensures r.removed ==>
      && RemovedAt(m.observers, r.monitor.observers, name)
      && RemovedAt(m.handlers, r.monitor.handlers, name)
      && RemovedAt(m.folders, r.monitor.folders, name)
      && r.monitor.saved == r.monitor.folders
      && r.monitor.services == m.services
      && r.stopped.Some?
      && !r.stopped.value.handler.active
      && r.stopped.value.loops == 0
      && r.stopped.value.handler.lastModified == m.handlers[name].handler.lastModified
      && r.stopped.value.handler.timerRunning == m.handlers[name].handler.timerRunning
    ensures Valid(m) ==> Valid(r.monitor)
  {
    if name !in m.observers then Removal(m, false, None)
    else
      var w := m.handlers[name];
      var folders := m.folders - {name};
      Removal(m.(observers := m.observers - {name}, handlers := m.handlers - {name},
                 folders := folders, saved := folders),
              true,
              Some(Watch.Live(Debounce.Stop(w.handler), 0)))
  }

  /** Removing a folder right after adding it gives back the observers and
      handlers as they were; the registry has lost the name (also a
      persisted entry of that name), and the provider stays behind. */
  lemma AddThenRemove(m: Monitor, name: string, path: string, req: Request, inactivityPeriod: int,
                      existing: set<string>, now: int)
    requires AddFolder(m, name, path, req, inactivityPeriod, existing, now).1 == Added
    ensures var added := AddFolder(m, name, path, req, inactivityPeriod, existing, now).0;
      var r := RemoveFolder(added, name);
      && r.removed
      && r.monitor.observers == m.observers
      && r.monitor.handlers.Keys == m.handlers.Keys - {name}
      && r.monitor.folders == m.folders - {name}
      && r.monitor.services == m.services[name := Service(req).value]
  {
    var added := AddFolder(m, name, path, req, inactivityPeriod, existing, now).0;
    var provider := Service(req).value;
    var entry := Entry(path, req, inactivityPeriod, TemplateOf(req));
    assert added == Install(m, name, path, req, inactivityPeriod, provider, now);
    assert added.observers == m.observers[name := path];
    assert added.folders == m.folders[name := entry];
    assert added.services == m.services[name := provider];
    var r := RemoveFolder(added, name);
    UpdateThenRemove(m.observers, name, path);
    UpdateThenRemove(m.folders, name, entry);
  }

  /** Once removed, a folder never notifies again: whatever happens to the
      stopped handler afterwards, its run shows nothing but stops. */
  lemma RemovedNeverFires(m: Monitor, name: string, steps: seq<Watch.Step>)
    requires name in m.observers && name in m.handlers && name in m.folders
    ensures var log := Watch.Run(RemoveFolder(m, name).stopped.value, steps).1;
      forall i :: 0 <= i < |log| ==> log[i] == Watch.Stopped
  {
  }

  /** How far `stop` has got with the registry: `current` is `start`
      with the names of `stopped` removed. */
  ghost predicate StoppingRegistry(start: Monitor, current: Monitor, done: set<string>)
  {
    && current.observers.Keys + done == start.observers.Keys
    && current.observers.Keys !! done
    && current.folders == start.folders - done
    && current.services == start.services
    && current.saved == (if done == {} then start.saved else current.folders)
  }

  /** How far `stop` has got with the handlers: the remaining ones are as
      they were, and each of `stopped` has been stopped. */
  ghost predicate StoppingHandlers(start: Monitor, current: Monitor, stopped: map<string, Watch.Live>)
  {
    && (forall n :: n in current.handlers ==> n in start.handlers && current.handlers[n] == start.handlers[n])
    && forall n :: n in stopped ==>
      && n in start.handlers
      && !stopped[n].handler.active
      && stopped[n].loops == 0
      && stopped[n].handler.lastModified == start.handlers[n].handler.lastModified
  }

  ghost predicate Stopping(start: Monitor, current: Monitor, stopped: map<string, Watch.Live>)
  {
    StoppingRegistry(start, current, stopped.Keys) && StoppingHandlers(start, current, stopped)
  }

  lemma MinusMinus<V>(a: map<string, V>, done: set<string>, k: string)
    ensures (a - done) - {k} == a - (done + {k})
  {
  }

  /** Removing one more observed name keeps the registry part. */
  lemma StoppingRegistryStep(start: Monitor, current: Monitor, done: set<string>, name: string)
    requires StoppingRegistry(start, current, done)
    requires name in current.handlers && name in current.folders
    requires name in current.observers
    ensures StoppingRegistry(start, RemoveFolder(current, name).monitor, done + {name})
  {
    var next := RemoveFolder(current, name).monitor;
    assert next.observers.Keys == current.observers.Keys - {name};
    assert next.folders == current.folders - {name};
    MinusMinus(start.folders, done, name);
  }

  /** Removing one more observed name keeps the handler part. */
  lemma StoppingHandlersStep(start: Monitor, current: Monitor, stopped: map<string, Watch.Live>, name: string)
    requires StoppingHandlers(start, current, stopped)
    requires name in current.handlers && name in current.folders
    requires name in current.observers
    ensures var r := RemoveFolder(current, name);
      StoppingHandlers(start, r.monitor, stopped[name := r.stopped.value])
  {
    var r := RemoveFolder(current, name);
    var next := r.monitor;
    var stopped' := stopped[name := r.stopped.value];
    forall n | n in next.handlers
      ensures n in start.handlers && next.handlers[n] == start.handlers[n]
    {
      assert n in current.handlers;
    }
    forall n | n in stopped'
      ensures n in start.handlers && !stopped'[n].handler.active
      ensures stopped'[n].loops == 0
      ensures stopped'[n].handler.lastModified == start.handlers[n].handler.lastModified
    {
      if n == name {
        assert current.handlers[name] == start.handlers[name];
      }
    }
  }

  /** Removing one more observed name makes progress. */
  lemma StoppingStep(start: Monitor, current: Monitor, stopped: map<string, Watch.Live>, name: string)
    requires Stopping(start, current, stopped)
    requires name in current.handlers && name in current.folders
    requires name in current.observers
    ensures var r := RemoveFolder(current, name);
      Stopping(start, r.monitor, stopped[name := r.stopped.value])
  {
    var r := RemoveFolder(current, name);
    StoppingRegistryStep(start, current, stopped.Keys, name);
    StoppingHandlersStep(start, current, stopped, name);
    assert stopped[name := r.stopped.value].Keys == stopped.Keys + {name};
  }

  /** Before the first removal nothing has been stopped. */
  lemma StoppingStart(m: Monitor)
    ensures Stopping(m, m, map[])
  {
    var none: map<string, Watch.Live> := map[];
    assert none.Keys == {};
    assert m.folders - {} == m.folders;
  }

  /** Once nothing is observed any more, `stop` is done. */
  lemma StoppingDone(m: Monitor, m': Monitor, stopped: map<string, Watch.Live>)
    requires Valid(m') && Stopping(m, m', stopped) && m'.observers.Keys == {}
    ensures m'.handlers.Keys == {}
    ensures m'.folders == m.folders - m.observers.Keys
    ensures m'.saved == if m.observers.Keys == {} then m.saved else m'.folders
    ensures stopped.Keys == m.observers.Keys
  {
  }

  /** `stop`: removes every observed folder. Afterwards nothing is observed
      or handled, the registry has lost exactly the observed names, the
      providers are all kept, and every removed handler is stopped. */
  method StopAll(m: Monitor) returns (m': Monitor, stopped: map<string, Watch.Live>)
    requires Valid(m)
    ensures Valid(m')
    ensures m'.observers.Keys == {} && m'.handlers.Keys == {}
    ensures m'.folders == m.folders - m.observers.Keys
    ensures m'.services == m.services
    ensures m'.saved == if m.observers.Keys == {} then m.saved else m'.folders
    ensures stopped.Keys == m.observers.Keys
    ensures forall n :: n in stopped ==>
      && !stopped[n].handler.active
      && stopped[n].loops == 0
      && stopped[n].handler.lastModified == m.handlers[n].handler.lastModified
  {
    m' := m;
    stopped := map[];
    StoppingStart(m);
    while m'.observers.Keys != {}
      invariant Valid(m')
      invariant Stopping(m, m', stopped)
      decreases |m'.observers.Keys|
    {
      var name :| name in m'.observers.Keys;
      StoppingStep(m, m', stopped, name);
      var r := RemoveFolder(m', name);
      stopped := stopped[name := r.stopped.value];
      m' := r.monitor;
    }
    StoppingDone(m, m', stopped);
  }

  /** What `send_notification` does for a folder. */
  datatype Dispatch =
    | NoService                 // no provider: logged and nothing sent
    | UnknownFolder             // provider kept but registry entry gone: `KeyError`
    | NoTemplate                // the stored template is None: `format` raises
    | Sent(provider: Notify.Provider, message: string, title: string, delivered: bool)

  /** `send_notification`: the folder's template with `{folder}` replaced by
      the folder name, sent with the default title through the folder's
      provider; `delivered` is whatever the provider reports. */
  function SendNotification(m: Monitor, name: string, send: (Notify.Provider, string, string) -> bool): (d: Dispatch)
    ensures d.NoService? <==> name !in m.services
    ensures d.UnknownFolder? <==> name in m.services && name !in m.folders
    ensures d.NoTemplate? <==> name in m.services && name in m.folders && m.folders[name].messageTemplate.None?
    ensures d.Sent? ==>
      && name in m.services && name in m.folders && m.folders[name].messageTemplate.Some?
      && d.provider == m.services[name]
      && d.title == Notify.DefaultTitle
      && d.message == Text.Substitute(m.folders[name].messageTemplate.value, name)
      && d.delivered == send(d.provider, d.message, d.title)
  {
    if name !in m.services then NoService
    else if name !in m.folders then UnknownFolder
    else
      match m.folders[name].messageTemplate
      case None => NoTemplate
      case Some(template) =>
        var provider := m.services[name];
        var message := Text.Substitute(template, name);
        Sent(provider, message, Notify.DefaultTitle, send(provider, message, Notify.DefaultTitle))
  }

  /** With the default template the message names the folder. */
  lemma DefaultMessage(m: Monitor, name: string, send: (Notify.Provider, string, string) -> bool)
    requires name in m.services && name in m.folders
    requires m.folders[name].messageTemplate == Some(DefaultTemplate)
    ensures SendNotification(m, name, send).Sent?
    ensures SendNotification(m, name, send).message == "Sync complete for " + name
  {
    PrefixBraceFree();
    Text.SubstituteFirst(DefaultPrefix, "", name);
    assert DefaultPrefix + Text.Placeholder + "" == DefaultTemplate;
  }

  lemma PrefixBraceFree()
    ensures '{' !in DefaultPrefix
  {
  }

  /** Replacing a handler by an active one with the same period and at
      most one loop keeps the monitor consistent. */
  lemma StepKeepsValid(m: Monitor, name: string, w: Watch.Live)
    requires name in m.handlers
    ensures Valid(m) && w.handler.active && Watch.Inv(w)
            && w.handler.inactivityPeriod == m.handlers[name].handler.inactivityPeriod
            ==> Valid(m.(handlers := m.handlers[name := w]))
  {
  }

  /** `on_any_event` for the observer of `name`: only that folder's handler
      may change, and only as `OnEvent` says. */
  function FolderEvent(m: Monitor, name: string, path: string, isDir: bool, now: int): (m': Monitor)
    ensures m'.folders == m.folders && m'.saved == m.saved
    ensures m'.services == m.services && m'.observers == m.observers
    ensures m'.handlers.Keys == m.handlers.Keys
    ensures forall n :: n in m.handlers && n != name ==> m'.handlers[n] == m.handlers[n]
    ensures name in m.handlers ==>
      m'.handlers[name].handler == Debounce.OnEvent(m.handlers[name].handler, path, isDir, now).handler
    ensures name in m.handlers ==>
      m'.handlers[name].loops == m.handlers[name].loops
        + (if Debounce.OnEvent(m.handlers[name].handler, path, isDir, now).timerStarted then 1 else 0)
    ensures Valid(m) ==> Valid(m')
  {
    if name !in m.handlers then m
    else
      var w := Watch.Next(m.handlers[name], Watch.Change(path, isDir, now)).0;
      StepKeepsValid(m, name, w);
      m.(handlers := m.handlers[name := w])
  }

  datatype Delivery = Delivery(monitor: Monitor, dispatch: Option<Dispatch>)

  /** The dispatches that end in an exception out of `send_notification`. */
  predicate Raises(d: Dispatch)
  {
    d.UnknownFolder? || d.NoTemplate?
  }

  /** One iteration of the loop of `name`'s handler. When it fires, the
      callback dispatches the notification. A dispatch that raises skips
      the clearing of `timer_running`; otherwise the monitor afterwards
      depends only on the handler's step. */
  function FolderTick(m: Monitor, name: string, now: int, send: (Notify.Provider, string, string) -> bool): (r: Delivery)
    ensures r.monitor.folders == m.folders && r.monitor.saved == m.saved
    ensures r.monitor.services == m.services && r.monitor.observers == m.observers
    ensures r.monitor.handlers.Keys == m.handlers.Keys
    ensures forall n :: n in m.handlers && n != name ==> r.monitor.handlers[n] == m.handlers[n]
    ensures r.dispatch.Some? <==>
      && name in m.handlers && m.handlers[name].loops > 0
      && m.handlers[name].handler.active
      && now - m.handlers[name].handler.lastModified >= m.handlers[name].handler.inactivityPeriod
    ensures r.dispatch.Some? ==>
      && r.dispatch.value == SendNotification(m, name, send)
      && r.monitor.handlers[name].loops == m.handlers[name].loops - 1
      && (r.monitor.handlers[name].handler.timerRunning
          <==> Raises(r.dispatch.value) && m.handlers[name].handler.timerRunning)
    ensures Valid(m) && r.dispatch.Some? && Raises(r.dispatch.value) ==> Watch.Stuck(r.monitor.handlers[name])
    ensures name in m.handlers && r.dispatch.None? ==>
      r.monitor.handlers[name] ==
        if m.handlers[name].loops > 0 && !m.handlers[name].handler.active
        then m.handlers[name].(loops := m.handlers[name].loops - 1)
        else m.handlers[name]
    ensures Valid(m) ==> Valid(r.monitor)
  {
    if name !in m.handlers then Delivery(m, None)
    else
      var d := SendNotification(m, name, send);
      var step := Watch.Next(m.handlers[name], Watch.Tick(now, Raises(d)));
      StepKeepsValid(m, name, step.0);
      var m' := m.(handlers := m.handlers[name := step.0]);
      Delivery(m', if step.1 == [Watch.Fired(now)] then Some(d) else None)
  }

  /** A stuck folder's loop iterations dispatch nothing and leave it stuck. */
  lemma StuckFolderTick(m: Monitor, name: string, now: int, send: (Notify.Provider, string, string) -> bool)
    requires name in m.handlers && Watch.Stuck(m.handlers[name])
    ensures FolderTick(m, name, now, send).dispatch.None?
    ensures Watch.Stuck(FolderTick(m, name, now, send).monitor.handlers[name])
  {
  }

  /** Events for a stuck folder leave it stuck. */
  lemma StuckFolderEvent(m: Monitor, name: string, path: string, isDir: bool, now: int)
    requires name in m.handlers && Watch.Stuck(m.handlers[name])
    ensures Watch.Stuck(FolderEvent(m, name, path, isDir, now).handlers[name])
  {
  }

  /** In a consistent monitor every handler has its registry entry, so a
      loop iteration never dispatches `UnknownFolder`. */
  lemma ValidTickKnowsFolder(m: Monitor, name: string, now: int, send: (Notify.Provider, string, string) -> bool)
    requires Valid(m)
    ensures FolderTick(m, name, now, send).dispatch.Some? ==>
      !FolderTick(m, name, now, send).dispatch.value.UnknownFolder?
  {
  }

  /** A folder with a None template whose loop was armed at `t` with a
      5 s period: the check at `t` dispatches nothing, and the check at
      `t + 10` raises and leaves the folder stuck. */
  lemma NoneTemplateLoop(c: Monitor, name: string, t: int, send: (Notify.Provider, string, string) -> bool)
    requires name in c.handlers && c.handlers[name].loops == 1
    requires c.handlers[name].handler.active && c.handlers[name].handler.timerRunning
    requires c.handlers[name].handler.lastModified == t
    requires c.handlers[name].handler.inactivityPeriod == 5
    requires name in c.services && name in c.folders && c.folders[name].messageTemplate.None?
    ensures var early := FolderTick(c, name, t, send);
      var r := FolderTick(early.monitor, name, t + 10, send);
      && early.dispatch.None?
      && r.dispatch == Some(NoTemplate)
      && Watch.Stuck(r.monitor.handlers[name])
  {
    var early := FolderTick(c, name, t, send);
    assert early.monitor.handlers[name] == c.handlers[name];
    var r := FolderTick(early.monitor, name, t + 10, send);
    assert SendNotification(early.monitor, name, send) == NoTemplate;
  }

  /** A folder added with `message` present but None: after a change at
      `t`, the inline loop checks at once and again 10 s later; that due
      check raises, and the folder is left stuck, so it never notifies
      again. */
  lemma NoneMessageSilencesFolder(m: Monitor, name: string, path: string, req: Request,
                                  existing: set<string>, created: int, t: int,
                                  send: (Notify.Provider, string, string) -> bool)
    requires req.message == Some(None)
    requires AddFolder(m, name, path, req, 5, existing, created).1 == Added
    ensures var added := AddFolder(m, name, path, req, 5, existing, created).0;
      var changed := FolderEvent(added, name, "f", false, t);
      var early := FolderTick(changed, name, t, send);
      var r := FolderTick(early.monitor, name, t + 10, send);
      && early.dispatch.None?
      && r.dispatch == Some(NoTemplate)
      && Watch.Stuck(r.monitor.handlers[name])
  {
    var added := AddFolder(m, name, path, req, 5, existing, created).0;
    assert !Debounce.Hidden("f");
    var changed := FolderEvent(added, name, "f", false, t);
    assert changed.handlers[name].loops == 1;
    NoneTemplateLoop(changed, name, t, send);
  }

  /** The template the `add` command evidently means to store: the
      default also when `message` is present but None. */
  function TemplateOrDefault(req: Request): (t: Option<string>)
    ensures t.Some?
  {
    match req.message
    case Some(Some(template)) => Some(template)
    case _ => Some(DefaultTemplate)
  }

  /** The corrected template agrees with the stored one except for a None
      `message`, where it gives the default instead of None. */
  lemma TemplateOrDefaultAgrees(req: Request)
    ensures req.message != Some(None) ==> TemplateOrDefault(req) == TemplateOf(req)
    ensures req.message == Some(None) ==> TemplateOf(req) == None && TemplateOrDefault(req) == Some(DefaultTemplate)
  {
  }

  /** With the corrected template, `send_notification` never raises for a
      folder that has its provider and registry entry. */
  lemma TemplateOrDefaultNeverRaises(m: Monitor, name: string, req: Request,
                                     send: (Notify.Provider, string, string) -> bool)
    requires name in m.services && name in m.folders
    requires m.folders[name].messageTemplate == TemplateOrDefault(req)
    ensures !Raises(SendNotification(m, name, send))
    ensures SendNotification(m, name, send).Sent?
  {
  }

  /** A failed send changes nothing: the monitor after a tick is the same
      whatever the provider reports. */
  lemma DeliveryOutcomeIrrelevant(m: Monitor, name: string, now: int,
                                  send1: (Notify.Provider, string, string) -> bool,
                                  send2: (Notify.Provider, string, string) -> bool)
    ensures FolderTick(m, name, now, send1).monitor == FolderTick(m, name, now, send2).monitor
  {
  }

  /** Adding a folder whose path does not exist fails and registers nothing. */
  lemma AddMissingPath(persisted: map<string, Entry>, req: Request, now: int)
    requires "docs" !in persisted
    ensures var r := AddFolder(Load(persisted), "docs", "/no/such/path", req, 60, {}, now);
      r.1 == NoSuchPath && "docs" !in r.0.folders && "docs" !in r.0.observers
  {
  }
}
