# Folder update notifier — Dafny model

This project models the core of a Syncthing folder monitor (`monitor.py`).
The monitor watches folders and, once a folder has seen no file change for an
inactivity period, sends one "sync complete" notification through a
configurable provider: ntfy, Pushover, Discord, Telegram, Gotify or Matrix.
The model has three parts.

- **Debounce** (`SyncthingHandler`): the state `(last_modified,
  inactivity_period, timer_running, active)` with three steps on an integer
  clock. `OnEvent` is the event callback with its hidden-file and directory
  filter. `Poll` is one iteration of the inactivity loop. `Stop` is `stop()`.
  The module **Watch** pairs a handler with the number of loops running for it.
  It replays any interleaving of events, loop iterations and stops as a trace
  of accepted events, fires and stops, and proves the debounce guarantees over
  all traces.
- **Notify** (`NotificationService.create` and the six constructors): a total
  function from a kind tag and a string map to a provider record or a
  `ConfigError`.
- **Supervisor** (`MonitorService`): the registry `config["folders"]`, its
  saved copy, and the maps of providers, handlers and observers. It models
  `add_folder`, `remove_folder`, `stop` and `send_notification`, plus the
  routing of events and loop iterations to one folder's handler.

The model keeps these source quirks on purpose:
- The duplicate-name check looks at the live observers, not the registry. An
  add therefore overwrites a persisted entry of the same name.
- `remove_folder` keeps the folder's provider.
- `stop()` only clears `active`.
- A loop that leaves because the handler was stopped leaves `timer_running`
  set.
- A `message` key that is present with value None is stored as the template
  None. `send_notification` then fails on it (`Dispatch.NoTemplate`). It also
  fails when a provider has no registry entry (`Dispatch.UnknownFolder`),
  which a loop iteration of a consistent monitor never meets: every handler
  has its entry, and `remove_folder` joins the observer before deleting it.
  The None template raises inside the inactivity loop, before
  `timer_running` is cleared, so the folder is stuck: no later event starts
  a loop again (see Findings).

The file system is a set of existing paths. The clock is a parameter in
whole seconds. Provider sending is a caller-supplied function
`(Provider, message, title) -> bool`.

Files: `outcomes.dfy` (Option, Result), `text.dfy` (path splitting, `rstrip`,
`{folder}` substitution), `debounce.dfy`, `watch.dfy`, `notify.dfy`,
`supervisor.dfy`.

## Model

| member | source | states |
|---|---|---|
| Text.Split | monitor.py:179 | `split('/')` yields at least one piece, no piece holds '/', and joining the pieces with '/' gives back the path |
| Text.SplitJoin | monitor.py:179 | splitting undoes joining for '/'-free pieces, so split and join are inverse |
| Text.LastSegment | monitor.py:179 | the last piece of `split('/')` is the longest '/'-free suffix of the path: a suffix, free of '/', and preceded by '/' unless it is the whole path |
| Text.RStrip | monitor.py:38 | `rstrip('/')` returns a prefix of its input that does not end in '/', and everything cut off is '/' |
| Text.RStripIdempotent | monitor.py:38 | stripping an already stripped server changes nothing |
| Text.RStrippedUnique | monitor.py:125 | only one string has these properties, so the stored server is determined by the configured one |
| Text.Substitute | monitor.py:345 | a template without braces comes out unchanged |
| Text.SubstituteFirst | monitor.py:345 | text before the first `{folder}` is kept, that placeholder becomes the folder name, and substitution continues after it |
| Text.SubstituteIdentity | monitor.py:345 | substituting `{folder}` by itself gives the template back |
| Debounce.New | monitor.py:170-176 | a new handler is active, runs no timer, and its clock starts at the creation time |
| Debounce.HiddenIff | monitor.py:179 | an event path counts as hidden exactly when some '.' starts the path or follows a '/', and no '/' comes after it: the last segment starts with '.' |
| Debounce.OnEvent | monitor.py:178-187 | an event while inactive, for a directory, or for a path whose last segment starts with '.' changes nothing; a qualifying event sets `last_modified` to now and `timer_running`; a timer starts exactly when none was running |
| Debounce.Poll | monitor.py:189-199 | the loop calls the callback exactly when the handler is active and `now - last_modified >= inactivity_period`, and then ends; a callback that returns is followed by clearing `timer_running`, one that raises leaves the handler as it was; an inactive handler ends the loop without calling it and keeps `timer_running`; otherwise the loop goes on unchanged |
| Debounce.Stop | monitor.py:201-202 | `stop()` clears `active` and changes no other field |
| Debounce.StopIdempotent | monitor.py:201-202 | stopping twice has the effect of stopping once |
| Debounce.StoppedIsInert | monitor.py:178-202 | a stopped handler accepts no event, starts no timer, and its loop neither calls the callback nor continues, whatever the callback would do |
| Watch.Spawn | monitor.py:324-328 | `add_folder` creates an active handler with `timer_running` clear and no loop running, which satisfies the one-loop invariant |
| Watch.Next | monitor.py:178-202 | every step keeps the invariant of at most one loop, running only while `timer_running` is set; a fire needs a running loop, comes at least `inactivity_period` after `last_modified`, ends the loop, and clears `timer_running` unless the callback raised, in which case the handler is stuck; a stuck handler stays stuck and never fires; a stopped handler is never reactivated |
| Watch.NextProgress | monitor.py:178-199 | the converse of each step: an event the handler reacts to is accepted, sets `timer_running` and adds a loop unless the timer was running, and any other event changes nothing; a due iteration of a running loop on an active handler fires; an iteration that is not due, or has no loop, changes nothing; an iteration on a stopped handler only ends its loop |
| Watch.Run | monitor.py:178-202 | any sequence of events, loop iterations and stops keeps the one-loop invariant and the period; after a stop only stops are observed |
| Watch.ClockIsLastAccepted | monitor.py:182 | `last_modified` is always the time of the last accepted event, or the creation time if none was accepted |
| Watch.NoEarlyFire | monitor.py:190-197 | in every trace, each fire comes at least `inactivity_period` after the last event accepted before it |
| Watch.NothingAfterStop | monitor.py:178-202 | in every trace, nothing is accepted and nothing fires after a stop |
| Watch.StuckNeverFires | monitor.py:185-196 | a handler with `timer_running` set and no loop stays so and never calls its callback again, whatever events, loop iterations and stops follow |
| Watch.FiresSeparatedByEvents | monitor.py:185-197 | in every trace, fires and accepted events alternate: a fire needs a pending timer, and after a fire only a new accepted event can arm another one |
| Watch.AcceptedBetweenFires | monitor.py:185-197 | between any two fires of a trace lies an accepted event |
| Watch.ScenarioBurst | monitor.py:178-199 | with a 5 s period, events at `t`, `t + 1` and `t + 2` delivered while the timer runs apart from them, and any creation time, a loop check at `t + 5` does not fire, the check at `t + 7` fires, and a later check does not fire again |
| Watch.QueuedDelivery | monitor.py:178-199 | with a 5 s period, under the source's schedule an event delivered while no loop runs is accepted, its inline loop checks at once and again 10 s later, fires then, and leaves an idle handler stamped with the event time |
| Watch.QueuedBurst | monitor.py:178-199 | under the source's schedule two changes of one burst, the second queued until the first loop fired, give two notifications |
| Notify.Create | monitor.py:24-149 | an unknown kind fails with that kind; a known kind fails with the first missing required key, in the constructor's lookup order, and succeeds otherwise; the provider has the requested kind and holds the configured values; server URLs are `rstrip('/')` of the configured value, with ntfy defaulting to `https://ntfy.sh` |
| Notify.CreateSucceedsIff | monitor.py:26-34 | creation succeeds exactly when the kind is one of the six and all of its required keys are present |
| Notify.NtfyDefaultServer | monitor.py:38 | an ntfy config without `server` posts to `https://ntfy.sh` |
| Notify.StoredServerStripped | monitor.py:123-149 | every stored Gotify or ntfy server and Matrix homeserver lacks a trailing '/', and the homeserver is a prefix of the configured one |
| Supervisor.Load | monitor.py:205-209 | the service starts from the loaded registry, with matching saved copy, no providers and no observers, and satisfies the monitor invariant |
| Supervisor.Service | monitor.py:305-312 | a request without `type` or without `config` fails with that key; otherwise the factory decides, and success means a known kind with every required key |
| Supervisor.TemplateOf | monitor.py:318 | `get('message', default)`: the stored template is the `message` value whenever the key is present, the default otherwise, so it is None exactly when `message` is present and None |
| Supervisor.AddFolder | monitor.py:296-337 | checks in order: the name already observed, then the path missing, then the provider invalid; any failure leaves everything unchanged; success inserts exactly `name` into the registry, providers, handlers and observers, touches no other key, saves the registry, and stores the `message` value or the default template |
| Supervisor.AddKeepsValid | monitor.py:296-337 | adding keeps observers and handlers over the same names, each with a registry entry, a provider, its path and period, and at most one loop |
| Supervisor.AddStoresDefaultTemplate | monitor.py:318 | without a `message` key the stored template is `Sync complete for {folder}` |
| Supervisor.AddMissingPath | monitor.py:301-303 | adding `docs` at a path that does not exist fails, and `docs` is neither registered nor observed |
| Supervisor.RemoveFolder | monitor.py:254-269 | an unobserved name fails and changes nothing; otherwise the handler is stopped and, once the observer is joined, has no loop left; the name leaves observers, handlers and registry (which is saved), no other key changes, and the provider stays |
| Supervisor.AddThenRemove | monitor.py:254-337 | removing right after a successful add restores the observers, drops the name from handlers and registry, and leaves the new provider in place |
| Supervisor.RemovedNeverFires | monitor.py:259 | the handler that a removal stopped never accepts an event or fires again, whatever steps follow |
| Supervisor.StopAll | monitor.py:292-294 | `stop()` leaves no observers and no handlers; the registry loses exactly the observed names; every provider is kept; every removed handler is stopped with its clock unchanged and no loop left |
| Supervisor.SendNotification | monitor.py:339-351 | a name without a provider sends nothing; otherwise the message is the stored template with `{folder}` replaced by the name, sent under the title `Sync Complete` through that provider, and the send result is only reported |
| Supervisor.DefaultMessage | monitor.py:318-345 | with the default template the message is `Sync complete for ` followed by the folder name |
| Supervisor.FolderEvent | monitor.py:178-187 | an event for one folder changes only that folder's handler, as the handler's event step says, adds a loop exactly when that step starts the timer, and keeps the monitor invariant |
| Supervisor.FolderTick | monitor.py:189-199 | a loop iteration for one folder changes only that handler; it dispatches exactly when a loop runs, the handler is active and the period has elapsed; the dispatch is `send_notification`, the loop ends, and `timer_running` stays set exactly when the dispatch raised, which leaves a consistent handler stuck; without a dispatch, a loop on a stopped handler ends and nothing else changes |
| Supervisor.ValidTickKnowsFolder | monitor.py:339-345 | in a consistent monitor a loop iteration never dispatches `UnknownFolder`, because every handler has its registry entry |
| Supervisor.StuckFolderTick | monitor.py:185-196 | loop iterations of a stuck folder dispatch nothing and leave it stuck |
| Supervisor.StuckFolderEvent | monitor.py:178-187 | events for a stuck folder leave it stuck, so no timer starts again |
| Supervisor.NoneTemplateLoop | monitor.py:189-199 | a loop armed at `t` with a 5 s period for a folder whose template is None dispatches nothing at the check at `t`, then raises `NoTemplate` at the check at `t + 10` and leaves the folder stuck |
| Supervisor.NoneMessageSilencesFolder | monitor.py:318-345 | a folder added with `message` present but None and a 5 s period, after a change at `t`, dispatches nothing at the loop check at `t`, dispatches `NoTemplate` at the check at `t + 10`, and is left stuck |
| Supervisor.TemplateOrDefault | monitor.py:318 | the corrected template is always present, so it can never be None |
| Supervisor.TemplateOrDefaultAgrees | monitor.py:318 | the corrected template equals the stored one unless `message` is None, where it is the default instead of None |
| Supervisor.TemplateOrDefaultNeverRaises | monitor.py:339-345 | with the corrected template, `send_notification` sends for every folder with a provider and a registry entry |
| Supervisor.DeliveryOutcomeIrrelevant | monitor.py:348-351 | the monitor after a loop iteration is the same whatever the provider's send returns |

## Left out

- Provider `send` bodies (monitor.py:41-167): they make HTTP requests. Sending is an uninterpreted caller-supplied function returning a bool.
- `send_ntfy_notification` (monitor.py:234-252): nothing calls it.
- `start()` and `get_status()` (monitor.py:271-290): both read the key `ntfy_topic`, which `add_folder` never writes. `start()` raises `KeyError` on the first registry entry that `add_folder` wrote. `get_status()` raises for any live handler; in the `status` command (monitor.py:451-453), which runs in a fresh service with no live handler, it returns an empty snapshot. Beyond that it only formats a snapshot.
- `_load_config` / `_save_config` (monitor.py:223-232): JSON file I/O. Loading is the `persisted` argument of `Load`. Saving is the assignment of the registry to `saved` after a successful add or remove.
- Logging setup, watchdog `Observer` threads (`schedule`, `start`, `stop`, `join`), signal handling and the argparse `main`: these are runtime and CLI plumbing. An observer is modelled only as the path it watches.
- Concurrency: in the source, the inactivity loop runs inline inside the event callback, on the observer's dispatch thread, so events that arrive during the loop wait until it ends. The model lets events, loop iterations and stops interleave in any order; the source's serial schedule is one of those interleavings (`Watch.QueuedBurst`, and Findings).
- Watch.ScenarioBurst: shows the interleaving where the loop runs apart from event delivery, which one notification per burst needs; the source cannot produce it, because the second and third events wait until the first loop has fired.
- Watch.NothingAfterStop: each loop iteration is one atomic step. In the source, `stop()` can run on another thread between the check of `active` (monitor.py:190) and the callback (monitor.py:195), so one notification can still follow a stop; the model excludes that race.
- Debounce.StoppedIsInert: for the same reason, states what a loop iteration that starts after `stop()` does, not one already past its `active` check.
- A raising callback: the exception also ends the observer's dispatch thread in the source. The model keeps delivering events to the stuck handler; either way no notification follows.
- Time: `datetime` differences are fractional seconds and the loop sleeps 10 s per iteration. The model uses whole seconds and takes the time of each iteration as given.
- `str.format` in general: only replacement of the literal `{folder}` is modelled. Brace escapes, other fields and a lone '}', which make `format` raise or behave differently, are not; the model keeps every other character, so Text.Substitute returns a template with a lone '}' unchanged where `format` raises `ValueError`.
- Setting values that are not strings: Python would accept them in the config dict (a None `server` would make `rstrip` raise). Settings are modelled as a map from strings to strings.
- Default arguments: `inactivity_period` defaults to 300 in `SyncthingHandler.__init__` (monitor.py:170) and `add_folder` (monitor.py:296). Debounce.New and Supervisor.AddFolder take the period as a parameter, because every caller in the source passes it explicitly (monitor.py:327, monitor.py:446, with the command line's own default of 300 at monitor.py:412).
- `ValueError` in `add_folder`: nothing in the modelled code raises it, so only `KeyError` failures exist.
- Supervisor.StopAll: removes the names in an unspecified order, where the source uses insertion order. The final state does not depend on the order.
- Supervisor.RemoveFolder: requires that an observed name also has a handler and a registry entry. Every reachable monitor satisfies this (`Valid`). Otherwise the source's `del` statements would raise `KeyError`.

## Findings

| source | as written | input that shows it | evidently intended | confidence | as-written member | corrected member |
|---|---|---|---|---|---|---|
| monitor.py:318, monitor.py:444, monitor.py:345, monitor.py:195-196 | a `message` key present with value None (the `add` command always passes one, None without `--message`) makes `get('message', default)` store None; the first due loop raises in `format` before clearing `timer_running`, and the folder never notifies again | in a running service, `add_folder(name, path, {"type": "ntfy", "config": {"topic": "t"}, "message": None}, 5)`, a change at `t`, loop checks at `t` and `t + 10`; through the command line the None only reaches the saved registry, because `main` returns after `add_folder` | a None message stores the default template `Sync complete for {folder}` | not executed | Supervisor.NoneMessageSilencesFolder | Supervisor.TemplateOrDefault |
| monitor.py:178-199 | the inactivity loop runs inline in the event callback, so events of a burst queue behind it and each one starts its own loop and notification | changes at `t` and `t + 1` with a 5 s period: the second is delivered only at `t + 10`, after the first loop fired, and starts a loop of its own, so two notifications follow (`Fired(t + 10)` and `Fired(t + 20)`) | one notification per burst of changes | not executed | Watch.QueuedBurst | Watch.ScenarioBurst |
