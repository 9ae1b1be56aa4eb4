# snapclient_automatic: sink filters and snapclient lifecycle

This project models the core of the `snapclient_automatic` add-on
(`snapclient_automatic/run.py`). The add-on watches PulseAudio for audio
sinks. For each sink that appears it runs the configured filters over the
sink's property list. The filters decide whether a `snapclient` process is
started for the sink, and with which latency. It keeps the started processes
in the table `handled_sinks`, keyed by sink index. When a sink disappears, its
process is sent a stop signal and dropped from the table.

The model has four modules:

- `Results` (`results.dfy`): `Result<T>`, which is a value or the Python
  exception the code would raise instead (`KeyError`, `TypeError`).
- `Conditions` (`conditions.dfy`): one filter condition `[!]key[=value]`.
  Python's `str.split("=", 2)` is modelled as `Split` over a total `Find`.
  `EvalCondition` strips one leading `!`, then `Test` makes the presence
  test or the equality test.
- `Filters` (`filters.dfy`): the filter walk of `handle_sink_added`.
  - `Matches`, `Scan` and `Decide` are the specification functions. They
    take the condition evaluator as a parameter, so their lemmas hold for any
    evaluator.
  - `CheckConditions` is the inner loop, with its early `break`.
  - `EvaluateFilters` is the outer loop over the filters. Both methods are
    proved equal to the specification functions.
- `Lifecycle` (`lifecycle.dfy`): the class `SinkManager`.
  - Its field `handledSinks: map<int, Handle>` is `handled_sinks`.
  - The launcher is external. It is modelled by a log `launches`: launch
    number `k` returns the opaque `Handle(k)`.
  - The stop signal is external too. It is modelled by a log `signals`.
  - `Valid()` states that every managed process was launched for its own
    sink's card and has not been signalled.

Behaviour of the code that the model keeps, although a reader might expect
otherwise:

- A `key=value` condition on a property the sink lacks raises `KeyError`
  (run.py:138). It does not evaluate to false. The error aborts
  `handle_sink_added`: nothing is launched and the table is unchanged.
- Only one leading `!` is stripped. `!!k` is the negated presence test of a
  property literally named `!k`.
- `split("=", 2)` makes `a=b=c` a presence test of `a`.
- `handle_sink_added` never consults `handled_sinks`. A second "added" event
  for a managed sink launches a second process and overwrites the entry. The
  first process is then unreachable (`DuplicateAddLaunchesTwice`).
- With no filters every sink is accepted. With filters, a sink is rejected
  unless a matching filter sets `accept` to true.
- `handle_sink_removed` calls `stop_snapclient(config)` without the sink
  index (see Findings). `HandleSinkRemoved` models the evidently intended call.

## Model

| member | source | states |
|---|---|---|
| `Conditions.SplitJoin` | snapclient_automatic/run.py:135 | the parts of `split("=", 2)` joined with `=` give back the condition text |
| `Conditions.SplitPartsFree` | snapclient_automatic/run.py:135 | the split cuts at the first separators: no part before the last holds `=`, and the last holds none unless both cuts were made |
| `Conditions.EvalCondition` | snapclient_automatic/run.py:127-146 | evaluating a condition raises only `KeyError`, and only for a property the sink does not have |
| `Conditions.NegationFlips` | snapclient_automatic/run.py:128-146 | `!c` is exactly the negation of the test made by `c`, with only the first `!` stripped; a text without a leading `!` is its own test |
| `Conditions.PresenceForm` | snapclient_automatic/run.py:140-142 | a condition without `=` holds iff the property is present, whatever its value |
| `Conditions.EqualityForm` | snapclient_automatic/run.py:135-139 | `key=value` holds iff the property equals `value` exactly; a missing property raises `KeyError(key)` instead of being false |
| `Conditions.SeveralEqualsIsPresence` | snapclient_automatic/run.py:135-142 | a condition with two or more `=` is the presence test of the text before the first `=` |
| `Filters.MatchesIffAllHold` | snapclient_automatic/run.py:123-151 | a filter matches iff every condition holds; a filter without conditions (absent or empty list) always matches |
| `Filters.MatchesFailsAtFirstFailure` | snapclient_automatic/run.py:148-151 | a filter fails iff some condition is false and all before it hold; later conditions are not evaluated |
| `Filters.MatchesRaisesFirstError` | snapclient_automatic/run.py:136-151 | matching raises iff a condition reached by the walk raises, and it raises that condition's error |
| `Filters.ScanOutcome` | snapclient_automatic/run.py:117-158 | the filter walk raises iff matching some filter raises, and then with the error of the first such filter |
| `Filters.LastAcceptWins` | snapclient_automatic/run.py:113-156 | the accumulated `accept` is that of the last matching filter that defines it, false if none does; `any_filters` is set iff there is a filter |
| `Filters.LastLatencyWins` | snapclient_automatic/run.py:115-158 | the accumulated latency is that of the last matching filter that defines it, None if none does, independently of `accept` |
| `Filters.AcceptRule` | snapclient_automatic/run.py:113-161 | no filters: accept with latency None; otherwise accept iff the last matching filter that defines `accept` sets it true |
| `Filters.CheckConditions` | snapclient_automatic/run.py:122-151 | the condition loop with its `break` returns exactly the short-circuit outcome `Matches` |
| `Filters.EvaluateFilters` | snapclient_automatic/run.py:113-161 | the filter loop returns exactly the decision `Decide`, or the first `KeyError` |
| `Lifecycle.PlanAddOutcome` | snapclient_automatic/run.py:161-182 | an error of the filter walk propagates unchanged; a sink is ignored iff the filters do not accept it (there are filters and no last matching `accept` setter says true); an accepted sink without `device.string` raises `KeyError('device.string')` whether or not there are filters; every other sink is launched; with no filters every sink is accepted |
| `Lifecycle.PlanAddLaunch` | snapclient_automatic/run.py:170-178 | a launch is for the sink's own card, with its `device.string` as host id and the configured URL; its latency is that of the last matching filter defining `latency`, and 0 (`latency or 0`) when no matching filter defines one |
| `Lifecycle.SinkManager.constructor` | snapclient_automatic/run.py:104 | the table starts empty, with nothing launched or signalled |
| `Lifecycle.SinkManager.StartSnapclient` | snapclient_automatic/run.py:179-186 | one launch with `latency or 0`; the new handle is stored under the sink index, overwriting any old entry; every other entry is unchanged |
| `Lifecycle.SinkManager.HandleSinkAdded` | snapclient_automatic/run.py:107-176 | an error or a rejection changes nothing; an accepted sink gets exactly one new launch and its entry is set, with no check of the table |
| `Lifecycle.SinkManager.StopSnapclient` | snapclient_automatic/run.py:201-206 | an unmanaged index changes nothing and sends no signal; a managed one gets exactly one signal and only its key is deleted |
| `Lifecycle.SinkManager.HandleSinkRemoved` | snapclient_automatic/run.py:189-206 | removal with the intended `stop_snapclient(sink_index)`: the same outcome as `StopSnapclient` |
| `Lifecycle.SinkManager.HandleSinkRemovedAsWritten` | snapclient_automatic/run.py:189-198 | as written, removing a managed sink raises `TypeError`, so nothing is signalled or deleted; other removals are no-ops |
| `Lifecycle.HandlesDistinct` | snapclient_automatic/run.py:179-186 | two managed sinks never share a process handle |
| `Lifecycle.RemovalAsWrittenKeepsSink` | snapclient_automatic/run.py:191-193 | after an accepted add of sink 7, the as-written removal raises, sink 7 stays managed and no signal is sent |
| `Lifecycle.RemovalStopsSink` | snapclient_automatic/run.py:189-206 | after an accepted add of sink 7, the intended removal sends one signal and leaves the table empty |
| `Lifecycle.DuplicateAddLaunchesTwice` | snapclient_automatic/run.py:171-186 | two added events for sink 7 launch two processes; one entry remains and the first process is no longer in the table |

## Left out

- `setup_logging` and every logging call: they only configure and write logs.
- `main`: loading `/data/options.json`, the voluptuous `CONFIG_SCHEMA`, the
  PulseAudio connection, the initial `sink_list` pass and the event
  subscription loop are all I/O. The model takes the filters and each sink's
  property list as inputs. The event loop is not modelled. In the code, an
  exception raised by a handler leaves `main` and ends the service.
- `config["filters"]` raises `KeyError` when the optional key is absent
  (run.py:117, schema at run.py:31). The filter list is a required input of
  the model.
- `pulse.sink_info`: the property list is a parameter. The sink's name and
  driver are only logged. The lookup at run.py:108 raises when the sink has
  disappeared between the event and the lookup; that failure, which leaves
  `main` like the other handler exceptions, is not modelled.
- `asyncio.create_subprocess_shell`: the launcher is abstract and always
  succeeds. A launch is recorded as its arguments (host id, latency, card,
  URL), not as the shell command text. A launch failure is not modelled.
- `proc.send_signal(signal.CTRL_C_EVENT)`: the stop signal is abstract and
  always succeeds. Python defines `signal.CTRL_C_EVENT` only on Windows, so
  on Linux this line would raise `AttributeError` before the entry is deleted.
  The model does not capture this.
- Coercion by `vol.Boolean()` and `int`: filter values are already typed in
  the model.
- `async`/`await`: the handlers run one at a time, as in the code.

## Findings

| source | as written | input that shows it | evidently intended | confidence | as-written member | corrected member |
|---|---|---|---|---|---|---|
| snapclient_automatic/run.py:193 | `await stop_snapclient(config)` passes no sink index to `stop_snapclient(config, sink_index)` (run.py:201), so every removal of a managed sink raises `TypeError` before any signal or deletion | sink 7 added and accepted with no filters, then removed | `await stop_snapclient(config, sink_index)`: signal the process once and delete the entry (with the stop signal at run.py:205 abstracted; on Linux `signal.CTRL_C_EVENT` would still raise before the deletion, see Left out) | high, not executed | `Lifecycle.SinkManager.HandleSinkRemovedAsWritten`, exhibited by `Lifecycle.RemovalAsWrittenKeepsSink` | `Lifecycle.SinkManager.HandleSinkRemoved`, exhibited by `Lifecycle.RemovalStopsSink` |
