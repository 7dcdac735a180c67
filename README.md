# Condition monitor of the escrow agents, in Dafny

This project models the condition-monitoring core of the escrow agent
service: the `ConditionMonitor` of `ai_agent/services/monitor.py`, which
keeps one watch task per escrow, repeatedly sweeps the escrow's verifiable
conditions (shipment, document, email, oracle) against external providers,
and triggers the fund release when a sweep finds them all met. It also models
three small in-memory handlers that sit next to it: the escalation table of
`audit_logger_agent.py`, the escrow status lookup of
`execution_monitor_agent.py` and the request checks of
`dispute_resolver_agent.py`.

Modules, one per part of the source:

- `Sweep` (sweep.dfy): `_check_all_conditions` and `_validate_oracle_data`
  as pure functions. The providers are replaced by inputs: the sweep is given,
  for each condition, the reply its provider gives in that sweep
  (`Answered(fields)` or `Failed` for an exception).
- `WatchLoop` (watch.dfy): the `while True` loop of `_monitor_conditions` as a
  state machine over the events its passes observe (`SweepResult(met)`,
  `Cancel`, `Error`), with an imperative `MonitorConditions` proved against it.
  `EventOf` connects a sweep's outcome to the event the loop sees.
- `Monitor` (monitor.dfy): the `active_monitors` registry as a class whose
  map field `start_monitoring` and `stop_monitoring` update in place; the
  asyncio task is an opaque `Task` object that records whether it was cancelled.
- `AuditLogger`, `ExecutionMonitor`, `DisputeResolver`: the three handlers;
  `Http` holds the `HTTPException` value they raise.

The model follows the code as written, including behaviour a reader might
not expect of an escrow monitor:

- A condition whose "type" is none of the four kinds matches no branch of the
  dispatch and counts as passing, so a list of such conditions sweeps to true
  and releases the funds; unknown kinds are not rejected as a configuration
  error.
- A condition without a "type" key raises `KeyError` outside the
  per-condition `try`; the loop treats it like any other exception and retries
  forever. There is no failed state in which a watch gives up.
- A watch that ends, by release or by cancellation, leaves its entry in
  `active_monitors`, so a later `start_monitoring` for that id does nothing
  until `stop_monitoring` is called; finished watches are not removed
  automatically.
- The release is a placeholder that always succeeds; there is no release
  failure path.

## Model

| member | source | states |
|---|---|---|
| `Sweep.ValidateOracleData` | ai_agent/services/monitor.py:88-90 | a missing "value" raises; a present "value" passes exactly when it is the string equal to the expected value; non-string values are never coerced to equal |
| `Sweep.Check` | ai_agent/services/monitor.py:49-84 | a condition without "type" raises out of the sweep; an unknown kind is skipped (passes) whatever the reply; a known kind passes iff its parameters are present, its provider answered without an exception, and the answer meets the kind's test ("delivered", truthy "verified", "confirmed", oracle equality) |
| `Sweep.CheckAll` | ai_agent/services/monitor.py:47-86 | the sweep itself: the empty list gives True; True only when every condition passed; a raise only when some condition has no "type" (the converse and the first-failure rule are `Sweep.AllMetIff` and `Sweep.StopsAtFirstFailure`) |
| `Sweep.AllMetIff` | ai_agent/services/monitor.py:47-86 | the sweep returns true iff every condition passes; the empty list sweeps to true |
| `Sweep.StopsAtFirstFailure` | ai_agent/services/monitor.py:49-84 | the first non-passing condition decides the sweep (false on a failure, raise on a missing "type") and no reply after it influences the outcome |
| `Sweep.UnknownKindsSweepToTrue` | ai_agent/services/monitor.py:50-86 | a list of conditions of unknown kinds sweeps to true for any replies |
| `Sweep.ProviderFailureBlocksRelease` | ai_agent/services/monitor.py:52-84 | a provider exception for any condition of a known kind keeps the sweep from returning true |
| `WatchLoop.Step` | ai_agent/services/monitor.py:32-45 | an ended loop stays ended; the loop keeps watching exactly on a false sweep or a non-cancellation exception; it reaches Released only by releasing on a true sweep |
| `WatchLoop.EventOf` | ai_agent/services/monitor.py:34-45 | a sweep makes the loop release iff it returned true; false or a raised `KeyError` makes it retry |
| `WatchLoop.SweepReleasesIffAllPass` | ai_agent/services/monitor.py:34-37 | a pass calls the release exactly when its sweep saw every condition pass |
| `WatchLoop.ShipmentDeliveredOnSecondSweep` | ai_agent/services/monitor.py:32-59 | a shipment "in_transit" then "delivered" keeps watching after the first pass and releases once after the second |
| `WatchLoop.EndedStaysEnded` | ai_agent/services/monitor.py:35-42 | after release or cancellation the loop has exited: later events change nothing and release nothing |
| `WatchLoop.ReleasedAtMostOnce` | ai_agent/services/monitor.py:32-45 | over any event stream the release is called once if the loop ends Released and zero times otherwise |
| `WatchLoop.RetriesKeepWatching` | ai_agent/services/monitor.py:39-45 | false sweeps and other exceptions only lead to sleep and retry, never to release |
| `WatchLoop.FirstDecisiveEventDecides` | ai_agent/services/monitor.py:32-45 | the first event that is not a retry decides: a true sweep releases once, a cancellation exits with no release, earlier transient failures do not block progress |
| `WatchLoop.ReleasedIff` | ai_agent/services/monitor.py:32-45 | the loop ends Released iff some true sweep comes before any cancellation, with only retries before it |
| `WatchLoop.MonitorConditions` | ai_agent/services/monitor.py:30-45 | the loop's result is the state machine's on the whole stream; it stops right after the deciding event; it calls the release at most once, with its own escrow id, and only when it ends Released |
| `Monitor.Task.constructor` | ai_agent/services/monitor.py:19-21 | a new task runs for the given escrow and conditions and is not cancelled |
| `Monitor.Task.Cancel` | ai_agent/services/monitor.py:27 | the task is marked cancelled |
| `Monitor.ConditionMonitor.constructor` | ai_agent/services/monitor.py:10-11 | the registry starts empty |
| `Monitor.ConditionMonitor.StartMonitoring` | ai_agent/services/monitor.py:13-22 | an id already present leaves the map unchanged; a fresh id adds exactly that key with a fresh uncancelled task for the given conditions, other entries untouched |
| `Monitor.ConditionMonitor.StopMonitoring` | ai_agent/services/monitor.py:24-28 | a present id has its task cancelled and exactly its key removed; an absent id changes nothing; other tasks keep their cancellation state |
| `Monitor.RestartAfterWatchEnds` | ai_agent/services/monitor.py:13-45 | however a registered watch ends, its entry stays and a later start for that id leaves the registry unchanged |
| `AuditLogger.MessageNamesEscrow` | ai_agent/agents/audit_logger_agent.py:28 | the escrow id can be read back from the reply message |
| `AuditLogger.Escalate` | ai_agent/agents/audit_logger_agent.py:20-28 | empty id gives 400 and a known id 409, both leaving the table unchanged; otherwise exactly the new id is added with "Escalation initiated", others kept, and the message names the id |
| `AuditLogger.EscalateAll` | ai_agent/agents/audit_logger_agent.py:20-26 | after a series of requests the table holds its old entries unchanged plus exactly the non-empty requested ids, each new one with "Escalation initiated" |
| `AuditLogger.EscalatesAtMostOnce` | ai_agent/agents/audit_logger_agent.py:24-26 | across any series of requests an id succeeds at most once, exactly once iff non-empty, new and requested; existing entries are never removed or changed |
| `AuditLogger.EscalationLog.constructor` | ai_agent/agents/audit_logger_agent.py:7 | the table starts empty |
| `AuditLogger.EscalationLog.EscalateEscrow` | ai_agent/agents/audit_logger_agent.py:9-28 | the in-place handler's reply and new table are those of `Escalate` on the old table |
| `ExecutionMonitor.MonitorEscrow` | ai_agent/agents/execution_monitor_agent.py:23-26 | an unknown id gives 404 "Escrow contract not found"; a known id returns that id and its stored value; the table is only read |
| `ExecutionMonitor.AnswerDependsOnEntryOnly` | ai_agent/agents/execution_monitor_agent.py:23-26 | the answer depends only on the id and the table's entry for it |
| `DisputeResolver.MessageNamesEscrow` | ai_agent/agents/dispute_resolver_agent.py:30 | the escrow id can be read back from the reply message |
| `DisputeResolver.ResolveDispute` | ai_agent/agents/dispute_resolver_agent.py:11-30 | the first empty field, in the order escrow id, reason, details, names the 400 error whatever the later fields hold; with all three present the reply is "pending", echoes the details and names the escrow |

## Left out

- asyncio scheduling, task creation timing and `asyncio.sleep(Config.POLLING_INTERVAL)`: the loop is fed one event per pass; where exactly `CancelledError` lands (a provider call, either sleep) is one `Cancel` event, since every landing point exits without release.
- The provider calls of `ai_agent/utils/external_apis.py` (HTTP requests and the hard-coded email and oracle replies): each reply is an input. Which providers a sweep contacts is not recorded; that later conditions are not checked is stated as their replies having no influence.
- Reply JSON is modelled with scalar values (string, bool, integer, null); nested objects, lists and floats are left out, as is a condition dict holding anything but strings.
- The body of `_trigger_fund_release`, which only logs: the model records each call's escrow id in a ghost sequence and treats the call as always succeeding.
- Logging and the `print` calls of the dispute handler, which have no effect on behaviour.
- FastAPI routing, request parsing by pydantic, `ai_agent/main.py`, `ai_agent/run.py`, `ai_agent/config.py`, `ai_agent/agents/main.py` and the constant-returning agents are not part of this model.
- `escrow_contracts` is a parameter of the lookup; nothing in the repository inserts into it, so in practice every lookup answers 404.
- Monitor.Task.Cancel: always sets the cancellation flag, whereas asyncio's `cancel()` does nothing on a task that has already finished; the flag is only read as "cancel was requested", so this is harmless.
