/**
 * The registry half of `ConditionMonitor` (ai_agent/services/monitor.py):
 * `active_monitors`, a dict from escrow id to the asyncio task running that
 * escrow's watch loop, and `start_monitoring` / `stop_monitoring`.
 */
module Monitor {
  import opened Sweep
  import opened WatchLoop

  /**
   * The task `asyncio.create_task` makes for one watch loop. Apart from the
   * arguments it runs with, only whether `cancel()` was asked of it is modelled.
   */
  class Task {
    const escrowId: string
    const verifiables: seq<Condition>
    var cancelRequested: bool

    constructor (escrowId: string, verifiables: seq<Condition>)
      ensures this.escrowId == escrowId && this.verifiables == verifiables
      ensures !cancelRequested
    {
      this.escrowId := escrowId;
      this.verifiables := verifiables;
      cancelRequested := false;
    }

    /** `task.cancel()`: the loop will see `CancelledError` at its next suspension point. */
    method Cancel()
      modifies this
      ensures cancelRequested
    {
      cancelRequested := true;
    }
  }

  class ConditionMonitor {
    var activeMonitors: map<string, Task>

    /** Each entry holds the task started for its own escrow id, so no task sits under two ids. */
    ghost predicate Valid()
      reads this
    {
      forall id :: id in activeMonitors ==> activeMonitors[id].escrowId == id
    }

    constructor ()
      ensures Valid() && activeMonitors == map[]
    {
      activeMonitors := map[];
    }

    /**
     * `start_monitoring`: an id already present is left alone (no second task,
     * no restart); a fresh id gets a new, uncancelled task and nothing else changes.
     */
    method StartMonitoring(escrowId: string, verifiables: seq<Condition>)
      requires Valid()
      modifies this
      ensures Valid()
      ensures escrowId in old(activeMonitors) ==> activeMonitors == old(activeMonitors)
      ensures escrowId !in old(activeMonitors) ==>
        && escrowId in activeMonitors
        && activeMonitors == old(activeMonitors)[escrowId := activeMonitors[escrowId]]
        && fresh(activeMonitors[escrowId])
        && activeMonitors[escrowId].verifiables == verifiables
        && !activeMonitors[escrowId].cancelRequested
    {
      if escrowId in activeMonitors {
        // "Already monitoring escrow ..."
        return;
      }
      var task := new Task(escrowId, verifiables);
      activeMonitors := activeMonitors[escrowId := task];
    }

    /**
     * `stop_monitoring`: a present id has its task cancelled and its entry
     * deleted; every other entry and task is untouched; an absent id changes nothing.
     */
    method StopMonitoring(escrowId: string)
      requires Valid()
      modifies this, if escrowId in activeMonitors then {activeMonitors[escrowId]} else {}
      ensures Valid()
      ensures activeMonitors == old(activeMonitors) - {escrowId}
      ensures escrowId in old(activeMonitors) ==> old(activeMonitors)[escrowId].cancelRequested
      ensures forall id :: id in activeMonitors ==>
        activeMonitors[id].cancelRequested == old(activeMonitors[id].cancelRequested)
    {
      if escrowId in activeMonitors {
        activeMonitors[escrowId].Cancel();
        activeMonitors := activeMonitors - {escrowId};
      }
    }
  }

  /**
   * A watch that has ended, by release or by cancellation, leaves its entry
   * in `active_monitors`: the loop never touches the registry, so a later
   * `start_monitoring` for the same id is still a no-op and the escrow is not
   * watched again until `stop_monitoring` clears the entry.
   * The loop is given no registry and so cannot touch it, just as `_monitor_conditions` never writes `active_monitors`;
   * the registry clause follows from `StartMonitoring` on a present id, and
   * the loop call is here to show the order of events, not as proof work.
   */
  method RestartAfterWatchEnds(monitor: ConditionMonitor, escrowId: string,
                               verifiables: seq<Condition>, events: seq<Event>)
    returns (phase: Phase)
    requires monitor.Valid() && escrowId in monitor.activeMonitors
    modifies monitor
    ensures phase == Run(Watching, events)
    ensures monitor.Valid() && monitor.activeMonitors == old(monitor.activeMonitors)
  {
    var task := monitor.activeMonitors[escrowId];
    var consumed;
    ghost var releaseCalls;
    phase, consumed, releaseCalls := MonitorConditions(task.escrowId, events);
    monitor.StartMonitoring(escrowId, verifiables);
  }
}
