/**
 * `monitor_escrow` of ai_agent/agents/execution_monitor_agent.py: a read-only
 * lookup in the module-level table `escrow_contracts`.
 */
module ExecutionMonitor {
  import opened Http

  /** The reply `{"escrowId": ..., "status": ...}`; the stored value is kept as it is. */
  datatype EscrowStatus<V> = EscrowStatus(escrowId: string, status: V)

  /**
   * The lookup: an unknown id is refused with 404 "Escrow contract not found";
   * a known id answers with that id and its stored value. The table is a
   * parameter, so the lookup cannot change it.
   */
  function MonitorEscrow<V>(escrowContracts: map<string, V>, escrowId: string): (r: Result<EscrowStatus<V>>)
    ensures r.Err? <==> escrowId !in escrowContracts
    ensures r.Err? ==> r.error == HttpException(404, "Escrow contract not found")
    ensures r.Ok? ==> r.value.escrowId == escrowId && r.value.status == escrowContracts[escrowId]
  {
    if escrowId !in escrowContracts then Err(HttpException(404, "Escrow contract not found"))
    else Ok(EscrowStatus(escrowId, escrowContracts[escrowId]))
  }

  /** The answer depends only on the id and the table's entry for it: tables that agree there answer alike. */
  lemma AnswerDependsOnEntryOnly<V>(a: map<string, V>, b: map<string, V>, escrowId: string)
    requires escrowId in a <==> escrowId in b
    requires escrowId in a ==> a[escrowId] == b[escrowId]
    ensures MonitorEscrow(a, escrowId) == MonitorEscrow(b, escrowId)
  {
  }
}
