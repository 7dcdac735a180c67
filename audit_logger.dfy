/**
 * `escalate_escrow` of ai_agent/agents/audit_logger_agent.py over the
 * module-level table `escalation_data` (escrow id to escalation note).
 */
module AuditLogger {
  import opened Http

  const EscalationNote := "Escalation initiated"
  const MessagePrefix := "Escalation initiated for escrow contract: "

  /** The reply's "message". */
  function EscalationMessage(escrowId: string): string {
    MessagePrefix + escrowId
  }

  /** Reads the escrow id back out of a reply message. */
  function EscrowIdOf(message: string): string {
    if |message| >= |MessagePrefix| then message[|MessagePrefix|..] else ""
  }

  /** The message names the escalated escrow: reading it back gives the id. */
  lemma MessageNamesEscrow(escrowId: string)
    ensures EscrowIdOf(EscalationMessage(escrowId)) == escrowId
  {
    assert EscalationMessage(escrowId)[|MessagePrefix|..] == escrowId;
  }

  /**
   * One request, as a function of the table before it: the reply and the table
   * after it. An empty id is refused with 400, an id already escalated with
   * 409, both leaving the table as it was; otherwise exactly the new id is
   * added, with the note "Escalation initiated", and nothing else changes.
   */
  function Escalate(data: map<string, string>, escrowId: string): (r: (Result<string>, map<string, string>))
    ensures r.0.Ok? <==> escrowId != "" && escrowId !in data
    ensures escrowId == "" ==> r.0 == Err(HttpException(400, "Escrow ID is required"))
    ensures escrowId != "" && escrowId in data ==>
      r.0 == Err(HttpException(409, "Escalation already in progress for this escrow"))
    ensures r.0.Err? ==> r.1 == data
    ensures r.0.Ok? ==>
      && r.1.Keys == data.Keys + {escrowId}
      && r.1[escrowId] == EscalationNote
      && (forall id :: id in data ==> r.1[id] == data[id])
      && EscrowIdOf(r.0.value) == escrowId
  {
    if escrowId == "" then (Err(HttpException(400, "Escrow ID is required")), data)
    else if escrowId in data then (Err(HttpException(409, "Escalation already in progress for this escrow")), data)
    else
      MessageNamesEscrow(escrowId);
      (Ok(EscalationMessage(escrowId)), data[escrowId := EscalationNote])
  }

  /** A series of requests, one per id in order: the replies and the final table. */
  function EscalateAll(data: map<string, string>, ids: seq<string>): (r: (seq<Result<string>>, map<string, string>))
    ensures |r.0| == |ids|
    // the table ends with its old entries, unchanged, plus every non-empty requested id ...
    ensures forall k :: k in r.1 <==> k in data || (k != "" && k in ids)
    ensures forall k :: k in data ==> r.1[k] == data[k]
    // ... each new one holding the escalation note
    ensures forall k :: k in r.1 && k !in data ==> r.1[k] == EscalationNote
    decreases |ids|
  {
    if ids == [] then ([], data)
    else
      var (first, next) := Escalate(data, ids[0]);
      var (rest, last) := EscalateAll(next, ids[1..]);
      ([first] + rest, last)
  }

  /** How many of the requests for `x` succeeded. */
  function Successes(replies: seq<Result<string>>, ids: seq<string>, x: string): nat
    requires |replies| == |ids|
    decreases |ids|
  {
    if ids == [] then 0
    else (if ids[0] == x && replies[0].Ok? then 1 else 0) + Successes(replies[1..], ids[1..], x)
  }

  /**
   * At most once: across any series of requests an id is escalated at most
   * once, and exactly once when it is non-empty, not yet in the table and
   * requested at all; every entry already in the table survives unchanged.
   */
  lemma {:induction false} EscalatesAtMostOnce(data: map<string, string>, ids: seq<string>, x: string)
    ensures Successes(EscalateAll(data, ids).0, ids, x) == (if x != "" && x !in data && x in ids then 1 else 0)
    ensures x in data ==> x in EscalateAll(data, ids).1 && EscalateAll(data, ids).1[x] == data[x]
    decreases |ids|
  {
    if ids != [] {
      var (first, next) := Escalate(data, ids[0]);
      EscalatesAtMostOnce(next, ids[1..], x);
      assert x in ids <==> x == ids[0] || x in ids[1..];
    }
  }

  /** The in-memory table `escalation_data`. */
  class EscalationLog {
    var escalationData: map<string, string>

    constructor ()
      ensures escalationData == map[]
    {
      escalationData := map[];
    }

    /** `escalate_escrow(escrowId)`: checks the id, then inserts it in place. */
    method EscalateEscrow(escrowId: string) returns (r: Result<string>)
      modifies this
      ensures (r, escalationData) == Escalate(old(escalationData), escrowId)
    {
      if escrowId == "" {
        return Err(HttpException(400, "Escrow ID is required"));
      }
      if escrowId in escalationData {
        return Err(HttpException(409, "Escalation already in progress for this escrow"));
      }
      escalationData := escalationData[escrowId := EscalationNote];
      return Ok(EscalationMessage(escrowId));
    }
  }
}
