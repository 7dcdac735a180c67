/**
 * `resolve_dispute` of ai_agent/agents/dispute_resolver_agent.py: three
 * emptiness checks in a fixed order, then a reply built from the request.
 * Nothing is stored.
 */
module DisputeResolver {
  import opened Http

  /** The request body `DisputeResolution`. */
  datatype DisputeResolution = DisputeResolution(escrowId: string, reason: string, resolutionDetails: string)

  /** The reply `{"message": ..., "status": ..., "details": ...}`. */
  datatype DisputeReply = DisputeReply(message: string, status: string, details: string)

  const MessagePrefix := "Dispute for escrow "
  const MessageSuffix := " is being resolved."

  function DisputeMessage(escrowId: string): string {
    MessagePrefix + escrowId + MessageSuffix
  }

  /** Reads the escrow id back out of a reply message. */
  function EscrowIdOf(message: string): string {
    if |message| >= |MessagePrefix| + |MessageSuffix|
    then message[|MessagePrefix|..|message| - |MessageSuffix|]
    else ""
  }

  /** The message names the disputed escrow: reading it back gives the id. */
  lemma MessageNamesEscrow(escrowId: string)
    ensures EscrowIdOf(DisputeMessage(escrowId)) == escrowId
  {
    var m := DisputeMessage(escrowId);
    assert m[|MessagePrefix|..|m| - |MessageSuffix|] == escrowId;
  }

  /**
   * The checks run in order, so the first empty field names the error,
   * whatever the later fields hold; with all three present the dispute is
   * "pending", the details are echoed and the message names the escrow.
   */
  function ResolveDispute(dispute: DisputeResolution): (r: Result<DisputeReply>)
    ensures r.Ok? <==> dispute.escrowId != "" && dispute.reason != "" && dispute.resolutionDetails != ""
    ensures dispute.escrowId == "" ==> r == Err(HttpException(400, "Escrow ID is required"))
    ensures dispute.escrowId != "" && dispute.reason == "" ==>
      r == Err(HttpException(400, "Reason for dispute is required"))
    ensures dispute.escrowId != "" && dispute.reason != "" && dispute.resolutionDetails == "" ==>
      r == Err(HttpException(400, "Resolution details are required"))
    ensures r.Ok? ==>
      && r.value.status == "pending"
      && r.value.details == dispute.resolutionDetails
      && EscrowIdOf(r.value.message) == dispute.escrowId
  {
    if dispute.escrowId == "" then Err(HttpException(400, "Escrow ID is required"))
    else if dispute.reason == "" then Err(HttpException(400, "Reason for dispute is required"))
    else if dispute.resolutionDetails == "" then Err(HttpException(400, "Resolution details are required"))
    else
      MessageNamesEscrow(dispute.escrowId);
      Ok(DisputeReply(DisputeMessage(dispute.escrowId), "pending", dispute.resolutionDetails))
  }
}
