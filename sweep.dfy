/**
 * One sweep over an escrow's verifiable conditions: `_check_all_conditions`
 * and `_validate_oracle_data` of `ConditionMonitor` (ai_agent/services/monitor.py).
 *
 * The external providers are replaced by inputs: for each condition the sweep
 * is given the reply its provider would give in this sweep, either the decoded
 * JSON object or an exception.  The sweep itself holds no state.
 */
module Sweep {

  datatype Option<T> = None | Some(value: T)

  /** A scalar of the JSON object a verification provider answers with. */
  datatype Value = Str(s: string) | Bool(b: bool) | Int(i: int) | Null

  type Fields = map<string, Value>

  /** The outcome of one provider call: a decoded JSON object, or a raised exception. */
  datatype Reply = Answered(fields: Fields) | Failed

  /** One entry of `verifiables`: a dict holding "type" and the kind's parameters. */
  type Condition = map<string, string>

  /** How one condition ends within a sweep. `TypeKeyError` is the `KeyError`
      of `verifiable["type"]`, which is read outside the per-condition `try`. */
  datatype Verdict = Pass | Fail | TypeKeyError

  /** What `_check_all_conditions` does: return True, return False, or raise. */
  datatype Outcome = AllMet | NotAllMet | Raised

  /** Python truthiness of a JSON scalar. */
  predicate Truthy(v: Value) {
    match v
    case Str(s) => s != ""
    case Bool(b) => b
    case Int(i) => i != 0
    case Null => false
  }

  /** The kinds the dispatch has a branch for. */
  predicate IsKnownKind(kind: string) {
    kind == "shipment" || kind == "document" || kind == "email" || kind == "oracle"
  }

  /** The parameters each kind reads from its condition dict. */
  function RequiredParams(kind: string): set<string> {
    if kind == "shipment" then {"tracking_id", "provider"}
    else if kind == "document" then {"document_hash"}
    else if kind == "email" then {"email_id"}
    else if kind == "oracle" then {"oracle_id", "expected_value"}
    else {}
  }

  /** `fields[key] == want` where a missing key raises. */
  predicate StrFieldIs(fields: Fields, key: string, want: string) {
    key in fields && fields[key] == Str(want)
  }

  /**
   * `_validate_oracle_data`: `data["value"] == expected_value`.
   * None stands for the `KeyError` raised when the reply has no "value".
   */
  function ValidateOracleData(data: Fields, expectedValue: string): (r: Option<bool>)
    ensures r.None? <==> "value" !in data
    // exactly the string equal to the expected value passes ...
    ensures "value" in data ==> (r == Some(true) <==> data["value"] == Str(expectedValue))
    // ... and a number, flag or null is never coerced to compare equal
    ensures "value" in data && !data["value"].Str? ==> r == Some(false)
  {
    if "value" in data then Some(data["value"] == Str(expectedValue)) else None
  }

  /** The success test of a known kind, applied to the provider's answer. */
  predicate PassTest(kind: string, c: Condition, fields: Fields)
    requires kind == "oracle" ==> "expected_value" in c
  {
    if kind == "shipment" then StrFieldIs(fields, "status", "delivered")
    else if kind == "document" then "verified" in fields && Truthy(fields["verified"])
    else if kind == "email" then StrFieldIs(fields, "status", "confirmed")
    else if kind == "oracle" then ValidateOracleData(fields, c["expected_value"]) == Some(true)
    else true
  }

  /**
   * One iteration of the sweep's `for` loop, following its `if`/`elif` chain.
   * Any exception inside the `try` (a missing parameter key, a provider
   * exception, a missing reply field) makes the condition fail.
   */
  function Check(c: Condition, reply: Reply): (v: Verdict)
    ensures v == TypeKeyError <==> "type" !in c
    // a kind with no branch is skipped, whatever the reply
    ensures "type" in c && !IsKnownKind(c["type"]) ==> v == Pass
    // a known kind passes exactly when its parameters are there, its provider
    // answered, and the answer meets the kind's success test
    ensures "type" in c && IsKnownKind(c["type"]) ==>
      (v == Pass <==>
        && RequiredParams(c["type"]) <= c.Keys
        && reply.Answered?
        && PassTest(c["type"], c, reply.fields))
  {
    if "type" !in c then TypeKeyError
    else
      var kind := c["type"];
      if kind == "shipment" then
        if "tracking_id" !in c || "provider" !in c || reply.Failed? then Fail
        else if !StrFieldIs(reply.fields, "status", "delivered") then Fail
        else Pass
      else if kind == "document" then
        if "document_hash" !in c || reply.Failed? then Fail
        else if "verified" !in reply.fields || !Truthy(reply.fields["verified"]) then Fail
        else Pass
      else if kind == "email" then
        if "email_id" !in c || reply.Failed? then Fail
        else if !StrFieldIs(reply.fields, "status", "confirmed") then Fail
        else Pass
      else if kind == "oracle" then
        if "oracle_id" !in c || reply.Failed? || "expected_value" !in c then Fail
        else
          match ValidateOracleData(reply.fields, c["expected_value"])
          case None => Fail
          case Some(ok) => if ok then Pass else Fail
      else
        Pass
  }

  /**
   * `_check_all_conditions`: the conditions in list order, stopping at the
   * first one that does not pass. `replies[i]` is the reply condition i's
   * provider gives in this sweep.
   */
  function CheckAll(conds: seq<Condition>, replies: seq<Reply>): (r: Outcome)
    requires |replies| == |conds|
    ensures conds == [] ==> r == AllMet
    // True only when every condition passed ...
    ensures r == AllMet ==> forall i :: 0 <= i < |conds| ==> Check(conds[i], replies[i]) == Pass
    // ... and a raise only when some condition has no "type"
    ensures r == Raised ==> exists i :: 0 <= i < |conds| && "type" !in conds[i]
    decreases |conds|
  {
    if conds == [] then AllMet
    else
      match Check(conds[0], replies[0])
      case Pass => CheckAll(conds[1..], replies[1..])
      case Fail => NotAllMet
      case TypeKeyError => Raised
  }

  /** Every condition of the list passes. */
  ghost predicate AllPass(conds: seq<Condition>, replies: seq<Reply>)
    requires |replies| == |conds|
  {
    forall i :: 0 <= i < |conds| ==> Check(conds[i], replies[i]) == Pass
  }

  /** The sweep returns True exactly when every condition passes; in particular the empty list sweeps to True. */
  lemma {:induction false} AllMetIff(conds: seq<Condition>, replies: seq<Reply>)
    requires |replies| == |conds|
    ensures CheckAll(conds, replies) == AllMet <==> AllPass(conds, replies)
    decreases |conds|
  {
    if conds != [] {
      AllMetIff(conds[1..], replies[1..]);
      if Check(conds[0], replies[0]) == Pass {
        if AllPass(conds[1..], replies[1..]) {
          forall i | 0 <= i < |conds| ensures Check(conds[i], replies[i]) == Pass {
            if i > 0 {
              assert conds[i] == conds[1..][i - 1] && replies[i] == replies[1..][i - 1];
            }
          }
        } else {
          var j :| 0 <= j < |conds| - 1 && Check(conds[1..][j], replies[1..][j]) != Pass;
          assert conds[1..][j] == conds[j + 1] && replies[1..][j] == replies[j + 1];
        }
      }
    }
  }

  /**
   * The sweep is decided by the first condition that does not pass: it
   * returns False when that condition failed and raises when it has no "type",
   * and the replies for the conditions after it are never looked at.
   */
  lemma {:induction false} StopsAtFirstFailure(conds: seq<Condition>, replies: seq<Reply>, later: seq<Reply>, k: nat)
    requires |replies| == |conds| && |later| == |conds|
    requires k < |conds|
    requires forall i :: 0 <= i < k ==> Check(conds[i], replies[i]) == Pass
    requires Check(conds[k], replies[k]) != Pass
    requires later[..k + 1] == replies[..k + 1]
    ensures CheckAll(conds, replies) == (if Check(conds[k], replies[k]) == Fail then NotAllMet else Raised)
    ensures CheckAll(conds, later) == CheckAll(conds, replies)
    decreases k
  {
    assert replies[0] == replies[..k + 1][0] && later[0] == later[..k + 1][0];
    if k > 0 {
      assert Check(conds[0], replies[0]) == Pass;
      forall i | 0 <= i < k - 1 ensures Check(conds[1..][i], replies[1..][i]) == Pass {
        assert conds[1..][i] == conds[i + 1] && replies[1..][i] == replies[i + 1];
      }
      assert later[1..][..k] == later[..k + 1][1..];
      assert replies[1..][..k] == replies[..k + 1][1..];
      StopsAtFirstFailure(conds[1..], replies[1..], later[1..], k - 1);
    }
  }

  /** A list whose every condition has a kind with no branch sweeps to True, whatever the providers reply. */
  lemma UnknownKindsSweepToTrue(conds: seq<Condition>, replies: seq<Reply>)
    requires |replies| == |conds|
    requires forall i :: 0 <= i < |conds| ==> "type" in conds[i] && !IsKnownKind(conds[i]["type"])
    ensures CheckAll(conds, replies) == AllMet
  {
    AllMetIff(conds, replies);
  }

  /** A provider exception for any condition of a known kind keeps the sweep from returning True. */
  lemma ProviderFailureBlocksRelease(conds: seq<Condition>, replies: seq<Reply>, k: nat)
    requires |replies| == |conds|
    requires k < |conds| && "type" in conds[k] && IsKnownKind(conds[k]["type"])
    requires replies[k] == Failed
    ensures CheckAll(conds, replies) != AllMet
  {
    AllMetIff(conds, replies);
  }
}
