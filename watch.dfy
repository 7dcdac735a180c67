/**
 * The watch loop `_monitor_conditions` of `ConditionMonitor`
 * (ai_agent/services/monitor.py) as a state machine over what each pass of
 * its `while True` loop observes: the sweep's answer, a cancellation, or some
 * other exception. Sleeping between passes is not modelled.
 */
module WatchLoop {
  import opened Sweep

  /** What one pass of the loop observes. */
  datatype Event =
    | SweepResult(met: bool)  // `_check_all_conditions` returned
    | Cancel                  // `asyncio.CancelledError` at a suspension point
    | Error                   // any other exception

  /** Whether the loop is still running, or why it ended. */
  datatype Phase = Watching | Released | Cancelled

  /** The events after which the loop sleeps and tries again. */
  predicate Retries(e: Event) {
    e == SweepResult(false) || e == Error
  }

  /** The loop calls `_trigger_fund_release` on this pass. */
  predicate CallsRelease(p: Phase, e: Event) {
    p == Watching && e == SweepResult(true)
  }

  /** One pass of the loop; a loop that has ended ignores what follows. */
  function Step(p: Phase, e: Event): (q: Phase)
    ensures p != Watching ==> q == p
    ensures q == Watching <==> p == Watching && Retries(e)
    ensures q == Released <==> p == Released || CallsRelease(p, e)
  {
    if p != Watching then p
    else
      match e
      case SweepResult(met) => if met then Released else Watching
      case Cancel => Cancelled
      case Error => Watching
  }

  /** The phase after a stream of events. */
  function Run(p: Phase, events: seq<Event>): Phase
    decreases |events|
  {
    if events == [] then p else Run(Step(p, events[0]), events[1..])
  }

  /** How many times the loop calls `_trigger_fund_release` on a stream of events. */
  function Releases(p: Phase, events: seq<Event>): nat
    decreases |events|
  {
    if events == [] then 0
    else (if CallsRelease(p, events[0]) then 1 else 0) + Releases(Step(p, events[0]), events[1..])
  }

  /** The bridge from a sweep to the event the loop sees: returning True or
      False, or raising the `KeyError` of a condition without "type". */
  function EventOf(o: Outcome): (e: Event)
    ensures CallsRelease(Watching, e) <==> o == AllMet
    ensures Retries(e) <==> o != AllMet
  {
    match o
    case AllMet => SweepResult(true)
    case NotAllMet => SweepResult(false)
    case Raised => Error
  }

  /** A pass releases the funds exactly when its sweep saw every condition pass. */
  lemma SweepReleasesIffAllPass(conds: seq<Condition>, replies: seq<Reply>)
    requires |replies| == |conds|
    ensures CallsRelease(Watching, EventOf(CheckAll(conds, replies))) <==> AllPass(conds, replies)
  {
    AllMetIff(conds, replies);
  }

  /**
   * A shipment that is "in_transit" on the first sweep and "delivered" on the
   * second: the first pass retries, the second releases, once.
   */
  lemma ShipmentDeliveredOnSecondSweep()
    ensures
      var c := map["type" := "shipment", "tracking_id" := "T1", "provider" := "X"];
      var first := EventOf(CheckAll([c], [Answered(map["status" := Str("in_transit")])]));
      var second := EventOf(CheckAll([c], [Answered(map["status" := Str("delivered")])]));
      && Run(Watching, [first]) == Watching
      && Run(Watching, [first, second]) == Released
      && Releases(Watching, [first, second]) == 1
  {
    var c := map["type" := "shipment", "tracking_id" := "T1", "provider" := "X"];
    var first := EventOf(CheckAll([c], [Answered(map["status" := Str("in_transit")])]));
    var second := EventOf(CheckAll([c], [Answered(map["status" := Str("delivered")])]));
    var delivered := Answered(map["status" := Str("delivered")]);
    assert Check(c, delivered) == Pass;
    assert [c][1..] == [] && [delivered][1..] == [];
    assert CheckAll([c], [delivered]) == CheckAll([], []) == AllMet;
    assert first == SweepResult(false) && second == SweepResult(true);
    assert [first, second][1..] == [second] && [second][1..] == [];
    assert Run(Watching, [first, second]) == Run(Watching, [second]) == Run(Released, []);
    assert Releases(Watching, [first, second]) == Releases(Watching, [second]) == 1 + Releases(Released, []);
  }

  /** A loop that has ended stays ended and never releases again. */
  lemma {:induction false} EndedStaysEnded(p: Phase, events: seq<Event>)
    requires p != Watching
    ensures Run(p, events) == p && Releases(p, events) == 0
    decreases |events|
  {
    if events != [] {
      EndedStaysEnded(Step(p, events[0]), events[1..]);
    }
  }

  /** At most once: the release is called once if the loop ends released, and never otherwise. */
  lemma {:induction false} ReleasedAtMostOnce(p: Phase, events: seq<Event>)
    ensures Releases(p, events) == (if p == Watching && Run(p, events) == Released then 1 else 0)
    decreases |events|
  {
    if p != Watching {
      EndedStaysEnded(p, events);
    } else if events != [] {
      var q := Step(p, events[0]);
      if q == Watching {
        ReleasedAtMostOnce(q, events[1..]);
      } else {
        EndedStaysEnded(q, events[1..]);
      }
    }
  }

  /** A stream of retries keeps the loop watching, with no release. */
  lemma {:induction false} RetriesKeepWatching(events: seq<Event>)
    requires forall j :: 0 <= j < |events| ==> Retries(events[j])
    ensures Run(Watching, events) == Watching && Releases(Watching, events) == 0
    decreases |events|
  {
    if events != [] {
      assert Retries(events[0]);
      assert forall j :: 0 <= j < |events| - 1 ==> events[1..][j] == events[j + 1];
      RetriesKeepWatching(events[1..]);
    }
  }

  /**
   * The first event that is not a retry decides the loop: a True sweep ends it
   * released, a cancellation ends it cancelled; what comes later does not matter.
   * Transient failures before it do not block progress.
   */
  lemma {:induction false} FirstDecisiveEventDecides(events: seq<Event>, k: nat)
    requires k < |events|
    requires forall j :: 0 <= j < k ==> Retries(events[j])
    requires !Retries(events[k])
    ensures Run(Watching, events) == (if events[k] == Cancel then Cancelled else Released)
    ensures Releases(Watching, events) == (if events[k] == Cancel then 0 else 1)
    decreases k
  {
    if k == 0 {
      EndedStaysEnded(Step(Watching, events[0]), events[1..]);
    } else {
      assert Retries(events[0]);
      assert forall j :: 0 <= j < |events| - 1 ==> events[1..][j] == events[j + 1];
      FirstDecisiveEventDecides(events[1..], k - 1);
    }
  }

  /** The loop ends released exactly when some True sweep comes before any cancellation. */
  lemma {:induction false} ReleasedIff(events: seq<Event>)
    ensures Run(Watching, events) == Released <==>
      exists k :: 0 <= k < |events| && events[k] == SweepResult(true) &&
        forall j :: 0 <= j < k ==> Retries(events[j])
    decreases |events|
  {
    if events != [] {
      assert forall j :: 0 <= j < |events| - 1 ==> events[1..][j] == events[j + 1];
      ReleasedIff(events[1..]);
      if Retries(events[0]) {
        if Run(Watching, events) == Released {
          var k :| 0 <= k < |events| - 1 && events[1..][k] == SweepResult(true) &&
            forall j :: 0 <= j < k ==> Retries(events[1..][j]);
          assert events[k + 1] == SweepResult(true);
          assert forall j :: 0 <= j < k + 1 ==> Retries(events[j]) by {
            forall j | 0 <= j < k + 1 ensures Retries(events[j]) {
              if j > 0 { assert events[j] == events[1..][j - 1]; }
            }
          }
        }
        if exists k :: 0 <= k < |events| && events[k] == SweepResult(true) &&
            forall j :: 0 <= j < k ==> Retries(events[j]) {
          var k :| 0 <= k < |events| && events[k] == SweepResult(true) &&
            forall j :: 0 <= j < k ==> Retries(events[j]);
          assert k > 0;
          assert events[1..][k - 1] == SweepResult(true);
        }
      } else {
        EndedStaysEnded(Step(Watching, events[0]), events[1..]);
        if events[0] == Cancel {
          forall k | 0 <= k < |events| && events[k] == SweepResult(true)
            ensures !forall j :: 0 <= j < k ==> Retries(events[j])
          {
            assert k != 0 && !Retries(events[0]);
          }
        } else {
          assert events[0] == SweepResult(true);
        }
      }
    }
  }

  /**
   * `_monitor_conditions(escrow_id, verifiables)` fed the events of its passes.
   * It consumes events until a True sweep (release, then `break`) or a
   * cancellation (`break`), and keeps retrying otherwise. `releaseCalls`
   * records the arguments of each `_trigger_fund_release` call.
   */
  method MonitorConditions(escrowId: string, events: seq<Event>)
    returns (phase: Phase, consumed: nat, ghost releaseCalls: seq<string>)
    ensures consumed <= |events|
    ensures phase == Run(Watching, events) == Run(Watching, events[..consumed])
    ensures phase == Watching ==> consumed == |events|
    // the loop stops on the event that decides it, and reads nothing after
    ensures phase != Watching ==> 0 < consumed && Run(Watching, events[..consumed - 1]) == Watching
    ensures |releaseCalls| == Releases(Watching, events) <= 1
    ensures |releaseCalls| == 1 <==> phase == Released
    ensures forall i :: 0 <= i < |releaseCalls| ==> releaseCalls[i] == escrowId
  {
    phase, consumed, releaseCalls := Watching, 0, [];
    while consumed < |events|
      invariant consumed <= |events|
      invariant phase == Watching && releaseCalls == []
      invariant forall j :: 0 <= j < consumed ==> Retries(events[j])
    {
      var e := events[consumed];
      if e == SweepResult(true) {
        // _trigger_fund_release(escrow_id), then break
        releaseCalls := releaseCalls + [escrowId];
        phase := Released;
      } else if e == Cancel {
        phase := Cancelled;
      }
      consumed := consumed + 1;
      if phase != Watching {
        FirstDecisiveEventDecides(events, consumed - 1);
        FirstDecisiveEventDecides(events[..consumed], consumed - 1);
        RetriesKeepWatching(events[..consumed - 1]);
        return;
      }
      // asyncio.sleep(POLLING_INTERVAL), then the next pass
    }
    assert events[..consumed] == events;
    RetriesKeepWatching(events);
  }
}
