/** Whether a gateway considers the leader of a limit-server shard ready, from the heartbeats it sends. */
module Heartbeat {
  import opened Wrappers

  const HEARTBEAT_TIMEOUT := 5_000_000_000

  /** The last answer, when it last changed (None before the first change), and the verdict. */
  datatype Status = Status(lastState: bool, lastChange: Option<int>, ready: bool)

  const UNKNOWN := Status(false, None, false)

  function SetLeaderStatus(s: Status, ready: bool, now: int): Status {
    var s1 := if s.lastState != ready then s.(lastState := ready, lastChange := Some(now)) else s;
    if s1.ready == ready then s1
    else if ready || s1.lastChange.None? || now > s1.lastChange.value + HEARTBEAT_TIMEOUT then s1.(ready := ready)
    else s1
  }

  class ClientSets {
    var leaderReady: map<int, Status>

    method ReportHeartbeat(shard: int, ready: bool, now: int)
      modifies this
      ensures leaderReady == old(leaderReady)[shard :=
                SetLeaderStatus(if shard in old(leaderReady) then old(leaderReady)[shard] else UNKNOWN, ready, now)]
    {
      var status := if shard in leaderReady then leaderReady[shard] else UNKNOWN;
      if status.lastState != ready {
        status := status.(lastState := ready, lastChange := Some(now));
      }
      if status.ready != ready {
        if ready {
          status := status.(ready := ready);
        } else if status.lastChange.None? || now > status.lastChange.value + HEARTBEAT_TIMEOUT {
          status := status.(ready := ready);
        }
      }
      leaderReady := leaderReady[shard := status];
    }
  }

  // ---------- over all reports of a shard ----------

  datatype Report = Report(ready: bool, now: int)

  function After(reports: seq<Report>): Status {
    if reports == [] then UNKNOWN else
      var last := reports[|reports| - 1];
      SetLeaderStatus(After(reports[..|reports| - 1]), last.ready, last.now)
  }

  predicate Ordered(reports: seq<Report>) {
    forall i, j :: 0 <= i <= j < |reports| ==> reports[i].now <= reports[j].now
  }

  /** Report i is a success and every later one is a failure. */
  predicate LastSuccess(reports: seq<Report>, i: nat) {
    i < |reports| && reports[i].ready && forall j :: i < j < |reports| ==> !reports[j].ready
  }

  /** The failures after report i have lasted no longer than the timeout. */
  predicate Recent(reports: seq<Report>, i: nat) {
    i + 1 >= |reports| || reports[|reports| - 1].now <= reports[i + 1].now + HEARTBEAT_TIMEOUT
  }

  predicate NoSuccess(reports: seq<Report>) {
    forall i :: 0 <= i < |reports| ==> !reports[i].ready
  }

  lemma {:induction false} NeverReadyWithoutSuccess(reports: seq<Report>)
    requires NoSuccess(reports)
    ensures After(reports) == UNKNOWN
  {
    if reports != [] {
      NeverReadyWithoutSuccess(reports[..|reports| - 1]);
    }
  }

  /** The record after a last success at i: since when it fails, and whether it still counts as ready. */
  lemma {:induction false} StatusAfterLastSuccess(reports: seq<Report>, i: nat)
    requires Ordered(reports) && LastSuccess(reports, i)
    ensures var s := After(reports);
            && (s.ready <==> Recent(reports, i))
            && s.lastState == (i + 1 == |reports|)
            && (i + 1 < |reports| ==> s.lastChange == Some(reports[i + 1].now))
  {
    var k := |reports| - 1;
    var init := reports[..k];
    if i < k {
      assert LastSuccess(init, i) && Ordered(init);
      StatusAfterLastSuccess(init, i);
      assert Recent(reports, i) ==> Recent(init, i);
    }
  }

  lemma {:induction false} FindLastSuccess(reports: seq<Report>)
    ensures NoSuccess(reports) || exists i: nat :: LastSuccess(reports, i)
  {
    if reports != [] {
      var k := |reports| - 1;
      if reports[k].ready {
        assert LastSuccess(reports, k);
      } else {
        FindLastSuccess(reports[..k]);
        if i: nat :| LastSuccess(reports[..k], i) {
          assert LastSuccess(reports, i);
        }
      }
    }
  }

  /** After any run of reports the shard is ready exactly when the failures since the last success are recent. */
  lemma ReadyIff(reports: seq<Report>)
    requires Ordered(reports)
    ensures After(reports).ready <==> exists i: nat :: LastSuccess(reports, i) && Recent(reports, i)
  {
    FindLastSuccess(reports);
    if NoSuccess(reports) {
      NeverReadyWithoutSuccess(reports);
    } else {
      var i: nat :| LastSuccess(reports, i);
      StatusAfterLastSuccess(reports, i);
      forall j: nat | LastSuccess(reports, j) ensures j == i {
        assert !(i < j) && !(j < i);
      }
    }
  }

  lemma SuccessIsReadyAtOnce(reports: seq<Report>)
    requires Ordered(reports) && reports != [] && reports[|reports| - 1].ready
    ensures After(reports).ready
  {
    StatusAfterLastSuccess(reports, |reports| - 1);
  }

  /** A shard drops out only with a report that ends more than the timeout of nothing but failures. */
  lemma DropNeedsLongFailure(reports: seq<Report>, k: nat)
    requires Ordered(reports) && k < |reports|
    requires After(reports[..k]).ready && !After(reports[..k + 1]).ready
    ensures exists j :: 0 <= j <= k && reports[k].now > reports[j].now + HEARTBEAT_TIMEOUT
                        && forall m :: j <= m <= k ==> !reports[m].ready
  {
    var before, now := reports[..k], reports[..k + 1];
    FindLastSuccess(before);
    if NoSuccess(before) {
      NeverReadyWithoutSuccess(before);
      assert false;
    }
    var i: nat :| LastSuccess(before, i);
    assert now[..k] == before && now[k] == reports[k];
    if now[k].ready {
      SuccessIsReadyAtOnce(now);
      assert false;
    }
    assert LastSuccess(now, i) && now[i] == before[i];
    StatusAfterLastSuccess(now, i);
    assert forall m :: i + 1 <= m <= k ==> reports[m] == now[m];
  }
}
