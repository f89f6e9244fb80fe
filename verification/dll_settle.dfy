/** The detector that decides when a changed DLL has stopped changing. */
module DllSettle {

  /** As many readings in a row as make a new modification time final. */
  const SETTLE_POLLS: nat := 3

  datatype Settle = Settle(candidate: nat, stablePolls: nat)

  const NOTHING_SEEN: Settle := Settle(0, 0)

  /** The detector after one more reading. */
  function Fed(s: Settle, loaded: nat, modified: nat): Settle {
    if modified == loaded then NOTHING_SEEN
    else if modified != s.candidate then Settle(modified, 1)
    else Settle(modified, s.stablePolls + 1)
  }

  /** Whether that reading settles it. */
  predicate Settles(s: Settle, loaded: nat, modified: nat) {
    modified != loaded && modified == s.candidate && s.stablePolls + 1 >= SETTLE_POLLS
  }

  class Detector {
    var candidateModified: nat
    var stablePolls: nat

    function State(): Settle
      reads this
    {
      Settle(candidateModified, stablePolls)
    }

    constructor ()
      ensures State() == NOTHING_SEEN
    {
      candidateModified, stablePolls := 0, 0;
    }

    /** One more reading; the answer is whether it completes such a row. */
    method Feed(loadedModified: nat, modified: nat) returns (settled: bool)
      modifies this
      ensures State() == Fed(old(State()), loadedModified, modified)
      ensures settled == Settles(old(State()), loadedModified, modified)
    {
      if modified == loadedModified {
        candidateModified, stablePolls := 0, 0;
        return false;
      }
      if modified != candidateModified {
        candidateModified, stablePolls := modified, 1;
        return false;
      }
      stablePolls := stablePolls + 1;
      return stablePolls >= SETTLE_POLLS;
    }
  }

  /** One poll: the time of the image that is loaded and the time read off the file. */
  datatype Reading = Reading(loaded: nat, modified: nat)

  function FedAll(rs: seq<Reading>): Settle {
    if rs == [] then NOTHING_SEEN
    else Fed(FedAll(rs[..|rs| - 1]), rs[|rs| - 1].loaded, rs[|rs| - 1].modified)
  }

  /** The last k readings all showed the time m, which was never the loaded image's. */
  ghost predicate HeldFor(rs: seq<Reading>, k: nat, m: nat) {
    k <= |rs| && forall i | |rs| - k <= i < |rs| :: rs[i].modified == m && rs[i].loaded != m
  }

  /** The detector counts exactly the readings in a row that agree with the last one and differ from the loaded time. */
  lemma {:induction false} CountsAgreeingReadings(rs: seq<Reading>, k: nat)
    requires rs != [] && k > 0
    ensures FedAll(rs).stablePolls >= k <==> HeldFor(rs, k, rs[|rs| - 1].modified)
    ensures FedAll(rs).stablePolls > 0 ==> FedAll(rs).candidate == rs[|rs| - 1].modified
  {
    var last, before := rs[|rs| - 1], rs[..|rs| - 1];
    if before != [] {
      CountsAgreeingReadings(before, 1);
      if k > 1 {
        CountsAgreeingReadings(before, k - 1);
      }
      var beforeLast := before[|before| - 1].modified;
      assert k > 1 && HeldFor(rs, k, last.modified) ==> beforeLast == last.modified by {
        assert k > 1 && HeldFor(rs, k, last.modified) ==> rs[|rs| - 2].modified == last.modified;
      }
      assert k > 1 ==> (HeldFor(rs, k, last.modified) <==>
        beforeLast == last.modified && last.loaded != last.modified && HeldFor(before, k - 1, last.modified));
    }
  }

  /** A poll settles exactly when it and the two before it read one time, and none of them was the loaded time. */
  lemma SettlesAfterThreeInARow(rs: seq<Reading>)
    requires rs != []
    ensures var last := rs[|rs| - 1];
      Settles(FedAll(rs[..|rs| - 1]), last.loaded, last.modified) <==> HeldFor(rs, SETTLE_POLLS, last.modified)
  {
    CountsAgreeingReadings(rs, SETTLE_POLLS);
    if |rs| > 1 {
      CountsAgreeingReadings(rs[..|rs| - 1], 1);
    }
  }
}
