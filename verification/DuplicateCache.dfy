/** The receive-side cache that suppresses repeated sequence numbers for a while. */
module DuplicateCache {
  import opened Basics

  /** The cache: when each sequence number was last accepted. Times are on a non-decreasing clock. */
  type Stamps = map<U8, int>

  predicate Admits(stamps: Stamps, seqNum: U8, now: int, timeout: nat) {
    seqNum in stamps ==> stamps[seqNum] < now - timeout
  }

  function Stamped(stamps: Stamps, seqNum: U8, now: int, timeout: nat): Stamps {
    if Admits(stamps, seqNum, now, timeout) then stamps[seqNum := now] else stamps
  }

  class SeqNumCache {
    var seqNums: Stamps
    const timeout: nat

    constructor (timeout: nat)
      ensures seqNums == map[] && this.timeout == timeout
    {
      seqNums := map[];
      this.timeout := timeout;
    }

    method Insert(seqNum: U8, now: int) returns (accepted: bool)
      modifies this
      ensures accepted == Admits(old(seqNums), seqNum, now, timeout)
      ensures seqNums == Stamped(old(seqNums), seqNum, now, timeout)
    {
      if seqNum in seqNums {
        if seqNums[seqNum] < now - timeout {
          seqNums := seqNums[seqNum := now];
          accepted := true;
        } else {
          accepted := false;
        }
      } else {
        seqNums := seqNums[seqNum := now];
        accepted := true;
      }
    }
  }

  // ---------- Whole runs ----------

  datatype Attempt = Attempt(seqNum: U8, time: int)

  /** The cache after a log of attempts on a fresh cache. */
  function CacheAfter(log: seq<Attempt>, timeout: nat): Stamps {
    if log == [] then map[]
    else
      var last := log[|log| - 1];
      Stamped(CacheAfter(log[..|log| - 1], timeout), last.seqNum, last.time, timeout)
  }

  predicate Accepted(log: seq<Attempt>, i: nat, timeout: nat)
    requires i < |log|
  {
    Admits(CacheAfter(log[..i], timeout), log[i].seqNum, log[i].time, timeout)
  }

  ghost predicate Chronological(log: seq<Attempt>) {
    forall i, j :: 0 <= i < j < |log| ==> log[i].time <= log[j].time
  }

  /** i is the latest accepted attempt with this sequence number. */
  ghost predicate LatestAccepted(log: seq<Attempt>, timeout: nat, seqNum: U8, i: nat) {
    && i < |log| && log[i].seqNum == seqNum && Accepted(log, i, timeout)
    && forall j :: i < j < |log| && log[j].seqNum == seqNum ==> !Accepted(log, j, timeout)
  }

  lemma StampedOther(stamps: Stamps, seqNum: U8, last: Attempt, timeout: nat)
    requires last.seqNum != seqNum || !Admits(stamps, seqNum, last.time, timeout)
    ensures var after := Stamped(stamps, last.seqNum, last.time, timeout);
            && (seqNum in after <==> seqNum in stamps)
            && (seqNum in stamps ==> after[seqNum] == stamps[seqNum])
  {
  }

  lemma PrefixAccepted(log: seq<Attempt>, n: nat, i: nat, timeout: nat)
    requires i < n <= |log|
    ensures Accepted(log, i, timeout) == Accepted(log[..n], i, timeout) && log[..n][i] == log[i]
  {
    assert log[..n][..i] == log[..i];
  }

  /** An attempt under another number, or a rejected one, leaves the latest acceptance as it was. */
  lemma LatestStays(log: seq<Attempt>, timeout: nat, seqNum: U8, i: nat)
    requires |log| > 0 && LatestAccepted(log[..|log| - 1], timeout, seqNum, i)
    requires log[|log| - 1].seqNum != seqNum || !Accepted(log, |log| - 1, timeout)
    ensures LatestAccepted(log, timeout, seqNum, i) && log[..|log| - 1][i] == log[i]
  {
    hide Accepted;
    var n := |log| - 1;
    PrefixAccepted(log, n, i, timeout);
    forall j | i < j < n && log[j].seqNum == seqNum
      ensures !Accepted(log, j, timeout)
    {
      PrefixAccepted(log, n, j, timeout);
    }
  }

  /** The cache holds exactly the time of the latest acceptance of each sequence number. */
  lemma {:induction false} CacheHoldsLatest(log: seq<Attempt>, timeout: nat, seqNum: U8)
    ensures var stamps := CacheAfter(log, timeout);
            && (seqNum in stamps ==>
                exists i: nat :: LatestAccepted(log, timeout, seqNum, i) && stamps[seqNum] == log[i].time)
            && (seqNum !in stamps ==>
                forall i :: 0 <= i < |log| && log[i].seqNum == seqNum ==> !Accepted(log, i, timeout))
  {
    if log != [] {
      var n := |log| - 1;
      var init := log[..n];
      CacheHoldsLatest(init, timeout, seqNum);
      var stamps := CacheAfter(init, timeout);
      if log[n].seqNum == seqNum && Accepted(log, n, timeout) {
        assert LatestAccepted(log, timeout, seqNum, n);
      } else {
        StampedOther(stamps, seqNum, log[n], timeout);
        assert CacheAfter(log, timeout) == Stamped(stamps, log[n].seqNum, log[n].time, timeout);
        hide Stamped, CacheAfter, Accepted, LatestAccepted;
        if seqNum in stamps {
          var i: nat :| LatestAccepted(init, timeout, seqNum, i) && stamps[seqNum] == init[i].time;
          LatestStays(log, timeout, seqNum, i);
        } else {
          forall i: nat | i < n && log[i].seqNum == seqNum
            ensures !Accepted(log, i, timeout)
          {
            PrefixAccepted(log, n, i, timeout);
          }
        }
      }
    }
  }

  /**
   An attempt is accepted exactly when every earlier acceptance of its sequence number is more
   than the timeout old. Rejected attempts leave no trace.
   */
  lemma AcceptedIff(log: seq<Attempt>, j: nat, timeout: nat)
    requires Chronological(log) && j < |log|
    ensures Accepted(log, j, timeout) <==>
            forall i: nat :: i < j && log[i].seqNum == log[j].seqNum && Accepted(log, i, timeout) ==>
              log[j].time - log[i].time > timeout
  {
    var before := log[..j];
    var s := log[j].seqNum;
    CacheHoldsLatest(before, timeout, s);
    forall i: nat | i < j
      ensures Accepted(log, i, timeout) == Accepted(before, i, timeout)
    {
      assert log[..i] == before[..i];
    }
    if s in CacheAfter(before, timeout) {
      var k: nat :| LatestAccepted(before, timeout, s, k) && CacheAfter(before, timeout)[s] == before[k].time;
      forall i: nat | i < j && log[i].seqNum == s && Accepted(log, i, timeout)
        ensures log[i].time <= log[k].time
      {
        assert before[i].seqNum == s && Accepted(before, i, timeout);
        assert i <= k;
      }
      assert log[k].seqNum == s && Accepted(log, k, timeout);
    } else {
      assert forall i :: 0 <= i < j ==> before[i] == log[i];
    }
  }

  // ---------- At most 256 acceptances per window ----------

  lemma {:induction false} SmallSetSize(numbers: set<U8>, bound: nat)
    requires forall x :: x in numbers ==> x < bound
    ensures |numbers| <= bound
  {
    if bound == 0 {
      assert numbers == {};
    } else {
      SmallSetSize(numbers - {bound - 1}, bound - 1);
      assert numbers <= (numbers - {bound - 1}) + {bound - 1};
    }
  }

  /** The attempts with index in a set have different sequence numbers. */
  ghost predicate Distinct(log: seq<Attempt>, indices: set<nat>) {
    && (forall i :: i in indices ==> i < |log|)
    && (forall i, j :: i in indices && j in indices && i != j ==> log[i].seqNum != log[j].seqNum)
  }

  lemma {:induction false} DistinctSize(log: seq<Attempt>, indices: set<nat>, keys: set<U8>)
    requires Distinct(log, indices)
    requires keys == set i | i in indices :: log[i].seqNum
    ensures |indices| == |keys|
    decreases indices
  {
    if indices != {} {
      var i :| i in indices;
      var rest := indices - {i};
      var restKeys := set j | j in rest :: log[j].seqNum;
      assert restKeys == keys - {log[i].seqNum};
      DistinctSize(log, rest, restKeys);
    }
  }

  /** No window of length at most the timeout holds more than 256 acceptances. */
  lemma WindowHoldsAtMost256(log: seq<Attempt>, timeout: nat, start: int, window: set<nat>)
    requires Chronological(log)
    requires forall i :: i in window ==>
      i < |log| && Accepted(log, i, timeout) && start <= log[i].time <= start + timeout
    ensures |window| <= 256
  {
    forall i, j | i in window && j in window && i < j
      ensures log[i].seqNum != log[j].seqNum
    {
      AcceptedIff(log, j, timeout);
    }
    var keys := set i | i in window :: log[i].seqNum;
    DistinctSize(log, window, keys);
    SmallSetSize(keys, 256);
  }
}
