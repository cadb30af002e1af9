/** SelfDecayResolver: `TraverseSelfDecay`.

    From a starting particle, the source follows the first-daughter link for
    as long as the daughter carries the starting particle's PID, and returns
    the last index before the identity changes. Its `while flag` loop has no
    bound. Here the loop is modelled twice:

    - `Walk` is the unbounded loop itself, one iteration per step, as a ghost
      relation; the source returns v when some iterate is `Done(v)` and never
      returns when every iterate is `Running`;
    - `SelfDecayEnd` stops after N moves (N the size of the record) and
      reports `SelfDecayCycle` instead of hanging;

    and `SelfDecayCycleDiverges` and its companions prove that the two agree:
    the bounded walk reports a cycle exactly when the unbounded loop would
    never exit, because N + 1 positions in a record of N particles repeat.
 */
module SelfDecay {
  import opened DecayRecord

  /** The state of the source loop after some iterations. */
  datatype Step = Running(at: int) | Done(at: int) | Fault(error: Error)

  /** One iteration of the source loop at index c, looking for PID p:
      read `D1[c]`, read the PID there, move on when it is p and stop otherwise. */
  function StepFrom(e: Event, p: int, c: int): (r: Step)
    // a move goes to the first daughter, which has PID p
    ensures r.Running? ==> InRange(e, c) && r.at == e.d1[c] && InRange(e, r.at) && e.pid[r.at] == p
    // a stop stays at c, whose first daughter has another PID
    ensures r.Done? ==> r.at == c && InRange(e, c) && InRange(e, e.d1[c]) && e.pid[e.d1[c]] != p
  {
    if !InRange(e, c) then Fault(IndexOutOfRange(c))
    else if !InRange(e, e.d1[c]) then Fault(IndexOutOfRange(e.d1[c]))
    else if e.pid[e.d1[c]] == p then Running(e.d1[c])
    else Done(c)
  }

  /** The state of the unbounded loop after k iterations from c. */
  ghost function Walk(e: Event, p: int, c: int, k: nat): (r: Step)
    decreases k
    // every index the loop stands on or stops at is the start or a particle of PID p
    ensures (r.Running? || r.Done?) ==> r.at == c || (InRange(e, r.at) && e.pid[r.at] == p)
    // a stop is the loop's exit condition
    ensures r.Done? ==> InRange(e, r.at) && InRange(e, e.d1[r.at]) && e.pid[e.d1[r.at]] != p
  {
    if k == 0 then Running(c)
    else match StepFrom(e, p, c)
      case Running(d) => Walk(e, p, d, k - 1)
      case s => s
  }

  /** The loop continued from c with at most `fuel` further moves. */
  function Follow(e: Event, p: int, c: int, fuel: nat): (r: Result<int>)
    decreases fuel
    // the returned index is c itself or a particle of PID p ...
    ensures r.Ok? ==> InRange(e, r.value) && (r.value == c || e.pid[r.value] == p)
    // ... and its first daughter exists and has another PID: the loop's exit condition
    ensures r.Ok? ==> InRange(e, e.d1[r.value]) && e.pid[e.d1[r.value]] != p
    ensures r.Err? ==> r.error == SelfDecayCycle || r.error.IndexOutOfRange?
  {
    match StepFrom(e, p, c)
    case Running(d) => if fuel == 0 then Err(SelfDecayCycle) else Follow(e, p, d, fuel - 1)
    case Done(v) => Ok(v)
    case Fault(x) => Err(x)
  }

  /** What `TraverseSelfDecay` computes, with the walk cut off after N moves. */
  function SelfDecayEnd(e: Event, index: int): (r: Result<int>)
    // the result keeps the starting particle's identity
    ensures r.Ok? ==> InRange(e, index) && InRange(e, r.value) && e.pid[r.value] == e.pid[index]
    // and is the last one of it: its first daughter has another PID
    ensures r.Ok? ==> InRange(e, e.d1[r.value]) && e.pid[e.d1[r.value]] != e.pid[index]
    ensures !InRange(e, index) ==> r == Err(IndexOutOfRange(index))
  {
    if !InRange(e, index) then Err(IndexOutOfRange(index))
    else Follow(e, e.pid[index], index, Size(e))
  }

  /** The source's `TraverseSelfDecay(tree, entry, index)` on the event record. */
  method TraverseSelfDecay(e: Event, index: int) returns (r: Result<int>)
    ensures r == SelfDecayEnd(e, index)
  {
    if !InRange(e, index) {
      return Err(IndexOutOfRange(index));
    }
    var pid := e.pid[index];
    var newIndex := index;
    // the source loops without bound; after N moves a repeat is certain
    var fuel := Size(e);
    var flag := true;
    while flag
      invariant InRange(e, newIndex)
      invariant flag ==> Follow(e, pid, newIndex, fuel) == SelfDecayEnd(e, index)
      invariant !flag ==> Ok(newIndex) == SelfDecayEnd(e, index)
      decreases fuel, flag
    {
      var d := e.d1[newIndex];
      if !InRange(e, d) {
        return Err(IndexOutOfRange(d));
      }
      if e.pid[d] == pid {
        if fuel == 0 {
          return Err(SelfDecayCycle);
        }
        newIndex, fuel := d, fuel - 1;
      } else {
        flag := false;
      }
    }
    return Ok(newIndex);
  }

  /** When the first daughter of the start has another PID, the start is returned unchanged. */
  lemma SelfDecayNoChainIsIdentity(e: Event, index: int)
    requires InRange(e, index) && InRange(e, e.d1[index])
    requires e.pid[e.d1[index]] != e.pid[index]
    ensures SelfDecayEnd(e, index) == Ok(index)
  {
  }

  /** Running k iterations and then m more is running k + m iterations. */
  lemma {:induction false} WalkSplit(e: Event, p: int, c: int, k: nat, m: nat)
    ensures Walk(e, p, c, k + m) ==
      match Walk(e, p, c, k)
      case Running(x) => Walk(e, p, x, m)
      case s => s
    decreases k
  {
    if k > 0 {
      match StepFrom(e, p, c)
      case Running(d) =>
        WalkSplit(e, p, d, k - 1, m);
      case _ =>
    }
  }

  /** A stopped or failed loop stays so. */
  lemma WalkStaysStopped(e: Event, p: int, c: int, k: nat, k': nat)
    requires k <= k'
    requires !Walk(e, p, c, k).Running?
    ensures Walk(e, p, c, k') == Walk(e, p, c, k)
  {
    WalkSplit(e, p, c, k, k' - k);
  }

  /** Every index the loop stands on is a particle of the record. */
  lemma {:induction false} WalkRunningInRange(e: Event, p: int, c: int, k: nat)
    requires InRange(e, c)
    requires Walk(e, p, c, k).Running?
    ensures InRange(e, Walk(e, p, c, k).at)
    decreases k
  {
    if k > 0 {
      WalkRunningInRange(e, p, e.d1[c], k - 1);
    }
  }

  /** The bounded walk and the unbounded loop agree step for step. */
  lemma {:induction false} FollowMatchesWalk(e: Event, p: int, c: int, fuel: nat)
    ensures forall v :: Follow(e, p, c, fuel) == Ok(v) ==> Walk(e, p, c, fuel + 1) == Done(v)
    ensures Follow(e, p, c, fuel).Err? && Follow(e, p, c, fuel).error != SelfDecayCycle ==>
      Walk(e, p, c, fuel + 1) == Fault(Follow(e, p, c, fuel).error)
    ensures Follow(e, p, c, fuel) == Err(SelfDecayCycle) ==>
      forall k: nat :: k <= fuel + 1 ==> Walk(e, p, c, k).Running?
    decreases fuel
  {
    match StepFrom(e, p, c)
    case Running(d) =>
      if fuel > 0 {
        FollowMatchesWalk(e, p, d, fuel - 1);
        forall k: nat | 1 <= k <= fuel + 1
          ensures Walk(e, p, c, k) == Walk(e, p, d, k - 1)
        {
        }
      }
    case Done(v) =>
      WalkStaysStopped(e, p, c, 1, fuel + 1);
    case Fault(x) =>
      WalkStaysStopped(e, p, c, 1, fuel + 1);
  }

  /** Among more than n values drawn from [0, n), two are equal. */
  lemma {:induction false} Pigeonhole(s: seq<int>, n: nat)
    requires 1 <= n < |s|
    requires forall k :: 0 <= k < |s| ==> 0 <= s[k] < n
    ensures exists a, b :: 0 <= a < b < |s| && s[a] == s[b]
    decreases n
  {
    var last := |s| - 1;
    var t := s[..last];
    if n == 1 {
      assert s[0] == 0 == s[1];
    } else if j :| 0 <= j < last && t[j] == s[last] {
      assert s[j] == s[last];
    } else {
      // fold the value n - 1 onto s[last], which occurs nowhere in t
      var u := seq(last, k requires 0 <= k < last => if t[k] == n - 1 then s[last] else t[k]);
      forall k | 0 <= k < |u| ensures 0 <= u[k] < n - 1 {
        assert t[k] != s[last];
      }
      Pigeonhole(u, n - 1);
      var a, b :| 0 <= a < b < |u| && u[a] == u[b];
      assert t[a] != s[last] && t[b] != s[last];
      assert s[a] == t[a] == t[b] == s[b];
    }
  }

  /** Once the loop stands on the same index twice, it runs forever. */
  lemma {:induction false} RepeatRunsForever(e: Event, p: int, c: int, a: nat, b: nat, k: nat)
    requires a < b
    requires forall j: nat :: j <= b ==> Walk(e, p, c, j).Running?
    requires Walk(e, p, c, a) == Walk(e, p, c, b)
    ensures Walk(e, p, c, k).Running?
    decreases k
  {
    if k > b {
      WalkSplit(e, p, c, b, k - b);
      WalkSplit(e, p, c, a, k - b);
      RepeatRunsForever(e, p, c, a, b, a + (k - b));
    }
  }

  /** A reported cycle is a real one: the source's loop never exits. */
  lemma SelfDecayCycleDiverges(e: Event, index: int)
    requires SelfDecayEnd(e, index) == Err(SelfDecayCycle)
    ensures InRange(e, index)
    ensures forall k: nat :: Walk(e, e.pid[index], index, k).Running?
  {
    var n, p := Size(e), e.pid[index];
    FollowMatchesWalk(e, p, index, n);
    var s := seq(n + 1, k requires 0 <= k < n + 1 => Walk(e, p, index, k).at);
    forall k | 0 <= k < |s| ensures 0 <= s[k] < n {
      WalkRunningInRange(e, p, index, k);
    }
    Pigeonhole(s, n);
    var a, b :| 0 <= a < b < |s| && s[a] == s[b];
    forall k: nat ensures Walk(e, p, index, k).Running? {
      RepeatRunsForever(e, p, index, a, b, k);
    }
  }

  /** `SelfDecayEnd` returns v exactly when the source's loop exits at v. */
  lemma SelfDecayTerminates(e: Event, index: int, v: int)
    requires InRange(e, index)
    ensures SelfDecayEnd(e, index) == Ok(v) <==> exists k: nat :: Walk(e, e.pid[index], index, k) == Done(v)
  {
    var n, p := Size(e), e.pid[index];
    FollowMatchesWalk(e, p, index, n);
    if k: nat :| Walk(e, p, index, k) == Done(v) {
      var r := SelfDecayEnd(e, index);
      if r == Err(SelfDecayCycle) {
        SelfDecayCycleDiverges(e, index);
      } else {
        LoopOutcomeUnique(e, p, index, k, n + 1);
      }
    }
  }

  /** `SelfDecayEnd` reports a cycle exactly when the source's loop runs forever. */
  lemma SelfDecayCycleIffDiverges(e: Event, index: int)
    requires InRange(e, index)
    ensures SelfDecayEnd(e, index) == Err(SelfDecayCycle) <==>
      forall k: nat :: Walk(e, e.pid[index], index, k).Running?
  {
    var n, p := Size(e), e.pid[index];
    FollowMatchesWalk(e, p, index, n);
    if SelfDecayEnd(e, index) == Err(SelfDecayCycle) {
      SelfDecayCycleDiverges(e, index);
    } else {
      var r := Follow(e, p, index, n);
      if r.Ok? {
        assert Walk(e, p, index, n + 1) == Done(r.value);
      } else {
        assert Walk(e, p, index, n + 1) == Fault(r.error);
      }
      assert !Walk(e, p, index, n + 1).Running?;
    }
  }

  /** `SelfDecayEnd` fails on a read exactly when the source's loop does. */
  lemma SelfDecayFaults(e: Event, index: int, x: Error)
    requires InRange(e, index) && x != SelfDecayCycle
    ensures SelfDecayEnd(e, index) == Err(x) <==> exists k: nat :: Walk(e, e.pid[index], index, k) == Fault(x)
  {
    var n, p := Size(e), e.pid[index];
    FollowMatchesWalk(e, p, index, n);
    if k: nat :| Walk(e, p, index, k) == Fault(x) {
      var r := SelfDecayEnd(e, index);
      if r == Err(SelfDecayCycle) {
        SelfDecayCycleDiverges(e, index);
      } else {
        LoopOutcomeUnique(e, p, index, k, n + 1);
      }
    }
  }

  /** Two stopped states of one loop are the same state. */
  lemma LoopOutcomeUnique(e: Event, p: int, c: int, k: nat, k': nat)
    requires !Walk(e, p, c, k).Running? && !Walk(e, p, c, k').Running?
    ensures Walk(e, p, c, k) == Walk(e, p, c, k')
  {
    if k <= k' {
      WalkStaysStopped(e, p, c, k, k');
    } else {
      WalkStaysStopped(e, p, c, k', k);
    }
  }
}
