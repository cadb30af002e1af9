/** ParticleLocator: `GetParticleIndex`.

    Scans the record for a PID and returns the last matching index, or -1
    when there is none. A later match is accepted only when it is the first
    daughter of the match recorded before it ("Particle not unique"
    otherwise): the matches must be successive self-decay copies of one
    particle.
 */
module ParticleLocator {
  import opened DecayRecord
  import opened SelfDecay

  /** The last index of x in s, or -1 when x does not occur in s. */
  function LastIndexOf(s: seq<int>, x: int): (r: int)
    ensures -1 <= r < |s|
    ensures r == -1 <==> x !in s
    ensures r >= 0 ==> s[r] == x && forall j :: r < j < |s| ==> s[j] != x
  {
    if |s| == 0 then -1
    else if s[|s| - 1] == x then |s| - 1
    else LastIndexOf(s[..|s| - 1], x)
  }

  /** j is the next particle of PID p after i. */
  ghost predicate NextMatch(e: Event, p: int, i: int, j: int) {
    0 <= i < j < Size(e) && e.pid[i] == p && e.pid[j] == p &&
    forall m :: i < m < j ==> e.pid[m] != p
  }

  /** Some particle of PID p is followed by another that is not its first daughter. */
  ghost predicate Unlinked(e: Event, p: int) {
    exists i, j :: NextMatch(e, p, i, j) && e.d1[i] != j
  }

  /** What `GetParticleIndex` computes: the ambiguity failure, or the last match (-1 if none). */
  ghost function Locate(e: Event, p: int): (r: Result<int>)
    ensures r.Ok? ==> -1 <= r.value < Size(e)
    ensures r.Ok? && r.value >= 0 ==> e.pid[r.value] == p
    ensures r.Err? ==> r.error == NotUnique
  {
    if Unlinked(e, p) then Err(NotUnique) else Ok(LastIndexOf(e.pid, p))
  }

  /** Every particle of PID p below `bound` that has a next one below `bound` has it as
      its first daughter: what the scan has checked after looking at [0, bound). */
  ghost predicate LinkedBelow(e: Event, p: int, bound: int) {
    forall a, b :: NextMatch(e, p, a, b) && b < bound ==> e.d1[a] == b
  }

  /** The source's `GetParticleIndex(tree, entry, pid)` on the event record. */
  method GetParticleIndex(e: Event, pid: int) returns (r: Result<int>)
    ensures r == Locate(e, pid)
  {
    // The source builds `Counter(pid)` over the scalar pid; the evident intent,
    // modelled here, is "pid occurs among the event's PIDs".
    if pid !in e.pid {
      return Ok(-1);
    }
    var index := -1;
    for i := 0 to Size(e)
      invariant index == LastIndexOf(e.pid[..i], pid)
      invariant LinkedBelow(e, pid, i)
    {
      ScanStep(e, pid, i);
      if e.pid[i] == pid {
        if index == -1 {
          index := i;
        } else {
          if e.d1[index] != i {
            return Err(NotUnique);
          }
          index := i;
        }
      }
    }
    assert e.pid[..Size(e)] == e.pid;
    return Ok(index);
  }

  /** One iteration of the scan at i, with `last` the match recorded before it: a match at
      i that is not the first daughter of `last` shows the PID is not unique; otherwise the
      recorded match and the checked links extend to [0, i + 1). */
  lemma ScanStep(e: Event, p: int, i: int)
    requires 0 <= i < Size(e)
    requires LinkedBelow(e, p, i)
    ensures var last := LastIndexOf(e.pid[..i], p);
      && (e.pid[i] == p && last != -1 && e.d1[last] != i ==> Unlinked(e, p))
      && (!(e.pid[i] == p && last != -1 && e.d1[last] != i) ==> LinkedBelow(e, p, i + 1))
      && LastIndexOf(e.pid[..i + 1], p) == (if e.pid[i] == p then i else last)
  {
    var last := LastIndexOf(e.pid[..i], p);
    LastIndexOfExtend(e.pid, p, i);
    if e.pid[i] == p && last != -1 {
      ScanNextMatch(e, p, i);
    }
    if !(e.pid[i] == p && last != -1 && e.d1[last] != i) {
      forall a, b | NextMatch(e, p, a, b) && b < i + 1 ensures e.d1[a] == b {
        if b == i {
          ScanNextMatch(e, p, i);
        }
      }
    }
  }

  /** Looking at one more element: the last match moves to i exactly when s[i] matches. */
  lemma LastIndexOfExtend(s: seq<int>, x: int, i: int)
    requires 0 <= i < |s|
    ensures LastIndexOf(s[..i + 1], x) == if s[i] == x then i else LastIndexOf(s[..i], x)
  {
    assert s[..i + 1][..i] == s[..i];
  }

  /** A match at i is the next match after the last one seen before i. */
  lemma ScanNextMatch(e: Event, p: int, i: int)
    requires 0 <= i < Size(e) && e.pid[i] == p
    ensures var last := LastIndexOf(e.pid[..i], p);
      last != -1 ==> NextMatch(e, p, last, i)
    ensures forall a :: NextMatch(e, p, a, i) ==> a == LastIndexOf(e.pid[..i], p)
  {
    var last := LastIndexOf(e.pid[..i], p);
    forall m | 0 <= m < i ensures e.pid[..i][m] == e.pid[m] {
    }
  }

  /** -1 is returned exactly when no particle of the event has PID p. */
  lemma LocateAbsent(e: Event, p: int)
    ensures Locate(e, p) == Ok(-1) <==> p !in e.pid
  {
  }

  /** A successful search names the last particle of PID p. */
  lemma LocateFound(e: Event, p: int)
    requires Locate(e, p).Ok? && Locate(e, p).value != -1
    ensures InRange(e, Locate(e, p).value) && e.pid[Locate(e, p).value] == p
    ensures forall j :: Locate(e, p).value < j < Size(e) ==> e.pid[j] != p
  {
  }

  /** The search fails, with "Particle not unique", exactly when some particle of PID p is
      followed by a next one that is not its first daughter. */
  lemma LocateNotUnique(e: Event, p: int)
    ensures Locate(e, p).Err? <==> exists i, j :: NextMatch(e, p, i, j) && e.d1[i] != j
    ensures Locate(e, p).Err? ==> Locate(e, p).error == NotUnique
  {
  }

  /** Every particle of PID p reaches the located one through same-PID first-daughter
      links: the located particle is their last self-decay copy. */
  lemma {:induction false} LocateFollowsChain(e: Event, p: int, m: int)
    requires InRange(e, m) && e.pid[m] == p
    requires Locate(e, p).Ok?
    ensures exists k: nat :: Walk(e, p, m, k) == Running(Locate(e, p).value)
    decreases Size(e) - m
  {
    var last := Locate(e, p).value;
    if m == last {
      assert Walk(e, p, m, 0) == Running(last);
    } else {
      var next := NextIndexOf(e.pid, p, m + 1);
      assert NextMatch(e, p, m, next);
      assert StepFrom(e, p, m) == Running(next);
      LocateFollowsChain(e, p, next);
      var k: nat :| Walk(e, p, next, k) == Running(last);
      assert Walk(e, p, m, k + 1) == Running(last);
    }
  }

  /** The first index at or after `from` where x occurs, when x occurs at or after the
      last index of s. */
  function NextIndexOf(s: seq<int>, x: int, from: nat): (r: nat)
    requires from <= LastIndexOf(s, x)
    ensures from <= r <= LastIndexOf(s, x) && s[r] == x
    ensures forall j :: from <= j < r ==> s[j] != x
    decreases |s| - from
  {
    if s[from] == x then from else NextIndexOf(s, x, from + 1)
  }
}
