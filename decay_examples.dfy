/** Small synthetic events and what the resolver makes of them. */
module DecayExamples {
  import opened DecayRecord
  import opened SelfDecay
  import opened ParticleLocator
  import opened TopClassifier
  import opened DecayIndices

  /** A semileptonic top pair. The top (0) self-decays once into a copy (10), which decays
      to W+ (2) and b (3); W+ decays to u (6) and d-bar (7). The antitop (1) decays to W- (4)
      and b-bar (5); W- decays to an electron (8) and an anti-neutrino (9). Stable particles
      point at particle 0, whose PID differs from theirs. The PID of particle 7 and the
      first daughter of particle 3 are parameters, for the variants below. */
  function Semileptonic(pid7: int, d1Of3: int): Event {
    Arrays(
      [6, -6, 24, 5, -24, -5, 2, pid7, 11, -12, 6],
      [10, 4, 6, d1Of3, 8, 0, 0, 0, 0, 0, 2],
      [10, 5, 7, 0, 9, 0, 0, 0, 0, 0, 3])
  }

  /** The only particles of PID p are i < j, and j is the first daughter of i. */
  lemma LocateTwoLinked(e: Event, p: int, i: int, j: int)
    requires 0 <= i < j < Size(e) && e.pid[i] == p && e.pid[j] == p && e.d1[i] == j
    requires forall m :: 0 <= m < Size(e) && m != i && m != j ==> e.pid[m] != p
    ensures Locate(e, p) == Ok(j)
  {
    assert LastIndexOf(e.pid, p) == j;
  }

  /** The only particle of PID p is i. */
  lemma LocateSingle(e: Event, p: int, i: int)
    requires InRange(e, i) && e.pid[i] == p
    requires forall m :: 0 <= m < Size(e) && m != i ==> e.pid[m] != p
    ensures Locate(e, p) == Ok(i)
  {
    assert LastIndexOf(e.pid, p) == i;
  }

  /** In every variant, the top copy 10 and the antitop 1 are the located tops. */
  lemma SemileptonicLocated(pid7: int, d1Of3: int)
    requires Abs(pid7) != 6
    ensures ResolvedIndices(Semileptonic(pid7, d1Of3)) == Classify(Semileptonic(pid7, d1Of3), [10, 1])
  {
    var e := Semileptonic(pid7, d1Of3);
    LocateTwoLinked(e, 6, 0, 10);
    LocateSingle(e, -6, 1);
  }

  /** In every variant, the antitop classifies as the leptonic branch with W- (4) and b-bar (5). */
  lemma AntitopBranch(pid7: int, d1Of3: int)
    ensures TopBranch(Semileptonic(pid7, d1Of3), 1) == Ok(Branch(Leptonic, 1, 4, 5))
  {
    var e := Semileptonic(pid7, d1Of3);
    assert e.d1[1] == 4 && e.d2[1] == 5 && e.d1[4] == 8 && e.d2[4] == 9;
    assert SelfDecayEnd(e, 4) == Ok(4);
    assert SelfDecayEnd(e, 5) == Ok(5);
    assert e.pid[8] == 11 && e.pid[9] == -12;
  }

  /** With the b's first daughter outside its chain, the top copy 10 is hadronic when the
      W+ daughter `pid7` is a quark, and is rejected as "Not Valid Decay" otherwise. */
  lemma TopCopyBranch(pid7: int)
    ensures Abs(pid7) < 10 ==> TopBranch(Semileptonic(pid7, 0), 10) == Ok(Branch(Hadronic, 10, 2, 3))
    ensures Abs(pid7) >= 10 ==> TopBranch(Semileptonic(pid7, 0), 10) == Err(NotValidDecay)
  {
    var e := Semileptonic(pid7, 0);
    assert e.d1[10] == 2 && e.d2[10] == 3 && e.d1[2] == 6 && e.d2[2] == 7;
    assert SelfDecayEnd(e, 2) == Ok(2);
    assert SelfDecayEnd(e, 3) == Ok(3);
    assert Abs(e.pid[6]) == 2 && e.pid[7] == pid7;
  }

  /** With the b its own first daughter, the top copy 10 fails on the self-decay cycle. */
  lemma TopCopyCycle(pid7: int)
    ensures TopBranch(Semileptonic(pid7, 3), 10) == Err(SelfDecayCycle)
  {
    var e := Semileptonic(pid7, 3);
    assert e.d1[10] == 2 && e.d2[10] == 3 && e.d1[3] == 3;
    assert SelfDecayEnd(e, 2) == Ok(2);
    assert SelfDecayEnd(e, 3) == Err(SelfDecayCycle);
  }

  /** The semileptonic event resolves to the last top copy and its decay as the hadronic
      branch, and the antitop's decay as the leptonic branch. */
  lemma SemileptonicResolved()
    ensures ResolvedIndices(Semileptonic(-1, 0)) ==
      Ok(map[THad := 10, WHad := 2, BHad := 3, TLep := 1, WLep := 4, BLep := 5])
  {
    SemileptonicLocated(-1, 0);
    AntitopBranch(-1, 0);
    TopCopyBranch(-1);
    ClassifyPairOk(Semileptonic(-1, 0), 10, 1);
  }

  /** A W decaying to one quark and one lepton is rejected, not misclassified. */
  lemma MixedWDecayRejected()
    ensures ResolvedIndices(Semileptonic(13, 0)) == Err(NotValidDecay)
  {
    SemileptonicLocated(13, 0);
    TopCopyBranch(13);
    ClassifyPair(Semileptonic(13, 0), 10, 1);
  }

  /** A W daughter with |PID| 10 falls between the two tests and is rejected. */
  lemma PidTenRejected()
    ensures ResolvedIndices(Semileptonic(10, 0)) == Err(NotValidDecay)
  {
    SemileptonicLocated(10, 0);
    TopCopyBranch(10);
    ClassifyPair(Semileptonic(10, 0), 10, 1);
  }

  /** A b quark recorded as its own first daughter is a self-decay cycle: the event is
      rejected, where the source's loop would never return. */
  lemma SelfPointingCycleRejected()
    ensures ResolvedIndices(Semileptonic(-1, 3)) == Err(SelfDecayCycle)
  {
    SemileptonicLocated(-1, 3);
    TopCopyCycle(-1);
    ClassifyPair(Semileptonic(-1, 3), 10, 1);
  }
}
