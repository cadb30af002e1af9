/** DecayIndexResolver: `GetIndices`.

    Locates the top quark (PID 6) and the top antiquark (PID -6), in that
    order, and classifies the pair. A failure of either step is returned
    unchanged. A missing top is located as -1, as in the source, and passed
    to the classifier, whose bounds-checked read of D1 at -1 rejects it.
 */
module DecayIndices {
  import opened DecayRecord
  import opened ParticleLocator
  import opened TopClassifier

  /** What `GetIndices` computes. */
  ghost function ResolvedIndices(e: Event): (r: Result<map<Key, int>>)
    // a resolved event fills all six keys, with the located top and antitop as the two tops
    ensures r.Ok? ==> Locate(e, 6).Ok? && Locate(e, -6).Ok?
    ensures r.Ok? ==>
      r.value.Keys == AllKeys && {r.value[THad], r.value[TLep]} == {Locate(e, 6).value, Locate(e, -6).value}
  {
    var t :- Locate(e, 6);
    var tbar :- Locate(e, -6);
    ClassifyPair(e, t, tbar);
    Classify(e, [t, tbar])
  }

  /** The source's `GetIndices(tree, entry)` on the event record. */
  method GetIndices(e: Event) returns (r: Result<map<Key, int>>)
    ensures r == ResolvedIndices(e)
    // a resolved event names six particles of the record
    ensures r.Ok? ==> r.value.Keys == AllKeys && forall k | k in r.value :: InRange(e, r.value[k])
  {
    var t :- GetParticleIndex(e, 6);
    var tbar :- GetParticleIndex(e, -6);
    r := ClassifyTopQuark(e, [t, tbar]);
    ClassifyPair(e, t, tbar);
    ClassifyInRange(e, [t, tbar]);
  }

  /** A resolved event: the two tops are the located top and antitop, one per branch,
      each W has |PID| 24, and all six indices lie in [0, N). */
  lemma ResolvedIndicesSound(e: Event)
    requires ResolvedIndices(e).Ok?
    ensures var m := ResolvedIndices(e).value;
      && m.Keys == AllKeys
      && (forall k | k in m :: InRange(e, m[k]))
      && {m[THad], m[TLep]} == {Locate(e, 6).value, Locate(e, -6).value}
      && e.pid[m[THad]] != e.pid[m[TLep]] && Abs(e.pid[m[THad]]) == 6 && Abs(e.pid[m[TLep]]) == 6
      && Abs(e.pid[m[WHad]]) == 24 && Abs(e.pid[m[WLep]]) == 24
  {
    var t, tbar := Locate(e, 6).value, Locate(e, -6).value;
    ClassifyPair(e, t, tbar);
    ClassifyInRange(e, [t, tbar]);
    LocateFound(e, 6);
    LocateFound(e, -6);
  }

  /** An event without a top or without an antitop is never resolved. */
  lemma MissingTopRejected(e: Event)
    requires 6 !in e.pid || -6 !in e.pid
    ensures ResolvedIndices(e).Err?
  {
    LocateAbsent(e, 6);
    LocateAbsent(e, -6);
    if Locate(e, 6).Ok? && Locate(e, -6).Ok? {
      ClassifyPair(e, Locate(e, 6).value, Locate(e, -6).value);
    }
  }
}
