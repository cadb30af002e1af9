/** TopDecayClassifier: `ClassifyTopQuark`.

    For each top-quark index, in order: resolve both daughters through
    self-decay, take the one with |PID| == 24 as the W boson and the other as
    the b quark, then label the branch by the PIDs of the W's two raw
    daughters: leptonic when both magnitudes exceed 10, hadronic when both are
    below 10, an error otherwise. The labelled indices are written into a
    dictionary with the keys t_had, W_had, b_had, t_lep, W_lep, b_lep; a
    second top landing in a branch that is already filled is an error.
 */
module TopClassifier {
  import opened DecayRecord
  import opened SelfDecay

  /** The six keys of the result dictionary. */
  datatype Key = THad | WHad | BHad | TLep | WLep | BLep

  const AllKeys: set<Key> := {THad, WHad, BHad, TLep, WLep, BLep}

  datatype Kind = Hadronic | Leptonic

  /** One classified top: its branch, and the indices of the top, its W and its b. */
  datatype Branch = Branch(kind: Kind, top: int, w: int, b: int)

  function TopKey(k: Kind): Key {
    if k == Hadronic then THad else TLep
  }

  function WKey(k: Kind): Key {
    if k == Hadronic then WHad else WLep
  }

  function BKey(k: Kind): Key {
    if k == Hadronic then BHad else BLep
  }

  /** The error for a second top in branch k. */
  function Duplicate(k: Kind): Error {
    if k == Leptonic then TwoLeptonic else TwoHadronic
  }

  function Min(x: int, y: int): int {
    if x <= y then x else y
  }

  function Max(x: int, y: int): int {
    if x <= y then y else x
  }

  /** The classification of the top at index `top`: the body of the source's loop. */
  function TopBranch(e: Event, top: int): (r: Result<Branch>)
    // a classified top is a particle of the record, and so are its W and its b
    ensures r.Ok? ==> r.value.top == top && InRange(e, top)
    ensures r.Ok? ==> InRange(e, r.value.w) && InRange(e, r.value.b)
    // the W has |PID| 24 and is not a self-decay copy of anything further down
    ensures r.Ok? ==>
      Abs(e.pid[r.value.w]) == 24 && InRange(e, e.d1[r.value.w]) && e.pid[e.d1[r.value.w]] != e.pid[r.value.w]
  {
    var first :- D1(e, top);
    var i1 :- SelfDecayEnd(e, first);
    // D1 was read at `top`, so D2 can be read there too
    var i2 :- SelfDecayEnd(e, e.d2[top]);
    if Abs(e.pid[i1]) != 24 && Abs(e.pid[i2]) != 24 then Err(NoWBoson)
    else
      var w := if Abs(e.pid[i1]) == 24 then i1 else i2;
      var b := if Abs(e.pid[i1]) == 24 then i2 else i1;
      // the W's daughters are read raw, without resolving self-decays
      // w is the end of a self-decay walk, which read its first daughter's PID already
      var child1 := e.pid[e.d1[w]];
      var child2 :- Pid(e, e.d2[w]);
      // `np.min(a, b)` and `np.max(a, b)` in the source stand for the binary min and max
      if Min(Abs(child1), Abs(child2)) > 10 then Ok(Branch(Leptonic, top, w, b))
      else if Max(Abs(child1), Abs(child2)) < 10 then Ok(Branch(Hadronic, top, w, b))
      else Err(NotValidDecay)
  }

  /** The dictionary `acc` with one classified top written into its branch's three keys. */
  function Assign(acc: map<Key, int>, br: Branch): map<Key, int> {
    acc[TopKey(br.kind) := br.top][WKey(br.kind) := br.w][BKey(br.kind) := br.b]
  }

  /** The top at index t classifies, and the dictionary m holds it as its branch's top. */
  ghost predicate Recorded(e: Event, m: map<Key, int>, t: int) {
    TopBranch(e, t).Ok? && TopKey(TopBranch(e, t).value.kind) in m && m[TopKey(TopBranch(e, t).value.kind)] == t
  }

  /** The source's loop over `tops`, started from the dictionary `acc`. */
  function ClassifyFrom(e: Event, tops: seq<int>, acc: map<Key, int>): (r: Result<map<Key, int>>)
    decreases |tops|
    // no key is removed, and a top, once written, is never overwritten
    ensures r.Ok? ==> acc.Keys <= r.value.Keys
    ensures r.Ok? ==> forall k | k in acc && (k == THad || k == TLep) :: r.value[k] == acc[k]
    // every listed top classifies and is recorded as the top of its branch
    ensures r.Ok? ==> forall j :: 0 <= j < |tops| ==> Recorded(e, r.value, tops[j])
  {
    if tops == [] then Ok(acc)
    else
      var br :- TopBranch(e, tops[0]);
      // The source tests `"t_lep" not in t_indices.keys()` on the list of tops; the
      // evident intent, modelled here, is the dictionary being filled.
      if TopKey(br.kind) in acc then Err(Duplicate(br.kind))
      else
        assert Assign(acc, br)[TopKey(br.kind)] == tops[0];
        assert forall k | k in acc && (k == THad || k == TLep) :: Assign(acc, br)[k] == acc[k];
        assert forall j :: 1 <= j < |tops| ==> tops[j] == tops[1..][j - 1];
        ClassifyFrom(e, tops[1..], Assign(acc, br))
  }

  /** What `ClassifyTopQuark` computes. */
  function Classify(e: Event, tops: seq<int>): (r: Result<map<Key, int>>)
    // every listed top classifies and is recorded as the top of its branch
    ensures r.Ok? ==> forall j :: 0 <= j < |tops| ==> Recorded(e, r.value, tops[j])
  {
    ClassifyFrom(e, tops, map[])
  }

  /** The source's `ClassifyTopQuark(tree, entry, t_indices)` on the event record. */
  method ClassifyTopQuark(e: Event, tops: seq<int>) returns (r: Result<map<Key, int>>)
    ensures r == Classify(e, tops)
  {
    var indices: map<Key, int> := map[];
    for k := 0 to |tops|
      invariant ClassifyFrom(e, tops[k..], indices) == Classify(e, tops)
    {
      var index := tops[k];
      assert tops[k..][0] == index && tops[k..][1..] == tops[k + 1..];
      // one of the two resolved daughters is the W, the other the b
      var first :- D1(e, index);
      var dIndex1 :- TraverseSelfDecay(e, first);
      var dIndex2 :- TraverseSelfDecay(e, e.d2[index]);
      if Abs(e.pid[dIndex1]) != 24 && Abs(e.pid[dIndex2]) != 24 {
        return Err(NoWBoson);
      }
      var wIndex, bIndex;
      if Abs(e.pid[dIndex1]) == 24 {
        wIndex, bIndex := dIndex1, dIndex2;
      } else {
        wIndex, bIndex := dIndex2, dIndex1;
      }
      // the W is the end of a self-decay walk, which read its first daughter's PID already
      var child1 := e.pid[e.d1[wIndex]];
      var child2 :- Pid(e, e.d2[wIndex]);
      if Min(Abs(child1), Abs(child2)) > 10 {
        if TLep in indices {
          return Err(TwoLeptonic);
        }
        // `t_indices[index]` in the source stands for the top index itself
        indices := indices[TLep := index][WLep := wIndex][BLep := bIndex];
      } else if Max(Abs(child1), Abs(child2)) < 10 {
        if THad in indices {
          return Err(TwoHadronic);
        }
        indices := indices[THad := index][WHad := wIndex][BHad := bIndex];
      } else {
        return Err(NotValidDecay);
      }
    }
    return Ok(indices);
  }

  /** The W is the first resolved daughter when it has |PID| 24, else the second; the b is
      the other one; the search fails only when neither has |PID| 24. */
  lemma TopBranchWBoson(e: Event, top: int, i1: int, i2: int)
    requires InRange(e, top)
    requires SelfDecayEnd(e, e.d1[top]) == Ok(i1) && SelfDecayEnd(e, e.d2[top]) == Ok(i2)
    ensures TopBranch(e, top) == Err(NoWBoson) <==> Abs(e.pid[i1]) != 24 && Abs(e.pid[i2]) != 24
    ensures TopBranch(e, top).Ok? ==>
      TopBranch(e, top).value.top == top &&
      (if Abs(e.pid[i1]) == 24
       then TopBranch(e, top).value.w == i1 && TopBranch(e, top).value.b == i2
       else TopBranch(e, top).value.w == i2 && TopBranch(e, top).value.b == i1)
  {
  }

  /** The branch is leptonic exactly when both raw W daughters have |PID| > 10, hadronic
      exactly when both have |PID| < 10, and "Not Valid Decay" in every other case, so a
      daughter with |PID| == 10 is never accepted. */
  lemma TopBranchKind(e: Event, top: int, i1: int, i2: int, w: int)
    requires InRange(e, top)
    requires SelfDecayEnd(e, e.d1[top]) == Ok(i1) && SelfDecayEnd(e, e.d2[top]) == Ok(i2)
    requires w == (if Abs(e.pid[i1]) == 24 then i1 else i2) && Abs(e.pid[w]) == 24
    requires InRange(e, e.d2[w])
    ensures var x, y := Abs(e.pid[e.d1[w]]), Abs(e.pid[e.d2[w]]);
      && (TopBranch(e, top).Ok? && TopBranch(e, top).value.kind == Leptonic <==> x > 10 && y > 10)
      && (TopBranch(e, top).Ok? && TopBranch(e, top).value.kind == Hadronic <==> x < 10 && y < 10)
      && (TopBranch(e, top) == Err(NotValidDecay) <==> !(x > 10 && y > 10) && !(x < 10 && y < 10))
      && (x == 10 || y == 10 ==> TopBranch(e, top) == Err(NotValidDecay))
  {
  }

  /** How many of the two branches the dictionary already holds. */
  function Filled(acc: map<Key, int>): nat {
    (if THad in acc then 1 else 0) + (if TLep in acc then 1 else 0)
  }

  /** The loop accepts at most two tops, one per branch. */
  lemma {:induction false} ClassifyFromAtMostTwo(e: Event, tops: seq<int>, acc: map<Key, int>)
    ensures ClassifyFrom(e, tops, acc).Ok? ==> |tops| + Filled(acc) <= 2
    decreases |tops|
  {
    if tops != [] && TopBranch(e, tops[0]).Ok? {
      var br := TopBranch(e, tops[0]).value;
      if TopKey(br.kind) !in acc {
        assert Filled(Assign(acc, br)) == Filled(acc) + 1;
        ClassifyFromAtMostTwo(e, tops[1..], Assign(acc, br));
      }
    }
  }

  /** `ClassifyTopQuark` succeeds on at most two tops. */
  lemma ClassifyAtMostTwo(e: Event, tops: seq<int>)
    ensures Classify(e, tops).Ok? ==> |tops| <= 2
  {
    ClassifyFromAtMostTwo(e, tops, map[]);
  }

  /** Every index the loop writes is a particle of the record. */
  lemma {:induction false} ClassifyFromInRange(e: Event, tops: seq<int>, acc: map<Key, int>)
    requires forall k | k in acc :: InRange(e, acc[k])
    ensures ClassifyFrom(e, tops, acc).Ok? ==>
      forall k | k in ClassifyFrom(e, tops, acc).value :: InRange(e, ClassifyFrom(e, tops, acc).value[k])
    decreases |tops|
  {
    if tops != [] && TopBranch(e, tops[0]).Ok? {
      var br := TopBranch(e, tops[0]).value;
      if TopKey(br.kind) !in acc {
        ClassifyFromInRange(e, tops[1..], Assign(acc, br));
      }
    }
  }

  /** Every index in a successful `ClassifyTopQuark` result lies in [0, N). */
  lemma ClassifyInRange(e: Event, tops: seq<int>)
    ensures Classify(e, tops).Ok? ==>
      forall k | k in Classify(e, tops).value :: InRange(e, Classify(e, tops).value[k])
  {
    ClassifyFromInRange(e, tops, map[]);
  }

  /** Two tops: the classification succeeds exactly when both classify and they land in
      different branches; it then fills all six keys with their indices. Otherwise it
      reports the first top's failure, then the second's, and a duplicate branch last. */
  lemma ClassifyPair(e: Event, a: int, b: int)
    ensures Classify(e, [a, b]).Ok? <==>
      TopBranch(e, a).Ok? && TopBranch(e, b).Ok? && TopBranch(e, a).value.kind != TopBranch(e, b).value.kind
    ensures Classify(e, [a, b]).Ok? ==>
      var m, x, y := Classify(e, [a, b]).value, TopBranch(e, a).value, TopBranch(e, b).value;
      && m.Keys == AllKeys
      && m[TopKey(x.kind)] == a && m[WKey(x.kind)] == x.w && m[BKey(x.kind)] == x.b
      && m[TopKey(y.kind)] == b && m[WKey(y.kind)] == y.w && m[BKey(y.kind)] == y.b
    ensures TopBranch(e, a).Err? ==> Classify(e, [a, b]) == Err(TopBranch(e, a).error)
    ensures TopBranch(e, a).Ok? && TopBranch(e, b).Err? ==> Classify(e, [a, b]) == Err(TopBranch(e, b).error)
    ensures TopBranch(e, a).Ok? && TopBranch(e, b).Ok? && TopBranch(e, a).value.kind == TopBranch(e, b).value.kind ==>
      Classify(e, [a, b]) == Err(Duplicate(TopBranch(e, a).value.kind))
  {
    assert [a, b][0] == a && [a, b][1..] == [b] && [b][1..] == [];
    if TopBranch(e, a).Ok? {
      var x := TopBranch(e, a).value;
      assert Classify(e, [a, b]) == ClassifyFrom(e, [b], Assign(map[], x));
      if TopBranch(e, b).Ok? && x.kind != TopBranch(e, b).value.kind {
        ClassifyPairOk(e, a, b);
        AssignBoth(x, TopBranch(e, b).value);
      }
    }
  }

  /** Two tops of different branches: the dictionary holds both, the first written first. */
  lemma ClassifyPairOk(e: Event, a: int, b: int)
    requires TopBranch(e, a).Ok? && TopBranch(e, b).Ok?
    requires TopBranch(e, a).value.kind != TopBranch(e, b).value.kind
    ensures Classify(e, [a, b]) == Ok(Assign(Assign(map[], TopBranch(e, a).value), TopBranch(e, b).value))
  {
    var acc := Assign(map[], TopBranch(e, a).value);
    assert [a, b][0] == a && [a, b][1..] == [b] && [b][1..] == [];
    assert Classify(e, [a, b]) == ClassifyFrom(e, [b], acc);
    assert ClassifyFrom(e, [b], acc) == ClassifyFrom(e, [], Assign(acc, TopBranch(e, b).value));
  }

  /** Two branches of different kinds fill all six keys with their own indices, and the
      order in which they are written does not matter. */
  lemma AssignBoth(x: Branch, y: Branch)
    requires x.kind != y.kind
    ensures var m := Assign(Assign(map[], x), y);
      && m == Assign(Assign(map[], y), x)
      && m.Keys == AllKeys
      && m[TopKey(x.kind)] == x.top && m[WKey(x.kind)] == x.w && m[BKey(x.kind)] == x.b
      && m[TopKey(y.kind)] == y.top && m[WKey(y.kind)] == y.w && m[BKey(y.kind)] == y.b
  {
  }

  /** A successful classification does not depend on the order of the two tops. */
  lemma ClassifyPairSymmetric(e: Event, a: int, b: int)
    requires Classify(e, [a, b]).Ok?
    ensures Classify(e, [b, a]) == Classify(e, [a, b])
  {
    ClassifyPair(e, a, b);
    ClassifyPairOk(e, a, b);
    ClassifyPairOk(e, b, a);
    AssignBoth(TopBranch(e, a).value, TopBranch(e, b).value);
  }
}
