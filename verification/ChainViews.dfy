/**
  * How the rules on sequences act on the paragraph: chains as views of the class array.
  *
  * The source walks each sequence through its list of indices and writes to the class array of the paragraph.
  * `View` is what one chain shows of that array. Since the chains share no index, rewriting one leaves the views of
  * the others alone; `Rewritten` states how far a pass over all sequences has come, and that nothing else has changed.
  * `Obeys` states the same for a whole rule. `Ready` is what every pass needs and keeps: the chains are those of
  * rule X10, and classes and levels agree on which characters are deleted.
  */
module ChainViews {
  import opened BidiTypes
  import opened LevelRuns
  import opened ChainRules

  ghost predicate InText(n: nat, indices: seq<nat>) {
    forall a :: 0 <= a < |indices| ==> indices[a] < n
  }

  ghost predicate Ascends(indices: seq<nat>) {
    forall a, b :: 0 <= a < b < |indices| ==> indices[a] < indices[b]
  }

  /** What a chain shows of an array over the paragraph. */
  function View<T>(x: seq<T>, indices: seq<nat>): (v: seq<T>)
    requires InText(|x|, indices)
    ensures |v| == |indices| && forall a :: 0 <= a < |v| ==> v[a] == x[indices[a]]
  {
    seq(|indices|, a requires 0 <= a < |indices| => x[indices[a]])
  }

  ghost predicate SameOutside(before: seq<BidiClass>, after: seq<BidiClass>, indices: seq<nat>) {
    && |before| == |after|
    && forall i: nat :: i < |before| && i !in indices ==> after[i] == before[i]
  }

  function BordersOf(sq: IsolatingRunSequence): Borders {
    Borders(sq.sos, sq.eos, sq.level)
  }

  ghost predicate Agree(types: seq<BidiClass>, levels: seq<Level>) {
    && |types| == |levels|
    && forall i :: 0 <= i < |types| ==> (levels[i] == NO_LEVEL <==> types[i].IsRemoved())
  }

  /** Classes and levels agree on what is removed, and the chains are those of rule X10. */
  ghost predicate Ready(types: seq<BidiClass>, levels: seq<Level>, seqs: seq<IsolatingRunSequence>) {
    && AreChains(levels, seqs)
    && Agree(types, levels)
  }

  ghost predicate IsReadyChain(types: seq<BidiClass>, levels: seq<Level>, sq: IsolatingRunSequence) {
    && Agree(types, levels)
    && InText(|types|, sq.indices) && Ascends(sq.indices) && BordersOf(sq).Valid()
    && forall a :: 0 <= a < |sq.indices| ==> levels[sq.indices[a]] == NO_LEVEL || levels[sq.indices[a]] == sq.level
  }

  lemma ReadyChain(types: seq<BidiClass>, levels: seq<Level>, seqs: seq<IsolatingRunSequence>, s: nat)
    requires Ready(types, levels, seqs) && s < |seqs|
    ensures IsReadyChain(types, levels, seqs[s])
  {
    assert IsChain(levels, seqs[s]);
  }

  /** The chains of `seqs[..n]` now show `results`; the rest of the paragraph is as before. */
  ghost predicate Rewritten(
    before: seq<BidiClass>, after: seq<BidiClass>, seqs: seq<IsolatingRunSequence>, results: seq<seq<BidiClass>>,
    n: nat) {
    && |before| == |after| && n <= |seqs| && n <= |results|
    && (forall s :: 0 <= s < |seqs| ==> InText(|before|, seqs[s].indices))
    && (forall s :: 0 <= s < n ==> View(after, seqs[s].indices) == results[s])
    && (forall i: nat :: i < |before| && (forall s: nat :: s < n ==> !InChain(seqs, s, i)) ==> after[i] == before[i])
  }

  /** A chain that no earlier sequence touched still shows what it showed. */
  lemma Untouched(
    before: seq<BidiClass>, mid: seq<BidiClass>, levels: seq<Level>, seqs: seq<IsolatingRunSequence>,
    results: seq<seq<BidiClass>>, n: nat, s: nat)
    requires AreChains(levels, seqs) && Rewritten(before, mid, seqs, results, n) && n <= s < |seqs|
    ensures View(mid, seqs[s].indices) == View(before, seqs[s].indices)
  {
    forall a | 0 <= a < |seqs[s].indices|
      ensures mid[seqs[s].indices[a]] == before[seqs[s].indices[a]]
    {
      assert InChain(seqs, s, seqs[s].indices[a]);
    }
  }

  lemma RewriteStep(
    before: seq<BidiClass>, mid: seq<BidiClass>, after: seq<BidiClass>, levels: seq<Level>,
    seqs: seq<IsolatingRunSequence>,
    results: seq<seq<BidiClass>>, n: nat)
    requires AreChains(levels, seqs) && Rewritten(before, mid, seqs, results, n) && n < |seqs| && n < |results|
    requires SameOutside(mid, after, seqs[n].indices)
    requires View(after, seqs[n].indices) == results[n]
    ensures Rewritten(before, after, seqs, results, n + 1)
  {
    forall s | 0 <= s < n
      ensures View(after, seqs[s].indices) == results[s]
    {
      forall a | 0 <= a < |seqs[s].indices|
        ensures after[seqs[s].indices[a]] == mid[seqs[s].indices[a]]
      {
        assert InChain(seqs, s, seqs[s].indices[a]);
        assert !InChain(seqs, n, seqs[s].indices[a]);
      }
      assert View(after, seqs[s].indices) == View(mid, seqs[s].indices);
    }
    forall i: nat | i < |before| && forall s: nat :: s < n + 1 ==> !InChain(seqs, s, i)
      ensures after[i] == before[i]
    {
      assert !InChain(seqs, n, i);
    }
  }

  /** What `rule` makes of each chain. */
  ghost function Results(rule: Rule, types: seq<BidiClass>, seqs: seq<IsolatingRunSequence>): (r: seq<seq<BidiClass>>)
    requires forall s :: 0 <= s < |seqs| ==> InText(|types|, seqs[s].indices)
    ensures |r| == |seqs| && forall s :: 0 <= s < |seqs| ==>
      r[s] == Apply(rule, View(types, seqs[s].indices), BordersOf(seqs[s]))
  {
    seq(|seqs|, s requires 0 <= s < |seqs| => Apply(rule, View(types, seqs[s].indices), BordersOf(seqs[s])))
  }

  /** All chains of the paragraph are rewritten by `rule`, and nothing else changes. */
  ghost predicate Obeys(rule: Rule, before: seq<BidiClass>, after: seq<BidiClass>, seqs: seq<IsolatingRunSequence>) {
    && (forall s :: 0 <= s < |seqs| ==> InText(|before|, seqs[s].indices))
    && Rewritten(before, after, seqs, Results(rule, before, seqs), |seqs|)
  }

  lemma ApplyKeepsRemoved(rule: Rule, t: seq<BidiClass>, b: Borders)
    requires b.Valid()
    ensures SameRemoved(t, Apply(rule, t, b))
  {
    forall a | 0 <= a < |t|
      ensures t[a].IsRemoved() <==> Apply(rule, t, b)[a].IsRemoved()
    {
      AtKeepsRemoved(rule, t, b, a);
    }
  }

  lemma ObeysKeepsReady(
    rule: Rule, before: seq<BidiClass>, after: seq<BidiClass>, levels: seq<Level>, seqs: seq<IsolatingRunSequence>)
    requires Ready(before, levels, seqs) && Obeys(rule, before, after, seqs)
    ensures Ready(after, levels, seqs)
  {
    forall s | 0 <= s < |seqs|
      ensures SameRemoved(View(before, seqs[s].indices), Results(rule, before, seqs)[s])
    {
      ReadyChain(before, levels, seqs, s);
      ApplyKeepsRemoved(rule, View(before, seqs[s].indices), BordersOf(seqs[s]));
    }
  }
}
