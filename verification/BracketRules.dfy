/**
  * Rule N0 of UAX #9 (section 3.3.5) on one isolating run sequence: paired brackets.
  *
  * `Match` is the matching of definition BD16 over a prefix of the sequence, and `PairsNest` says what its pairs look
  * like. `ResolvePair` is parts b to d of the rule on one pair, `ResolvePairs` on a list of pairs in order, and `N0` on
  * the whole sequence. The second half proves that matching and resolving commute with the deletion of the characters
  * that rule X9 removes: `MapPair` carries places in the text to places after the deletion.
  */
module BracketRules {
  import opened Wrappers
  import opened BidiTypes
  import opened ChainRules
  import opened Brackets

  /** One character of the sequence; `None` when the stack of openers overflows. */
  function MatchAt(m: Matching, lookup: Lookup, c: char, class_: BidiClass, pos: nat): Option<Matching> {
    var bracket := lookup(c);
    if bracket.None? || !class_.OtherNeutral? then Some(m)
    else if bracket.value.1.Open? then
      if |m.open| >= MAX_PAIRING_DEPTH then None else Some(m.(open := m.open + [Opener(bracket.value.0, pos)]))
    else Some(Closed(m, c, pos))
  }

  /** The brackets matched before place `n`. */
  function Match(t: seq<BidiClass>, chars: seq<char>, lookup: Lookup, n: nat): Option<Matching>
    requires n <= |t| == |chars|
  {
    if n == 0 then Some(Matching([], []))
    else
      var m := Match(t, chars, lookup, n - 1);
      if m.None? then None else MatchAt(m.value, lookup, chars[n - 1], t[n - 1], n - 1)
  }

  predicate IsBracketPair(t: seq<BidiClass>, p: Pair) {
    p.opening < p.closing < |t| && t[p.opening].OtherNeutral? && t[p.closing].OtherNeutral?
  }

  ghost predicate AreBrackets(t: seq<BidiClass>, pairs: seq<Pair>) {
    forall k :: 0 <= k < |pairs| ==> IsBracketPair(t, pairs[k])
  }

  lemma NestedGrows(m: Matching, n: nat)
    requires Nested(m, n)
    ensures Nested(m, n + 1)
  {
  }

  lemma ClosedAre(t: seq<BidiClass>, m: Matching, c: char, n: nat)
    requires Nested(m, n) && n < |t| && t[n].OtherNeutral? && AreBrackets(t, m.pairs)
    requires forall k :: 0 <= k < |m.open| ==> t[m.open[k].pos].OtherNeutral?
    ensures AreBrackets(t, Closed(m, c, n).pairs)
    ensures forall k :: 0 <= k < |Closed(m, c, n).open| ==> t[Closed(m, c, n).open[k].pos].OtherNeutral?
  {
  }

  lemma MatchAtNests(t: seq<BidiClass>, m: Matching, lookup: Lookup, c: char, n: nat)
    requires Nested(m, n) && n < |t| && AreBrackets(t, m.pairs) && forall k :: 0 <= k < |m.open| ==>
      t[m.open[k].pos].OtherNeutral?
    requires MatchAt(m, lookup, c, t[n], n).Some?
    ensures var r := MatchAt(m, lookup, c, t[n], n).value;
      Nested(r, n + 1) && AreBrackets(t, r.pairs) && forall k :: 0 <= k < |r.open| ==> t[r.open[k].pos].OtherNeutral?
  {
    hide Nested, Closed, AreBrackets;
    var bracket := lookup(c);
    if bracket.Some? && t[n].OtherNeutral? {
      if bracket.value.1.Open? {
        PushNests(m, n, bracket.value.0);
      } else {
        CloseNests(m, n, c);
        ClosedAre(t, m, c, n);
      }
    } else {
      NestedGrows(m, n);
    }
  }

  lemma MatchStep(t: seq<BidiClass>, chars: seq<char>, lookup: Lookup, n: nat)
    requires n < |t| == |chars|
    ensures Match(t, chars, lookup, n + 1) ==
      if Match(t, chars, lookup, n).None? then None
      else MatchAt(Match(t, chars, lookup, n).value, lookup, chars[n], t[n], n)
  {
  }

  /**
    * BD16: the pairs nest, whatever the text: each opens before it closes, no place is used twice, and any two
    * lie apart or one strictly inside the other. They join places of class ON.
    */
  lemma {:induction false} PairsNest(t: seq<BidiClass>, chars: seq<char>, lookup: Lookup, n: nat)
    requires n <= |t| == |chars| && Match(t, chars, lookup, n).Some?
    ensures var m := Match(t, chars, lookup, n).value;
      Nested(m, n) && AreBrackets(t, m.pairs) && forall k :: 0 <= k < |m.open| ==> t[m.open[k].pos].OtherNeutral?
  {
    if n > 0 {
      PairsNest(t, chars, lookup, n - 1);
      MatchStep(t, chars, lookup, n - 1);
      hide Match, MatchAt, Nested, AreBrackets;
      MatchAtNests(t, Match(t, chars, lookup, n - 1).value, lookup, chars[n - 1], n - 1);
    }
  }

  lemma {:induction false} StaysNone(t: seq<BidiClass>, chars: seq<char>, lookup: Lookup, i: nat, n: nat)
    requires i <= n <= |t| == |chars| && Match(t, chars, lookup, i).None?
    ensures Match(t, chars, lookup, n).None?
  {
    if i < n {
      StaysNone(t, chars, lookup, i, n - 1);
    }
  }

  // ---- order of processing -----------------------------------------------------------------------

  function Insert(p: Pair, pairs: seq<Pair>): (r: seq<Pair>)
    ensures |r| == |pairs| + 1
  {
    if pairs == [] || pairs[|pairs| - 1].opening <= p.opening then pairs + [p]
    else Insert(p, pairs[..|pairs| - 1]) + [pairs[|pairs| - 1]]
  }

  /** The library sort of the pairs by opening position. */
  function Sort(pairs: seq<Pair>): (r: seq<Pair>)
    ensures |r| == |pairs|
  {
    if pairs == [] then [] else Insert(pairs[|pairs| - 1], Sort(pairs[..|pairs| - 1]))
  }

  lemma {:induction false} InsertAdds(p: Pair, pairs: seq<Pair>)
    ensures multiset(Insert(p, pairs)) == multiset(pairs) + multiset{p}
  {
    if pairs != [] && pairs[|pairs| - 1].opening > p.opening {
      InsertAdds(p, pairs[..|pairs| - 1]);
      assert pairs == pairs[..|pairs| - 1] + [pairs[|pairs| - 1]];
    }
  }

  /** Sorting keeps every pair as often as it occurs. */
  lemma {:induction false} SortPermutes(pairs: seq<Pair>)
    ensures multiset(Sort(pairs)) == multiset(pairs)
  {
    if pairs != [] {
      SortPermutes(pairs[..|pairs| - 1]);
      InsertAdds(pairs[|pairs| - 1], Sort(pairs[..|pairs| - 1]));
      assert pairs == pairs[..|pairs| - 1] + [pairs[|pairs| - 1]];
    }
  }

  lemma InsertHas(p: Pair, pairs: seq<Pair>, q: Pair)
    ensures q in Insert(p, pairs) <==> q == p || q in pairs
  {
    InsertAdds(p, pairs);
    assert q in Insert(p, pairs) <==> q in multiset(Insert(p, pairs));
  }

  lemma SortHas(pairs: seq<Pair>, q: Pair)
    ensures q in Sort(pairs) <==> q in pairs
  {
    SortPermutes(pairs);
    assert q in Sort(pairs) <==> q in multiset(Sort(pairs));
  }

  ghost predicate InOrder(pairs: seq<Pair>) {
    forall k, l :: 0 <= k < l < |pairs| ==> pairs[k].opening <= pairs[l].opening
  }

  lemma {:induction false} InsertKeepsOrder(p: Pair, pairs: seq<Pair>)
    requires InOrder(pairs)
    ensures InOrder(Insert(p, pairs))
  {
    if pairs != [] && pairs[|pairs| - 1].opening > p.opening {
      var init, last := pairs[..|pairs| - 1], pairs[|pairs| - 1];
      InsertKeepsOrder(p, init);
      var r := Insert(p, init);
      forall k | 0 <= k < |r|
        ensures r[k].opening <= last.opening
      {
        InsertHas(p, init, r[k]);
      }
    }
  }

  lemma {:induction false} SortSorts(pairs: seq<Pair>)
    ensures InOrder(Sort(pairs))
  {
    if pairs != [] {
      SortSorts(pairs[..|pairs| - 1]);
      InsertKeepsOrder(pairs[|pairs| - 1], Sort(pairs[..|pairs| - 1]));
    }
  }

  lemma SortKeeps(t: seq<BidiClass>, pairs: seq<Pair>)
    requires AreBrackets(t, pairs)
    ensures AreBrackets(t, Sort(pairs))
  {
    forall k | 0 <= k < |Sort(pairs)|
      ensures IsBracketPair(t, Sort(pairs)[k])
    {
      SortHas(pairs, Sort(pairs)[k]);
    }
  }

  // ---- one pair ----------------------------------------------------------------------------------

  predicate HasSide(t: seq<BidiClass>, lo: nat, hi: nat, dir: Direction)
    requires hi <= |t|
  {
    exists k :: lo <= k < hi && Side(t[k]) == Some(dir)
  }

  /** N0 b to d: the direction the pair takes, if the text inside has a strong type. */
  function PairDirection(t: seq<BidiClass>, p: Pair, b: Borders): Option<Direction>
    requires p.opening < p.closing < |t|
  {
    var e := LevelDirection(b.level);
    if HasSide(t, p.opening + 1, p.closing, e) then Some(e)
    else if HasSide(t, p.opening + 1, p.closing, e.Opposite()) then
      if BackSide(t, b.sos, p.opening) == Some(e.Opposite()) then Some(e.Opposite()) else Some(e)
    else None
  }

  /** All characters on `[from, k)` were nonspacing marks or are removed. */
  predicate Trails(orig: seq<BidiClass>, from: nat, k: nat)
    requires k <= |orig|
  {
    forall m :: from <= m < k ==> MarkOrRemoved(orig[m])
  }

  /** The marks that follow a bracket of the pair change with it. */
  predicate ChangesWith(orig: seq<BidiClass>, p: Pair, k: nat)
    requires k < |orig| && p.opening < p.closing < |orig|
  {
    || k == p.opening || k == p.closing
    || (p.opening < k < p.closing && orig[k].NonspacingMark? && Trails(orig, p.opening + 1, k))
    || (p.closing < k && orig[k].NonspacingMark? && Trails(orig, p.closing + 1, k))
  }

  function SetPair(t: seq<BidiClass>, orig: seq<BidiClass>, p: Pair, dir: Direction): (r: seq<BidiClass>)
    requires p.opening < p.closing < |t| == |orig|
    ensures |r| == |t| && forall k :: 0 <= k < |t| ==>
      r[k] == if ChangesWith(orig, p, k) then dir.AsBidiClass() else t[k]
  {
    seq(|t|, k requires 0 <= k < |t| => if ChangesWith(orig, p, k) then dir.AsBidiClass() else t[k])
  }

  function ResolvePair(t: seq<BidiClass>, orig: seq<BidiClass>, p: Pair, b: Borders): (r: seq<BidiClass>)
    requires p.opening < p.closing < |t| == |orig|
    ensures |r| == |t|
  {
    var dir := PairDirection(t, p, b);
    if dir.None? then t else SetPair(t, orig, p, dir.value)
  }

  predicate AreIn(pairs: seq<Pair>, n: nat) {
    forall k :: 0 <= k < |pairs| ==> pairs[k].opening < pairs[k].closing < n
  }

  function ResolvePairs(t: seq<BidiClass>, orig: seq<BidiClass>, pairs: seq<Pair>, b: Borders): (r: seq<BidiClass>)
    requires AreIn(pairs, |t|) && |t| == |orig|
    ensures |r| == |t|
  {
    if pairs == [] then t
    else ResolvePair(ResolvePairs(t, orig, pairs[..|pairs| - 1], b), orig, pairs[|pairs| - 1], b)
  }

  /** Rule N0 on a sequence; `None` when BD16 gives up. */
  function N0(
    t: seq<BidiClass>, orig: seq<BidiClass>, chars: seq<char>, lookup: Lookup, b: Borders): (r: Option<seq<BidiClass>>)
    requires |t| == |orig| == |chars|
    ensures r.Some? ==> |r.value| == |t|
  {
    var m := Match(t, chars, lookup, |t|);
    if m.None? then None
    else
      PairsNest(t, chars, lookup, |t|);
      SortKeeps(t, m.value.pairs);
      Some(ResolvePairs(t, orig, Sort(m.value.pairs), b))
  }

  // ---- what N0 changes ---------------------------------------------------------------------------

  predicate IsBracketPlace(pairs: seq<Pair>, k: nat) {
    exists l :: 0 <= l < |pairs| && (k == pairs[l].opening || k == pairs[l].closing)
  }

  /** N0 changes paired brackets and characters that were nonspacing marks, to L or R, and nothing else. */
  lemma {:induction false} PairsChange(t: seq<BidiClass>, orig: seq<BidiClass>, pairs: seq<Pair>, b: Borders, k: nat)
    requires AreIn(pairs, |t|) && k < |t| == |orig|
    ensures var r := ResolvePairs(t, orig, pairs, b)[k];
      r == t[k] || (!NotDirectional(r) && (IsBracketPlace(pairs, k) || orig[k].NonspacingMark?))
  {
    if pairs != [] {
      var init := pairs[..|pairs| - 1];
      PairsChange(t, orig, init, b, k);
      assert IsBracketPlace(init, k) ==> IsBracketPlace(pairs, k);
      assert ChangesWith(orig, pairs[|pairs| - 1], k) ==> IsBracketPlace(pairs, k) || orig[k].NonspacingMark?;
    }
  }

  function MapPair(t: seq<BidiClass>, p: Pair): Pair
    requires p.opening <= |t| && p.closing <= |t|
  {
    Pair(Rank(t, p.opening), Rank(t, p.closing))
  }

  function MapPairs(t: seq<BidiClass>, pairs: seq<Pair>): (r: seq<Pair>)
    requires AreIn(pairs, |t|)
    ensures |r| == |pairs| && forall k :: 0 <= k < |pairs| ==> r[k] == MapPair(t, pairs[k])
  {
    seq(|pairs|, k requires 0 <= k < |pairs| => MapPair(t, pairs[k]))
  }

  lemma PairsMapSnoc(t: seq<BidiClass>, pairs: seq<Pair>, p: Pair)
    requires AreIn(pairs, |t|) && p.opening < p.closing < |t|
    ensures AreIn(pairs + [p], |t|) && MapPairs(t, pairs + [p]) == MapPairs(t, pairs) + [MapPair(t, p)]
  {
    hide Rank;
  }

  predicate IsKeptPair(t: seq<BidiClass>, p: Pair) {
    p.opening < p.closing < |t| && !t[p.opening].IsRemoved() && !t[p.closing].IsRemoved()
  }

  lemma KeptPairMaps(t: seq<BidiClass>, p: Pair)
    requires IsKeptPair(t, p)
    ensures Rank(t, p.opening) < Rank(t, p.closing) < |Deleted(t)|
  {
    CompactAt(t, t, p.closing);
    RankGrows(t, p.opening, p.closing);
  }

  lemma {:induction false} CompactSame<T>(t: seq<BidiClass>, u: seq<BidiClass>, x: seq<T>)
    requires SameRemoved(t, u) && |x| == |t|
    ensures Compact(t, x) == Compact(u, x)
  {
    if t != [] {
      CompactSame(t[..|t| - 1], u[..|t| - 1], x[..|t| - 1]);
    }
  }

  lemma RankKeepsOrder(t: seq<BidiClass>, i: nat, j: nat)
    requires i < |t| && j < |t| && !t[i].IsRemoved() && !t[j].IsRemoved()
    ensures Rank(t, i) <= Rank(t, j) <==> i <= j
  {
    if i <= j {
      RankGrows(t, i, j);
    } else {
      RankGrows(t, j, i);
    }
  }

  lemma TrailsCompacts(t: seq<BidiClass>, orig: seq<BidiClass>, from: nat, k: nat)
    requires from <= k <= |t| && SameRemoved(t, orig)
    ensures Rank(t, k) <= |Compact(t, orig)|
    ensures Trails(Compact(t, orig), Rank(t, from), Rank(t, k)) <==> Trails(orig, from, k)
  {
    CompactLength(t, orig);
    RankGrows(t, k, |t|);
    if Trails(orig, from, k) {
      forall c | Rank(t, from) <= c < Rank(t, k)
        ensures MarkOrRemoved(Compact(t, orig)[c])
      {
        var i := RankOnto(t, k, c);
        CompactAt(t, orig, i);
        if i < from {
          RankGrows(t, i, from);
        }
      }
    }
    if Trails(Compact(t, orig), Rank(t, from), Rank(t, k)) {
      forall m | from <= m < k
        ensures MarkOrRemoved(orig[m])
      {
        if !t[m].IsRemoved() {
          CompactAt(t, orig, m);
          RankGrows(t, from, m);
          RankGrows(t, m, k);
        }
      }
    }
  }

  lemma ChangesCompacts(t: seq<BidiClass>, orig: seq<BidiClass>, p: Pair, k: nat)
    requires IsKeptPair(t, p) && SameRemoved(t, orig) && k < |t| && !t[k].IsRemoved()
    ensures Rank(t, p.opening) < Rank(t, p.closing) < |Compact(t, orig)| && Rank(t, k) < |Compact(t, orig)|
    ensures ChangesWith(Compact(t, orig), MapPair(t, p), Rank(t, k)) <==> ChangesWith(orig, p, k)
  {
    hide Rank, Compact, Deleted, Trails;
    KeptRank(t, orig, k);
    KeptRank(t, orig, p.opening);
    KeptRank(t, orig, p.closing);
    RankGrows(t, p.opening + 1, p.closing);
    RankKeepsOrder(t, k, p.opening);
    RankKeepsOrder(t, p.opening, k);
    RankKeepsOrder(t, k, p.closing);
    RankKeepsOrder(t, p.closing, k);
    if p.opening < k {
      TrailsCompacts(t, orig, p.opening + 1, k);
    }
    if p.closing < k {
      TrailsCompacts(t, orig, p.closing + 1, k);
    }
  }

  lemma SideKept(t: seq<BidiClass>, lo: nat, hi: nat, dir: Direction, k: nat)
    requires lo <= k < hi <= |t| && Side(t[k]) == Some(dir) && Rank(t, hi) <= |Deleted(t)|
    ensures HasSide(Deleted(t), Rank(t, lo), Rank(t, hi), dir)
  {
    hide Rank, Deleted, Compact;
    KeptRank(t, t, k);
    RankGrows(t, lo, k);
    RankGrows(t, k + 1, hi);
  }

  lemma SideRestored(t: seq<BidiClass>, lo: nat, hi: nat, dir: Direction, c: nat)
    requires lo <= hi <= |t| && Rank(t, lo) <= c < Rank(t, hi) && c < |Deleted(t)| && Side(Deleted(t)[c]) == Some(dir)
    ensures HasSide(t, lo, hi, dir)
  {
    hide Rank, Compact;
    var i := RankOnto(t, hi, c);
    CompactAt(t, t, i);
    if i < lo {
      KeptRank(t, t, i);
      RankGrows(t, i + 1, lo);
    }
  }

  lemma HasSideCompacts(t: seq<BidiClass>, lo: nat, hi: nat, dir: Direction)
    requires lo <= hi <= |t|
    ensures Rank(t, hi) <= |Deleted(t)|
    ensures HasSide(Deleted(t), Rank(t, lo), Rank(t, hi), dir) <==> HasSide(t, lo, hi, dir)
  {
    CompactLength(t, t);
    RankGrows(t, hi, |t|);
    hide Rank, Deleted, Compact;
    if c: nat :| Rank(t, lo) <= c < Rank(t, hi) && Side(Deleted(t)[c]) == Some(dir) {
      SideRestored(t, lo, hi, dir, c);
    }
    if k: nat :| lo <= k < hi && Side(t[k]) == Some(dir) {
      SideKept(t, lo, hi, dir, k);
    }
  }

  lemma DirectionCompacts(t: seq<BidiClass>, p: Pair, b: Borders)
    requires IsKeptPair(t, p)
    ensures Rank(t, p.opening) < Rank(t, p.closing) < |Deleted(t)|
    ensures PairDirection(Deleted(t), MapPair(t, p), b) == PairDirection(t, p, b)
  {
    KeptPairMaps(t, p);
    assert Rank(t, p.opening + 1) == Rank(t, p.opening) + 1;
    hide Rank, Compact, HasSide, Back;
    HasSideCompacts(t, p.opening + 1, p.closing, Ltr);
    HasSideCompacts(t, p.opening + 1, p.closing, Rtl);
    BackCompacts(t, p.opening, NeutralOrRemoved);
  }

  /** Equal at the places of kept characters is equal after the deletion. */
  lemma CompactIs<T>(t: seq<BidiClass>, x: seq<T>, y: seq<T>)
    requires |x| == |t| && |y| == |Deleted(t)|
    requires forall i :: 0 <= i < |t| && !t[i].IsRemoved() ==> Rank(t, i) < |y| && y[Rank(t, i)] == x[i]
    ensures Compact(t, x) == y
  {
    CompactLength(t, x);
    CompactLength(t, t);
    forall c | 0 <= c < |y|
      ensures Compact(t, x)[c] == y[c]
    {
      var i := RankOnto(t, |t|, c);
      CompactAt(t, x, i);
    }
  }

  lemma ResolvePairCompacts(t: seq<BidiClass>, orig: seq<BidiClass>, p: Pair, b: Borders)
    requires IsKeptPair(t, p) && SameRemoved(t, orig)
    ensures Rank(t, p.opening) < Rank(t, p.closing) < |Deleted(t)| == |Compact(t, orig)|
    ensures Compact(t, ResolvePair(t, orig, p, b)) == ResolvePair(Deleted(t), Compact(t, orig), MapPair(t, p), b)
  {
    DirectionCompacts(t, p, b);
    CompactLength(t, orig);
    CompactLength(t, t);
    var r, r' := ResolvePair(t, orig, p, b), ResolvePair(Deleted(t), Compact(t, orig), MapPair(t, p), b);
    hide PairDirection, ChangesWith, Rank, Compact;
    forall i | 0 <= i < |t| && !t[i].IsRemoved()
      ensures Rank(t, i) < |r'| && r'[Rank(t, i)] == r[i]
    {
      CompactAt(t, t, i);
      ChangesCompacts(t, orig, p, i);
    }
    CompactIs(t, r, r');
  }

  lemma KeepsRemoved(t: seq<BidiClass>, u: seq<BidiClass>, orig: seq<BidiClass>, p: Pair, b: Borders)
    requires SameRemoved(t, u) && SameRemoved(t, orig) && IsKeptPair(u, p)
    ensures SameRemoved(t, ResolvePair(u, orig, p, b))
  {
    hide PairDirection, Trails;
    var v := ResolvePair(u, orig, p, b);
    forall k | 0 <= k < |t|
      ensures t[k].IsRemoved() <==> v[k].IsRemoved()
    {
      assert t[k].IsRemoved() <==> u[k].IsRemoved();
      assert t[k].IsRemoved() <==> orig[k].IsRemoved();
    }
  }

  lemma KeptInBoth(t: seq<BidiClass>, u: seq<BidiClass>, orig: seq<BidiClass>, p: Pair)
    requires IsBracketPair(t, p) && SameRemoved(t, u) && SameRemoved(t, orig)
    ensures IsKeptPair(t, p) && IsKeptPair(u, p) && SameRemoved(u, orig)
  {
  }

  lemma SameRanks(t: seq<BidiClass>, u: seq<BidiClass>, p: Pair)
    requires SameRemoved(t, u) && p.opening < p.closing < |t|
    ensures MapPair(t, p) == MapPair(u, p)
  {
    SamePattern(t, u, p.opening);
    SamePattern(t, u, p.closing);
  }

  lemma LastPairCompacts(t: seq<BidiClass>, orig: seq<BidiClass>, init: seq<Pair>, last: Pair, b: Borders)
    requires AreIn(init, |t|) && IsBracketPair(t, last) && SameRemoved(t, orig)
    requires SameRemoved(t, ResolvePairs(t, orig, init, b))
    ensures Rank(t, last.opening) < Rank(t, last.closing) < |Deleted(t)| == |Compact(t, orig)|
    ensures var u := ResolvePairs(t, orig, init, b);
      && SameRemoved(t, ResolvePair(u, orig, last, b))
      && |Compact(t, u)| == |Deleted(t)|
      && Compact(t, ResolvePair(u, orig, last, b)) == ResolvePair(Compact(t, u), Compact(t, orig), MapPair(t, last), b)
  {
    var u := ResolvePairs(t, orig, init, b);
    var v := ResolvePair(u, orig, last, b);
    KeptInBoth(t, u, orig, last);
    hide ResolvePairs, ResolvePair, AreIn, Compact, Rank, SameRemoved, IsKeptPair;
    KeptPairMaps(t, last);
    CompactLength(t, u);
    CompactLength(t, t);
    ResolvePairCompacts(u, orig, last, b);
    KeepsRemoved(t, u, orig, last, b);
    CompactSame(t, u, u);
    CompactSame(t, u, orig);
    CompactSame(t, u, v);
    SameRanks(t, u, last);
  }

  lemma MappedIn(t: seq<BidiClass>, pairs: seq<Pair>)
    requires AreBrackets(t, pairs)
    ensures AreIn(pairs, |t|) && AreIn(MapPairs(t, pairs), |Deleted(t)|)
  {
    hide Rank, Deleted;
    forall k | 0 <= k < |pairs|
      ensures MapPairs(t, pairs)[k].opening < MapPairs(t, pairs)[k].closing < |Deleted(t)|
    {
      assert IsBracketPair(t, pairs[k]);
      KeptPairMaps(t, pairs[k]);
    }
  }

  lemma ResolvePairsSnoc(t: seq<BidiClass>, orig: seq<BidiClass>, init: seq<Pair>, last: Pair, b: Borders)
    requires AreIn(init, |t|) && |t| == |orig| && last.opening < last.closing < |t|
    ensures AreIn(init + [last], |t|)
    ensures ResolvePairs(t, orig, init + [last], b) == ResolvePair(ResolvePairs(t, orig, init, b), orig, last, b)
  {
    hide ResolvePair;
    assert (init + [last])[..|init|] == init;
  }

  lemma BracketsSnoc(t: seq<BidiClass>, init: seq<Pair>, last: Pair)
    requires AreBrackets(t, init + [last])
    ensures AreBrackets(t, init) && IsBracketPair(t, last)
  {
    hide IsBracketPair;
    assert (init + [last])[|init|] == last;
    assert forall k :: 0 <= k < |init| ==> (init + [last])[k] == init[k];
  }

  lemma NoPairs(t: seq<BidiClass>, orig: seq<BidiClass>, b: Borders)
    requires |t| == |orig|
    ensures MapPairs(t, []) == [] && ResolvePairs(t, orig, [], b) == t && SameRemoved(t, t)
  {
  }

  lemma {:induction false} ResolvePairsCompacts(t: seq<BidiClass>, orig: seq<BidiClass>, pairs: seq<Pair>, b: Borders)
    requires AreBrackets(t, pairs) && SameRemoved(t, orig)
    ensures AreIn(MapPairs(t, pairs), |Deleted(t)|) && |Compact(t, orig)| == |Deleted(t)|
    ensures SameRemoved(t, ResolvePairs(t, orig, pairs, b))
    ensures Compact(t, ResolvePairs(t, orig, pairs, b)) ==
      ResolvePairs(Deleted(t), Compact(t, orig), MapPairs(t, pairs), b)
  {
    CompactLength(t, orig);
    CompactLength(t, t);
    hide Rank, Compact, ResolvePair, ResolvePairs, SameRemoved, AreBrackets, AreIn;
    MappedIn(t, pairs);
    if pairs == [] {
      NoPairs(t, orig, b);
      NoPairs(Deleted(t), Compact(t, orig), b);
    } else {
      var init, last := pairs[..|pairs| - 1], pairs[|pairs| - 1];
      assert pairs == init + [last];
      BracketsSnoc(t, init, last);
      ResolvePairsCompacts(t, orig, init, b);
      MappedIn(t, init);
      LastPairCompacts(t, orig, init, last, b);
      PairsMapSnoc(t, init, last);
      ResolvePairsSnoc(t, orig, init, last, b);
      ResolvePairsSnoc(Deleted(t), Compact(t, orig), MapPairs(t, init), MapPair(t, last), b);
    }
  }

  lemma N0KeepsRemoved(t: seq<BidiClass>, orig: seq<BidiClass>, chars: seq<char>, lookup: Lookup, b: Borders)
    requires |t| == |orig| == |chars| && SameRemoved(t, orig) && N0(t, orig, chars, lookup, b).Some?
    ensures SameRemoved(t, N0(t, orig, chars, lookup, b).value)
  {
    var pairs := Match(t, chars, lookup, |t|).value.pairs;
    PairsNest(t, chars, lookup, |t|);
    SortKeeps(t, pairs);
    hide Match, ResolvePairs, Sort, AreBrackets, Nested;
    ResolvePairsCompacts(t, orig, Sort(pairs), b);
  }

  predicate IsUnmarked(orig: seq<BidiClass>, p: Pair) {
    p.opening < p.closing < |orig| && !orig[p.opening].NonspacingMark? && !orig[p.closing].NonspacingMark?
  }

  /** No bracket was a nonspacing mark, so that no other pair's marks include it. */
  ghost predicate NoMarkIsBracket(orig: seq<BidiClass>, pairs: seq<Pair>) {
    forall k :: 0 <= k < |pairs| ==> IsUnmarked(orig, pairs[k])
  }

  ghost predicate AllCompatible(pairs: seq<Pair>) {
    forall i, j :: 0 <= i < j < |pairs| ==> Compatible(pairs[i], pairs[j])
  }

  lemma {:induction false} InsertKeepsCompatible(p: Pair, pairs: seq<Pair>)
    requires AllCompatible(pairs) && forall i :: 0 <= i < |pairs| ==> Compatible(p, pairs[i])
    ensures AllCompatible(Insert(p, pairs))
  {
    if pairs != [] && pairs[|pairs| - 1].opening > p.opening {
      var init := pairs[..|pairs| - 1];
      InsertKeepsCompatible(p, init);
      forall k | 0 <= k < |Insert(p, init)|
        ensures Compatible(Insert(p, init)[k], pairs[|pairs| - 1])
      {
        InsertHas(p, init, Insert(p, init)[k]);
      }
    }
  }

  lemma {:induction false} SortKeepsCompatible(pairs: seq<Pair>)
    requires AllCompatible(pairs)
    ensures AllCompatible(Sort(pairs))
  {
    if pairs != [] {
      var init, last := pairs[..|pairs| - 1], pairs[|pairs| - 1];
      SortKeepsCompatible(init);
      forall i | 0 <= i < |Sort(init)|
        ensures Compatible(last, Sort(init)[i])
      {
        SortHas(init, Sort(init)[i]);
      }
      InsertKeepsCompatible(last, Sort(init));
    }
  }

  /** The two brackets of a pair end with one class: a direction, or ON as before. */
  lemma {:induction false} PairsAgree(t: seq<BidiClass>, orig: seq<BidiClass>, pairs: seq<Pair>, b: Borders, l: nat)
    requires AreBrackets(t, pairs) && |t| == |orig| && l < |pairs|
    requires NoMarkIsBracket(orig, pairs)
    requires AllCompatible(pairs)
    ensures ResolvePairs(t, orig, pairs, b)[pairs[l].opening] == ResolvePairs(t, orig, pairs, b)[pairs[l].closing]
  {
    hide PairDirection, Trails;
    var init, last := pairs[..|pairs| - 1], pairs[|pairs| - 1];
    var u := ResolvePairs(t, orig, init, b);
    assert forall k :: 0 <= k < |init| ==> init[k] == pairs[k];
    if l < |init| {
      assert IsUnmarked(orig, pairs[l]) && Compatible(pairs[l], last);
      PairsAgree(t, orig, init, b, l);
    } else {
      assert IsUnmarked(orig, last) && IsBracketPair(t, last);
      PairsChange(t, orig, init, b, last.opening);
      PairsChange(t, orig, init, b, last.closing);
      assert !IsBracketPlace(init, last.opening) && !IsBracketPlace(init, last.closing);
    }
  }

  /** Rule N0 gives the two brackets of every BD16 pair one class: this is pair `k` of those that BD16 finds. */
  lemma {:induction false} N0PairsAgree(
    t: seq<BidiClass>, orig: seq<BidiClass>, chars: seq<char>, lookup: Lookup, b: Borders, m: Matching,
    r: seq<BidiClass>, k: nat)
    requires |t| == |orig| == |chars| && Match(t, chars, lookup, |t|) == Some(m)
    requires N0(t, orig, chars, lookup, b) == Some(r)
    requires NoMarkIsBracket(orig, m.pairs) && k < |m.pairs|
    ensures m.pairs[k].opening < m.pairs[k].closing < |r|
    ensures r[m.pairs[k].opening] == r[m.pairs[k].closing]
  {
    var pairs, p := m.pairs, m.pairs[k];
    var sorted := Sort(pairs);
    PairsNest(t, chars, lookup, |t|);
    SortKeeps(t, pairs);
    SortKeepsCompatible(pairs);
    SortHas(pairs, p);
    var l :| 0 <= l < |sorted| && sorted[l] == p;
    forall k | 0 <= k < |sorted|
      ensures IsUnmarked(orig, sorted[k])
    {
      SortHas(pairs, sorted[k]);
    }
    PairsAgree(t, orig, sorted, b, l);
  }

  // ---- deleting what X9 removed ------------------------------------------------------------------

  predicate OpenersIn(open: seq<Opener>, n: nat) {
    forall k :: 0 <= k < |open| ==> open[k].pos < n
  }

  function MapOpen(t: seq<BidiClass>, open: seq<Opener>): (r: seq<Opener>)
    requires OpenersIn(open, |t|)
    ensures |r| == |open| && forall k :: 0 <= k < |open| ==> r[k] == Opener(open[k].closing, Rank(t, open[k].pos))
  {
    seq(|open|, k requires 0 <= k < |open| => Opener(open[k].closing, Rank(t, open[k].pos)))
  }

  function MapMatching(t: seq<BidiClass>, m: Matching): Matching
    requires OpenersIn(m.open, |t|) && AreIn(m.pairs, |t|)
  {
    Matching(MapOpen(t, m.open), MapPairs(t, m.pairs))
  }

  lemma OpenMapsTake(t: seq<BidiClass>, open: seq<Opener>, d: nat)
    requires OpenersIn(open, |t|) && d <= |open|
    ensures OpenersIn(open[..d], |t|) && MapOpen(t, open[..d]) == MapOpen(t, open)[..d]
  {
    hide Rank;
  }

  lemma {:induction false} FindOpenerMaps(t: seq<BidiClass>, open: seq<Opener>, c: char)
    requires OpenersIn(open, |t|)
    ensures FindOpener(MapOpen(t, open), c) == FindOpener(open, c)
  {
    hide Rank, SameBracket;
    if open != [] {
      var top := |open| - 1;
      OpenMapsTake(t, open, top);
      FindOpenerMaps(t, open[..top], c);
    }
  }

  lemma NestedIsIn(t: seq<BidiClass>, m: Matching, n: nat)
    requires n < |t| && Nested(m, n)
    ensures AreIn(m.pairs, |t|) && OpenersIn(m.open, |t|) && OpenersIn(m.open, n)
  {
  }

  lemma ClosedMaps(t: seq<BidiClass>, m: Matching, c: char, n: nat)
    requires n < |t| && Nested(m, n)
    ensures AreIn(Closed(m, c, n).pairs, |t|) && OpenersIn(Closed(m, c, n).open, |t|)
    ensures Closed(MapMatching(t, m), c, Rank(t, n)) == MapMatching(t, Closed(m, c, n))
  {
    hide Rank, SameBracket, Nested;
    NestedIsIn(t, m, n);
    FindOpenerMaps(t, m.open, c);
    var d := FindOpener(m.open, c);
    if d.Some? {
      OpenMapsTake(t, m.open, d.value);
      PairsMapSnoc(t, m.pairs, Pair(m.open[d.value].pos, n));
      hide FindOpener, AreIn, OpenersIn, MapPairs, MapOpen;
    }
  }

  lemma OpenedMaps(t: seq<BidiClass>, m: Matching, closing: char, n: nat)
    requires n < |t| && Nested(m, n)
    ensures AreIn(m.pairs, |t|) && OpenersIn(m.open + [Opener(closing, n)], |t|)
    ensures MapMatching(t, m.(open := m.open + [Opener(closing, n)])) ==
      var m' := MapMatching(t, m); m'.(open := m'.open + [Opener(closing, Rank(t, n))])
  {
    assert MapOpen(t, m.open + [Opener(closing, n)]) == MapOpen(t, m.open) + [Opener(closing, Rank(t, n))];
  }

  lemma MapKeepsDepth(t: seq<BidiClass>, m: Matching)
    requires AreIn(m.pairs, |t|) && OpenersIn(m.open, |t|)
    ensures |MapMatching(t, m).open| == |m.open|
  {
  }

  lemma MatchAtMaps(t: seq<BidiClass>, m: Matching, lookup: Lookup, c: char, n: nat)
    requires n < |t| && Nested(m, n)
    ensures var r := MatchAt(m, lookup, c, t[n], n);
      if r.None? then MatchAt(MapMatching(t, m), lookup, c, t[n], Rank(t, n)).None?
      else
        && AreIn(r.value.pairs, |t|) && OpenersIn(r.value.open, |t|)
        && MatchAt(MapMatching(t, m), lookup, c, t[n], Rank(t, n)) == Some(MapMatching(t, r.value))
  {
    hide Closed, MapMatching, Nested;
    NestedIsIn(t, m, n);
    var bracket := lookup(c);
    if bracket.Some? {
      if bracket.value.1.Open? {
        OpenedMaps(t, m, bracket.value.0, n);
      } else {
        ClosedMaps(t, m, c, n);
      }
    }
    MapKeepsDepth(t, m);
  }

  /** The brackets matched before place `n`, and those matched before its place after the deletion. */
  ghost predicate MatchesAlike(t: seq<BidiClass>, chars: seq<char>, lookup: Lookup, n: nat)
    requires n <= |t| == |chars|
  {
    && |Deleted(t)| == |Compact(t, chars)| && Rank(t, n) <= |Deleted(t)|
    && var m, m' := Match(t, chars, lookup, n), Match(Deleted(t), Compact(t, chars), lookup, Rank(t, n));
       if m.None? then m'.None?
       else AreIn(m.value.pairs, |t|) && OpenersIn(m.value.open, |t|) && m' == Some(MapMatching(t, m.value))
  }

  lemma KeptMatch(t: seq<BidiClass>, chars: seq<char>, lookup: Lookup, n: nat)
    requires n < |t| == |chars| && !t[n].IsRemoved() && MatchesAlike(t, chars, lookup, n)
    ensures MatchesAlike(t, chars, lookup, n + 1)
  {
    hide Match, MatchAt, MapMatching, Deleted, Compact, Rank, Nested;
    KeptRank(t, chars, n);
    RankGrows(t, n + 1, |t|);
    MatchStep(t, chars, lookup, n);
    MatchStep(Deleted(t), Compact(t, chars), lookup, Rank(t, n));
    var m := Match(t, chars, lookup, n);
    if m.Some? {
      PairsNest(t, chars, lookup, n);
      MatchAtMaps(t, m.value, lookup, chars[n], n);
    }
  }

  lemma RemovedMatch(t: seq<BidiClass>, chars: seq<char>, lookup: Lookup, n: nat)
    requires n < |t| == |chars| && t[n].IsRemoved() && MatchesAlike(t, chars, lookup, n)
    ensures MatchesAlike(t, chars, lookup, n + 1)
  {
    hide Match, MapMatching, Deleted, Compact;
    MatchStep(t, chars, lookup, n);
    assert Rank(t, n + 1) == Rank(t, n);
  }

  lemma NoMatch(t: seq<BidiClass>, chars: seq<char>, lookup: Lookup)
    requires |t| == |chars|
    ensures MatchesAlike(t, chars, lookup, 0)
  {
    CompactLength(t, t);
    CompactLength(t, chars);
    assert MapMatching(t, Matching([], [])) == Matching([], []);
  }

  /** BD16 finds the same brackets whether or not the removed characters are there. */
  lemma {:induction false} MatchCompacts(t: seq<BidiClass>, chars: seq<char>, lookup: Lookup, n: nat)
    requires n <= |t| == |chars|
    ensures MatchesAlike(t, chars, lookup, n)
  {
    hide *;
    if n == 0 {
      NoMatch(t, chars, lookup);
    } else {
      MatchCompacts(t, chars, lookup, n - 1);
      if t[n - 1].IsRemoved() {
        RemovedMatch(t, chars, lookup, n - 1);
      } else {
        KeptMatch(t, chars, lookup, n - 1);
      }
    }
  }

  lemma {:induction false} InsertMaps(t: seq<BidiClass>, p: Pair, pairs: seq<Pair>)
    requires IsBracketPair(t, p) && AreBrackets(t, pairs)
    ensures AreIn(Insert(p, pairs), |t|)
    ensures MapPairs(t, Insert(p, pairs)) == Insert(MapPair(t, p), MapPairs(t, pairs))
  {
    hide Rank, MapPairs;
    if pairs != [] && pairs[|pairs| - 1].opening > p.opening {
      var init, last := pairs[..|pairs| - 1], pairs[|pairs| - 1];
      assert pairs == init + [last];
      assert IsBracketPair(t, last);
      RankKeepsOrder(t, last.opening, p.opening);
      InsertMaps(t, p, init);
      assert MapPairs(t, pairs)[..|init|] == MapPairs(t, init);
    } else {
      if pairs != [] {
        assert IsBracketPair(t, pairs[|pairs| - 1]);
        RankKeepsOrder(t, pairs[|pairs| - 1].opening, p.opening);
      }
    }
  }

  lemma {:induction false} SortMaps(t: seq<BidiClass>, pairs: seq<Pair>)
    requires AreBrackets(t, pairs)
    ensures AreIn(Sort(pairs), |t|)
    ensures MapPairs(t, Sort(pairs)) == Sort(MapPairs(t, pairs))
  {
    if pairs != [] {
      var init, last := pairs[..|pairs| - 1], pairs[|pairs| - 1];
      SortMaps(t, init);
      SortKeeps(t, init);
      assert IsBracketPair(t, last);
      InsertMaps(t, last, Sort(init));
      assert MapPairs(t, init) == MapPairs(t, pairs)[..|init|];
    }
  }

  /** Rule N0 too does the same whether the removed characters are kept in the text or deleted. */
  lemma {:induction false} N0RetainingEqualsDeleting(
    t: seq<BidiClass>, orig: seq<BidiClass>, chars: seq<char>, lookup: Lookup, b: Borders)
    requires |t| == |chars| && SameRemoved(t, orig)
    ensures |Deleted(t)| == |Compact(t, orig)| == |Compact(t, chars)|
    ensures var r := N0(t, orig, chars, lookup, b);
      N0(Deleted(t), Compact(t, orig), Compact(t, chars), lookup, b) == if r.None? then None else Some(Deleted(r.value))
  {
    CompactLength(t, orig);
    CompactLength(t, t);
    MatchCompacts(t, chars, lookup, |t|);
    var m := Match(t, chars, lookup, |t|);
    if m.Some? {
      PairsNest(t, chars, lookup, |t|);
      SortKeeps(t, m.value.pairs);
      SortMaps(t, m.value.pairs);
      hide Match, Sort, MapPairs, ResolvePairs;
      var pairs := Sort(m.value.pairs);
      ResolvePairsCompacts(t, orig, pairs, b);
      var r := ResolvePairs(t, orig, pairs, b);
      CompactSame(t, r, r);
    }
  }
}
