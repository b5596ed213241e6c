/** Definition BD16 of UAX #9 (section 3.1.3) in words: which brackets pair, and that nothing else fits the words. */
module BracketMeanings {
  import opened Wrappers
  import opened BidiTypes
  import opened Brackets
  import opened BracketRules

  predicate IsBracket(t: seq<BidiClass>, chars: seq<char>, lookup: Lookup, i: nat, kind: BracketType)
    requires |t| == |chars|
  {
    i < |t| && t[i].OtherNeutral? && lookup(chars[i]).Some? && lookup(chars[i]).value.1 == kind
  }

  /** An opening bracket at `o` and a closing one at `c` that belongs to it. */
  predicate Fits(t: seq<BidiClass>, chars: seq<char>, lookup: Lookup, o: nat, c: nat)
    requires |t| == |chars|
  {
    && o < c && IsBracket(t, chars, lookup, o, Open) && IsBracket(t, chars, lookup, c, Close)
    && SameBracket(lookup(chars[o]).value.0, chars[c])
  }

  /** The opener at `o` still waits before place `n`: no pair that ends before `n` begins with it or drops it. */
  ghost predicate Waits(pairs: seq<Pair>, o: nat, n: nat) {
    forall p :: p in pairs ==> !(p.opening <= o < p.closing < n)
  }

  /** A closer pairs with the last opener that fits it and still waits. */
  ghost predicate IsBd16Pair(t: seq<BidiClass>, chars: seq<char>, lookup: Lookup, pairs: seq<Pair>, o: nat, c: nat)
    requires |t| == |chars|
  {
    && Fits(t, chars, lookup, o, c) && Waits(pairs, o, c)
    && forall x :: o < x < c && Fits(t, chars, lookup, x, c) ==> !Waits(pairs, x, c)
  }

  /** The pairs that end before place `n` are those of BD16. */
  ghost predicate ObeysBd16(t: seq<BidiClass>, chars: seq<char>, lookup: Lookup, pairs: seq<Pair>, n: nat)
    requires |t| == |chars|
  {
    forall o: nat, c: nat :: c < n ==> (Pair(o, c) in pairs <==> IsBd16Pair(t, chars, lookup, pairs, o, c))
  }

  // ---- the matcher obeys BD16 --------------------------------------------------------------------

  ghost predicate IsWaiting(m: Matching, o: nat) {
    exists k :: 0 <= k < |m.open| && m.open[k].pos == o
  }

  predicate HoldsOpener(t: seq<BidiClass>, chars: seq<char>, lookup: Lookup, x: Opener)
    requires |t| == |chars|
  {
    IsBracket(t, chars, lookup, x.pos, Open) && x.closing == lookup(chars[x.pos]).value.0
  }

  /** The stack holds exactly the openers that still wait, each with the bracket that closes it. */
  ghost predicate HoldsWaiting(t: seq<BidiClass>, chars: seq<char>, lookup: Lookup, m: Matching, n: nat)
    requires |t| == |chars|
  {
    && (forall o: nat :: o < n ==> (IsWaiting(m, o) <==> IsBracket(t, chars, lookup, o, Open) && Waits(m.pairs, o, n)))
    && (forall k :: 0 <= k < |m.open| ==> HoldsOpener(t, chars, lookup, m.open[k]))
  }

  ghost predicate EndBefore(pairs: seq<Pair>, n: nat) {
    forall p :: p in pairs ==> p.closing < n
  }

  /** A pair that ends at `n` makes no difference before `n`. */
  lemma WaitsBefore(pairs: seq<Pair>, p: Pair, o: nat, c: nat)
    requires c <= p.closing
    ensures Waits(pairs + [p], o, c) == Waits(pairs, o, c)
  {
    assert forall q :: q in pairs + [p] <==> q in pairs || q == p;
  }

  lemma WaitsAfter(pairs: seq<Pair>, p: Pair, o: nat, n: nat)
    requires EndBefore(pairs, n) && p.closing == n
    ensures Waits(pairs + [p], o, n + 1) <==> Waits(pairs, o, n) && !(p.opening <= o < n)
  {
    assert forall q :: q in pairs + [p] <==> q in pairs || q == p;
  }

  lemma WaitsOn(pairs: seq<Pair>, o: nat, n: nat)
    requires EndBefore(pairs, n)
    ensures Waits(pairs, o, n + 1) == Waits(pairs, o, n)
  {
  }

  lemma NestedEnds(m: Matching, n: nat)
    requires Nested(m, n)
    ensures EndBefore(m.pairs, n)
  {
  }

  lemma AddObeys(t: seq<BidiClass>, chars: seq<char>, lookup: Lookup, pairs: seq<Pair>, p: Pair)
    requires |t| == |chars| && ObeysBd16(t, chars, lookup, pairs, p.closing)
    requires EndBefore(pairs, p.closing)
    requires forall o: nat :: o == p.opening <==> IsBd16Pair(t, chars, lookup, pairs, o, p.closing)
    ensures ObeysBd16(t, chars, lookup, pairs + [p], p.closing + 1)
  {
    hide Fits, Waits;
    forall o: nat, c: nat | c < p.closing + 1
      ensures Pair(o, c) in pairs + [p] <==> IsBd16Pair(t, chars, lookup, pairs + [p], o, c)
    {
      forall x: nat
        ensures Waits(pairs + [p], x, c) == Waits(pairs, x, c)
      {
        WaitsBefore(pairs, p, x, c);
      }
      assert IsBd16Pair(t, chars, lookup, pairs + [p], o, c) <==> IsBd16Pair(t, chars, lookup, pairs, o, c);
      assert Pair(o, c) in pairs + [p] <==> Pair(o, c) in pairs || Pair(o, c) == p;
    }
  }

  lemma NoneObeys(t: seq<BidiClass>, chars: seq<char>, lookup: Lookup, pairs: seq<Pair>, n: nat)
    requires |t| == |chars| && ObeysBd16(t, chars, lookup, pairs, n) && EndBefore(pairs, n)
    requires forall o: nat :: !IsBd16Pair(t, chars, lookup, pairs, o, n)
    ensures ObeysBd16(t, chars, lookup, pairs, n + 1)
  {
    hide IsBd16Pair;
  }

  /** No waiting opener above the one found fits. */
  lemma HigherUnfit(t: seq<BidiClass>, chars: seq<char>, lookup: Lookup, m: Matching, n: nat, d: nat, x: nat)
    requires n < |t| == |chars| && Nested(m, n) && HoldsWaiting(t, chars, lookup, m, n) && d < |m.open|
    requires forall k :: d < k < |m.open| ==> !SameBracket(m.open[k].closing, chars[n])
    requires m.open[d].pos < x < n && IsWaiting(m, x)
    ensures !Fits(t, chars, lookup, x, n)
  {
    hide Waits, SameBracket;
    var k :| 0 <= k < |m.open| && m.open[k].pos == x;
    assert HoldsOpener(t, chars, lookup, m.open[k]);
    assert d < k;
  }

  lemma LastThatWaits(t: seq<BidiClass>, chars: seq<char>, lookup: Lookup, m: Matching, n: nat, d: nat)
    requires n < |t| == |chars| && Nested(m, n) && HoldsWaiting(t, chars, lookup, m, n) && d < |m.open|
    requires forall k :: d < k < |m.open| ==> !SameBracket(m.open[k].closing, chars[n])
    requires Fits(t, chars, lookup, m.open[d].pos, n) && Waits(m.pairs, m.open[d].pos, n)
    ensures IsBd16Pair(t, chars, lookup, m.pairs, m.open[d].pos, n)
  {
    hide Waits, SameBracket;
    forall x | m.open[d].pos < x < n && IsWaiting(m, x)
      ensures !Fits(t, chars, lookup, x, n)
    {
      HigherUnfit(t, chars, lookup, m, n, d, x);
    }
    assert forall x: nat :: x < n && Fits(t, chars, lookup, x, n) ==> (IsWaiting(m, x) <==> Waits(m.pairs, x, n));
  }

  /** The opener that the stack finds is the last that fits and waits. */
  lemma FoundIsLast(t: seq<BidiClass>, chars: seq<char>, lookup: Lookup, m: Matching, n: nat, o: nat)
    requires n < |t| == |chars| && Nested(m, n) && HoldsWaiting(t, chars, lookup, m, n)
    requires IsBracket(t, chars, lookup, n, Close)
    ensures var d := FindOpener(m.open, chars[n]);
      IsBd16Pair(t, chars, lookup, m.pairs, o, n) <==> d.Some? && o == m.open[d.value].pos
  {
    var d := FindOpener(m.open, chars[n]);
    forall k | 0 <= k < |m.open|
      ensures m.open[k].pos < n && Waits(m.pairs, m.open[k].pos, n) && HoldsOpener(t, chars, lookup, m.open[k])
      ensures Fits(t, chars, lookup, m.open[k].pos, n) <==> SameBracket(m.open[k].closing, chars[n])
    {
      assert IsWaiting(m, m.open[k].pos);
    }
    hide Waits, FindOpener, SameBracket;
    if d.Some? {
      LastThatWaits(t, chars, lookup, m, n, d.value);
    }
    if Fits(t, chars, lookup, o, n) && Waits(m.pairs, o, n) {
      assert IsWaiting(m, o);
      var k :| 0 <= k < |m.open| && m.open[k].pos == o;
      assert d.Some? && k <= d.value;
      assert k < d.value ==> o < m.open[d.value].pos;
    }
  }

  /** Taking an opener and those above it leaves the ones before its place. */
  lemma TakenWaits(m: Matching, n: nat, d: nat, o: nat)
    requires Nested(m, n) && d < |m.open|
    ensures IsWaiting(Matching(m.open[..d], m.pairs + [Pair(m.open[d].pos, n)]), o) <==>
      IsWaiting(m, o) && o < m.open[d].pos
  {
    if IsWaiting(m, o) && o < m.open[d].pos {
      var k :| 0 <= k < |m.open| && m.open[k].pos == o;
      assert k < d && m.open[..d][k] == m.open[k];
    }
  }

  lemma ClosedHolds(t: seq<BidiClass>, chars: seq<char>, lookup: Lookup, m: Matching, n: nat)
    requires n < |t| == |chars| && Nested(m, n) && HoldsWaiting(t, chars, lookup, m, n)
    requires IsBracket(t, chars, lookup, n, Close)
    ensures HoldsWaiting(t, chars, lookup, Closed(m, chars[n], n), n + 1)
  {
    var d := FindOpener(m.open, chars[n]);
    var r := Closed(m, chars[n], n);
    NestedEnds(m, n);
    hide FindOpener, SameBracket;
    forall o: nat | o < n + 1
      ensures IsWaiting(r, o) <==> IsBracket(t, chars, lookup, o, Open) && Waits(r.pairs, o, n + 1)
    {
      WaitsOn(m.pairs, o, n);
      if d.Some? {
        WaitsAfter(m.pairs, Pair(m.open[d.value].pos, n), o, n);
        TakenWaits(m, n, d.value, o);
      }
    }
    hide Waits, IsBracket;
  }

  lemma OpenedHolds(t: seq<BidiClass>, chars: seq<char>, lookup: Lookup, m: Matching, n: nat)
    requires n < |t| == |chars| && Nested(m, n) && HoldsWaiting(t, chars, lookup, m, n)
    requires IsBracket(t, chars, lookup, n, Open)
    ensures HoldsWaiting(t, chars, lookup, m.(open := m.open + [Opener(lookup(chars[n]).value.0, n)]), n + 1)
  {
    var r := m.(open := m.open + [Opener(lookup(chars[n]).value.0, n)]);
    NestedEnds(m, n);
    forall o: nat | o < n + 1
      ensures IsWaiting(r, o) <==> IsBracket(t, chars, lookup, o, Open) && Waits(r.pairs, o, n + 1)
    {
      WaitsOn(m.pairs, o, n);
      assert IsWaiting(r, o) <==> IsWaiting(m, o) || o == n by {
        assert r.open[|m.open|].pos == n;
        assert forall k :: 0 <= k < |m.open| ==> r.open[k] == m.open[k];
      }
    }
    hide Waits, IsBracket;
  }

  lemma OtherHolds(t: seq<BidiClass>, chars: seq<char>, lookup: Lookup, m: Matching, n: nat)
    requires n < |t| == |chars| && Nested(m, n) && HoldsWaiting(t, chars, lookup, m, n)
    requires !IsBracket(t, chars, lookup, n, Open)
    ensures HoldsWaiting(t, chars, lookup, m, n + 1)
  {
    NestedEnds(m, n);
    forall o: nat | o < n + 1
      ensures IsWaiting(m, o) <==> IsBracket(t, chars, lookup, o, Open) && Waits(m.pairs, o, n + 1)
    {
      WaitsOn(m.pairs, o, n);
    }
    hide Waits, IsBracket;
  }

  lemma NoCloser(t: seq<BidiClass>, chars: seq<char>, lookup: Lookup, pairs: seq<Pair>, n: nat)
    requires |t| == |chars| && !IsBracket(t, chars, lookup, n, Close)
    ensures forall o: nat :: !IsBd16Pair(t, chars, lookup, pairs, o, n)
  {
  }

  lemma StepObeys(t: seq<BidiClass>, chars: seq<char>, lookup: Lookup, m: Matching, n: nat)
    requires n < |t| == |chars| && Nested(m, n) && HoldsWaiting(t, chars, lookup, m, n)
    requires ObeysBd16(t, chars, lookup, m.pairs, n) && MatchAt(m, lookup, chars[n], t[n], n).Some?
    ensures var r := MatchAt(m, lookup, chars[n], t[n], n).value;
      HoldsWaiting(t, chars, lookup, r, n + 1) && ObeysBd16(t, chars, lookup, r.pairs, n + 1)
  {
    NestedEnds(m, n);
    hide Nested, HoldsWaiting, ObeysBd16, IsBd16Pair, FindOpener, Waits;
    if IsBracket(t, chars, lookup, n, Close) {
      var d := FindOpener(m.open, chars[n]);
      ClosedHolds(t, chars, lookup, m, n);
      forall o: nat
        ensures IsBd16Pair(t, chars, lookup, m.pairs, o, n) <==> d.Some? && o == m.open[d.value].pos
      {
        FoundIsLast(t, chars, lookup, m, n, o);
      }
      if d.Some? {
        AddObeys(t, chars, lookup, m.pairs, Pair(m.open[d.value].pos, n));
      } else {
        NoneObeys(t, chars, lookup, m.pairs, n);
      }
    } else {
      NoCloser(t, chars, lookup, m.pairs, n);
      NoneObeys(t, chars, lookup, m.pairs, n);
      if IsBracket(t, chars, lookup, n, Open) {
        OpenedHolds(t, chars, lookup, m, n);
      } else {
        OtherHolds(t, chars, lookup, m, n);
      }
    }
  }

  /** The pairs found before place `n` are exactly those of BD16. */
  lemma {:induction false} MatchObeysBd16(t: seq<BidiClass>, chars: seq<char>, lookup: Lookup, n: nat)
    requires n <= |t| == |chars| && Match(t, chars, lookup, n).Some?
    ensures var m := Match(t, chars, lookup, n).value;
      ObeysBd16(t, chars, lookup, m.pairs, n) && HoldsWaiting(t, chars, lookup, m, n)
  {
    if n > 0 {
      MatchStep(t, chars, lookup, n - 1);
      hide Match, MatchAt, HoldsWaiting, ObeysBd16;
      MatchObeysBd16(t, chars, lookup, n - 1);
      PairsNest(t, chars, lookup, n - 1);
      StepObeys(t, chars, lookup, Match(t, chars, lookup, n - 1).value, n - 1);
    }
  }

  // ---- BD16 leaves no choice ---------------------------------------------------------------------

  lemma WaitAlike(pairs: seq<Pair>, pairs': seq<Pair>, x: nat, n: nat)
    requires forall o: nat, c: nat :: c < n ==> (Pair(o, c) in pairs <==> Pair(o, c) in pairs')
    ensures Waits(pairs, x, n) <==> Waits(pairs', x, n)
  {
    forall p: Pair | p.closing < n
      ensures p in pairs <==> p in pairs'
    {
      assert p == Pair(p.opening, p.closing);
    }
  }

  /** Two lists of pairs that obey BD16 agree on the pairs that end before `n`. */
  lemma {:induction false} Bd16IsUnique(
    t: seq<BidiClass>, chars: seq<char>, lookup: Lookup, pairs: seq<Pair>, pairs': seq<Pair>, n: nat)
    requires |t| == |chars| && ObeysBd16(t, chars, lookup, pairs, n) && ObeysBd16(t, chars, lookup, pairs', n)
    ensures forall o: nat, c: nat :: c < n ==> (Pair(o, c) in pairs <==> Pair(o, c) in pairs')
  {
    if n > 0 {
      var c := n - 1;
      hide Fits;
      assert ObeysBd16(t, chars, lookup, pairs, c) && ObeysBd16(t, chars, lookup, pairs', c);
      Bd16IsUnique(t, chars, lookup, pairs, pairs', c);
      forall x: nat
        ensures Waits(pairs, x, c) <==> Waits(pairs', x, c)
      {
        WaitAlike(pairs, pairs', x, c);
      }
      hide Waits;
      forall o: nat
        ensures Pair(o, c) in pairs <==> Pair(o, c) in pairs'
      {
        assert IsBd16Pair(t, chars, lookup, pairs, o, c) <==> IsBd16Pair(t, chars, lookup, pairs', o, c);
      }
    }
  }
}
