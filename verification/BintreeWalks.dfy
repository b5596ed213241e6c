/** Walks over the binary tree without a stack: preorder, reverse postorder, and the n-th leaf. */
module BintreeWalks {
  import opened Wrappers
  import opened Bintree

  /** Which child a walk visits first. */
  datatype Side = LeftFirst | RightFirst

  /** The positions of a subtree: a node, then its first child, then its other child. */
  function Listing<L, N>(it: Tree<L, N>, path: Path<L, N>, side: Side): (s: seq<Cursor<L, N>>)
    ensures s != [] && s[0] == Cursor(it, path)
  {
    match it
    case Node(left, right, data) =>
      var ls := Listing(left, Left(right, data, path), side);
      var rs := Listing(right, Right(left, data, path), side);
      [Cursor(it, path)] + if side.LeftFirst? then ls + rs else rs + ls
    case _ => [Cursor(it, path)]
  }

  /** The positions that follow a subtree. */
  function Beyond<L, N>(it: Tree<L, N>, path: Path<L, N>, side: Side): seq<Cursor<L, N>>
    decreases path
  {
    match path
    case Top => []
    case Left(right, data, up) =>
      (if side.LeftFirst? then Listing(right, Right(it, data, up), side) else []) +
        Beyond(Node(it, right, data), up, side)
    case Right(left, data, up) =>
      (if side.RightFirst? then Listing(left, Left(it, data, up), side) else []) +
        Beyond(Node(left, it, data), up, side)
  }

  /** The positions from `c` on. */
  function Upcoming<L, N>(c: Cursor<L, N>, side: Side): (s: seq<Cursor<L, N>>)
    ensures s != [] && s[0] == c
  {
    Listing(c.it, c.path, side) + Beyond(c.it, c.path, side)
  }

  // ---- one step ----------------------------------------------------------------------------------

  /** From a finished subtree: the nearest other child to be visited, or else the root, as a failure. */
  function Leave<L, N>(it: Tree<L, N>, path: Path<L, N>, side: Side): Moved<L, N>
    decreases path
  {
    match path
    case Top => Err(Cursor(it, Top))
    case Left(right, data, up) =>
      if side.LeftFirst? then Ok(Cursor(right, Right(it, data, up))) else Leave(Node(it, right, data), up, side)
    case Right(left, data, up) =>
      if side.RightFirst? then Ok(Cursor(left, Left(it, data, up))) else Leave(Node(left, it, data), up, side)
  }

  function Next<L, N>(c: Cursor<L, N>, side: Side): Moved<L, N> {
    if c.it.Leaf? then Leave(c.it, c.path, side)
    else if side.LeftFirst? then GoLeft(c) else GoRight(c)
  }

  method PreorderNext<L, N>(c: Cursor<L, N>) returns (r: Moved<L, N>)
    ensures r == Next(c, LeftFirst)
  {
    var self := c;
    if self.it.Leaf? {
      if self.path.Left? {
        return GoRight(GoUp(self).value);
      }
      while true
        invariant !self.path.Left? && Leave(self.it, self.path, LeftFirst) == Leave(c.it, c.path, LeftFirst)
        decreases self.path
      {
        self :- GoUp(self);
        if self.path.Top? {
          return Err(self);
        }
        if self.path.Left? {
          return GoRight(GoUp(self).value);
        }
      }
    } else {
      return GoLeft(self);
    }
  }

  method PostorderNext<L, N>(c: Cursor<L, N>) returns (r: Moved<L, N>)
    ensures r == Next(c, RightFirst)
  {
    var self := c;
    if self.it.Leaf? {
      if self.path.Right? {
        return GoLeft(GoUp(self).value);
      }
      while true
        invariant !self.path.Right? && Leave(self.it, self.path, RightFirst) == Leave(c.it, c.path, RightFirst)
        decreases self.path
      {
        self :- GoUp(self);
        if self.path.Top? {
          return Err(self);
        }
        if self.path.Right? {
          return GoLeft(GoUp(self).value);
        }
      }
    } else {
      return GoRight(self);
    }
  }

  lemma {:induction false} LeaveIs<L, N>(it: Tree<L, N>, path: Path<L, N>, side: Side)
    ensures var r, beyond := Leave(it, path, side), Beyond(it, path, side);
      if beyond == [] then r == Err(Cursor(Rebuild(it, path), Top)) else r.Ok? && Upcoming(r.value, side) == beyond
    decreases path
  {
    hide Listing;
    match path
    case Top =>
    case Left(right, data, up) =>
      if side.RightFirst? {
        LeaveIs(Node(it, right, data), up, side);
        hide Upcoming;
        assert Beyond(it, path, side) == Beyond(Node(it, right, data), up, side);
      }
    case Right(left, data, up) =>
      if side.LeftFirst? {
        LeaveIs(Node(left, it, data), up, side);
        hide Upcoming;
        assert Beyond(it, path, side) == Beyond(Node(left, it, data), up, side);
      }
  }

  /** What a step from `c` must do when `s` are the positions from `c` on. */
  ghost predicate StepsAlong<L, N>(c: Cursor<L, N>, side: Side, s: seq<Cursor<L, N>>) {
    && s != []
    && var r := Next(c, side);
       if |s| == 1 then r == Err(Root(c)) else r == Ok(s[1]) && Upcoming(s[1], side) == s[1..]
  }

  lemma FirstIsUpcoming<L, N>(c: Cursor<L, N>, side: Side)
    ensures Upcoming(c, side) != [] && Upcoming(c, side)[0] == c
  {
  }

  lemma LeafSteps<L, N>(c: Cursor<L, N>, side: Side)
    requires c.it.Leaf?
    ensures StepsAlong(c, side, Upcoming(c, side))
  {
    var beyond := Beyond(c.it, c.path, side);
    LeaveIs(c.it, c.path, side);
    assert Upcoming(c, side) == [c] + beyond && ([c] + beyond)[1..] == beyond;
    if beyond != [] {
      FirstIsUpcoming(Leave(c.it, c.path, side).value, side);
    }
    hide Beyond, Leave, Upcoming, Listing;
  }

  lemma Regroup<T>(c: T, a: seq<T>, b: seq<T>, beyond: seq<T>)
    ensures [c] + (a + b) + beyond == [c] + (a + (b + beyond))
  {
  }

  lemma UpcomingOfNode<L, N>(c: Cursor<L, N>, side: Side, child: Cursor<L, N>)
    requires c.it.Node? && Next(c, side) == Ok(child)
    ensures Upcoming(c, side) == [c] + Upcoming(child, side)
  {
    var left, right, data := c.it.left, c.it.right, c.it.data;
    var ls := Listing(left, Left(right, data, c.path), side);
    var rs := Listing(right, Right(left, data, c.path), side);
    var beyond := Beyond(c.it, c.path, side);
    if side.LeftFirst? {
      Regroup(c, ls, rs, beyond);
    } else {
      Regroup(c, rs, ls, beyond);
    }
  }

  lemma NodeSteps<L, N>(c: Cursor<L, N>, side: Side)
    requires c.it.Node?
    ensures StepsAlong(c, side, Upcoming(c, side))
  {
    var child := Next(c, side).value;
    UpcomingOfNode(c, side, child);
    FirstIsUpcoming(child, side);
    hide Upcoming;
    assert ([c] + Upcoming(child, side))[1..] == Upcoming(child, side);
  }

  lemma EmptySteps<L, N>(c: Cursor<L, N>, side: Side)
    requires c.it.Empty? && Proper(Whole(c))
    ensures StepsAlong(c, side, Upcoming(c, side))
  {
    ProperAround(c);
    assert c == Cursor(Empty, Top);
  }

  lemma StepsAlongIs<L, N>(c: Cursor<L, N>, side: Side, s: seq<Cursor<L, N>>)
    requires StepsAlong(c, side, s)
    ensures var r := Next(c, side);
      s != [] && if |s| == 1 then r == Err(Root(c)) else r == Ok(s[1]) && Upcoming(s[1], side) == s[1..]
  {
  }

  /** A step goes to the next position; after the last one it fails with the root. */
  lemma {:induction false} NextIs<L, N>(c: Cursor<L, N>, side: Side)
    requires Proper(Whole(c))
    ensures var r, s := Next(c, side), Upcoming(c, side);
      if |s| == 1 then r == Err(Root(c)) else r == Ok(s[1]) && Upcoming(s[1], side) == s[1..]
  {
    hide *;
    if c.it.Leaf? {
      LeafSteps(c, side);
    } else if c.it.Node? {
      NodeSteps(c, side);
    } else {
      EmptySteps(c, side);
    }
    StepsAlongIs(c, side, Upcoming(c, side));
  }

  // ---- whole walks -------------------------------------------------------------------------------

  /** Every position listed belongs to the same tree. */
  lemma {:induction false} ListedAreWhole<L, N>(it: Tree<L, N>, path: Path<L, N>, side: Side, k: nat)
    requires k < |Listing(it, path, side)|
    ensures Whole(Listing(it, path, side)[k]) == Rebuild(it, path)
    decreases it
  {
    match it
    case Node(left, right, data) =>
      var ls, rs := Listing(left, Left(right, data, path), side), Listing(right, Right(left, data, path), side);
      var n := if side.LeftFirst? then |ls| else |rs|;
      if k > 0 {
        if (k <= n) == side.LeftFirst? {
          ListedAreWhole(left, Left(right, data, path), side, if side.LeftFirst? then k - 1 else k - 1 - n);
        } else {
          ListedAreWhole(right, Right(left, data, path), side, if side.LeftFirst? then k - 1 - n else k - 1);
        }
      }
    case _ =>
  }

  /** Every position below a position of the tree is a position of the tree. */
  lemma {:induction false} ListedFromTop<L, N>(it: Tree<L, N>, path: Path<L, N>, side: Side, c: Cursor<L, N>)
    requires c in Listing(it, path, side)
    ensures c in Listing(Rebuild(it, path), Top, side)
    decreases path
  {
    match path
    case Top =>
    case Left(right, data, up) => ListedFromTop(Node(it, right, data), up, side, c);
    case Right(left, data, up) => ListedFromTop(Node(left, it, data), up, side, c);
  }

  /** The turns from the root down to a position. */
  function Turns<L, N>(path: Path<L, N>): seq<bool> {
    match path
    case Top => []
    case Left(_, _, up) => Turns(up) + [false]
    case Right(_, _, up) => Turns(up) + [true]
  }

  lemma {:induction false} ListedBelow<L, N>(it: Tree<L, N>, path: Path<L, N>, side: Side, c: Cursor<L, N>)
    requires c in Listing(it, path, side)
    ensures Turns(path) <= Turns(c.path)
    ensures c != Cursor(it, path) ==> |Turns(path)| < |Turns(c.path)|
    decreases it
  {
    match it
    case Node(left, right, data) =>
      if c in Listing(left, Left(right, data, path), side) {
        ListedBelow(left, Left(right, data, path), side, c);
      }
      if c in Listing(right, Right(left, data, path), side) {
        ListedBelow(right, Right(left, data, path), side, c);
      }
    case _ =>
  }

  lemma Disjoined<T>(x: T, a: seq<T>, b: seq<T>)
    requires x !in a && x !in b && forall y :: y in a ==> y !in b
    requires forall j, k :: 0 <= j < k < |a| ==> a[j] != a[k]
    requires forall j, k :: 0 <= j < k < |b| ==> b[j] != b[k]
    ensures var s := [x] + (a + b); forall j, k :: 0 <= j < k < |s| ==> s[j] != s[k]
  {
    var s := [x] + (a + b);
    forall j, k | 0 <= j < k < |s|
      ensures s[j] != s[k]
    {
      if 0 < j <= |a| < k {
        assert a[j - 1] in a && b[k - 1 - |a|] in b;
      }
    }
  }

  /** No position is listed twice. */
  lemma {:induction false} ListedOnce<L, N>(it: Tree<L, N>, path: Path<L, N>, side: Side)
    ensures forall j, k :: 0 <= j < k < |Listing(it, path, side)| ==>
      Listing(it, path, side)[j] != Listing(it, path, side)[k]
    decreases it
  {
    match it
    case Node(left, right, data) =>
      var ls, rs := Listing(left, Left(right, data, path), side), Listing(right, Right(left, data, path), side);
      ListedOnce(left, Left(right, data, path), side);
      ListedOnce(right, Right(left, data, path), side);
      forall c | c in ls
        ensures c !in rs && c != Cursor(it, path)
      {
        ListedBelow(left, Left(right, data, path), side, c);
        assert !Turns(c.path)[|Turns(path)|];
        if c in rs {
          ListedBelow(right, Right(left, data, path), side, c);
        }
      }
      forall c | c in rs
        ensures c != Cursor(it, path)
      {
        ListedBelow(right, Right(left, data, path), side, c);
      }
      Disjoined(Cursor(it, path), if side.LeftFirst? then ls else rs, if side.LeftFirst? then rs else ls);
    case _ =>
  }

  lemma {:induction false} UpcomingFromTop<L, N>(t: Tree<L, N>, side: Side, k: nat)
    requires Proper(t) && k < |Listing(t, Top, side)|
    ensures var s := Listing(t, Top, side); Upcoming(s[k], side) == s[k..] && Whole(s[k]) == t
  {
    var s := Listing(t, Top, side);
    ListedAreWhole(t, Top, side, k);
    if k > 0 {
      UpcomingFromTop(t, side, k - 1);
      NextIs(s[k - 1], side);
      assert s[k - 1..][1] == s[k] && s[k - 1..][1..] == s[k..];
    }
  }

  predicate NextIsListed<L(==), N(==)>(s: seq<Cursor<L, N>>, k: nat, side: Side)
    requires k < |s|
  {
    Next(s[k], side) == if k + 1 < |s| then Ok(s[k + 1]) else Err(s[0])
  }

  /** Steps go through `s` in order and fail at its end, back at its start. */
  ghost predicate Walks<L, N>(s: seq<Cursor<L, N>>, side: Side) {
    forall k :: 0 <= k < |s| ==> NextIsListed(s, k, side)
  }

  lemma NextInListing<L, N>(t: Tree<L, N>, side: Side)
    requires Proper(t)
    ensures Walks(Listing(t, Top, side), side)
  {
    var s := Listing(t, Top, side);
    forall k | 0 <= k < |s|
      ensures NextIsListed(s, k, side)
    {
      UpcomingFromTop(t, side, k);
      hide Listing, Upcoming, Next, Whole;
      NextIs(s[k], side);
      if k + 1 < |s| {
        assert s[k..][1] == s[k + 1];
      } else {
        assert |s[k..]| == 1;
      }
    }
  }

  /**
    * Iterating `preorder_next` or `postorder_next` from the root: it visits the listing in order, that is, every
    * position of the tree exactly once, and then fails with the root.
    */
  lemma {:induction false} WalkVisitsAll<L(!new), N(!new)>(t: Tree<L, N>, side: Side)
    requires Proper(t)
    ensures var s := Listing(t, Top, side);
      && s[0] == Cursor(t, Top) && Walks(s, side)
      && (forall j, k :: 0 <= j < k < |s| ==> s[j] != s[k])
      && (forall c: Cursor<L, N> :: c in s <==> Whole(c) == t)
  {
    var s := Listing(t, Top, side);
    ListedOnce(t, Top, side);
    NextInListing(t, side);
    hide Walks;
    forall c: Cursor<L, N>
      ensures c in s <==> Whole(c) == t
    {
      if c in s {
        var k :| 0 <= k < |s| && s[k] == c;
        ListedAreWhole(t, Top, side, k);
      }
      if Whole(c) == t {
        ListedFromTop(c.it, c.path, side, c);
      }
    }
  }

  function Postorder<L, N>(it: Tree<L, N>, path: Path<L, N>): seq<Cursor<L, N>> {
    match it
    case Node(left, right, data) =>
      Postorder(left, Left(right, data, path)) + Postorder(right, Right(left, data, path)) + [Cursor(it, path)]
    case _ => [Cursor(it, path)]
  }

  function Reversed<T>(s: seq<T>): (r: seq<T>)
    ensures |r| == |s| && forall k {:trigger r[k]} :: 0 <= k < |s| ==> r[k] == s[|s| - 1 - k]
  {
    seq(|s|, k requires 0 <= k < |s| => s[|s| - 1 - k])
  }

  lemma ReversedParts<T>(a: seq<T>, b: seq<T>, x: T)
    ensures Reversed(a + b + [x]) == [x] + (Reversed(b) + Reversed(a))
  {
  }

  /** The walk of `postorder_next` is the postorder backwards: the root comes first, not last. */
  lemma {:induction false} RightFirstIsPostorderBackwards<L, N>(it: Tree<L, N>, path: Path<L, N>)
    ensures Listing(it, path, RightFirst) == Reversed(Postorder(it, path))
    decreases it
  {
    match it
    case Node(left, right, data) =>
      RightFirstIsPostorderBackwards(left, Left(right, data, path));
      RightFirstIsPostorderBackwards(right, Right(left, data, path));
      ReversedParts(Postorder(left, Left(right, data, path)), Postorder(right, Right(left, data, path)),
        Cursor(it, path));
      hide Reversed;
    case _ =>
  }

  // ---- the n-th leaf -----------------------------------------------------------------------------

  function LeavesIn<L, N>(s: seq<Cursor<L, N>>): nat {
    if s == [] then 0 else (if s[0].it.Leaf? then 1 else 0) + LeavesIn(s[1..])
  }

  /** The leaf position with `n` leaf positions before it. */
  function NthLeaf<L, N>(s: seq<Cursor<L, N>>, n: nat): (r: Option<Cursor<L, N>>)
    ensures r.Some? <==> n < LeavesIn(s)
    ensures r.Some? ==> r.value in s && r.value.it.Leaf?
  {
    if s == [] then None
    else if s[0].it.Leaf? then if n == 0 then Some(s[0]) else NthLeaf(s[1..], n - 1)
    else NthLeaf(s[1..], n)
  }

  lemma {:induction false} LeaveKeeps<L, N>(it: Tree<L, N>, path: Path<L, N>, side: Side)
    ensures Whole(Land(Leave(it, path, side))) == Rebuild(it, path)
    decreases path
  {
    match path
    case Top =>
    case Left(right, data, up) => LeaveKeeps(Node(it, right, data), up, side);
    case Right(left, data, up) => LeaveKeeps(Node(left, it, data), up, side);
  }

  /** A step never changes the tree, whether it succeeds or not. */
  lemma NextKeeps<L, N>(c: Cursor<L, N>, side: Side)
    ensures Whole(Land(Next(c, side))) == Whole(c)
  {
    LeaveKeeps(c.it, c.path, side);
    MovesUndo(c);
  }

  lemma NextShortens<L, N>(c: Cursor<L, N>, side: Side)
    ensures Next(c, side).Ok? ==> |Upcoming(Next(c, side).value, side)| < |Upcoming(c, side)|
  {
    LeaveIs(c.it, c.path, side);
  }

  lemma {:induction false} LeavesInBoth<L, N>(a: seq<Cursor<L, N>>, b: seq<Cursor<L, N>>, n: nat)
    ensures LeavesIn(a + b) == LeavesIn(a) + LeavesIn(b)
    ensures NthLeaf(a + b, n) == if n < LeavesIn(a) then NthLeaf(a, n) else NthLeaf(b, n - LeavesIn(a))
  {
    if a == [] {
      assert a + b == b;
    } else {
      assert (a + b)[1..] == a[1..] + b;
      LeavesInBoth(a[1..], b, if a[0].it.Leaf? && n > 0 then n - 1 else n);
    }
  }

  lemma LeavesOfNode<L, N>(left: Tree<L, N>, right: Tree<L, N>, data: Option<N>, path: Path<L, N>, n: nat)
    ensures var ls := Listing(left, Left(right, data, path), LeftFirst);
      var rs := Listing(right, Right(left, data, path), LeftFirst);
      var s := Listing(Node(left, right, data), path, LeftFirst);
      && LeavesIn(s) == LeavesIn(ls) + LeavesIn(rs)
      && NthLeaf(s, n) == if n < LeavesIn(ls) then NthLeaf(ls, n) else NthLeaf(rs, n - LeavesIn(ls))
  {
    var ls, rs := Listing(left, Left(right, data, path), LeftFirst), Listing(right, Right(left, data, path), LeftFirst);
    LeavesInBoth(ls, rs, n);
    var c := Cursor(Node(left, right, data), path);
    assert Listing(c.it, path, LeftFirst) == [c] + (ls + rs);
    hide Listing;
    assert ([c] + (ls + rs))[1..] == ls + rs;
  }

  lemma {:induction false} LeavesCounted<L, N>(it: Tree<L, N>, path: Path<L, N>)
    ensures LeavesIn(Listing(it, path, LeftFirst)) == NumLeaves(it)
    decreases it
  {
    match it
    case Node(left, right, data) =>
      LeavesOfNode(left, right, data, path, 0);
      LeavesCounted(left, Left(right, data, path));
      LeavesCounted(right, Right(left, data, path));
      hide Listing, LeavesIn;
    case _ =>
  }

  /** The position `r` is a leaf that holds `leaf`, with `before` leaves to its left. */
  ghost predicate IsLeafAt<L, N>(r: Option<Cursor<L, N>>, leaf: L, before: nat) {
    r.Some? && r.value.it == Leaf(leaf) && |LeavesBefore(r.value.path)| == before
  }

  lemma OneLeafInOrder<L, N>(it: Tree<L, N>, path: Path<L, N>)
    requires it.Leaf?
    ensures IsLeafAt(NthLeaf(Listing(it, path, LeftFirst), 0), Leaves(it)[0], |LeavesBefore(path)|)
  {
  }

  /** The leaves of a node are those of its left child and then those of its right child. */
  lemma NodeLeaves<L, N>(it: Tree<L, N>, path: Path<L, N>, n: nat)
    requires it.Node? && n < NumLeaves(it)
    ensures var m := NumLeaves(it.left);
      if n < m then Leaves(it)[n] == Leaves(it.left)[n]
      else n - m < NumLeaves(it.right) && Leaves(it)[n] == Leaves(it.right)[n - m]
    ensures |LeavesBefore(Left(it.right, it.data, path))| == |LeavesBefore(path)|
    ensures |LeavesBefore(Right(it.left, it.data, path))| == |LeavesBefore(path)| + NumLeaves(it.left)
  {
  }

  lemma HasLeaves<L, N>(it: Tree<L, N>)
    requires NumLeaves(it) > 0
    ensures it.Node? || it.Leaf?
    ensures it.Leaf? ==> NumLeaves(it) == 1
  {
  }

  /** Preorder meets the leaves from left to right. */
  lemma {:induction false} LeavesInOrder<L, N>(it: Tree<L, N>, path: Path<L, N>, n: nat)
    requires n < NumLeaves(it)
    ensures IsLeafAt(NthLeaf(Listing(it, path, LeftFirst), n), Leaves(it)[n], |LeavesBefore(path)| + n)
    decreases it
  {
    hide *;
    HasLeaves(it);
    if it.Leaf? {
      OneLeafInOrder(it, path);
    } else {
      var m := NumLeaves(it.left);
      var below := Left(it.right, it.data, path);
      NodeLeaves(it, path, n);
      LeavesOfNode(it.left, it.right, it.data, path, n);
      LeavesCounted(it.left, below);
      if n < m {
        LeavesInOrder(it.left, below, n);
      } else {
        LeavesInOrder(it.right, Right(it.left, it.data, path), n - m);
      }
    }
  }

  lemma UpcomingFromRoot<L, N>(t: Tree<L, N>)
    ensures Upcoming(Cursor(t, Top), LeftFirst) == Listing(t, Top, LeftFirst)
  {
    hide Listing;
  }

  lemma NothingBefore<L, N>()
    ensures |LeavesBefore<L, N>(Top)| == 0
  {
  }

  /** From the root: the n-th leaf from the left if there are that many, and otherwise the same tree at its root. */
  lemma {:induction false} NthLeafFromRoot<L, N>(t: Tree<L, N>, n: nat)
    ensures var leaf := NthLeaf(Upcoming(Cursor(t, Top), LeftFirst), n);
      && (leaf.Some? <==> n < NumLeaves(t))
      && (leaf.Some? ==>
            && Whole(leaf.value) == t && leaf.value.it == Leaf(Leaves(t)[n])
            && |LeavesBefore(leaf.value.path)| == n)
  {
    var s := Listing(t, Top, LeftFirst);
    LeavesCounted(t, Top);
    UpcomingFromRoot(t);
    hide Upcoming, Listing, Leaves, LeavesIn, LeavesBefore, NumLeaves, NthLeaf;
    if n < NumLeaves(t) {
      LeavesInOrder(t, Top, n);
      NothingBefore<L, N>();
      var k :| 0 <= k < |s| && s[k] == NthLeaf(s, n).value;
      ListedAreWhole(t, Top, LeftFirst, k);
    }
  }

  /** How the search for the n-th leaf goes on from `c`. */
  lemma SearchOn<L, N>(c: Cursor<L, N>, m: nat)
    requires Proper(Whole(c))
    ensures var r := Next(c, LeftFirst);
      NthLeaf(Upcoming(c, LeftFirst), m) ==
        if c.it.Leaf? && m == 0 then Some(c)
        else if r.Ok? then NthLeaf(Upcoming(r.value, LeftFirst), if c.it.Leaf? then m - 1 else m)
        else None
    ensures Next(c, LeftFirst).Err? ==> Next(c, LeftFirst).error == Root(c)
  {
    NextIs(c, LeftFirst);
    var s := Upcoming(c, LeftFirst);
    assert s[0] == c && (|s| == 1 ==> s[1..] == []);
    hide Upcoming, Next, Whole;
  }

  method GoToNthLeaf<L, N>(c: Cursor<L, N>, n: nat) returns (r: Moved<L, N>)
    ensures Proper(Whole(c)) ==>
      var leaf := NthLeaf(Upcoming(c, LeftFirst), n); r == if leaf.Some? then Ok(leaf.value) else Err(Root(c))
  {
    hide NthLeaf, Upcoming, Next, Whole, Proper;
    var self := c;
    var next := 0;
    while true
      invariant next <= n
      invariant Whole(self) == Whole(c)
      invariant Proper(Whole(c)) ==> NthLeaf(Upcoming(self, LeftFirst), n - next) == NthLeaf(Upcoming(c, LeftFirst), n)
      decreases |Upcoming(self, LeftFirst)|
    {
      NextShortens(self, LeftFirst);
      NextKeeps(self, LeftFirst);
      if Proper(Whole(c)) {
        SearchOn(self, n - next);
      }
      if self.it.Leaf? {
        if next == n {
          return Ok(self);
        }
        next := next + 1;
      }
      var there := PreorderNext(self);
      self :- there;
    }
  }
}
