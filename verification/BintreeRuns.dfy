/** Every sequence of cursor operations, from the empty tree. */
module BintreeRuns {
  import opened Wrappers
  import opened Bintree
  import opened BintreeWalks

  datatype Operation<L, N> =
    | Plant(leaf: L)
    | Overwrite(leaf: L)
    | Relabel(value: Option<N>)
    | Remove
    | InsertBesideNode(leaf: L, left: bool)
    | InsertBesideLeaf(leaf: L, left: bool)
    | StepLeft
    | StepRight
    | StepUp
    | StepOn(side: Side)
    | Seek(n: nat)
    | Restart

  /** The cursor after an operation, successful or not. */
  function Apply<L, N>(c: Cursor<L, N>, op: Operation<L, N>): Cursor<L, N> {
    match op
    case Plant(leaf) => Land(AssignTop(c, leaf))
    case Overwrite(leaf) => WriteLeaf(c, leaf)
    case Relabel(value) => Land(AssignNode(c, value))
    case Remove =>
      var r := UnsplitLeaf(c);
      if r.Ok? then r.value.cursor else r.error
    case InsertBesideNode(leaf, left) =>
      Land(if left then SplitNodeAndInsertLeft(c, leaf) else SplitNodeAndInsertRight(c, leaf))
    case InsertBesideLeaf(leaf, left) =>
      Land(if left then SplitLeafAndInsertLeft(c, leaf) else SplitLeafAndInsertRight(c, leaf))
    case StepLeft => Land(GoLeft(c))
    case StepRight => Land(GoRight(c))
    case StepUp => Land(GoUp(c))
    case StepOn(side) => Land(Next(c, side))
    case Seek(n) =>
      var leaf := NthLeaf(Upcoming(c, LeftFirst), n);
      if leaf.Some? then leaf.value else Root(c)
    case Restart => Root(c)
  }

  predicate IsMove<L, N>(op: Operation<L, N>) {
    op.StepLeft? || op.StepRight? || op.StepUp? || op.StepOn? || op.Seek? || op.Restart?
  }

  function Beside<L, N>(it: Tree<L, N>, leaf: L, left: bool, done: bool): seq<L> {
    if !done then Leaves(it) else if left then [leaf] + Leaves(it) else Leaves(it) + [leaf]
  }

  /** What the leaves become where an edit meets its condition. */
  function Edited<L, N>(c: Cursor<L, N>, op: Operation<L, N>): seq<L> {
    match op
    case Plant(leaf) => if c.it.Empty? then [leaf] else Leaves(c.it)
    case Overwrite(leaf) => if c.it.Leaf? then [leaf] else Leaves(c.it)
    case Remove => if c.it.Leaf? && !c.path.Top? then [] else Leaves(c.it)
    case InsertBesideNode(leaf, left) => Beside(c.it, leaf, left, c.it.Node?)
    case InsertBesideLeaf(leaf, left) => Beside(c.it, leaf, left, c.it.Leaf?)
    case _ => Leaves(c.it)
  }

  /** What follows a subtree also follows, or lies in, its parent. */
  lemma BeyondIsUpcoming<L, N>(
    it: Tree<L, N>, path: Path<L, N>, side: Side, d: Cursor<L, N>, parent: Tree<L, N>, up: Path<L, N>)
    requires d in Beyond(it, path, side) && !path.Top? && up == path.up
    requires parent == if path.Left? then Node(it, path.right, path.data) else Node(path.left, it, path.data)
    ensures d in Upcoming(Cursor(parent, up), side)
  {
  }

  lemma {:induction false} UpcomingAreWhole<L, N>(it: Tree<L, N>, path: Path<L, N>, side: Side, d: Cursor<L, N>)
    requires d in Upcoming(Cursor(it, path), side)
    ensures Whole(d) == Rebuild(it, path)
    decreases path
  {
    var s := Listing(it, path, side);
    if d in s {
      var k :| 0 <= k < |s| && s[k] == d;
      ListedAreWhole(it, path, side, k);
    } else {
      assert d in Beyond(it, path, side);
      match path
      case Left(right, data, up) =>
        BeyondIsUpcoming(it, path, side, d, Node(it, right, data), up);
        UpcomingAreWhole(Node(it, right, data), up, side, d);
      case Right(left, data, up) =>
        BeyondIsUpcoming(it, path, side, d, Node(left, it, data), up);
        UpcomingAreWhole(Node(left, it, data), up, side, d);
    }
  }

  lemma MovesKeepTree<L, N>(c: Cursor<L, N>, op: Operation<L, N>)
    requires IsMove(op)
    ensures Whole(Apply(c, op)) == Whole(c)
  {
    MovesUndo(c);
    match op
    case StepOn(side) => NextKeeps(c, side);
    case Seek(n) =>
      var leaf := NthLeaf(Upcoming(c, LeftFirst), n);
      if leaf.Some? {
        UpcomingAreWhole(c.it, c.path, LeftFirst, leaf.value);
      }
    case _ =>
  }

  lemma EditsLeaves<L, N>(c: Cursor<L, N>, op: Operation<L, N>)
    requires Proper(Whole(c)) && !IsMove(op)
    ensures Leaves(Whole(Apply(c, op))) == Around(c.path, Edited(c, op))
  {
    ProperAround(c);
    LeavesAround(c.it, c.path);
    match op
    case Plant(leaf) => LeavesAround(Tree.Leaf(leaf), c.path);
    case Overwrite(leaf) => ValuesChange(c, leaf, None);
    case Relabel(value) => LeavesAround(Apply(c, op).it, c.path);
    case Remove => UnsplitRemoves(c);
    case InsertBesideNode(leaf, left) => LeavesAround(Apply(c, op).it, c.path);
    case InsertBesideLeaf(leaf, left) => LeavesAround(Apply(c, op).it, c.path);
  }

  /** One operation: moves change nothing, edits change the leaves of the focus only, and the tree stays proper. */
  lemma {:induction false} OperationsKeepProper<L, N>(c: Cursor<L, N>, op: Operation<L, N>)
    requires Proper(Whole(c))
    ensures Proper(Whole(Apply(c, op)))
    ensures IsMove(op) ==> Whole(Apply(c, op)) == Whole(c)
    ensures Leaves(Whole(Apply(c, op))) == Around(c.path, Edited(c, op))
  {
    LeavesAround(c.it, c.path);
    if IsMove(op) {
      hide Apply;
      MovesKeepTree(c, op);
    } else {
      hide Around, Edited;
      ProperAround(c);
      ProperAround(Apply(c, op));
      EditsLeaves(c, op);
    }
  }

  function Run<L, N>(ops: seq<Operation<L, N>>): Cursor<L, N> {
    if ops == [] then New() else Apply(Run(ops[..|ops| - 1]), ops[|ops| - 1])
  }

  /** Whatever is done to a tree that starts empty, no node ever has an empty child. */
  lemma {:induction false} RunsStayProper<L, N>(ops: seq<Operation<L, N>>)
    ensures Proper(Whole(Run(ops)))
  {
    if ops != [] {
      RunsStayProper(ops[..|ops| - 1]);
      OperationsKeepProper(Run(ops[..|ops| - 1]), ops[|ops| - 1]);
    }
  }
}
