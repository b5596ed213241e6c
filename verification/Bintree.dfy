/** The binary tree with its zipper cursor: moves and edits. */
module Bintree {
  import opened Wrappers

  datatype Tree<L, N> =
    | Empty
    | Node(left: Tree<L, N>, right: Tree<L, N>, data: Option<N>)
    | Leaf(leaf: L)

  /** The way from a position back to the root, with what hangs off it. */
  datatype Path<L, N> =
    | Top
    | Left(right: Tree<L, N>, data: Option<N>, up: Path<L, N>)
    | Right(left: Tree<L, N>, data: Option<N>, up: Path<L, N>)

  /** A position, and with it the whole tree. */
  datatype Cursor<L, N> = Cursor(it: Tree<L, N>, path: Path<L, N>)

  /** The cursor after an operation; on failure the source hands one back as well. */
  type Moved<L, N> = Result<Cursor<L, N>, Cursor<L, N>>

  function New<L, N>(): Cursor<L, N> {
    Cursor(Empty, Top)
  }

  function NumLeaves<L, N>(t: Tree<L, N>): nat {
    match t
    case Empty => 0
    case Leaf(_) => 1
    case Node(left, right, _) => NumLeaves(left) + NumLeaves(right)
  }

  /** The tree around subtree `it`. */
  function Rebuild<L, N>(it: Tree<L, N>, path: Path<L, N>): Tree<L, N>
    decreases path
  {
    match path
    case Top => it
    case Left(right, data, up) => Rebuild(Node(it, right, data), up)
    case Right(left, data, up) => Rebuild(Node(left, it, data), up)
  }

  function Whole<L, N>(c: Cursor<L, N>): Tree<L, N> {
    Rebuild(c.it, c.path)
  }

  function Root<L, N>(c: Cursor<L, N>): Cursor<L, N> {
    Cursor(Whole(c), Top)
  }

  /** No Empty anywhere. */
  predicate Full<L, N>(t: Tree<L, N>) {
    match t
    case Empty => false
    case Leaf(_) => true
    case Node(left, right, _) => Full(left) && Full(right)
  }

  /** Empty stands only for a whole tree. */
  predicate Proper<L, N>(t: Tree<L, N>) {
    t.Empty? || Full(t)
  }

  predicate FullPath<L, N>(path: Path<L, N>) {
    match path
    case Top => true
    case Left(right, _, up) => Full(right) && FullPath(up)
    case Right(left, _, up) => Full(left) && FullPath(up)
  }

  lemma {:induction false} FullAround<L, N>(it: Tree<L, N>, path: Path<L, N>)
    ensures Full(Rebuild(it, path)) <==> Full(it) && FullPath(path)
    decreases path
  {
    match path
    case Top =>
    case Left(right, data, up) => FullAround(Node(it, right, data), up);
    case Right(left, data, up) => FullAround(Node(left, it, data), up);
  }

  lemma {:induction false} EmptyIsTop<L, N>(it: Tree<L, N>, path: Path<L, N>)
    ensures Rebuild(it, path).Empty? <==> it.Empty? && path.Top?
    decreases path
  {
    match path
    case Top =>
    case Left(right, data, up) => EmptyIsTop(Node(it, right, data), up);
    case Right(left, data, up) => EmptyIsTop(Node(left, it, data), up);
  }

  lemma ProperAround<L, N>(c: Cursor<L, N>)
    ensures Proper(Whole(c)) <==> (Full(c.it) && FullPath(c.path)) || (c.it.Empty? && c.path.Top?)
  {
    FullAround(c.it, c.path);
    EmptyIsTop(c.it, c.path);
  }

  // ---- moves -------------------------------------------------------------------------------------

  function GoLeft<L, N>(c: Cursor<L, N>): Moved<L, N> {
    match c.it
    case Node(left, right, data) => Ok(Cursor(left, Left(right, data, c.path)))
    case _ => Err(c)
  }

  function GoRight<L, N>(c: Cursor<L, N>): Moved<L, N> {
    match c.it
    case Node(left, right, data) => Ok(Cursor(right, Right(left, data, c.path)))
    case _ => Err(c)
  }

  function GoUp<L, N>(c: Cursor<L, N>): Moved<L, N> {
    match c.path
    case Top => Err(c)
    case Right(left, data, up) => Ok(Cursor(Node(left, c.it, data), up))
    case Left(right, data, up) => Ok(Cursor(Node(c.it, right, data), up))
  }

  /** The cursor that comes back, whether or not the operation succeeded. */
  function Land<L, N>(r: Moved<L, N>): Cursor<L, N> {
    match r
    case Ok(c) => c
    case Err(c) => c
  }

  /** Going up undoes going down, and going down again undoes going up. No move changes the tree. */
  lemma {:induction false} MovesUndo<L, N>(c: Cursor<L, N>)
    ensures GoLeft(c).Ok? ==> GoUp(GoLeft(c).value) == Ok(c)
    ensures GoRight(c).Ok? ==> GoUp(GoRight(c).value) == Ok(c)
    ensures c.path.Left? ==> GoUp(c).Ok? && GoLeft(GoUp(c).value) == Ok(c)
    ensures c.path.Right? ==> GoUp(c).Ok? && GoRight(GoUp(c).value) == Ok(c)
    ensures Whole(Land(GoLeft(c))) == Whole(Land(GoRight(c))) == Whole(Land(GoUp(c))) == Whole(c)
  {
    match c.it
    case Node(left, right, data) =>
      assert Rebuild(left, Left(right, data, c.path)) == Rebuild(right, Right(left, data, c.path)) == Whole(c);
    case _ =>
  }

  /** Consumes the cursor. */
  method IntoTree<L, N>(c: Cursor<L, N>) returns (t: Tree<L, N>)
    ensures t == Whole(c)
  {
    var self := c;
    while true
      invariant Whole(self) == Whole(c)
      decreases self.path
    {
      match GoUp(self)
      case Ok(up) => self := up;
      case Err(top) => return top.it;
    }
  }

  // ---- edits -------------------------------------------------------------------------------------

  function AssignTop<L, N>(c: Cursor<L, N>, leaf: L): Moved<L, N> {
    if c.it.Empty? && c.path.Top? then Ok(Cursor(Leaf(leaf), c.path)) else Err(c)
  }

  function AssignNode<L, N>(c: Cursor<L, N>, value: Option<N>): Moved<L, N> {
    match c.it
    case Node(left, right, _) => Ok(Cursor(Node(left, right, value), c.path))
    case _ => Err(c)
  }

  function LeafMut<L, N>(c: Cursor<L, N>): Option<L> {
    match c.it
    case Leaf(l) => Some(l)
    case _ => None
  }

  /** A write through the reference that `LeafMut` hands out. */
  function WriteLeaf<L, N>(c: Cursor<L, N>, leaf: L): Cursor<L, N> {
    if LeafMut(c).Some? then Cursor(Leaf(leaf), c.path) else c
  }

  datatype Unsplit<L, N> = Unsplit(cursor: Cursor<L, N>, leaf: L, data: Option<N>)

  function UnsplitLeaf<L, N>(c: Cursor<L, N>): Result<Unsplit<L, N>, Cursor<L, N>> {
    if !c.it.Leaf? || c.path.Top? then Err(c)
    else
      match c.path
      case Left(right, data, up) => Ok(Unsplit(Cursor(right, up), c.it.leaf, data))
      case Right(left, data, up) => Ok(Unsplit(Cursor(left, up), c.it.leaf, data))
  }

  function SplitNodeAndInsertLeft<L, N>(c: Cursor<L, N>, toInsert: L): Moved<L, N> {
    if c.it.Node? then Ok(Cursor(Node(Leaf(toInsert), c.it, None), c.path)) else Err(c)
  }

  function SplitNodeAndInsertRight<L, N>(c: Cursor<L, N>, toInsert: L): Moved<L, N> {
    if c.it.Node? then Ok(Cursor(Node(c.it, Leaf(toInsert), None), c.path)) else Err(c)
  }

  function SplitLeafAndInsertRight<L, N>(c: Cursor<L, N>, right: L): Moved<L, N> {
    if c.it.Leaf? then Ok(Cursor(Node(c.it, Leaf(right), None), c.path)) else Err(c)
  }

  function SplitLeafAndInsertLeft<L, N>(c: Cursor<L, N>, left: L): Moved<L, N> {
    if c.it.Leaf? then Ok(Cursor(Node(Leaf(left), c.it, None), c.path)) else Err(c)
  }

  /** Taking out the leaf that a split has put in restores the cursor and yields the leaf. */
  lemma {:induction false} UnsplitUndoesSplit<L, N>(c: Cursor<L, N>, x: L)
    ensures var s := SplitLeafAndInsertLeft(c, x);
      s.Ok? ==> GoLeft(s.value).Ok? && UnsplitLeaf(GoLeft(s.value).value) == Ok(Unsplit(c, x, None))
    ensures var s := SplitNodeAndInsertLeft(c, x);
      s.Ok? ==> GoLeft(s.value).Ok? && UnsplitLeaf(GoLeft(s.value).value) == Ok(Unsplit(c, x, None))
    ensures var s := SplitLeafAndInsertRight(c, x);
      s.Ok? ==> GoRight(s.value).Ok? && UnsplitLeaf(GoRight(s.value).value) == Ok(Unsplit(c, x, None))
    ensures var s := SplitNodeAndInsertRight(c, x);
      s.Ok? ==> GoRight(s.value).Ok? && UnsplitLeaf(GoRight(s.value).value) == Ok(Unsplit(c, x, None))
  {
  }

  /** A split puts beside the focus whatever the unsplit took out. */
  function SplitBack<L, N>(u: Unsplit<L, N>, left: bool): Moved<L, N> {
    var c := u.cursor;
    if c.it.Leaf? then (if left then SplitLeafAndInsertLeft(c, u.leaf) else SplitLeafAndInsertRight(c, u.leaf))
    else (if left then SplitNodeAndInsertLeft(c, u.leaf) else SplitNodeAndInsertRight(c, u.leaf))
  }

  /** Splitting on the same side, labelling the node and stepping down undoes an unsplit. */
  lemma {:induction false} SplitUndoesUnsplit<L, N>(c: Cursor<L, N>)
    requires Proper(Whole(c)) && UnsplitLeaf(c).Ok?
    ensures var u := UnsplitLeaf(c).value;
      var s := SplitBack(u, c.path.Left?);
      && s.Ok? && AssignNode(s.value, u.data).Ok?
      && var n := AssignNode(s.value, u.data).value;
         (if c.path.Left? then GoLeft(n) else GoRight(n)) == Ok(c)
  {
    ProperAround(c);
  }

  // ---- the leaves --------------------------------------------------------------------------------

  function Leaves<L, N>(t: Tree<L, N>): (s: seq<L>)
    ensures |s| == NumLeaves(t)
  {
    match t
    case Empty => []
    case Leaf(l) => [l]
    case Node(left, right, _) => Leaves(left) + Leaves(right)
  }

  function LeavesBefore<L, N>(path: Path<L, N>): seq<L> {
    match path
    case Top => []
    case Left(_, _, up) => LeavesBefore(up)
    case Right(left, _, up) => LeavesBefore(up) + Leaves(left)
  }

  function LeavesAfter<L, N>(path: Path<L, N>): seq<L> {
    match path
    case Top => []
    case Left(right, _, up) => Leaves(right) + LeavesAfter(up)
    case Right(_, _, up) => LeavesAfter(up)
  }

  function Around<L, N>(path: Path<L, N>, mid: seq<L>): seq<L> {
    LeavesBefore(path) + mid + LeavesAfter(path)
  }

  lemma Regroup<T>(a: seq<T>, b: seq<T>, c: seq<T>, d: seq<T>)
    ensures a + (b + c) + d == a + b + (c + d) == a + b + c + d
  {
  }

  lemma {:induction false} LeavesAround<L, N>(it: Tree<L, N>, path: Path<L, N>)
    ensures Leaves(Rebuild(it, path)) == Around(path, Leaves(it))
    decreases path
  {
    match path
    case Top =>
    case Left(right, data, up) =>
      LeavesAround(Node(it, right, data), up);
      Regroup(LeavesBefore(up), Leaves(it), Leaves(right), LeavesAfter(up));
    case Right(left, data, up) =>
      LeavesAround(Node(left, it, data), up);
      Regroup(LeavesBefore(up), Leaves(left), Leaves(it), LeavesAfter(up));
  }

  /** A split inserts one leaf directly beside the leaves of the focus. */
  lemma {:induction false} SplitsInsert<L, N>(c: Cursor<L, N>, x: L)
    ensures SplitLeafAndInsertLeft(c, x).Ok? <==> c.it.Leaf?
    ensures SplitLeafAndInsertRight(c, x).Ok? <==> c.it.Leaf?
    ensures SplitNodeAndInsertLeft(c, x).Ok? <==> c.it.Node?
    ensures SplitNodeAndInsertRight(c, x).Ok? <==> c.it.Node?
    ensures forall s | s in [SplitLeafAndInsertLeft(c, x), SplitNodeAndInsertLeft(c, x)] ::
      s.Ok? ==> Leaves(Whole(s.value)) == Around(c.path, [x] + Leaves(c.it))
    ensures forall s | s in [SplitLeafAndInsertRight(c, x), SplitNodeAndInsertRight(c, x)] ::
      s.Ok? ==> Leaves(Whole(s.value)) == Around(c.path, Leaves(c.it) + [x])
  {
    LeavesAround(Node(Leaf(x), c.it, None), c.path);
    LeavesAround(Node(c.it, Leaf(x), None), c.path);
  }

  /** An unsplit takes out exactly the leaf of the focus; it fails only at the top and beside leaves. */
  lemma {:induction false} UnsplitRemoves<L, N>(c: Cursor<L, N>)
    ensures UnsplitLeaf(c).Err? <==> !c.it.Leaf? || c.path.Top?
    ensures UnsplitLeaf(c).Err? ==> UnsplitLeaf(c).error == c
    ensures UnsplitLeaf(c).Ok? ==>
      && [UnsplitLeaf(c).value.leaf] == Leaves(c.it)
      && Leaves(Whole(UnsplitLeaf(c).value.cursor)) == Around(c.path, [])
  {
    if UnsplitLeaf(c).Ok? {
      var u := UnsplitLeaf(c).value.cursor;
      LeavesAround(u.it, u.path);
      match c.path
      case Left(right, _, up) => assert Around(c.path, []) == Around(up, Leaves(right));
      case Right(left, _, up) => assert Around(c.path, []) == Around(up, Leaves(left));
    }
  }

  /** The remaining edits: the first leaf of a tree, a new value for a leaf, a label for a node. */
  lemma {:induction false} ValuesChange<L, N>(c: Cursor<L, N>, x: L, value: Option<N>)
    ensures AssignTop(c, x).Ok? <==> Whole(c).Empty?
    ensures AssignTop(c, x).Ok? ==> Leaves(Whole(AssignTop(c, x).value)) == [x]
    ensures c.it.Leaf? ==> Leaves(Whole(WriteLeaf(c, x))) == Around(c.path, [x])
    ensures !c.it.Leaf? ==> WriteLeaf(c, x) == c
    ensures AssignNode(c, value).Ok? <==> c.it.Node?
    ensures Leaves(Whole(Land(AssignNode(c, value)))) == Leaves(Whole(c))
  {
    EmptyIsTop(c.it, c.path);
    LeavesAround(c.it, c.path);
    LeavesAround(Land(AssignNode(c, value)).it, c.path);
    LeavesAround(WriteLeaf(c, x).it, c.path);
  }
}
