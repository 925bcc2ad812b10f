/**
 Binary trees walked from the root to a place (the struct rb_node pointers of the identity trees).

 Rebalancing only has to keep the in-order sequence; everything above is stated about that sequence.
 */
module OrderedTree {

  datatype Tree<T> = Leaf | Node(left: Tree<T>, val: T, right: Tree<T>)

  datatype Turn = GoLeft | GoRight

  function InOrder<T>(t: Tree<T>): seq<T> {
    match t
    case Leaf => []
    case Node(l, v, r) => InOrder(l) + [v] + InOrder(r)
  }

  /** The path stays inside the tree, ending possibly at a leaf. */
  predicate Inside<T>(t: Tree<T>, path: seq<Turn>) {
    path == [] || (t.Node? && Inside(if path[0] == GoLeft then t.left else t.right, path[1..]))
  }

  function At<T>(t: Tree<T>, path: seq<Turn>): Tree<T>
    requires Inside(t, path)
  {
    if path == [] then t else At(if path[0] == GoLeft then t.left else t.right, path[1..])
  }

  /** What comes before the place in the in-order sequence. */
  ghost function Before<T>(t: Tree<T>, path: seq<Turn>): seq<T>
    requires Inside(t, path)
  {
    if path == [] then []
    else if path[0] == GoLeft then Before(t.left, path[1..])
    else InOrder(t.left) + [t.val] + Before(t.right, path[1..])
  }

  ghost function After<T>(t: Tree<T>, path: seq<Turn>): seq<T>
    requires Inside(t, path)
  {
    if path == [] then []
    else if path[0] == GoLeft then After(t.left, path[1..]) + [t.val] + InOrder(t.right)
    else After(t.right, path[1..])
  }

  /** The tree with s put at the place. */
  function Put<T>(t: Tree<T>, path: seq<Turn>, s: Tree<T>): Tree<T>
    requires Inside(t, path)
  {
    if path == [] then s
    else if path[0] == GoLeft then t.(left := Put(t.left, path[1..], s))
    else t.(right := Put(t.right, path[1..], s))
  }

  lemma {:induction false} Around<T>(t: Tree<T>, path: seq<Turn>)
    requires Inside(t, path)
    ensures InOrder(t) == Before(t, path) + InOrder(At(t, path)) + After(t, path)
  {
    if path != [] { Around(if path[0] == GoLeft then t.left else t.right, path[1..]); }
  }

  lemma {:induction false} PutInOrder<T>(t: Tree<T>, path: seq<Turn>, s: Tree<T>)
    requires Inside(t, path)
    ensures InOrder(Put(t, path, s)) == Before(t, path) + InOrder(s) + After(t, path)
  {
    if path != [] { PutInOrder(if path[0] == GoLeft then t.left else t.right, path[1..], s); }
  }

  lemma {:induction false} DownAt<T>(t: Tree<T>, path: seq<Turn>, turn: Turn)
    requires Inside(t, path) && At(t, path).Node?
    ensures Inside(t, path + [turn])
    ensures At(t, path + [turn]) == (if turn == GoLeft then At(t, path).left else At(t, path).right)
  {
    if path == [] {
      assert (path + [turn])[1..] == [];
    } else {
      DownAt(if path[0] == GoLeft then t.left else t.right, path[1..], turn);
      assert (path + [turn])[1..] == path[1..] + [turn];
    }
  }

  lemma {:induction false} DownBefore<T>(t: Tree<T>, path: seq<Turn>, turn: Turn)
    requires Inside(t, path) && Inside(t, path + [turn]) && At(t, path).Node?
    ensures Before(t, path + [turn])
         == Before(t, path) + if turn == GoLeft then [] else InOrder(At(t, path).left) + [At(t, path).val]
  {
    if path == [] {
      assert (path + [turn])[1..] == [];
    } else {
      assert (path + [turn])[1..] == path[1..] + [turn];
      DownBefore(if path[0] == GoLeft then t.left else t.right, path[1..], turn);
    }
  }

  lemma {:induction false} DownAfter<T>(t: Tree<T>, path: seq<Turn>, turn: Turn)
    requires Inside(t, path) && Inside(t, path + [turn]) && At(t, path).Node?
    ensures After(t, path + [turn])
         == (if turn == GoLeft then [At(t, path).val] + InOrder(At(t, path).right) else []) + After(t, path)
  {
    if path == [] {
      assert (path + [turn])[1..] == [];
    } else {
      assert (path + [turn])[1..] == path[1..] + [turn];
      DownAfter(if path[0] == GoLeft then t.left else t.right, path[1..], turn);
    }
  }

  /** One step down from the place. */
  lemma Down<T>(t: Tree<T>, path: seq<Turn>, turn: Turn)
    requires Inside(t, path) && At(t, path).Node?
    ensures Inside(t, path + [turn])
    ensures var n := At(t, path);
            && At(t, path + [turn]) == (if turn == GoLeft then n.left else n.right)
            && Before(t, path + [turn]) == (if turn == GoLeft then Before(t, path) else Before(t, path) + InOrder(n.left) + [n.val])
            && After(t, path + [turn]) == (if turn == GoLeft then [n.val] + InOrder(n.right) + After(t, path) else After(t, path))
  {
    DownAt(t, path, turn);
    DownBefore(t, path, turn);
    DownAfter(t, path, turn);
  }

  /** rb_link_and_balance: the new node is linked at the place, then the tree may be reshaped in any way that keeps its order. */
  method LinkAndBalance<T>(t: Tree<T>, path: seq<Turn>, v: T) returns (r: Tree<T>)
    requires Inside(t, path) && At(t, path).Leaf?
    ensures InOrder(r) == Before(t, path) + [v] + After(t, path)
  {
    r := Put(t, path, Node(Leaf, v, Leaf));
    PutInOrder(t, path, Node(Leaf, v, Leaf));
  }
}
