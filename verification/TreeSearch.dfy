/** Fail-soft alpha-beta and plain minimax over a finite game tree, and the
    theorem relating them. The search of Minimax.cpp is this search applied
    to the tree of generated moves (module Search); keeping the tree
    abstract keeps the theorem about the arithmetic of the search alone. */
module TreeSearch {
  import opened Evaluation

  /** The sentinel each side's best value starts from (`-999999` for the
      maximiser, `999999` for the minimiser). */
  const Infinity: int := 999999

  /** A searched position: a leaf carries its static evaluation; an inner
      node says whether the side to move maximises and lists the children in
      move order. */
  datatype Tree = Leaf(value: int) | Node(maximise: bool, children: seq<Tree>)

  /** Every inner node has at least one child (a position without moves is a
      leaf). */
  predicate Proper(t: Tree) {
    match t
    case Leaf(_) => true
    case Node(_, cs) => |cs| > 0 && forall i :: 0 <= i < |cs| ==> Proper(cs[i])
  }

  /** A proper tree whose leaves all lie strictly between the sentinels. */
  predicate Inside(t: Tree) {
    match t
    case Leaf(v) => -Infinity < v < Infinity
    case Node(_, cs) => |cs| > 0 && forall i :: 0 <= i < |cs| ==> Inside(cs[i])
  }

  // ---------------------------------------------------------------------
  // Alpha-beta as written
  // ---------------------------------------------------------------------

  /** `alphaBeta` on a tree: a leaf's value, or the maximising or minimising
      loop over the children. */
  function SearchTree(t: Tree, alpha: int, beta: int): int
    decreases t, 1, 0
  {
    match t
    case Leaf(v) => v
    case Node(mx, _) =>
      if mx then MaxLoop(t, 0, alpha, beta, -Infinity) else MinLoop(t, 0, alpha, beta, Infinity)
  }

  /** The maximising loop from child `i` on: each child's score raises
      `value`, `value` raises `alpha`, and the loop stops as soon as
      `alpha >= beta`. Later children are searched with the raised alpha. */
  function MaxLoop(t: Tree, i: nat, alpha: int, beta: int, value: int): int
    requires t.Node? && i <= |t.children|
    decreases t, 0, |t.children| - i
  {
    if i == |t.children| then value
    else
      var v := Max(value, SearchTree(t.children[i], alpha, beta));
      var a := Max(alpha, v);
      if a >= beta then v else MaxLoop(t, i + 1, a, beta, v)
  }

  /** The minimising loop: each score lowers `value`, `value` lowers `beta`,
      and the loop stops as soon as `beta <= alpha`. */
  function MinLoop(t: Tree, i: nat, alpha: int, beta: int, value: int): int
    requires t.Node? && i <= |t.children|
    decreases t, 0, |t.children| - i
  {
    if i == |t.children| then value
    else
      var v := Min(value, SearchTree(t.children[i], alpha, beta));
      var bt := Min(beta, v);
      if bt <= alpha then v else MinLoop(t, i + 1, alpha, bt, v)
  }

  // ---------------------------------------------------------------------
  // Reference: plain minimax
  // ---------------------------------------------------------------------

  /** The minimax value: no sentinels, no window, no cut-offs. */
  function MinimaxValue(t: Tree): int
    requires Proper(t)
    decreases t, 1, 0
  {
    match t
    case Leaf(v) => v
    case Node(mx, cs) => if mx then BestFrom(t, 0) else WorstFrom(t, 0)
  }

  /** The largest minimax value among children i, i+1, ... */
  function BestFrom(t: Tree, i: nat): int
    requires Proper(t) && t.Node? && i < |t.children|
    decreases t, 0, |t.children| - i
  {
    var v := MinimaxValue(t.children[i]);
    if i == |t.children| - 1 then v else Max(v, BestFrom(t, i + 1))
  }

  /** The smallest minimax value among children i, i+1, ... */
  function WorstFrom(t: Tree, i: nat): int
    requires Proper(t) && t.Node? && i < |t.children|
    decreases t, 0, |t.children| - i
  {
    var v := MinimaxValue(t.children[i]);
    if i == |t.children| - 1 then v else Min(v, WorstFrom(t, i + 1))
  }

  lemma {:induction false} InsideIsProper(t: Tree)
    requires Inside(t)
    ensures Proper(t)
  {
    match t
    case Leaf(_) =>
    case Node(_, cs) =>
      forall i | 0 <= i < |cs|
        ensures Proper(cs[i])
      {
        InsideIsProper(cs[i]);
      }
  }

  /** The minimax value of a tree is one of its leaves' values, so it too
      lies strictly between the sentinels. */
  lemma {:induction false} MinimaxInside(t: Tree)
    requires Inside(t)
    ensures Proper(t) && -Infinity < MinimaxValue(t) < Infinity
    decreases t, 1
  {
    InsideIsProper(t);
    if t.Node? {
      if t.maximise {
        BestFromInside(t, 0);
      } else {
        WorstFromInside(t, 0);
      }
    }
  }

  lemma {:induction false} BestFromInside(t: Tree, i: nat)
    requires Inside(t) && t.Node? && i < |t.children|
    ensures Proper(t) && -Infinity < BestFrom(t, i) < Infinity
    decreases t, 0, |t.children| - i
  {
    InsideIsProper(t);
    MinimaxInside(t.children[i]);
    if i < |t.children| - 1 {
      BestFromInside(t, i + 1);
    }
  }

  lemma {:induction false} WorstFromInside(t: Tree, i: nat)
    requires Inside(t) && t.Node? && i < |t.children|
    ensures Proper(t) && -Infinity < WorstFrom(t, i) < Infinity
    decreases t, 0, |t.children| - i
  {
    InsideIsProper(t);
    MinimaxInside(t.children[i]);
    if i < |t.children| - 1 {
      WorstFromInside(t, i + 1);
    }
  }

  // ---------------------------------------------------------------------
  // Alpha-beta against minimax
  // ---------------------------------------------------------------------

  /** The fail-soft contract of a search result `x` for true value `v` and
      window (alpha, beta): exact inside the window; outside it, between the
      violated bound and `v`. */
  predicate FailSoft(x: int, v: int, alpha: int, beta: int) {
    (v <= alpha ==> v <= x <= alpha)
    && (alpha < v < beta ==> x == v)
    && (beta <= v ==> beta <= x <= v)
  }

  /** Alpha-beta is fail-soft with respect to minimax: for every window with
      alpha < beta, on a tree whose leaves lie strictly between the
      sentinels, the result equals the minimax value when that value is
      inside the window, is at most alpha (and at least the minimax value)
      when the value is at most alpha, and is at least beta (and at most the
      minimax value) when the value is at least beta. */
  lemma {:induction false} SearchIsFailSoft(t: Tree, alpha: int, beta: int)
    requires alpha < beta && Inside(t)
    ensures Proper(t) && FailSoft(SearchTree(t, alpha, beta), MinimaxValue(t), alpha, beta)
    decreases t, 1, 0
  {
    InsideIsProper(t);
    if t.Node? {
      if t.maximise {
        MaxLoopIsFailSoft(t, 0, alpha, beta, -Infinity);
        BestFromInside(t, 0);
      } else {
        MinLoopIsFailSoft(t, 0, alpha, beta, Infinity);
        WorstFromInside(t, 0);
      }
    }
  }

  /** The maximising loop from child `i` with best-so-far `value` is
      fail-soft for the larger of `value` and the children's best minimax
      value. */
  lemma {:induction false} MaxLoopIsFailSoft(t: Tree, i: nat, alpha: int, beta: int, value: int)
    requires alpha < beta && Inside(t) && t.Node? && i < |t.children|
    ensures Proper(t) && FailSoft(MaxLoop(t, i, alpha, beta, value), Max(value, BestFrom(t, i)), alpha, beta)
    decreases t, 0, |t.children| - i
  {
    InsideIsProper(t);
    var c := t.children[i];
    SearchIsFailSoft(c, alpha, beta);
    var v := Max(value, SearchTree(c, alpha, beta));
    var a := Max(alpha, v);
    if a < beta && i + 1 < |t.children| {
      MaxLoopIsFailSoft(t, i + 1, a, beta, v);
    }
  }

  lemma {:induction false} MinLoopIsFailSoft(t: Tree, i: nat, alpha: int, beta: int, value: int)
    requires alpha < beta && Inside(t) && t.Node? && i < |t.children|
    ensures Proper(t) && FailSoft(MinLoop(t, i, alpha, beta, value), Min(value, WorstFrom(t, i)), alpha, beta)
    decreases t, 0, |t.children| - i
  {
    InsideIsProper(t);
    var c := t.children[i];
    SearchIsFailSoft(c, alpha, beta);
    var v := Min(value, SearchTree(c, alpha, beta));
    var bt := Min(beta, v);
    if alpha < bt && i + 1 < |t.children| {
      MinLoopIsFailSoft(t, i + 1, alpha, bt, v);
    }
  }

  /** A window that contains every possible leaf value gives the minimax
      value exactly. */
  lemma WideWindowIsExact(t: Tree, alpha: int, beta: int)
    requires Inside(t) && alpha <= -Infinity && Infinity <= beta
    ensures Proper(t) && SearchTree(t, alpha, beta) == MinimaxValue(t)
  {
    MinimaxInside(t);
    SearchIsFailSoft(t, alpha, beta);
  }
}
