/**
 * A node of the Monte Carlo search tree: per-node statistics, the children
 * expanded so far, the moves not yet tried, and the game state reached by the
 * move that produced the node.
 */
module MCTS {
  import opened Wrappers

  /**
   * What a searchable game provides about a position of type P with moves of
   * type M: its valid moves, the position after a move (the move popped from
   * an empty list is nil, so `play` receives an optional move), and whether
   * the game is over.
   */
  datatype Rules<!P, !M> = Rules(validMoves: P -> seq<M>, play: (P, Option<M>) -> P, finished: P -> bool)

  /** A mutable game state: a position that `SetMove` advances in place. */
  class GameState<P, M> {
    const rules: Rules<P, M>
    var position: P

    constructor (rules: Rules<P, M>, position: P)
      ensures this.rules == rules && this.position == position
    {
      this.rules := rules;
      this.position := position;
    }

    function AllValidMoves(): seq<M>
      reads this
    {
      rules.validMoves(position)
    }

    predicate IsFinished()
      reads this
    {
      rules.finished(position)
    }

    method SetMove(m: Option<M>)
      modifies this
      ensures position == rules.play(old(position), m)
    {
      position := rules.play(position, m);
    }

    /** A fresh, independent copy of this state. */
    method Dup() returns (copy: GameState<P, M>)
      ensures fresh(copy)
      ensures copy.rules == rules && copy.position == position
    {
      copy := new GameState(rules, position);
    }
  }

  /** The moves of the nodes in cs that carry one, most recently added node first. */
  function MovesNewestFirst<P, M>(cs: seq<Node<P, M>>): seq<M> {
    if cs == [] then []
    else
      var last := cs[|cs| - 1];
      (if last.move.Some? then [last.move.value] else []) + MovesNewestFirst(cs[..|cs| - 1])
  }

  class Node<P, M> {
    const parent: Node?<P, M>
    const gameState: GameState<P, M>
    const move: Option<M>
    /** Whether this node answers `root?` with true: only the root of a tree does. */
    const isRoot: bool
    const leaf: bool
    var wins: nat
    var visits: nat
    var children: seq<Node<P, M>>
    var untriedMoves: seq<M>
    /** The parent chain: parent, grandparent, and so on, as far as it is set. */
    ghost const ancestors: seq<Node<P, M>>

    /** A node created during the search: never a root. */
    constructor (gameState: GameState<P, M>, move: Option<M>, parent: Node?<P, M>)
      ensures this.gameState == gameState && this.move == move && this.parent == parent
      ensures !isRoot
      ensures wins == 0 && visits == 0 && children == []
      ensures untriedMoves == gameState.AllValidMoves()
      ensures leaf == gameState.IsFinished()
      ensures ancestors == if parent != null then [parent] + parent.ancestors else []
      ensures ChainOK() <==> parent != null && parent.ChainOK()
      ensures Accounted()
    {
      this.parent := parent;
      this.gameState := gameState;
      this.move := move;
      isRoot := false;
      wins := 0;
      visits := 0;
      children := [];
      untriedMoves := gameState.AllValidMoves();
      leaf := gameState.IsFinished();
      ancestors := if parent != null then [parent] + parent.ancestors else [];
    }

    /** The root of a search tree, which answers `root?` with true. */
    constructor Root(gameState: GameState<P, M>)
      ensures this.gameState == gameState && this.move == None && this.parent == null
      ensures isRoot && ChainOK()
      ensures wins == 0 && visits == 0 && children == []
      ensures untriedMoves == gameState.AllValidMoves()
      ensures leaf == gameState.IsFinished()
      ensures Accounted()
    {
      parent := null;
      this.gameState := gameState;
      move := None;
      isRoot := true;
      wins := 0;
      visits := 0;
      children := [];
      untriedMoves := gameState.AllValidMoves();
      leaf := gameState.IsFinished();
      ancestors := [];
    }

    /** The statistics invariant: a node never has more wins than visits. */
    ghost predicate StatsValid()
      reads this
    {
      wins <= visits
    }

    /** Every child was expanded from this node. */
    ghost predicate ChildrenLinked()
      reads this
    {
      forall c :: c in children ==> c.parent == this
    }

    /**
     * Each valid move of this position is either still untried or the move of
     * exactly one child: the untried moves followed by the children's moves,
     * newest child first, are the valid moves.
     */
    ghost predicate Accounted()
      reads this, gameState
    {
      gameState.AllValidMoves() == untriedMoves + MovesNewestFirst(children)
    }

    /** Following `parent` from this node reaches a node whose `root?` is true. */
    ghost predicate ChainOK()
      decreases |ancestors|
    {
      if isRoot then ancestors == []
      else parent != null && ancestors == [parent] + parent.ancestors && parent.ChainOK()
    }

    /** The nodes from this one up to and including the first root. */
    ghost function Path(): (p: seq<Node<P, M>>)
      ensures p != [] && p[0] == this
    {
      [this] + ancestors
    }

    /** `leaf?`: the flag both constructors fix from the state's `finished?`. */
    function IsLeaf(): bool
    {
      leaf
    }

    /**
     * `untried_moves?`: under the accounting invariant, some valid move of
     * this position has not yet become the move of a child.
     */
    function HasUntriedMoves(): (r: bool)
      reads this, gameState
      ensures Accounted() ==> (r <==> |MovesNewestFirst(children)| < |gameState.AllValidMoves()|)
    {
      untriedMoves != []
    }

    method Won()
      modifies this`visits, this`wins
      ensures visits == old(visits) + 1 && wins == old(wins) + 1
      ensures old(StatsValid()) ==> StatsValid()
    {
      visits := visits + 1;
      wins := wins + 1;
    }

    method Lost()
      modifies this`visits
      ensures visits == old(visits) + 1 && wins == old(wins)
      ensures old(StatsValid()) ==> StatsValid()
    {
      visits := visits + 1;
    }

    static method UpdateNodeWon(node: Node<P, M>, won: bool)
      modifies node`visits, node`wins
      ensures node.visits == old(node.visits) + 1
      ensures node.wins == old(node.wins) + (if won then 1 else 0)
    {
      if won {
        node.Won();
      } else {
        node.Lost();
      }
    }

    /**
     * Records the outcome `won` on this node and on every ancestor up to and
     * including the first root; no other node changes.
     */
    method Backpropagate(won: bool)
      requires ChainOK()
      modifies Path()`visits, Path()`wins
      ensures forall k :: 0 <= k < |Path()| ==> Path()[k].visits == old(Path()[k].visits) + 1
      ensures forall k :: 0 <= k < |Path()| ==>
                Path()[k].wins == old(Path()[k].wins) + (if won then 1 else 0)
      ensures forall k :: 0 <= k < |Path()| ==> old(Path()[k].StatsValid()) ==> Path()[k].StatsValid()
      ensures forall n :: n in Path() ==>
                n.visits == old(n.visits) + 1 && n.wins == old(n.wins) + (if won then 1 else 0)
    {
      ghost var path := Path();
      var node: Node<P, M> := this;
      ghost var i := 0;
      assert forall k :: 0 < k < |path| ==> path[k] != node by { AncestorCounts(); }
      UpdateNodeWon(node, won);
      PathLink(i);
      while !node.isRoot
        invariant 0 <= i < |path| && path[i] == node
        invariant node.isRoot <==> i == |path| - 1
        invariant i < |path| - 1 ==> node.parent == path[i + 1]
        invariant forall k :: 0 <= k < |path| ==>
                    path[k].visits == old(path[k].visits) + (if k <= i then 1 else 0) &&
                    path[k].wins == old(path[k].wins) + (if k <= i && won then 1 else 0)
        decreases |path| - i
      {
        node := node.parent;
        i := i + 1;
        assert forall k :: 0 <= k < |path| && k != i ==> path[k] != node by { AncestorCounts(); }
        UpdateNodeWon(node, won);
        PathLink(i);
      }
    }

    /** Along the path, each entry's parent is the next entry, and only the last entry is a root. */
    lemma {:induction false} PathLink(i: nat)
      requires ChainOK() && i < |Path()|
      ensures Path()[i].isRoot <==> i == |Path()| - 1
      ensures i < |Path()| - 1 ==> Path()[i].parent == Path()[i + 1]
      decreases |ancestors|
    {
      if i > 0 {
        assert !isRoot;
        parent.PathLink(i - 1);
        assert Path()[1..] == parent.Path();
      }
    }

    /** Walking the chain one step shortens the ancestor list by one. */
    lemma {:induction false} AncestorCounts()
      requires ChainOK()
      ensures forall k :: 0 <= k < |Path()| ==> |Path()[k].ancestors| + k == |ancestors|
      decreases |ancestors|
    {
      if !isRoot {
        parent.AncestorCounts();
        assert Path() == [this] + parent.Path();
      }
    }

    /** No node occurs twice on the path. */
    lemma PathDistinct()
      requires ChainOK()
      ensures forall j, k :: 0 <= j < k < |Path()| ==> Path()[j] != Path()[k]
    {
      AncestorCounts();
    }

    /**
     * Pops the last untried move (nil if there is none) and appends a child
     * for it, built on a duplicate of this node's game state.
     */
    method Expand() returns (child: Node<P, M>)
      modifies this`untriedMoves, this`children
      ensures old(untriedMoves) == [] ==> untriedMoves == [] && child.move == None
      ensures old(untriedMoves) != [] ==>
                child.move.Some? && old(untriedMoves) == untriedMoves + [child.move.value]
      ensures children == old(children) + [child]
      ensures fresh(child) && fresh(child.gameState)
      ensures child.parent == this && !child.isRoot
      ensures child.gameState.rules == gameState.rules
      ensures child.gameState.position == gameState.rules.play(gameState.position, child.move)
      ensures gameState.position == old(gameState.position)
      ensures child.wins == 0 && child.visits == 0 && child.children == []
      ensures child.untriedMoves == child.gameState.AllValidMoves()
      ensures child.leaf == child.gameState.IsFinished()
      ensures ChainOK() ==> child.ChainOK()
      ensures old(ChildrenLinked()) ==> ChildrenLinked()
      ensures old(Accounted()) ==> Accounted()
    {
      var m: Option<M>;
      if untriedMoves == [] {
        m := None;
      } else {
        m := Some(untriedMoves[|untriedMoves| - 1]);
        untriedMoves := untriedMoves[..|untriedMoves| - 1];
      }
      child := CreateChild(m);
    }

    method CreateChild(m: Option<M>) returns (child: Node<P, M>)
      modifies this`children
      ensures children == old(children) + [child]
      ensures fresh(child) && fresh(child.gameState)
      ensures child.parent == this && child.move == m && !child.isRoot
      ensures child.gameState.rules == gameState.rules
      ensures child.gameState.position == gameState.rules.play(gameState.position, m)
      ensures gameState.position == old(gameState.position)
      ensures child.wins == 0 && child.visits == 0 && child.children == []
      ensures child.untriedMoves == child.gameState.AllValidMoves()
      ensures child.leaf == child.gameState.IsFinished()
      ensures ChainOK() ==> child.ChainOK()
      ensures MovesNewestFirst(children) == (if m.Some? then [m.value] else []) + MovesNewestFirst(old(children))
    {
      var state := gameState.Dup();
      state.SetMove(m);
      child := new Node(state, m, this);
      children := children + [child];
      assert children[..|children| - 1] == old(children);
    }

    /**
     * The abstract selection score of child c, from its statistics and its
     * parent's visits; for a child of this node (`ChildrenLinked`) the parent
     * is this node.
     */
    function Score(c: Node<P, M>, score: (nat, nat, nat) -> real): real
      reads this, c
    {
      score(c.wins, c.visits, visits)
    }

    /**
     * The first child with the greatest score, or null when there are no
     * children.
     */
    method UctSelectChild(score: (nat, nat, nat) -> real) returns (best: Node?<P, M>)
      requires ChildrenLinked()
      ensures best == null <==> children == []
      ensures best != null ==>
                exists i :: 0 <= i < |children| && children[i] == best &&
                  (forall j :: 0 <= j < i ==> Score(children[j], score) < Score(best, score))
      ensures best != null ==> forall c :: c in children ==> Score(c, score) <= Score(best, score)
    {
      if children == [] {
        return null;
      }
      var bestIndex := 0;
      for i := 1 to |children|
        invariant 0 <= bestIndex < i
        invariant forall j :: 0 <= j < bestIndex ==>
                    Score(children[j], score) < Score(children[bestIndex], score)
        invariant forall j :: 0 <= j < i ==>
                    Score(children[j], score) <= Score(children[bestIndex], score)
      {
        if Score(children[i], score) > Score(children[bestIndex], score) {
          bestIndex := i;
        }
      }
      best := children[bestIndex];
    }
  }
}
