# Rubykon core: search-tree nodes and stones

This project models two pieces of Rubykon, a Go engine with a generic Monte
Carlo Tree Search (MCTS):

- **`MCTS.Node`** (`node.dfy`): one node of the search tree. It keeps a visit
  count, a win count, the list of children expanded so far, the stack of moves
  not yet tried, and the game state reached by the move that produced it.
  `Won`/`Lost` bump the counters, `Expand` pops one untried move and creates a
  child on a *duplicate* of the game state, and `Backpropagate` walks the
  parent chain with a cursor until it reaches the node whose `root?` is true,
  updating every node on the way. The game is abstract: `GameState` holds a
  position of any type and a `Rules` value with the game's three capabilities
  (valid moves, play a move, finished?). `Dup` returns a fresh object and
  `SetMove` changes the position in place.
- **`Rubykon.Stone`** (`stone.dfy`): a stone with immutable coordinates and
  colour, a mutable group reference and a captures list. It has the colour flip
  (`OtherColor`, `EnemyColor`), pass and empty tests, structural equality that
  ignores group and captures, and the `"x-y"` identifier used as the key of
  liberty maps.

What is proved, in short:

- New nodes start at zero wins and zero visits, with no children. Their
  untried moves are the state's valid moves, and their leaf flag is the
  state's `finished?`, for roots and for children made by `Expand` alike.
- `Won` adds one visit and one win. `Lost` adds one visit and no win. Both
  keep `wins <= visits`.
- `Backpropagate(won)` updates exactly the nodes from the start node up to and
  including the first root. Each of them gains one visit, and one win when
  `won` holds. No other node and no other field changes. The loop terminates
  because of a ghost ancestor list.
- When the untried list is non-empty, `Expand` moves its last move into one
  new child; on an empty list it appends a child with no move, as Ruby's
  `pop` on an empty array gives nil. The child's parent is this node. The child's state is a fresh
  copy advanced by that move, and this node's own state is unchanged. It keeps
  two invariants: every child has this node as parent, and the untried moves
  followed by the children's moves (newest first) are exactly the valid moves.
- `UctSelectChild` returns null exactly when there are no children. Otherwise
  it returns the first child with the greatest score, for any score function.
- `OtherColor` maps black to white and everything else to black. It is an
  involution on black and white, and the enemy colour of a black or white
  stone differs from its own.
- Stone equality is an equivalence over colour and coordinates, and equal
  stones agree on every query apart from group and captures. For
  non-negative coordinates the identifier parses back to its coordinates, so two stones share an identifier exactly
  when their coordinates are equal.

The two sources differ from a plain reading in a few places, and the model
follows the code:

- `root?` is `false` for every node in `lib/mcts/node.rb`. Only the root
  subclass answers true, and it is not part of this model; the `Root`
  constructor stands for it.
- `wins` starts at `0.0`, but it only ever grows by 1, so it is a `nat`.
- `capture` appends a *list* of stones (`+=`), not a single stone.

## Model

| member | source | states |
|---|---|---|
| `MCTS.Node.constructor` | lib/mcts/node.rb:5-14 | a new node keeps its state, move and parent; it is not a root; wins and visits are 0, no children; untried moves are the state's valid moves; the leaf flag that `leaf?` returns is the state's `finished?`; the untried/expanded accounting holds; its chain reaches a root exactly when its parent's does |
| `MCTS.Node.Root` | lib/mcts/node.rb:24-26 | stands for the root subclass, which is not part of this model and overrides `root?` (false here for every other node) to answer true; the root has no parent and no move, and starts with the same statistics as any new node |
| `MCTS.Node.HasUntriedMoves` | lib/mcts/node.rb:66-68 | while every valid move is either untried or the move of a child, the answer is true exactly when fewer children carry a move than there are valid moves, i.e. some valid move has not yet been expanded |
| `MCTS.Node.Won` | lib/mcts/node.rb:48-51 | visits and wins each grow by exactly 1, nothing else changes, `wins <= visits` is preserved |
| `MCTS.Node.Lost` | lib/mcts/node.rb:53-55 | visits grows by exactly 1, wins is unchanged, `wins <= visits` is preserved |
| `MCTS.Node.UpdateNodeWon` | lib/mcts/node.rb:72-78 | one visit more, and one win more exactly when `won`; only that node's counters change |
| `MCTS.Node.Backpropagate` | lib/mcts/node.rb:57-64 | every node from the start up to and including the first root gains one visit, and one win exactly when `won`; `wins <= visits` is preserved on each; stated both by position on the path and for each node on it; the frame lets no other node or field change |
| `MCTS.Node.PathLink` | lib/mcts/node.rb:60-62 | along the path the cursor follows, each node's parent is the next node, and only the last node answers `root?` with true, so the walk stops there |
| `MCTS.Node.AncestorCounts` | lib/mcts/node.rb:60-63 | the k-th node on the path has k fewer ancestors than the start, which bounds the walk |
| `MCTS.Node.PathDistinct` | lib/mcts/node.rb:57-64 | no node occurs twice on the path, so no node is updated twice |
| `MCTS.Node.Expand` | lib/mcts/node.rb:37-40 | the last untried move is removed (nil when there is none) and becomes the move of exactly one new child appended to the children; the child's leaf flag is its state's `finished?`; this node's state is unchanged; children-have-this-parent and untried-plus-expanded-equals-valid-moves are preserved |
| `MCTS.Node.CreateChild` | lib/mcts/node.rb:80-86 | the child is fresh, has this node as parent and the given move, and its state is a fresh duplicate advanced by `play`; the child's untried moves and leaf flag come from that state; the children list gains exactly that child at the end |
| `MCTS.Node.UctSelectChild` | lib/mcts/node.rb:32-34 | for a node whose children all have it as parent (so the parent visits in the score are this node's): null exactly when there are no children; otherwise a child whose score is at least every child's score, and the first such child in list order |
| `MCTS.GameState.Dup` | lib/mcts/node.rb:81 | the copy is a freshly allocated state with the same rules and position |
| `MCTS.GameState.SetMove` | lib/mcts/node.rb:82 | the position becomes the rules' successor of the old position under the move |
| `Rubykon.Stone.constructor` | lib/rubykon/stone.rb:5-10 | coordinates and colour as given, no group, captures unset |
| `Rubykon.Stone.Remove` | lib/rubykon/stone.rb:12-14 | the group becomes nil; coordinates, colour and captures are unchanged |
| `Rubykon.Stone.Join` | lib/rubykon/stone.rb:16-18 | the group becomes the given one; coordinates, colour and captures are unchanged |
| `Rubykon.OtherColor` | lib/rubykon/stone.rb:20-26 | the result is black or white; it is white exactly when the input is black; it differs from a black or white input |
| `Rubykon.OtherColorInvolution` | lib/rubykon/stone.rb:20-26 | flipping a black or white colour twice gives it back |
| `Rubykon.Stone.EnemyColor` | lib/rubykon/stone.rb:28-30 | the other colour of the stone's colour, which differs from it for black and white stones |
| `Rubykon.Stone.Capture` | lib/rubykon/stone.rb:32-35 | the captures become the earlier captures (empty if unset) followed by the given stones, in order, and that list is returned |
| `Rubykon.Stone.IsEmpty` | lib/rubykon/stone.rb:37-39 | a stone of the board's empty colour is neither black nor white, and its enemy colour is black |
| `Rubykon.Stone.IsPass` | lib/rubykon/stone.rb:41-43 | a stone missing x or y is a pass, and its identifier then begins (x missing) or ends (y missing) with the dash; a non-pass stone with non-negative coordinates has an identifier that neither begins nor ends with it |
| `Rubykon.Stone.Equals` | lib/rubykon/stone.rb:45-49 | stones differing in colour or a coordinate are unequal; equal stones share their identifier and enemy colour (group and captures play no part) |
| `Rubykon.EqualsRespectsQueries` | lib/rubykon/stone.rb:37-53 | equal stones agree on `pass?`, `empty?`, the enemy colour and the identifier; they need not agree on group and captures |
| `Rubykon.EqualsIsEquivalence` | lib/rubykon/stone.rb:45-49 | `==` compares colour and coordinates only, and is reflexive, symmetric and transitive |
| `Rubykon.ShowCoordinate` | lib/rubykon/stone.rb:52 | a nil coordinate renders as the empty string; a non-negative one as a non-empty string of digits |
| `Rubykon.NatToStringRoundTrip` | lib/rubykon/stone.rb:52 | reading the decimal digits of n back gives n |
| `Rubykon.Stone.Identifier` | lib/rubykon/stone.rb:51-53 | for non-negative coordinates, the identifier parses back to exactly `(x, y)` |
| `Rubykon.IdentifierRoundTrip` | lib/rubykon/stone.rb:51-53 | splitting `"x-y"` at its first dash and reading both halves gives back `(x, y)` |
| `Rubykon.IdentifierInjective` | lib/rubykon/stone.rb:51-53 | two non-negative coordinate pairs have the same identifier exactly when they are equal |
| `Rubykon.IdentifierMatchesCoordinates` | lib/rubykon/stone.rb:45-53 | two stones with non-negative coordinates share an identifier exactly when their coordinates are equal |

## Left out

- `uct_value` and `win_percentage` (lib/mcts/node.rb:16-22) use floating-point square root, logarithm and division, and a bias constant that is not part of this model. `UctSelectChild` takes the score as a parameter over a child's wins and visits and this node's visits.
- MCTS.Node.UctSelectChild: passes this node's visits as the parent visits, where the source reads the child's `parent.visits`; its precondition `ChildrenLinked` makes the two the same, and `Expand` preserves it.
- `rollout` (lib/mcts/node.rb:42-46) delegates to a playout class that is not part of this model and uses random move generation.
- `wins` is a float in the source. It is a natural number here, because it only ever grows by 1 from 0.0.
- MCTS.Node.Backpropagate: requires the parent chain to reach a node whose `root?` is true. In the source, a chain that ends in nil raises `NoMethodError`; that failure is not modelled.
- The root subclass of `Node` is not part of this model. `Node.Root` stands for it: a node with no parent that answers `root?` with true.
- The concrete games (the Go game and the two-move example game) are not part of this model. They stand behind `GameState`, whose `Rules` are arbitrary total functions; `generate_move` and `won?` are used only by rollouts and are left out with them.
- `all_valid_moves` may hand back an array that the game itself still holds, and `pop` would then change the game. Here the node keeps its own copy of the move list, so that aliasing is not captured.
- The `Group` class, the board, the group overseer and the game are not part of this model. `Group` is an empty class that stands for the object a stone refers to.
- Stone colours are Ruby symbols: `Black`, `White`, `Empty` (the board's empty colour, whose symbol is not part of this model) and `Other(name)` for any other symbol.
- `==` with an argument that is not a stone (a `NoMethodError` in Ruby) cannot arise, because the argument is typed `Stone`.
- Ruby object identity beyond "dup returns a fresh object", and `freeze` on the identifier string, are not modelled.
