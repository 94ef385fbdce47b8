# Quixo bitboards and Monte Carlo tree search, in Dafny

This project models the core of a Quixo player. Quixo is played on a 5×5
board of cubes: a move takes a border cube that is blank or the mover's own,
marks it with the mover's symbol and pushes it back in at the other end of
its row or column, sliding the cubes in between by one cell.

The model covers four parts:

- **The bitboard engine `State`** (`game.py`). A position is one integer: the
  O pieces occupy bits 0–24 and the X pieces bits 32–56, and cell (r, c) owns
  bit `24 - (5r + c)` of each field. The model has `swap_players`, the four
  `shift_*` moves and the six reflections and rotations. It also has
  `check_symmetries`, `generate_moves`, `create_position`, `check_winner`,
  `is_terminal`, `reward`, `find_children`, `find_the_child`, the symmetry
  hash key and `__eq__`.
- **The array engine `Game`** (`game.py`). Its grid holds -1 (blank), 0 and 1.
  The model has `__take`, `__slide`, `__move` and `check_winner`.
- **The adapter in `main.py`**. It has the nested `fromNumPy` encoder, the
  choice of symbols, and the translation of the chosen child into
  `(from_pos, Move)`. It is proved to agree with both engines.
- **The searcher `MCTS`** (`MCTS.py`), generic in the node type:
  - `change_player`, `choose`, `do_rollout`, `_select`, `_expand`,
    `_backpropagate` and `_uct_select`;
  - the three dictionaries, each kept as its list of entries in insertion
    order and looked up with the stored key's hash and `__eq__`;
  - the exceptions of `_uct_select` in the order the program meets them:
    the `math.log` of the parent's count, then the score of each child in
    list order, whose division raises ZeroDivisionError on a count of 0
    and whose `math.sqrt` raises ValueError on a negative count;
  - the set difference `children[node] - children.keys()` built the way
    CPython builds it: `set(children[node])`, then each key discarded in
    turn;
  - Quixo boards plugged in as the node type (`quixo_search.dfy`).

Piece counts (`counts.dfy`) state what a move and a symmetry do to the
number of cubes each player shows.

Boards are unbounded naturals, like Python integers. `bits.dfy` defines
shifts, `&`, `|` and single-bit tests on them, and every mask literal of the
source is proved to mean the cells it stands for. Exceptions the source
raises are `Raise(e)` values of a `Result` type (`pyruntime.dfy`).

Where the program's text and its description disagree, the model follows
the program:

- When `_select` meets a node that is already on the path, it still descends
  into it and only raises the rank used on the next step.
- `check_winner` of `State` answers "D" for a full board before it looks at
  any line. So a full board that contains a line is a draw.
- `Game.__move` rejects only player ids above 2, so id 2 is accepted.

## Model

| member | source | states |
|---|---|---|
| Players.SwapCell | game.py:287-293 | after `swap_players` a cell holds an O exactly where it held an X before, and the other way round |
| Players.SwapInvolution | game.py:287-293 | swapping twice gives back the board, and swapping keeps a board well formed |
| Shifts.ShiftRight | game.py:296-308 | `shift_right` raises `TypeError` exactly for a player other than "X" and "O" |
| Shifts.ShiftLeft | game.py:310-322 | `shift_left` raises `TypeError` exactly for a player other than "X" and "O" |
| Shifts.ShiftUp | game.py:324-336 | `shift_up` raises `TypeError` exactly for a player other than "X" and "O" |
| Shifts.ShiftDown | game.py:338-350 | `shift_down` raises `TypeError` exactly for a player other than "X" and "O" |
| Shifts.DirShifted | game.py:296-350 | each mask-and-shift computation takes the cube at (row, col), slides the rest of its line by one towards it, and puts an O on the entry cell at the far end; every other bit is unchanged |
| Shifts.ShiftSpec | game.py:296-350 | for "X" and "O" the result of a shift is the one and only board that is that shift of the input |
| Shifts.ShiftedUnique | game.py:296-350 | the cell-by-cell description of a shift fixes the resulting board completely |
| Shifts.ShiftedValid | game.py:296-350 | a shift keeps a board well formed: no bits outside the two fields and no cell held by both players |
| Symmetry.NewIndexCell | game.py:362-446 | the `new_index` arithmetic of each reflection loop sends the bit of cell (i, j) to the bit of its mirrored cell |
| Symmetry.NewIndexInvolution | game.py:362-446 | applying a reflection's `new_index` twice returns the original bit index |
| Symmetry.ScatterBit | game.py:362-446 | after the first n steps of a reflection loop, bit k is set exactly when bit `new_index(k)` of the source was among those visited and set |
| Symmetry.ReflectLow | game.py:362-446 | bit k of a reflected board's O field is bit `new_index(k)` of the original O field |
| Symmetry.ReflectHigh | game.py:362-446 | bit k of a reflected board's X field is bit `new_index(k)` of the original X field |
| Symmetry.ReflectReads | game.py:362-446 | a reflected board holds at each cell what the original holds at the mirrored cell |
| Symmetry.ReflectClean | game.py:362-446 | a reflection sets no bits outside the two fields |
| Symmetry.ReflectInvolution | game.py:362-446 | each of the four reflections undoes itself on a board with no stray bits |
| Symmetry.RotationCells | game.py:352-360 | `rotate_clockwise` reads cell (i, j) from (4 - j, i) and `rotate_counterclockwise` reads it from (j, 4 - i) |
| Symmetry.ImageIsApply | game.py:352-446 | each of the seven transforms is the board symmetry it names, read cell by cell |
| Symmetry.ApplyCompose | game.py:352-446 | applying two symmetries in turn is applying their composition |
| Symmetry.ApplyInverse | game.py:352-446 | every symmetry has an inverse that restores the board |
| Symmetry.ImageClean | game.py:352-446 | a transformed board has no bits outside the two fields |
| Symmetry.ApplyValid | game.py:352-446 | a symmetry maps a well-formed board to a well-formed board |
| Equality.OrbitMembers | game.py:449-453 | the seven boards of `generate_symmetries` are exactly the images of the board under the identity and the six transforms |
| Equality.CheckSymmetriesEq | game.py:456-468 | `check_symmetries` answers 0 or 1, and 0 exactly when a listed board is `==` to the new one, in either order |
| Equality.FirstListedFinds | game.py:456-468 | the scan over the seven images answers 0 exactly when one of them is listed |
| Equality.EqSymmetric | game.py:592-597 | `__eq__` is reflexive and symmetric on boards with no stray bits |
| Equality.HashKeySetSum | game.py:579-585 | the hash key is the sum of the set of the seven images |
| Equality.DedupSum | game.py:579-585 | the sum over `set(sym)` depends only on which boards occur, not on their order or repetition |
| Equality.EqNotTransitive | game.py:592-597 | for every off-axis cell: the lone O there is `==` to its vertical and to its horizontal mirror, but the two mirrors are not `==` to each other |
| Equality.HashKeyNotInvariant | game.py:579-597 | for every off-axis cell, two `==` boards get different hash keys, and the difference is the missing half-turn image |
| Equality.Eq8Equivalence | game.py:592-597 | equality up to all eight symmetries extends `__eq__` and is reflexive, symmetric and transitive |
| Equality.Orbit8Same | game.py:449-453 | boards equal up to the eight symmetries have the same set of images |
| Equality.HashKey8Invariant | game.py:579-597 | the hash key over all eight symmetries is the same for boards equal under them |
| Equality.ListedAlongOrbit | game.py:449-453 | when the half turn of an image of a board is among that image's seven boards, the half turn of the board is among the board's |
| Equality.KeyPinsHalfTurn | game.py:579-597 | two different boards that are `==` and share a hash key have their half turn among the seven images |
| Equality.KeyedEqTransitive | game.py:579-597 | `__eq__` composes through a board that is `==` to the first and shares its hash key |
| Equality.KeepAllOrder | game.py:494-504 | for every off-axis cell, the filter of `generate_moves` keeps the lone O and its half turn from the order (lone O, mirror, half turn), but only the mirror from (mirror, lone O, half turn) |
| Equality.KeepAll8Classes | game.py:494-504 | with the half turn among the images, the filter keeps boards that were kept or offered, no two of them images of each other, and an image of every candidate |
| MoveGen.OccupiedIsX | game.py:476-481 | the occupancy test `((pos >> 32) << i) & 16777216` skips exactly the cells that hold an X |
| MoveGen.DirectionsSpec | game.py:482-490 | after the two `remove` calls a border cell keeps exactly the directions that do not push its cube back onto its own edge: two at a corner, three elsewhere, none repeated |
| MoveGen.AddShifted | game.py:492-493 | each candidate `add` is the O shift of `pos` at cell (i // 5, i % 5) |
| MoveGen.GenerateMovesSound | game.py:470-506 | every child takes a border cube not held by X, uses a kept direction, changes the position, and is stored swapped back for X |
| MoveGen.GenerateMovesDistinct | game.py:470-506 | on a clean position no child is `==` to an earlier one, in either order, and no two children are stored with the same board |
| MoveGen.GenerateMovesComplete | game.py:470-506 | every legal O move that changes the position is `==` to some child |
| MoveGen.GenerateMovesSwap | game.py:470-506 | X gets O's children in the same order, with the same cells and directions, each stored swapped |
| MoveGen.GenerateMovesOther | game.py:470-506 | any player string other than "X" is treated as O |
| MoveGen.CreatePositionMoves | game.py:508-517 | on a well-formed board every child of `create_position(player)` is well formed and differs from the board; the taken cube is not the opponent's; the mover's own piece sits on the entry cell |
| MoveGen.ConsiderKeeps | game.py:494-504 | after a changing candidate, the boards kept, seen as the symmetry check sees them, are the filter step applied to the boards kept before |
| Counts.ShiftPieces | game.py:296-350 | a shift takes the taken cube off its owner's count and adds one O on the entry cell; every other cube is kept |
| Counts.SwapPieces | game.py:287-293 | `swap_players` exchanges the two players' counts |
| Counts.AddPieces | game.py:492-493 | each candidate `add` keeps X's count unless it took an X, and gives O one cube more less the O it took |
| Counts.CreatePositionPieces | game.py:508-517 | every successor keeps the opponent's count and gives the mover one more cube when the taken cube was blank, the same number when it was the mover's own |
| Counts.ApplyPieces | game.py:352-446 | each of the eight symmetries of the square keeps both players' counts |
| Counts.ImagePieces | game.py:352-446 | each of the seven transforms keeps both players' counts on a board with no stray bits |
| Winner.OCombCells | game.py:527-532 | `board & o_comb == o_comb` holds exactly when O fills the line of that mask |
| Winner.XCombCells | game.py:527-534 | `board & (o_comb << 32) == o_comb << 32` holds exactly when X fills that line |
| Winner.CombIsLine | game.py:10 | each literal of `WINNING_COMBS` is the mask of one column, row or diagonal |
| Winner.DrawCells | game.py:523-526 | `o_draw \| x_draw == 33554431` holds exactly when every cell holds a piece |
| Winner.CheckWinnerJudge | game.py:522-537 | the bit tests of `check_winner` compute the verdict read off the cells |
| Winner.CheckWinnerCases | game.py:522-537 | "D" exactly for a full board; otherwise "O" or "X" for whoever fills the first complete line (O first), and "-" when no line is complete |
| Winner.RewardCases | game.py:560-576 | `reward` is `None` while no line is complete on a non-full board, 3 for an O win, 1 for a full board and -1 for an X win |
| Winner.FindChildrenSpec | game.py:539-545 | `find_children` is `None` exactly on a terminal board; otherwise its children are well formed and differ from the board |
| Rules.TakeSpec | game.py:138-154 | `__take` accepts exactly a border cell that is blank or the player's own, marks it with the player, and otherwise leaves the grid alone |
| Rules.SlideSpec | game.py:156-234 | `__slide` accepts exactly a border cell and a move whose landing cell differs from it; the grid then holds the piece at the landing cell and the line shifted by one |
| Rules.SlideAcceptableSpec | game.py:156-175 | the acceptance test of `__slide` is "on the border, and the landing edge differs from the cell" |
| Rules.AcceptedCount | game.py:156-175 | a corner accepts two slides, another border cell three, an inner cell none |
| Rules.MoveErrors | game.py:125-136 | `__move` returns False for a player id above 2 and raises `IndexError` only for coordinates out of numpy range |
| Rules.MoveRejectedUnchanged | game.py:125-136 | a rejected move leaves the grid as it was, the taken cube restored |
| Rules.MoveAccepts | game.py:125-136 | a border cell that is blank or the player's, with a slide whose landing cell differs from it, makes an accepted move |
| Rules.MoveAccepted | game.py:125-136 | an accepted move came from such a cell, and its grid is the slide of the player's piece |
| Rules.ScanLinesSpec | game.py:74-102 | `Game.check_winner` answers -1 exactly when no row, column or diagonal is uniform and non-blank; otherwise it answers the value of the first such line, rows before columns before diagonals |
| Adapter.EncodeFromBit | main.py:36-45 | after the first n cells, `fromNumPy` has set exactly the O bits of the visited cells holding 0 and the X bits of those holding 1 |
| Adapter.FromNumPyCells | main.py:36-45 | the encoding puts an O exactly on the cells holding 0 and an X exactly on those holding 1 |
| Adapter.FromNumPyValid | main.py:36-45 | the encoding of any grid is a well-formed bitboard |
| Adapter.FromNumPyInjective | main.py:36-45 | on grids of -1, 0 and 1 two grids have the same encoding exactly when they are equal |
| Adapter.SymbolsMatchFields | main.py:47-48 | player 0 plays "O" and owns the cubes the encoder puts in the O field, player 1 plays "X", and the opponent is the other symbol |
| Adapter.TranslateSpec | main.py:55-63 | the translated `Move` lands the cube where the bitboard shift puts it, and the directions kept for a border cell are exactly the slides `__slide` accepts there |
| Adapter.TranslateInjective | main.py:55-63 | distinct directions translate to distinct moves |
| Adapter.MoveAgreesO | main.py:52-63 | player 0's translated move from a cell `generate_moves` may take is accepted, and its grid, encoded, is the bitboard O shift of the encoded grid |
| Adapter.MoveAgreesX | main.py:52-63 | player 1's translated move is accepted, and its grid, encoded, is the O shift of the swapped encoding, swapped back — the child `generate_moves` stores for X |
| Adapter.GameWinnerAgrees | game.py:74-102 | on a grid of -1, 0 and 1 `Game.check_winner` finds no line exactly when the encoding has no complete line; so `State.check_winner` answers "-" only when the grid engine answers -1 |
| Adapter.AnswerAccepted | main.py:52-64 | for every successor of `create_position` on the encoded grid, the answered `(from_pos, Move)` is accepted by `Game.move` for the player and leaves a grid that encodes to the successor's board |
| Mcts.FindSpec | MCTS.py:63-65 | a lookup in `Q`, `N` or `children` finds the first stored key with the same hash that compares `==`, and fails exactly when there is none |
| Mcts.FindStable | MCTS.py:63-65 | adding keys to a dictionary does not move an existing key's entry |
| Mcts.BumpAllCounts | MCTS.py:182-186 | after the loop of `_backpropagate` each entry has grown by the reward once for every node of the path that lands on it, and an entry the loop appended holds a node of the path that lands on it |
| Mcts.BumpAllFresh | MCTS.py:184-186 | `d[node] += delta` on a `defaultdict` appends an entry only for a node of the path, which then lands on it at least once |
| Mcts.BackpropagateSpec | MCTS.py:182-186 | every node of the path is then a key of `N` and `Q`; each count has grown by its number of hits, and each total by the reward times that number; every new key of `N` or `Q` is a node of the path with at least one hit |
| Mcts.ExpandSpec | MCTS.py:153-157 | `_expand` stores the node's children only when the node is not yet a key, and expanding twice changes nothing |
| Mcts.SetOfSpec | MCTS.py:136 | `set(children[node])` holds only children, finds every child, and never stores an element that a stored one matches |
| Mcts.DiscardAllSound | MCTS.py:136 | discarding the keys one by one only removes elements and keeps the rest apart |
| Mcts.UnexploredSound | MCTS.py:136 | whatever `__eq__` does, the set difference holds only children of the node, and no element of it matches a later one |
| Mcts.UnexploredNotKeys | MCTS.py:136-138 | when the lookup test is an equivalence, every unexplored node is a child that is not a key of `children` |
| Mcts.UnexploredCovers | MCTS.py:136-138 | when the lookup test is an equivalence, every child that is not a key matches some unexplored node |
| Mcts.UnexploredEmpty | MCTS.py:136-144 | when the lookup test is an equivalence, nothing is unexplored exactly when every child is a key, the condition the assertion of `_uct_select` checks |
| Mcts.UnexploredOne | MCTS.py:136 | a node whose only child is itself a key of `children` has nothing unexplored |
| Mcts.SortDescSpec | MCTS.py:200-201 | the sort of `_uct_select` is a permutation of the children in descending UCT order |
| Mcts.FaultSpec | MCTS.py:194-201 | the keys of `sorted` fail exactly when some child has count 0 (ZeroDivisionError) or a negative count under a parent visited more than once (ValueError from `math.sqrt`), and then with the error of the first such child in list order |
| Mcts.UctSelectNegative | MCTS.py:194-200 | a child with count -1 under a parent with 2 visits raises ValueError; under a parent with 1 visit the root is of -0.0 and the child is returned |
| Mcts.UctSelectScoreOrder | MCTS.py:196-201 | with a negative child and an unvisited child, the one listed first decides between ValueError and ZeroDivisionError |
| Mcts.UctSelectRanked | MCTS.py:188-202 | `_uct_select` returns the child at position `rank` of the descending order |
| Mcts.UctSelectFailure | MCTS.py:188-202 | when every child is a key and every key has been visited, `_uct_select` fails only by `IndexError`, exactly when the rank reaches the number of children |
| Mcts.UctSelectErrors | MCTS.py:188-202 | on a visited searcher `_uct_select` raises only `AssertionError` or `IndexError`, and `AssertionError` exactly when some child is not a key |
| Mcts.WalkMore | MCTS.py:129-150 | a `while True` loop run under a pass budget gives the same value or exception under every larger budget once it ended within the smaller one |
| Mcts.SelectMore | MCTS.py:125-150 | a descent of `_select` that returns or raises within its budget does the same under any larger budget |
| Mcts.SelectPath | MCTS.py:125-150 | the returned path starts at the node and follows stored children; it ends at a leaf or at a child the set difference left |
| Mcts.SelectLeaf | MCTS.py:125-141 | when the lookup test is an equivalence, the returned path ends at a leaf: a popped child is not a key of `children` |
| Mcts.SelectFailure | MCTS.py:125-150 | on a visited searcher `_select` raises only the `AssertionError` or the `IndexError` of `_uct_select`: its lookups, logarithm and divisions never fail |
| Mcts.SelectFailureEquiv | MCTS.py:125-150 | when the lookup test is an equivalence as well, the only exception is `IndexError` |
| Mcts.SelectLopsided | MCTS.py:136-144 | with an `__eq__` that is not symmetric, the set difference can be empty while a child is no key, and `_select` then raises the `AssertionError` of `_uct_select` |
| Mcts.TurnAlternates | MCTS.py:72-76 | `change_player` swaps "X" and "O" and returns `None` for any other player; the turn of `do_rollout` alternates with the path length |
| Mcts.CountsGrow | MCTS.py:182-186 | `_backpropagate` never lowers a count and leaves every node of the path visited at least once |
| Mcts.ExpandCountVisited | MCTS.py:110-122 | expanding the leaf and then counting the path keeps every key of `children` visited |
| Mcts.RolloutVisited | MCTS.py:110-122 | when `__eq__` and `__hash__` make an equivalence, a rollout keeps every key of `children` visited, so `_uct_select` cannot fail on its assertion, its logarithm or its divisions |
| Mcts.ChooseSpec | MCTS.py:78-107 | `choose` raises `RuntimeError` exactly on a terminal node and returns a random child for an untrained node; otherwise it returns the first child of best score, the maximum or the minimum depending on the opponent |
| Mcts.UctSelectOnly | MCTS.py:188-202 | with a single child, rank 0 picks it and rank 1 raises `IndexError` |
| Mcts.SelectTwoCycle | MCTS.py:125-150 | two nodes that are each other's only child make `_select` raise `IndexError` on its third descent, given a budget of at least two descents |
| QuixoSearch.QuixoChooseChildren | MCTS.py:80-90 | for Quixo boards, `choose` raises `RuntimeError` exactly on a terminal board and never iterates over `None` |
| QuixoSearch.QuixoChildren | game.py:539-545 | `find_children` gives a list exactly when the board has a blank cube and no line of five, i.e. exactly when it is not terminal, and the list is the boards `create_position` builds, a `None` player moving as O |
| QuixoSearch.QuixoEquivalence | game.py:579-597 | on the boards a game reaches, the dictionaries' test (the same board, or an `==` board with the same hash key) is symmetric and transitive |
| QuixoSearch.QuixoSelectLeaf | MCTS.py:125-141 | on Quixo boards the path `_select` returns ends at a leaf |
| QuixoSearch.QuixoSelectFailure | MCTS.py:125-150 | on Quixo boards with every key of `children` visited, `_select` raises only `IndexError` |
| QuixoSearch.QuixoRolloutVisited | MCTS.py:110-122 | on Quixo boards a rollout keeps every key of `children` visited |
| QuixoSearch.QuixoLookupMisses | MCTS.py:89 | for every off-axis cell, a dictionary holding the lone O there misses its vertical mirror, which `__eq__` accepts, because the hash keys differ; the read gives the default 0 |
| QuixoSearch.FindTheChildSpec | game.py:553-557 | `find_the_child` raises `ValueError` exactly when there is no successor; otherwise it returns the first successor of best total reward, the highest or with `reverse` the lowest, and a trained successor always wins over an untrained one |
| QuixoSearch.FindTheChildNotAverage | game.py:553-557 | `find_the_child` ranks by total reward where `choose` ranks by average: with totals 2 and 3 over 1 and 3 visits the two pick different boards |

## Left out

- Printing, `Game.play`, `RandomPlayer`, the training loops and checkpoint files (pickle): these are input and output, not game logic.
- `_simulate` and `find_random_child`: they draw random numbers. The rollout takes the simulation reward as a function parameter, and `choose` returns a `RandomChild` marker where the program picks a random child. `find_the_child`, the greedy step of `_simulate`, is modelled.
- `set.pop()` in `_select`: it picks an unspecified element, modelled by the parameter `popAt`. Dictionary iteration order is insertion order, as in Python.
- The floating-point UCT formula: `_uct_select` takes the score function as a parameter with real values. `choose`'s scores are exact averages and infinities, with no rounding.
- `defaultdict` inserting a key on read, the mutable default arguments of `MCTS.__init__`, numpy array internals and the abstract class `Node`.
- Mcts.Select: the `while True` loop of `_select` need not end, so `Mcts.Walk` runs it for at most `fuel + 1` passes and reports `OutOfFuel` when a pass asks for one more; `Mcts.Rollout` passes the budget on. `Mcts.WalkMore` and `Mcts.SelectMore` prove the budget only cuts the loop short: any other outcome stays the same under a larger budget.
- Mcts.RolloutVisited: requires the dictionaries' test (the same node, or equal hash and `__eq__`) to be an equivalence. QuixoSearch.QuixoEquivalence proves that it is one on Quixo boards, although `State.__eq__` alone is not transitive (see Findings).
- Mcts.ExpandCountVisited: requires the same equivalence.
- Mcts.SelectLeaf: requires the same equivalence; Mcts.SelectLopsided shows a one-sided `__eq__` for which `_select` fails instead.
- Mcts.SelectFailureEquiv: requires the same equivalence; Mcts.SelectFailure states the general case with `AssertionError` allowed.
- Mcts.UnexploredNotKeys, Mcts.UnexploredCovers and Mcts.UnexploredEmpty: require the same equivalence; Mcts.UnexploredSound holds without it.
- Object identity: `dict` and `set` try `is` before `__eq__`; the model uses value equality of nodes, which differs only for a node type whose `__eq__` is not reflexive.
- Probe order: among stored keys of equal hash, CPython's table decides which is tried first; the model tries them in insertion order. This matters only when two stored keys both match a lookup.
- Quixo nodes are boards with no bits outside the two fields and no cell held twice, the boards a game reaches; a `State` holding any other integer is not modelled.
- Mcts.UctSelectFailure: requires every count to be non-negative; the program never makes one negative but does not check it.
- MoveGen.GenerateMovesDistinct: stated for positions with no bits outside the two fields, where `swap_players` loses nothing.
- QuixoSearch.QuixoChildren: a `None` player for `find_children` is treated as "O", because `create_position` only tests for "X".

## Findings

| source | as written | input that shows it | evidently intended | confidence | as-written member | corrected member |
|---|---|---|---|---|---|---|
| game.py:592-597 | `__eq__` compares against the identity and six transforms, but not the half turn, so it is not transitive | lone O at (0, 1) is `==` to lone O at (0, 3) and to lone O at (4, 1), yet those two are not `==` | equality up to all eight symmetries of the square, an equivalence as Python dictionaries require | not executed | Equality.EqNotTransitive | Equality.Eq8Equivalence |
| game.py:579-585 | `generate_hash_key` sums the same seven images, so boards that `__eq__` accepts can get different hash keys | lone O at (0, 1) (`1 << 23`) and lone O at (0, 3) (`1 << 21`) are `==`, but their hash keys differ | a hash key summing all eight symmetric images, equal for boards equal under them | not executed | Equality.HashKeyNotInvariant | Equality.HashKey8Invariant |
| game.py:494-504 | the filter of `generate_moves` keeps a candidate unless one of its seven images was kept, so with the half turn missing what it keeps depends on the order of the candidates, and it can keep two boards of one class of the square's symmetries | lone O at (0, 1), its mirror at (0, 3) and its half turn at (4, 3): in that order the filter keeps (0, 1) and (4, 3), in the order (0, 3), (0, 1), (4, 3) it keeps (0, 3) alone | one board of each class of the eight symmetries, whatever the order | not executed | Equality.KeepAllOrder | Equality.KeepAll8Classes |
