# Tic-tac-toe minimax and PageRank, modelled in Dafny

The project models two small AI exercises.

**Tic-tac-toe** covers the game rules and the search, in the modules `TicTacToe`
(tictactoe.dfy) and `Minimax` (minimax.dfy):
- The board is a 3x3 grid of cells. Each cell is empty, X or O.
- `player`, `actions`, `result`, `winner`, `terminal` and `utility` are the game rules.
- `minimax` and its alpha-beta helper `minimax_value` are the search.
- Each operation that the source writes with loops or early returns is a method.
- Each method is proved against a specification function: `Turn`, `Moves`, `Apply`,
  `WinnerOf`, `IsTerminal`, `Score` and the game value `Value`.

**PageRank** is the deterministic part of the PageRank estimator, in the module
`PageRank` (pagerank.dfy):
- the link filter of `crawl`;
- `transition_model`;
- `iterate_pagerank`, which updates the ranks in place, sweep after sweep, until no
  rank moves by more than 0.001.

A board is *balanced* when the X count equals the O count or is one more.
Every board reached by play is balanced, though not every balanced board can be reached.

Two modelling choices apply throughout:
- A dictionary's iteration order is an explicit sequence `keys` that lists every
  page once.
- Probabilities and ranks are exact reals.

The source has several defects, listed under "## Findings":
- a crash in `actions`;
- an unbound local in `winner`;
- the wrong return value in `winner`;
- a rebound loop variable in `transition_model`.

For each defect the project has two members:
- a member that models the code as written, with a lemma that exhibits the defect;
- the intended behaviour, with its properties proved.

The tic-tac-toe search builds on the intended rules. For `transition_model`:
- `PageRank.TransitionModel` is the code as written.
- `PageRank.IntendedTransition` is the intended distribution, modelled beside it.

## Model

| member | source | states |
|---|---|---|
| TicTacToe.InitialState | week0/tictactoe/tictactoe.py:15-21 | the starting board is 3x3 and every cell is EMPTY |
| TicTacToe.InitialStateFacts | week0/tictactoe/tictactoe.py:15-42 | on the starting board both marks count 0, X moves first, all nine cells are available and the game is not over |
| TicTacToe.EmptyCounts | week0/tictactoe/tictactoe.py:19-21 | on an all-EMPTY board the first k cells hold k EMPTY cells and no X or O |
| TicTacToe.Player | week0/tictactoe/tictactoe.py:24-42 | the counting loop returns X exactly when X and O occur equally often, otherwise O |
| TicTacToe.CountBelowStep | week0/tictactoe/tictactoe.py:32-37 | visiting cell (i, j) in row-major order adds one to the running count exactly when the cell holds the counted mark |
| TicTacToe.Square | week0/tictactoe/tictactoe.py:52-53 | the k-th cell in row-major order is an in-range coordinate whose position is k |
| TicTacToe.AtIndex | week0/tictactoe/tictactoe.py:52-53 | the row-major position of (i, j) lies in 0..8, maps back to (i, j) and addresses board[i][j] |
| TicTacToe.Moves | week0/tictactoe/tictactoe.py:45-57 | the available actions are exactly the in-range EMPTY cells, without repeats, and there are as many as EMPTY cells |
| TicTacToe.MovesBelowMembers | week0/tictactoe/tictactoe.py:52-55 | the actions collected from the first k cells are exactly the EMPTY cells among them |
| TicTacToe.MovesBelowLength | week0/tictactoe/tictactoe.py:52-55 | the number of actions collected from the first k cells is the number of EMPTY cells among them |
| TicTacToe.MovesBelowOrdered | week0/tictactoe/tictactoe.py:52-55 | the collected actions come in strictly increasing row-major order |
| TicTacToe.MovesBelowStep | week0/tictactoe/tictactoe.py:53-55 | visiting cell (i, j) appends (i, j) exactly when the cell is EMPTY |
| TicTacToe.Actions | week0/tictactoe/tictactoe.py:45-57 | the nested loops return exactly the legal actions, in row-major order |
| TicTacToe.RowActions | week0/tictactoe/tictactoe.py:53-55 | the inner loop over row i appends that row's EMPTY cells to the actions found so far |
| TicTacToe.Place | week0/tictactoe/tictactoe.py:68-69 | writing one cell of a copy changes that cell and no other |
| TicTacToe.CountBelowPlace | week0/tictactoe/tictactoe.py:68-69 | after one cell is rewritten, a running count loses the old mark and gains the new one, and nothing else changes |
| TicTacToe.TallyPlace | week0/tictactoe/tictactoe.py:68-69 | rewriting one cell moves one unit of count from the old mark to the new one |
| TicTacToe.Apply | week0/tictactoe/tictactoe.py:60-71 | a legal move puts the mover's mark on its cell and leaves every other cell alone; the mover's count grows by one, the other's does not change, and one fewer action remains |
| TicTacToe.TurnAlternates | week0/tictactoe/tictactoe.py:68-69 | on a balanced board, the player flips after each move and the board stays balanced |
| TicTacToe.Result | week0/tictactoe/tictactoe.py:60-71 | an illegal action (occupied or out of range) raises; a legal one returns a fresh board in which only that cell changes, to the player's mark |
| TicTacToe.LinesShape | week0/tictactoe/tictactoe.py:79-86 | there are eight winning lines, each of three in-range cells |
| TicTacToe.FirstWinnerFacts | week0/tictactoe/tictactoe.py:88-101 | the scan from line k reports a mark only when one of the remaining lines is full of it, and reports None exactly when none of them is full |
| TicTacToe.WinnerIsLineOwner | week0/tictactoe/tictactoe.py:74-101 | the winner is a mark that owns a full line, and it is None exactly when no line is full |
| TicTacToe.WinnerIsSoleLineOwner | week0/tictactoe/tictactoe.py:74-101 | when the other mark owns no line, p is the winner exactly when p owns a line |
| TicTacToe.LineCount | week0/tictactoe/tictactoe.py:91-95 | the count of a mark over the first n cells of a line is at most n |
| TicTacToe.LineCountFull | week0/tictactoe/tictactoe.py:96-99 | a line's count reaches 3 exactly when all three of its cells hold the mark |
| TicTacToe.Winner | week0/tictactoe/tictactoe.py:74-101 | the line-by-line loop returns the owner of a full line, and None exactly when no line is full |
| TicTacToe.Terminal | week0/tictactoe/tictactoe.py:104-112 | the game is over exactly when some mark owns a line or no cell is EMPTY |
| TicTacToe.Utility | week0/tictactoe/tictactoe.py:115-127 | the utility lies in -1..1; whenever only one mark owns a line, it is 1 exactly when that mark is X and -1 exactly when it is O, and 0 when no line is full |
| Minimax.Value | week0/tictactoe/tictactoe.py:157-182 | the game value of every board lies in -1..1 |
| Minimax.Best | week0/tictactoe/tictactoe.py:169-182 | with no move left the best value is the infinite sentinel; otherwise it lies in -1..1 |
| Minimax.BestIsBestChild | week0/tictactoe/tictactoe.py:169-182 | no listed move has a child value the player prefers to the best one, and some listed move reaches it |
| Minimax.ValueIsOptimal | week0/tictactoe/tictactoe.py:130-182 | on a board where play goes on, no legal move beats the game value for the player to move, and some legal move reaches it |
| Minimax.MinimaxValue | week0/tictactoe/tictactoe.py:157-182 | the result lies in -1..1 and is the utility on a finished game; on a balanced board it is the exact game value unless it passes best_value, the pruning cut, and then it is bounded by the game value |
| Minimax.ValueTurn | week0/tictactoe/tictactoe.py:170-180 | one loop step either cuts, returning a child value beyond best_value, or goes on with a value within best_value. On a balanced board, a cut value is bounded by the game value, and a step that goes on keeps the best of the children so far |
| Minimax.Cutoff | week0/tictactoe/tictactoe.py:172-179 | a reply that passes best_value is bounded by the game value of the board |
| Minimax.RootStep | week0/tictactoe/tictactoe.py:142-152 | taking max (for X) or min (for O) with a child's pruned value gives the best of the children so far; the weight changes exactly when that child strictly improves on the earlier ones, and then it equals that child's value |
| Minimax.Minimax | week0/tictactoe/tictactoe.py:130-154 | returns None exactly on a finished game; otherwise it returns a legal action. On a balanced board, that action's value is the game value, no action beats it, and it is the first action in order that reaches the game value |
| Minimax.RootTurn | week0/tictactoe/tictactoe.py:141-152 | one loop step keeps a value in -1..1 and a chosen action among those seen. On a balanced board, the weight is the best child value so far, and the chosen action reaches it and strictly beats every action before it |
| TicTacToe.ActionsAsWritten | week0/tictactoe/tictactoe.py:52-55 | actions as written: every 3x3 board raises TypeError; only a board without rows gets the empty set |
| TicTacToe.WinnerAsWritten | week0/tictactoe/tictactoe.py:90 | winner as written never returns: `o = o` raises on every call |
| TicTacToe.WinnerCountingAsWritten | week0/tictactoe/tictactoe.py:91-98 | with line 90 fixed but the counting as written, winner never reports a mark; it returns None exactly on an all-EMPTY board and otherwise raises UnboundLocalError |
| TicTacToe.WinnerReturningZero | week0/tictactoe/tictactoe.py:96-101 | with correct counting, winner reports X only when X owns a line and the integer 0 (line 99) only when O owns a line; when only one mark owns a line it reports that mark (0 for O); None exactly when no line is full |
| TicTacToe.UtilityAsWritten | week0/tictactoe/tictactoe.py:120-127 | utility over that winner lies in 0..1: it agrees with the intended score except that an O win scores 0 instead of -1 |
| TicTacToe.ActionsAsWrittenRaises | week0/tictactoe/tictactoe.py:52-55 | as written, actions raises TypeError on every 3x3 board, while the initial board has nine actions |
| TicTacToe.WinnerAsWrittenNeverReports | week0/tictactoe/tictactoe.py:88-98 | as written, winner always raises (line 90); even with that line fixed, the counting never reports a winner, and it raises on a board where X owns the top row |
| TicTacToe.UtilityAsWrittenMissesOWin | week0/tictactoe/tictactoe.py:99 | with line 99 returning 0, a balanced board on which O owns the top row scores 0 instead of -1 |
| TicTacToe.OWinsTopRowCounts | week0/tictactoe/tictactoe.py:24-42 | the example board for O's win holds three X and three O |
| TicTacToe.OWinsTopRowWinner | week0/tictactoe/tictactoe.py:74-101 | the example board's winner is O |
| PageRank.Crawl | week2/pagerank/pagerank.py:39-46 | the filter keeps the same pages; every kept link was found, is not a self link and names a page of the corpus; every such found link is kept |
| PageRank.CrawlFixesClosed | week2/pagerank/pagerank.py:39-46 | the filter leaves a corpus unchanged exactly when that corpus is already closed, so filtering twice is the same as filtering once |
| PageRank.ElemsLast | week2/pagerank/pagerank.py:66 | the last of distinct keys is not among the earlier ones, and the keys are the earlier ones plus it |
| PageRank.KeyCount | week2/pagerank/pagerank.py:67 | len(corpus) is the number of pages in the key order |
| PageRank.CountInDistinct | week2/pagerank/pagerank.py:69-70 | over distinct keys, counting the keys that lie in a set counts that set's elements among the keys |
| PageRank.CountAll | week2/pagerank/pagerank.py:66-67 | counting keys that all lie in a set gives the number of keys |
| PageRank.SumConstant | week2/pagerank/pagerank.py:73-74 | a constant value v over ks sums to \|ks\| times v |
| PageRank.TimesIs | week2/pagerank/pagerank.py:67 | adding x n times gives n * x |
| PageRank.SumBaselinePlusExtra | week2/pagerank/pagerank.py:66-70 | a baseline for every key plus an extra for the keys in s sums to \|ks\| baselines plus one extra per key in s |
| PageRank.Damped | week2/pagerank/pagerank.py:61-76 | the distribution covers exactly the corpus pages, and every value is non-negative when 0 <= d <= 1 |
| PageRank.Spread | week2/pagerank/pagerank.py:66-70 | a baseline-plus-shares distribution is defined on exactly the corpus pages |
| PageRank.SpreadNonNegative | week2/pagerank/pagerank.py:66-70 | a non-negative baseline and share give non-negative values |
| PageRank.SpreadIs | week2/pagerank/pagerank.py:66-70 | a map over the corpus that holds the baseline plus the share on the links is that distribution |
| PageRank.FillUniform | week2/pagerank/pagerank.py:66-67 | the first loop gives every page the same value, and it leaves the loop variable bound to the last key |
| PageRank.AddShares | week2/pagerank/pagerank.py:69-70 | the second loop adds the share to exactly the pages of the iterated link set |
| PageRank.Transition | week2/pagerank/pagerank.py:61-76 | the distribution the code as written returns covers exactly the corpus pages, with non-negative values when 0 <= d <= 1; its shares go to the last key's links (TransitionSum, TransitionCounterexample) |
| PageRank.IntendedTransition | week2/pagerank/pagerank.py:52-59 | the docstring's distribution covers exactly the corpus pages, with non-negative values when 0 <= d <= 1; it sums to 1 whenever the page's links are corpus pages, as the crawl filter guarantees (IntendedTransitionSumsToOne) |
| PageRank.TransitionModel | week2/pagerank/pagerank.py:51-76 | the dictionary built by the loops is the as-written distribution: the baseline (1 - d)/N plus d/\|links(page)\| on each link of the last key, or 1/N everywhere for a page without links |
| PageRank.SpreadSum | week2/pagerank/pagerank.py:66-70 | when the links are corpus pages, a baseline-plus-shares distribution sums to N baselines plus one share per link |
| PageRank.DampedTotal | week2/pagerank/pagerank.py:67-70 | N baselines (1 - d)/N plus l shares d/t make (1 - d) + d*l/t |
| PageRank.DampedTotalIsOne | week2/pagerank/pagerank.py:67-70 | that total is 1 exactly when d = 0 or l = t |
| PageRank.DampedMass | week2/pagerank/pagerank.py:67-70 | the total mass is (1 - d) + d*l/t, and it is 1 exactly when d = 0 or l = t |
| PageRank.DampedSum | week2/pagerank/pagerank.py:61-76 | a page without links gives a total of 1; otherwise the total is that mass, computed over the links that receive the shares |
| PageRank.DampedIsSpread | week2/pagerank/pagerank.py:61-76 | the distribution is the baseline plus d/\|links(page)\| on the given links, or uniform for a page without links |
| PageRank.DampedTimes | week2/pagerank/pagerank.py:67-70 | the repeated additions of the baseline and of the share add up to that mass |
| PageRank.UniformSpreadTotal | week2/pagerank/pagerank.py:73-74 | the uniform 1/N distribution sums to 1 |
| PageRank.UniformSum | week2/pagerank/pagerank.py:73-74 | any map that holds 1/N on each of N keys sums to 1 over them |
| PageRank.TransitionSum | week2/pagerank/pagerank.py:51-76 | as written, the total is 1 for a page without links; otherwise it is (1 - d) + d*\|links(last key)\|/\|links(page)\|, and it is 1 exactly when there are no links, d = 0 or the two link counts agree |
| PageRank.IntendedTransitionSumsToOne | week2/pagerank/pagerank.py:51-76 | the intended distribution, with shares on the links of the page asked about, sums to 1 whenever the page's links are corpus pages, as the crawl filter guarantees |
| PageRank.TransitionAgreesOnLastPage | week2/pagerank/pagerank.py:66-70 | for the last page in key order, the code as written and the intended model agree |
| PageRank.TransitionCounterexample | week2/pagerank/pagerank.py:66-70 | on a three-page closed corpus, asking about page a gives a the share meant for its links, and the total is 1 + d |
| PageRank.SweepTo | week2/pagerank/pagerank.py:121-133 | the ranks part way through a sweep still cover every page in key order |
| PageRank.SweepToKeys | week2/pagerank/pagerank.py:121-133 | a sweep ranks the same pages as before |
| PageRank.SweepOf | week2/pagerank/pagerank.py:119-137 | a full sweep keeps the key set |
| PageRank.SweepToStep | week2/pagerank/pagerank.py:132-133 | the k-th update sets the k-th page to line 132's value, computed from the ranks as they stand |
| PageRank.SweepStepOther | week2/pagerank/pagerank.py:133 | an update changes only its own page |
| PageRank.SweepToUntouched | week2/pagerank/pagerank.py:121-133 | pages the sweep has not reached keep their old rank |
| PageRank.SweepToSettled | week2/pagerank/pagerank.py:121-133 | a page already updated keeps its new rank for the rest of the sweep |
| PageRank.SweepIsInPlace | week2/pagerank/pagerank.py:121-133 | the k-th page ends the sweep with the rank computed from the updated ranks of the pages before it and the old ranks of the rest |
| PageRank.SumLinks | week2/pagerank/pagerank.py:123-129 | the inner loop sums rank(q)/\|links(q)\| over the pages q other than p whose links contain p |
| PageRank.MovedBeforeHas | week2/pagerank/pagerank.py:136-137 | once an update moves its page by more than the threshold, the flag stays raised for the rest of the sweep |
| PageRank.MovedBeforeWitness | week2/pagerank/pagerank.py:136-137 | a raised flag has an update that moved its page by more than the threshold |
| PageRank.SweepMoved | week2/pagerank/pagerank.py:118-137 | the flag is raised after a sweep exactly when some page's final rank differs from its rank before the sweep by more than 0.001 |
| PageRank.Sweep | week2/pagerank/pagerank.py:120-137 | one pass of the while loop produces the in-place sweep and raises looping exactly when some rank moved by more than 0.001 |
| PageRank.UpdatePage | week2/pagerank/pagerank.py:122-137 | the loop body for the k-th page performs the k-th in-place update and keeps the flag in step |
| PageRank.InflowNonNegative | week2/pagerank/pagerank.py:125-129 | non-negative ranks give a non-negative sum_links |
| PageRank.DampingFloor | week2/pagerank/pagerank.py:132 | with 0 <= d <= 1 and a non-negative sum_links, the new rank is at least (1 - d)/N, which is non-negative |
| PageRank.SweepToFloor | week2/pagerank/pagerank.py:121-133 | with 0 <= d <= 1, ranks that start non-negative stay non-negative through every update of a sweep |
| PageRank.SweepFloor | week2/pagerank/pagerank.py:119-137 | with 0 <= d <= 1, after a sweep from non-negative ranks every page has at least (1 - d)/N |
| PageRank.NoLinksNoInflow | week2/pagerank/pagerank.py:125-129 | pages without links contribute nothing to sum_links |
| PageRank.DanglingPagesLoseMass | week2/pagerank/pagerank.py:103-139 | two pages without links finish at (1 - d)/2 each, summing to 1 - d instead of the promised 1; with d = 0.85 the loop stops after the second sweep |
| PageRank.TwoPagesSettle | week2/pagerank/pagerank.py:103-139 | two pages linking to each other start at 1/2 each, keep 1/2 after the first sweep for every d, and the loop stops there with ranks 1/2 and 1/2 |
| PageRank.InitialRanks | week2/pagerank/pagerank.py:115-116 | the starting ranks cover exactly the corpus pages |
| PageRank.InitialNonNegative | week2/pagerank/pagerank.py:115-116 | the starting ranks 1/N are non-negative |
| PageRank.InitRanks | week2/pagerank/pagerank.py:115-116 | the first loop gives every page 1/N |
| PageRank.Run | week2/pagerank/pagerank.py:118-137 | the `while looping` loop, allowed at most fuel sweeps: the result ranks the same pages, and it reports convergence only after at least one sweep |
| PageRank.RunStep | week2/pagerank/pagerank.py:118-137 | the loop goes on after a sweep that moved some page, and stops with that sweep's ranks when none moved |
| PageRank.RunFloor | week2/pagerank/pagerank.py:118-137 | after at least one sweep with 0 <= d <= 1, every rank is at least (1 - d)/N |
| PageRank.RunConverged | week2/pagerank/pagerank.py:118-139 | when the loop stops, its ranks are the outcome of a sweep that moved no page by more than 0.001 |
| PageRank.IteratePagerank | week2/pagerank/pagerank.py:103-139 | the result is the outcome of the sweeps from 1/N over the corpus pages. With 0 <= d <= 1 and at least one sweep, every rank is at least (1 - d)/N. When the loop stops, its final sweep moved no page by more than 0.001 |

## Left out

- Input and output:
  - `main` (argument checking and printing) is not part of this model.
  - In `crawl`, the directory listing, the file reads and the regular expression over HTML are left out.
  - `Crawl` takes as input the link names those steps found.
- sample_pagerank is not part of this model. It is driven by a random generator.
- The self-import `import tictactoe as ttt` is not part of this model. It has no effect on the functions.
- Floating point:
  - Probabilities and ranks are exact reals.
  - The 0.001 threshold is compared exactly.
- Iteration order:
  - Python set and dict iteration order is given explicitly.
  - For the corpus it is the sequence `keys`.
  - For `actions` it is row-major order. `minimax` therefore breaks ties between equally good actions by taking the first in row-major order.
- Copies: `copy.deepcopy` is modelled by value semantics. Boards and rank maps are values, so no aliasing can arise.
- Minimax.MinimaxValue: the pruning bound and the exact value are promised only on balanced boards, which include every board reached by play. The one-sided cut is unsound when one player moves twice. On other boards only the range -1..1 and the utility on finished games are stated.
- Minimax.Minimax: optimality is promised only on balanced boards, for the same reason.
- Minimax.Value: the game value of the empty board is not proved to be 0 (self-play from the start is a draw). Proving it needs the whole game tree to be evaluated.
- The infinite sentinels `float("-inf")` and `float("inf")` are the integers -2 and 2. They lie outside every utility, as the infinities do.
- PageRank.IteratePagerank:
  - The source loops with no bound. The model allows at most `fuel` sweeps and reports whether it stopped on its own.
  - Termination, and convergence to a fixed point, are not modelled.
  - The docstring's claim that the ranks sum to 1 is not promised, because the code does not meet it (DanglingPagesLoseMass).
- PageRank.TransitionModel:
  - The model requires the links of the last page in key order to be pages of the corpus.
  - Without that, line 70 raises KeyError. The model does not represent that error path.
  - A corpus produced by crawl always meets the requirement (PageRank.Crawl).
  - The model also requires the page asked about to be a page of the corpus. Without that, line 62 raises KeyError, and that error path is not represented either.
- N: `len(corpus)` is written as `|keys|`. KeyCount proves the two are equal.

## Findings

| source | as written | input that shows it | evidently intended | confidence | as-written member | corrected member |
|---|---|---|---|---|---|---|
| week0/tictactoe/tictactoe.py:52-55 | `for row, i in enumerate(board)` swaps index and row, and `actions.add(i, j)` passes two arguments | any 3x3 board, e.g. the initial state: TypeError | the set of coordinates of EMPTY cells | not executed | TicTacToe.ActionsAsWrittenRaises | TicTacToe.Actions |
| week0/tictactoe/tictactoe.py:90-98 | `o = o` reads an unbound local; `checks_x` and `checks_o` are incremented but never assigned, so `x` and `o` never change | any board (line 90); a board where X owns the top row (lines 93-95) | count each line's X and O and report the owner of a full line | not executed | TicTacToe.WinnerAsWrittenNeverReports | TicTacToe.Winner |
| week0/tictactoe/tictactoe.py:99 | returns the integer 0 for an O win | a balanced board where O owns the top row: utility 0 | return O, so that utility gives -1 | not executed | TicTacToe.UtilityAsWrittenMissesOWin | TicTacToe.Utility |
| week2/pagerank/pagerank.py:66-70 | the loop at line 66 rebinds `page`, so line 69 iterates the links of the last key in the corpus, not of the page asked about | corpus a→{b}, b→{c}, c→{a,b}, asked about a: a gets d extra and the total is 1 + d | shares d/\|links\| on the links of the given page, total 1 | not executed | PageRank.TransitionCounterexample | PageRank.IntendedTransitionSumsToOne |
