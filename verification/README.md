# Scrabble move generator, modelled in Dafny

This project models the move generator of `ScrabbleTeamProjectScrabbleTeamProject`, a
computer Scrabble player, and proves properties of that model. The model covers these parts:

- **The word tree** (`Dawg_tree`, `Dawg_v`), built from the dictionary's lines.
  - Module `Trie`.
  - An arena of vertices held by a class whose constructor and `Insert` change it in place.
- **The mask encoding** of cell constraints (`toMask`, `maskContains`, flags `BLANK`, `ANCHOR`, `EMPTY`, `STATIC`).
  - Module `Masks`.
  - A mask is the set of its bit positions.
- **The board as the generator reads it** (`isEmpty`).
  - Module `Board`.
- **The constraint grid** `rows[30][15]` that `getRows` and `getCols` fill in place.
  - Specified by functions in `Grid`.
  - Filled by the methods of `Engine.Dawg` over an `array2`.
- **The backtracking search** `findAllWordsInRow`.
  - Specified by `Enumerator.Explore`.
  - Implemented by `Enumerator.FindAllWordsInRow`.
- **`findAllMoves`**, which walks every square in both directions.
  - Specified by `Engine.AllMoves`.
  - Implemented by `Engine.Dawg.FindAllMoves`.
- **The blank spellings** `permuteMovesWithBlanks`.
  - Specified by `Permutator.PermuteAll`.
  - Implemented by loop methods.
- **`chooseMove`'s running maximum**.
  - In `Selector` and `Engine.Player.ChooseMove`.

The game itself is passed in as values:

- the board is a 15x15 grid of characters;
- the hand is a sequence of characters, where `' '` is a blank;
- legality (`verifyLegality`) and scoring (`score`) are functions on moves.

A NullPointerException of the search is the `Failure(NullChild)` of a `Result`.

## Behaviour of the code as written

The model follows the code, including places where it does not do what its comments describe.

1. **The cross-check drops a letter.**
   - Both passes build the perpendicular word as the run before the square followed by the run after it.
   - They then splice the letter in with `substring(0, mx) + letter + substring(mx + 1)`.
   - That replaces the first letter of the run after the square instead of inserting before it.
   - With `c` above a square and `t` below it, the letter `a` is checked as `ca`, not `cat` (`Grid.SpliceDropsLetter`, `Grid.CatIsCheckedAsCa`).
2. **`getCols` reads the wrong trailing run.** It reads the run below square (row x, column y), not the run right of square (row y, column x) (`Grid.ColCross`).
3. **`getCols` writes its cross-check letters to the wrong grid.**
   - They go into `rows[x + 15][y]`, the horizontal grid, not `rows[x][y]`.
   - So a vertical square with a tile beside it carries no letter at all (`Grid.ConstrainedColEntry`).
   - Because `getRows` runs first, these stray bits survive in the horizontal grid (`Grid.Entry`).
   - They are OR-ed in even where the horizontal square already holds a tile (`Grid.StrayBitsOnTile`).
     - This happens when square (row y, column x) is vacant beside a tile and square (row x, column y) holds one.
     - The walk then tries every stray letter on that STATIC square without consulting the hand and lays `' '` (lines 216 and 228).
     - So it can follow a key other than the letter shown on the board (see item 7).
4. **A blank is looked up under the upper-case letter and recorded as `'{'`.**
   - With a lower-case word list that child is missing, so the next visit starts from a null vertex.
   - That visit throws a NullPointerException, which ends the whole call, only when it touches the vertex (`Enumerator.BlankWithoutUpperCaseEdgeFails`).
     - It touches the vertex to record a word when the walk is anchored and the next square may stay empty or is past the line's end (`findAllWordsInRow`, line 208).
     - It also touches the vertex to look up a child when the next square allows a letter that the hand can still pay for, or that is already on the board (line 218).
   - Otherwise the visit neither records nor looks anything up, and the branch just ends with no moves.
     - A blank laid on the last square of a line that is not anchored is such a case (`Enumerator.UnanchoredLastSquareIsQuiet`).
     - `getCols`' stray bits can put letters the hand lacks onto unanchored squares of the horizontal grid, so a blank can be laid there.
   - No recorded move can contain a blank (`Enumerator.SoundMovesHaveNoBlanks`).
   - So every recorded move is free of upper-case letters, and the permutator only ever takes its first case (`Engine.AllMovesFromWalks`).
5. **The number and kinds of variants.**
   - Pairs of blank positions are added only when exactly two blanks are open.
   - A second blank after a played one is added only when exactly one is open.
   - Moves with more than two upper-case letters are dropped.
6. **When the player exchanges.** `chooseMove` exchanges all tiles when no legal move scores above zero, not only when no move is legal.
7. **What a recorded move spells.**
   - A recorded move's word holds `' '` for each square that already has a tile.
   - So what spells a dictionary word is the sequence of keys followed in the tree, not the move's word itself (`Engine.SoundFromRootSpellsWord`).

## Model

| member | source | states |
|---|---|---|
| Letters.ToUpper | src/scrabble/ScrabbleTeamProjectScrabbleTeamProject.java:222 | a lower-case letter becomes its upper-case letter; every other character is unchanged |
| Letters.ToLower | src/scrabble/ScrabbleTeamProjectScrabbleTeamProject.java:261 | an upper-case letter becomes its lower-case letter; every other character is unchanged |
| Letters.LowerString | src/scrabble/ScrabbleTeamProjectScrabbleTeamProject.java:263 | same length, and each character is lower-cased |
| Letters.LowerOfUpper | src/scrabble/ScrabbleTeamProjectScrabbleTeamProject.java:270 | upper-casing a character never changes what it lower-cases to |
| Letters.Count | src/scrabble/ScrabbleTeamProjectScrabbleTeamProject.java:256 | the count is at most the length, and is zero exactly when the character is absent |
| Masks.BitOf | src/scrabble/ScrabbleTeamProjectScrabbleTeamProject.java:101 | the shift count is below 32, and for 'a'..'~' it is the distance from 'a' |
| Masks.ToMask | src/scrabble/ScrabbleTeamProjectScrabbleTeamProject.java:100-102 | the mask holds exactly the character's bit |
| Masks.MaskContains | src/scrabble/ScrabbleTeamProjectScrabbleTeamProject.java:104-107 | the AND with toMask(ch) is non-zero exactly when the mask holds ch's bit |
| Masks.Letter | src/scrabble/ScrabbleTeamProjectScrabbleTeamProject.java:213-216 | index i of the hand array is the letter with bit i; indices below 26 are lower-case letters and index 26 is BLANK |
| Masks.BitOfInjective | src/scrabble/ScrabbleTeamProjectScrabbleTeamProject.java:89-92 | among 'a'..'~', two characters share a bit only if equal, so the four flags never collide with a letter |
| Board.Vacant | src/scrabble/ScrabbleTeamProjectScrabbleTeamProject.java:110-115 | isEmpty with its arguments in Location order (row, column): the square is off the board or shows one of the empty-square markers `" -+=#"`; `Board.IsEmpty` states its cases |
| Board.IsEmpty | src/scrabble/ScrabbleTeamProjectScrabbleTeamProject.java:110-115 | the square looked at is row y, column x: off the board it is empty, a blank or premium-marker (`-`, `+`, `=`, `#`) square is empty, and a square showing a letter is not |
| Board.TilesUp | src/scrabble/ScrabbleTeamProjectScrabbleTeamProject.java:171 | the mx loop's count: that many squares upwards hold tiles, and the next one is empty or off the board |
| Board.TilesDown | src/scrabble/ScrabbleTeamProjectScrabbleTeamProject.java:175 | the nx loop's count: that many squares downwards hold tiles, and the next one is empty or off the board |
| Board.TilesLeft | src/scrabble/ScrabbleTeamProjectScrabbleTeamProject.java:131 | getCols' mx loop: that many squares to the left hold tiles, and the next one is empty or off the board |
| Board.ColumnSlice | src/scrabble/ScrabbleTeamProjectScrabbleTeamProject.java:173-174 | the word loop reads the column's letters top to bottom, one per square |
| Board.RowSlice | src/scrabble/ScrabbleTeamProjectScrabbleTeamProject.java:133-134 | the word loop reads the row's letters left to right, one per square |
| Trie.Walk | src/scrabble/ScrabbleTeamProjectScrabbleTeamProject.java:74-80 | the walk of verify and of the insert loop: from vertex n follow each letter's edge in turn, absent at the first missing edge; `WalkFollowsPath`, `WalkSnoc` and `WalkExtends` state where it ends |
| Trie.Accepts | src/scrabble/ScrabbleTeamProjectScrabbleTeamProject.java:74-82 | verify's answer: the walk from the root exists and ends on a vertex marked as a word; `AcceptsIffStored` proves it holds exactly for the stored words |
| Trie.AddChild | src/scrabble/ScrabbleTeamProjectScrabbleTeamProject.java:66 | putIfAbsent of a missing letter: the parent gains an edge to a new unmarked leaf at the end of the arena; `AddChildGrows` and `AddChildKeepsTree` state what it keeps |
| Trie.MarkWord | src/scrabble/ScrabbleTeamProjectScrabbleTeamProject.java:69 | `head.isWord = true` on one vertex; `MarkWordGrows` and `MarkWordStoresPath` state what it keeps and what it adds |
| Trie.WalkFollowsPath | src/scrabble/ScrabbleTeamProjectScrabbleTeamProject.java:65-67 | in a tree, walking w from a vertex ends on the vertex whose path is that vertex's path followed by w |
| Trie.AcceptsIffStored | src/scrabble/ScrabbleTeamProjectScrabbleTeamProject.java:74-82 | verify's walk accepts exactly the words stored in the tree |
| Trie.WalkExtends | src/scrabble/ScrabbleTeamProjectScrabbleTeamProject.java:66 | a walk that succeeds keeps its end vertex when the arena only grows |
| Trie.WalkSnoc | src/scrabble/ScrabbleTeamProjectScrabbleTeamProject.java:67 | walking one more letter is following one more edge from where the walk stopped |
| Trie.AddChildGrows | src/scrabble/ScrabbleTeamProjectScrabbleTeamProject.java:66 | putIfAbsent of a missing letter keeps every word flag and every existing edge |
| Trie.MarkWordGrows | src/scrabble/ScrabbleTeamProjectScrabbleTeamProject.java:69 | setting isWord keeps every word flag and every edge |
| Trie.AddChildKeepsTree | src/scrabble/ScrabbleTeamProjectScrabbleTeamProject.java:66-67 | adding a leaf keeps the arena a tree, whose new path is the parent's plus the letter, and stores no new word |
| Trie.AddChildPaths | src/scrabble/ScrabbleTeamProjectScrabbleTeamProject.java:66 | after adding a leaf, every edge still extends its parent's path by its letter |
| Trie.AddChildWalks | src/scrabble/ScrabbleTeamProjectScrabbleTeamProject.java:66-67 | after adding a leaf, every vertex, the leaf included, is reached from the root by its path |
| Trie.MarkWordStoresPath | src/scrabble/ScrabbleTeamProjectScrabbleTeamProject.java:69 | marking a vertex keeps the tree and adds exactly that vertex's path to the stored words |
| Trie.DawgTree.constructor | src/scrabble/ScrabbleTeamProjectScrabbleTeamProject.java:62-71 | the tree stores exactly the lines, and accepts a word iff it is one of the lines (the empty line included) |
| Trie.DawgTree.Insert | src/scrabble/ScrabbleTeamProjectScrabbleTeamProject.java:64-69 | one line more is stored, and no word flag or edge is lost |
| Trie.DawgTree.Verify | src/scrabble/ScrabbleTeamProjectScrabbleTeamProject.java:74-82 | false on the first missing edge, otherwise the last vertex's flag; true exactly for stored words |
| Grid.Centre | src/scrabble/ScrabbleTeamProjectScrabbleTeamProject.java:151 | the ANCHOR bit the grid gains at the centre square, rows[7][7] here and rows[22][7] at line 191; `CentreIsAnchor` |
| Grid.TileMask | src/scrabble/ScrabbleTeamProjectScrabbleTeamProject.java:122-123 | the mask of a square holding tile ch: its letter's bit, ANCHOR and STATIC (also lines 162-163); `OccupiedRowEntry` and `OccupiedColEntry` |
| Grid.Tried | src/scrabble/ScrabbleTeamProjectScrabbleTeamProject.java:139 | the letter loop tries a letter when the hand's mask holds it or holds BLANK (also line 179); `CrossUpto` states the loop with it |
| Grid.Above | src/scrabble/ScrabbleTeamProjectScrabbleTeamProject.java:171-174 | getRows' run of tiles directly above the square, read top to bottom (`TilesUp`, `ColumnSlice`) |
| Grid.Below | src/scrabble/ScrabbleTeamProjectScrabbleTeamProject.java:175-177 | the run of tiles directly below square (row, col), read top to bottom; getCols reads it at lines 135-137 with the square's coordinates swapped (`TilesDown`, `ColumnSlice`) |
| Grid.LeftOf | src/scrabble/ScrabbleTeamProjectScrabbleTeamProject.java:131-134 | getCols' run of tiles directly left of the square, read left to right (`TilesLeft`, `RowSlice`) |
| Grid.Entry | src/scrabble/ScrabbleTeamProjectScrabbleTeamProject.java:118-192 | rows[i][j] after getRows then getCols: a vertical entry is `ColEntry` plus the centre anchor; a horizontal one is `RowEntry` plus the centre anchor plus getCols' stray `ColCross` bits; `Grid.Grid` collects them |
| Grid.HandBits | src/scrabble/ScrabbleTeamProjectScrabbleTeamProject.java:318-321 | the subset mask findAllMoves builds holds only letter bits and BLANK (`SubsetMatchesTally`); under it the entry contracts fix ANCHOR and STATIC |
| Grid.StrayBitsOnTile | src/scrabble/ScrabbleTeamProjectScrabbleTeamProject.java:145 | a horizontal square holding a tile keeps STATIC and also gains every letter, its own or not, that getCols' cross-check of square (row y, column x) accepts |
| Grid.Splice | src/scrabble/ScrabbleTeamProjectScrabbleTeamProject.java:180-183 | the spliced word keeps the run before the square, puts the letter at position mx, and continues with the run after the square minus its first letter; its length is mx plus the length of the following run, or mx + 1 when there is none |
| Grid.CrossUpto | src/scrabble/ScrabbleTeamProjectScrabbleTeamProject.java:178-186 | the letter loop keeps letter i's bit iff the hand holds it or a blank, and the tree accepts the spliced word |
| Grid.Grid | src/scrabble/ScrabbleTeamProjectScrabbleTeamProject.java:322-323 | rows is 30 by 15, and each entry is what getRows and then getCols leave there |
| Grid.RowEntry | src/scrabble/ScrabbleTeamProjectScrabbleTeamProject.java:159-188 | getRows' entry: an occupied square holds its letter, ANCHOR and STATIC; a vacant one holds EMPTY; with the hand's bits only, a vacant one has no STATIC and has ANCHOR iff a tile is above or below it |
| Grid.ColEntry | src/scrabble/ScrabbleTeamProjectScrabbleTeamProject.java:121-148 | getCols' entry for row y, column x: an occupied square holds its letter, ANCHOR and STATIC; a vacant one holds EMPTY, and with the hand's bits only it has ANCHOR iff a tile is left or right of it; a vacant square beside a tile holds only EMPTY and ANCHOR |
| Grid.ColCross | src/scrabble/ScrabbleTeamProjectScrabbleTeamProject.java:135-145 | the bits getCols ORs into rows[x + 15][y] are letters the hand can supply; there are none for an occupied square or one with no tile left or right |
| Grid.OccupiedRowEntry | src/scrabble/ScrabbleTeamProjectScrabbleTeamProject.java:162-163 | getRows gives an occupied square exactly its letter, ANCHOR and STATIC, and no EMPTY |
| Grid.OccupiedColEntry | src/scrabble/ScrabbleTeamProjectScrabbleTeamProject.java:122-123 | getCols gives an occupied square exactly its letter, ANCHOR and STATIC, and no EMPTY |
| Grid.VacantMayEnd | src/scrabble/ScrabbleTeamProjectScrabbleTeamProject.java:165 | every square without a tile gets EMPTY and not STATIC, in both passes |
| Grid.UnconstrainedRowEntry | src/scrabble/ScrabbleTeamProjectScrabbleTeamProject.java:166-167 | with no tile above or below, the entry is EMPTY plus the hand's subset, with no ANCHOR in the final grid except at the centre |
| Grid.ConstrainedRowEntry | src/scrabble/ScrabbleTeamProjectScrabbleTeamProject.java:168-186 | with a tile above or below, the entry has ANCHOR and EMPTY, and holds a letter iff the hand can supply it and the spliced word is in the tree |
| Grid.ConstrainedColEntry | src/scrabble/ScrabbleTeamProjectScrabbleTeamProject.java:128-145 | with a tile left or right, the vertical entry has ANCHOR and EMPTY and no letter; the cross-check letters go into rows[x + 15][y] |
| Grid.UnconstrainedColEntry | src/scrabble/ScrabbleTeamProjectScrabbleTeamProject.java:126-127 | with no tile left or right, the entry is EMPTY plus the hand's subset |
| Grid.CentreIsAnchor | src/scrabble/ScrabbleTeamProjectScrabbleTeamProject.java:191 | rows[22][7], and likewise rows[7][7] (line 151), hold ANCHOR whatever the board |
| Grid.SpliceDropsLetter | src/scrabble/ScrabbleTeamProjectScrabbleTeamProject.java:180-183 | when a run follows the square, the spliced word loses that run's first letter, so it is never the word the play forms |
| Grid.CatIsCheckedAsCa | src/scrabble/ScrabbleTeamProjectScrabbleTeamProject.java:140-143 | with 'c' above and 't' below, the letter 'a' is checked as "ca" |
| Enumerator.IsWordAt | src/scrabble/ScrabbleTeamProjectScrabbleTeamProject.java:208 | `head.isWord` for a vertex of the arena |
| Enumerator.Affordable | src/scrabble/ScrabbleTeamProjectScrabbleTeamProject.java:216 | letter i can be laid: the hand holds it or a blank, or the square is STATIC and needs no tile |
| Enumerator.Explore | src/scrabble/ScrabbleTeamProjectScrabbleTeamProject.java:204-243 | findAllWordsInRow's recursion: the partial word when the line may end, an anchor was touched and the vertex is a word, then each next letter's moves from a to z; NullChild once a null vertex is touched; `RecordsWordFirst`, `ExploreSound` and `ExploreWithoutBlanks` state its properties, and `FindAllWordsInRow` is proved equal to it |
| Enumerator.TryLetters | src/scrabble/ScrabbleTeamProjectScrabbleTeamProject.java:213-242 | the letter loop: the moves of the first n letters in order, failing at the first letter whose recursion throws; `TryLettersSound` and `TryLettersStaysFailed` |
| Enumerator.TryLetter | src/scrabble/ScrabbleTeamProjectScrabbleTeamProject.java:214-240 | one letter: nothing unless the square allows it and it is affordable; NullChild on a null vertex; nothing without the edge; otherwise the recursion one square on with the tile `Place` lays; `TryLetterSound` |
| Enumerator.Child | src/scrabble/ScrabbleTeamProjectScrabbleTeamProject.java:238 | children.get is absent exactly when the edge is missing, and is a one-letter walk |
| Enumerator.Place | src/scrabble/ScrabbleTeamProjectScrabbleTeamProject.java:219-231 | the tile and key for one letter: a STATIC square consumes nothing and lays ' '; otherwise the letter, decrementing its count, while the count is positive; otherwise BLANK, decrementing the blank count, under the upper-case key; counts never go negative |
| Enumerator.StepSound | src/scrabble/ScrabbleTeamProjectScrabbleTeamProject.java:232-240 | a move sound for the recursive call is sound for the caller |
| Enumerator.StepCounts | src/scrabble/ScrabbleTeamProjectScrabbleTeamProject.java:225-231 | the tiles, preceded by the one just laid, stay within the caller's hand |
| Enumerator.StepSpells | src/scrabble/ScrabbleTeamProjectScrabbleTeamProject.java:238 | keys that spell the rest from the child, preceded by the laid tile's key, spell everything from the parent vertex |
| Enumerator.ExploreSound | src/scrabble/ScrabbleTeamProjectScrabbleTeamProject.java:195-244 | every recorded move extends the partial word at the walk's location and direction, the square after it may end a word, it touches an anchor (or the walk was anchored), it takes no more tiles than the hand holds, and under some keys its tiles fit their masks and walk to a word vertex |
| Enumerator.TryLettersSound | src/scrabble/ScrabbleTeamProjectScrabbleTeamProject.java:213-242 | every move recorded by the letter loop is longer than the partial word and is sound |
| Enumerator.TryLetterSound | src/scrabble/ScrabbleTeamProjectScrabbleTeamProject.java:214-240 | every move recorded after one letter is longer than the partial word and is sound |
| Enumerator.TryLettersStaysFailed | src/scrabble/ScrabbleTeamProjectScrabbleTeamProject.java:213-242 | once a letter's recursion has thrown, the whole letter loop has thrown |
| Enumerator.RecordsWordFirst | src/scrabble/ScrabbleTeamProjectScrabbleTeamProject.java:204-209 | the partial word is recorded iff the line ends or the next square has EMPTY, the walk is anchored and the vertex is a word; it then comes before every extension, and every other recorded move is longer |
| Enumerator.ExploreWithoutBlanks | src/scrabble/ScrabbleTeamProjectScrabbleTeamProject.java:216-238 | with no blank in the hand, the walk from an existing vertex never dereferences null |
| Enumerator.TryLettersWithoutBlanks | src/scrabble/ScrabbleTeamProjectScrabbleTeamProject.java:213-242 | with no blank in the hand, the letter loop never dereferences null |
| Enumerator.UnanchoredLastSquareIsQuiet | src/scrabble/ScrabbleTeamProjectScrabbleTeamProject.java:204-243 | a walk whose last square is not anchored records no move and never throws, whatever the hand and whichever children the tree lacks |
| Enumerator.QuietLetters | src/scrabble/ScrabbleTeamProjectScrabbleTeamProject.java:213-242 | on such a square each letter's recursion records nothing and does not throw, a missing child included |
| Enumerator.BlankWithoutUpperCaseEdgeFails | src/scrabble/ScrabbleTeamProjectScrabbleTeamProject.java:221-238 | a blank laid on an anchor square after which a word may end, where the tree has no upper-case edge, makes the walk throw |
| Enumerator.WalkIsLowerCase | src/scrabble/ScrabbleTeamProjectScrabbleTeamProject.java:62-71 | in a tree whose edges are lower-case letters, every walk that exists follows lower-case letters only |
| Enumerator.SoundMovesHaveNoBlanks | src/scrabble/ScrabbleTeamProjectScrabbleTeamProject.java:221-238 | with a lower-case word list, no recorded move lays a blank |
| Enumerator.FindAllWordsInRow | src/scrabble/ScrabbleTeamProjectScrabbleTeamProject.java:195-244 | fails iff the walk throws; otherwise it appends to `moves` exactly the walk's moves, in order |
| Enumerator.TryAllLetters | src/scrabble/ScrabbleTeamProjectScrabbleTeamProject.java:213-242 | the letter loop appends exactly the moves of letters 'a'..'z' in order, or fails iff one of them throws |
| Enumerator.PlayLetter | src/scrabble/ScrabbleTeamProjectScrabbleTeamProject.java:214-240 | one pass of the letter loop appends exactly that letter's moves, or fails iff its recursion throws |
| Permutator.PermuteAll | src/scrabble/ScrabbleTeamProjectScrabbleTeamProject.java:252-312 | permuteMovesWithBlanks' outer loop: the variants of every move, in order; `PermuteAllFromMoves`, `PermuteAllKeepsPlainMoves` and `PermuteAllWithoutBlanks` state its properties, and `PermuteMovesWithBlanks` is proved equal to it |
| Permutator.NoneDone | src/scrabble/ScrabbleTeamProjectScrabbleTeamProject.java:269-278 | case 0: each position upper-cased in turn, each followed, when two blanks are open, by the second positions after it; `NoneDoneSpell` and `NoneDoneCount` |
| Permutator.SecondUppers | src/scrabble/ScrabbleTeamProjectScrabbleTeamProject.java:272-277 | case 0's inner loop: the word upper-cased again at each position after i; `SecondUppersSpell` and `SecondUppersCount` |
| Permutator.OneDone | src/scrabble/ScrabbleTeamProjectScrabbleTeamProject.java:282-295 | case 1: each position holding the played letter upper-cased, followed, when one blank is open, by a second position; `OneDoneSpell` |
| Permutator.OneDoneInner | src/scrabble/ScrabbleTeamProjectScrabbleTeamProject.java:287-292 | case 1's inner loop: every position except those at or before i that hold the played letter; `OneDoneInnerSpell` |
| Permutator.TwoDone | src/scrabble/ScrabbleTeamProjectScrabbleTeamProject.java:298-307 | case 2: every pair of positions i, j holding the two played letters, with j after i when the letters are equal; `TwoDoneSpell` |
| Permutator.TwoDoneInner | src/scrabble/ScrabbleTeamProjectScrabbleTeamProject.java:299-306 | case 2's inner loop for first position i; `TwoDoneInnerSpell` |
| Permutator.UpperAt | src/scrabble/ScrabbleTeamProjectScrabbleTeamProject.java:270 | the word with position i upper-cased and every other position unchanged |
| Permutator.Uppers | src/scrabble/ScrabbleTeamProjectScrabbleTeamProject.java:258-262 | the played blanks are at most as many as the letters |
| Permutator.AtMove | src/scrabble/ScrabbleTeamProjectScrabbleTeamProject.java:271 | one move per word, each at the source move's location and direction |
| Permutator.Variants | src/scrabble/ScrabbleTeamProjectScrabbleTeamProject.java:255-309 | a move playing no blank yields itself first, and only itself with no open blank; a move with more than two upper-case letters yields nothing |
| Permutator.LowerUpperAt | src/scrabble/ScrabbleTeamProjectScrabbleTeamProject.java:270 | upper-casing one position does not change the lower-cased word |
| Permutator.LowerLower | src/scrabble/ScrabbleTeamProjectScrabbleTeamProject.java:263 | lower-casing is idempotent |
| Permutator.SecondUppersSpell | src/scrabble/ScrabbleTeamProjectScrabbleTeamProject.java:272-277 | every pair variant of case 0 spells the same lower-case word |
| Permutator.NoneDoneSpell | src/scrabble/ScrabbleTeamProjectScrabbleTeamProject.java:269-278 | every variant of case 0 spells the same lower-case word |
| Permutator.NoneDoneSpellNext | src/scrabble/ScrabbleTeamProjectScrabbleTeamProject.java:269-278 | one more pass of case 0's loop keeps every variant a spelling of the word |
| Permutator.OneDoneInnerSpell | src/scrabble/ScrabbleTeamProjectScrabbleTeamProject.java:287-292 | every second-blank variant of case 1 spells the same lower-case word |
| Permutator.OneDoneSpell | src/scrabble/ScrabbleTeamProjectScrabbleTeamProject.java:282-295 | every variant of case 1 spells the same lower-case word |
| Permutator.TwoDoneInnerSpell | src/scrabble/ScrabbleTeamProjectScrabbleTeamProject.java:299-307 | every variant of case 2 for one first position spells the same lower-case word |
| Permutator.TwoDoneSpell | src/scrabble/ScrabbleTeamProjectScrabbleTeamProject.java:298-307 | every variant of case 2 spells the same lower-case word |
| Permutator.VariantsKeepWord | src/scrabble/ScrabbleTeamProjectScrabbleTeamProject.java:254-309 | every variant has the source move's lower-case text, location and direction |
| Permutator.SecondUppersCount | src/scrabble/ScrabbleTeamProjectScrabbleTeamProject.java:272-277 | the inner loop of case 0 adds one variant per position after i |
| Permutator.NoneDoneCount | src/scrabble/ScrabbleTeamProjectScrabbleTeamProject.java:269-278 | case 0's loop adds L variants, or L(L+1)/2 when two blanks are open |
| Permutator.VariantsCount | src/scrabble/ScrabbleTeamProjectScrabbleTeamProject.java:266-280 | a word of length L without upper-case letters yields 1 variant for no open blank, 1 + L for one (or more than two), and 1 + L + L(L-1)/2 for two |
| Permutator.PermuteAllFromMoves | src/scrabble/ScrabbleTeamProjectScrabbleTeamProject.java:252-312 | every output move is a spelling of some input move |
| Permutator.PermuteAllKeepsPlainMoves | src/scrabble/ScrabbleTeamProjectScrabbleTeamProject.java:266-267 | every input move without upper-case letters is in the output |
| Permutator.UppersOfPlain | src/scrabble/ScrabbleTeamProjectScrabbleTeamProject.java:258-262 | a word without upper-case letters plays no blank |
| Permutator.PermuteAllWithoutBlanks | src/scrabble/ScrabbleTeamProjectScrabbleTeamProject.java:266-268 | with no open blank and no played blank, the output is exactly the input |
| Permutator.PermuteMovesWithBlanks | src/scrabble/ScrabbleTeamProjectScrabbleTeamProject.java:252-312 | the output is every move's variants, in order, with the hand's blanks counted |
| Permutator.CountBlanks | src/scrabble/ScrabbleTeamProjectScrabbleTeamProject.java:255-256 | openBlanks starts as the number of ' ' tiles in the hand |
| Permutator.PermuteMove | src/scrabble/ScrabbleTeamProjectScrabbleTeamProject.java:255-309 | the loop body for one move emits exactly its variants |
| Permutator.NoPlayedBlank | src/scrabble/ScrabbleTeamProjectScrabbleTeamProject.java:268-279 | case 0's loops emit the single and pair variants in order |
| Permutator.UpperAfter | src/scrabble/ScrabbleTeamProjectScrabbleTeamProject.java:272-277 | case 0's inner loop emits the second upper-casing at each later position |
| Permutator.OnePlayedBlank | src/scrabble/ScrabbleTeamProjectScrabbleTeamProject.java:282-295 | case 1's loops emit their variants in order |
| Permutator.UpperOthers | src/scrabble/ScrabbleTeamProjectScrabbleTeamProject.java:287-292 | case 1's inner loop emits a second blank at each other letter, or at the same letter after i |
| Permutator.TwoPlayedBlanks | src/scrabble/ScrabbleTeamProjectScrabbleTeamProject.java:298-307 | case 2's loops emit their variants in order |
| Permutator.SecondBlanks | src/scrabble/ScrabbleTeamProjectScrabbleTeamProject.java:299-307 | case 2's inner loop emits the pairs for one first position |
| Selector.Chosen | src/scrabble/ScrabbleTeamProjectScrabbleTeamProject.java:383-390 | the move the running maximum keeps: legal, scoring above zero, strictly above every earlier legal move and at least every later one; `ChosenUnique` |
| Selector.Play | src/scrabble/ScrabbleTeamProjectScrabbleTeamProject.java:398-399 | `new PlayWord(word, location, direction)` of the kept move |
| Selector.Selected | src/scrabble/ScrabbleTeamProjectScrabbleTeamProject.java:378-402 | chooseMove's answer: exchange of all seven tiles iff no legal move scores above zero; otherwise the play of the Chosen move, which is legal and scores at least as high as every legal move |
| Selector.SelectedUnique | src/scrabble/ScrabbleTeamProjectScrabbleTeamProject.java:378-402 | the answer is determined by the moves: two selected actions for the same moves, legality and scores are equal |
| Selector.ChosenUnique | src/scrabble/ScrabbleTeamProjectScrabbleTeamProject.java:387 | the strict comparison makes the chosen move unique: the first one reaching the highest positive legal score |
| Selector.SelectMove | src/scrabble/ScrabbleTeamProjectScrabbleTeamProject.java:380-401 | exchange of all seven tiles iff no legal move scores above zero; otherwise the play of the legal move whose positive score is above every earlier legal score and at least every later one |
| Engine.SubsetOf | src/scrabble/ScrabbleTeamProjectScrabbleTeamProject.java:318-321 | the subset mask: BLANK for each blank tile, the tile's own bit otherwise; `SubsetMatchesTally` and `HandSubset` |
| Engine.SquareMoves | src/scrabble/ScrabbleTeamProjectScrabbleTeamProject.java:329-349 | the two walks from square (x, y): vertical at Location(y, x) over rows[x][y..], then horizontal at Location(x, y) over rows[x + 15][y..]; `SearchSquare` |
| Engine.LineMoves | src/scrabble/ScrabbleTeamProjectScrabbleTeamProject.java:328-350 | squares (x, 0) .. (x, y - 1) in order, failing at the first walk that throws; `LineSound`, `LineStaysFailed` and `SearchLine` |
| Engine.Found | src/scrabble/ScrabbleTeamProjectScrabbleTeamProject.java:327-351 | lines 0 .. x - 1 in order; `FoundSound`, `FoundStaysFailed` and `SearchAll` |
| Engine.AllMoves | src/scrabble/ScrabbleTeamProjectScrabbleTeamProject.java:315-354 | findAllMoves: the grid, every walk, then the blank variants for the hand's blanks; `AllMovesFromWalks` and `FindAllMoves` |
| Engine.Tally | src/scrabble/ScrabbleTeamProjectScrabbleTeamProject.java:331-340 | letters[] as findAllMoves counts the hand: 27 slots, none counting more tiles than the hand holds |
| Engine.TallyCounts | src/scrabble/ScrabbleTeamProjectScrabbleTeamProject.java:331-340 | for a hand of letters and blanks, letters[26] is the number of blanks and letters[i] the number of letter i |
| Engine.SubsetMatchesTally | src/scrabble/ScrabbleTeamProjectScrabbleTeamProject.java:318-337 | the subset mask holds a letter, or BLANK, exactly when the hand count for it is positive, and holds nothing else |
| Engine.TallyNonNegative | src/scrabble/ScrabbleTeamProjectScrabbleTeamProject.java:331-340 | the hand counts are never negative |
| Engine.HandSubset | src/scrabble/ScrabbleTeamProjectScrabbleTeamProject.java:318-321 | the loop ORs in BLANK for each blank and each tile's own bit otherwise |
| Engine.CountTiles | src/scrabble/ScrabbleTeamProjectScrabbleTeamProject.java:331-340 | the counting loop leaves the tally in the 27-slot array |
| Engine.LineStaysFailed | src/scrabble/ScrabbleTeamProjectScrabbleTeamProject.java:328-350 | once a walk throws, so does the rest of the square loop |
| Engine.FoundStaysFailed | src/scrabble/ScrabbleTeamProjectScrabbleTeamProject.java:327-351 | once a walk throws, the whole of findAllMoves throws |
| Engine.LineSound | src/scrabble/ScrabbleTeamProjectScrabbleTeamProject.java:328-350 | every move recorded along one x comes from a sound walk at its own square and direction |
| Engine.FoundSound | src/scrabble/ScrabbleTeamProjectScrabbleTeamProject.java:327-351 | every move recorded by the square loop comes from a sound walk at its own square and direction |
| Engine.SoundFromRootSpellsWord | src/scrabble/ScrabbleTeamProjectScrabbleTeamProject.java:348-349 | a move recorded from the root spells a dictionary word under keys that fit its squares, uses no more of each letter or of blanks than the hand holds, touches an anchor and has no upper-case letter |
| Engine.FoundPlain | src/scrabble/ScrabbleTeamProjectScrabbleTeamProject.java:327-351 | every move the search over all squares records is sound from its own square and has no upper-case letter |
| Engine.AllMovesFromWalks | src/scrabble/ScrabbleTeamProjectScrabbleTeamProject.java:315-354 | every recorded move comes from a sound walk at its own square, has no upper-case letter and is returned; every returned move is a spelling of a recorded move; with no blank in the hand exactly the recorded moves are returned |
| Engine.ReadAbove | src/scrabble/ScrabbleTeamProjectScrabbleTeamProject.java:171-174 | mx counts the tiles above the square and the word loop reads them top to bottom |
| Engine.ReadLeft | src/scrabble/ScrabbleTeamProjectScrabbleTeamProject.java:131-134 | mx counts the tiles left of the square and the word loop reads them left to right |
| Engine.ReadBelow | src/scrabble/ScrabbleTeamProjectScrabbleTeamProject.java:175-177 | the nx loop and the second word loop append the tiles below square (row x, column y), top to bottom |
| Engine.Dawg.constructor | src/scrabble/ScrabbleTeamProjectScrabbleTeamProject.java:94-97 | the tree accepts exactly the lines, and every grid entry is zero |
| Engine.Dawg.GetRows | src/scrabble/ScrabbleTeamProjectScrabbleTeamProject.java:155-192 | rows[x + 15][y] becomes the getRows entry, with ANCHOR at the centre, and rows[0..14] are unchanged |
| Engine.Dawg.RowLine | src/scrabble/ScrabbleTeamProjectScrabbleTeamProject.java:158-189 | one pass of the outer loop writes the row x + 15 and nothing else |
| Engine.Dawg.RowSquare | src/scrabble/ScrabbleTeamProjectScrabbleTeamProject.java:159-188 | the value the inner loop stores for square (row x, column y) |
| Engine.Dawg.GetCols | src/scrabble/ScrabbleTeamProjectScrabbleTeamProject.java:118-152 | rows[x][y] becomes the getCols entry, with ANCHOR at rows[7][7], and rows[x + 15][y] gains the stray cross-check bits |
| Engine.Dawg.ColLine | src/scrabble/ScrabbleTeamProjectScrabbleTeamProject.java:120-149 | one pass writes row x, ORs the cross bits into row x + 15, and touches nothing else |
| Engine.Dawg.ColStore | src/scrabble/ScrabbleTeamProjectScrabbleTeamProject.java:121-148 | one pass of the inner loop stores square (row y, column x)'s entry in rows[x][y], ORs its cross bits into rows[x + 15][y], and touches no other entry |
| Engine.Dawg.ColSquare | src/scrabble/ScrabbleTeamProjectScrabbleTeamProject.java:121-148 | the value stored in rows[x][y], and the bits OR-ed into rows[x + 15][y] |
| Engine.Dawg.CrossLetters | src/scrabble/ScrabbleTeamProjectScrabbleTeamProject.java:138-146 | the letter loop collects exactly the letters the hand can supply whose spliced word the tree verifies |
| Engine.Dawg.FillGrid | src/scrabble/ScrabbleTeamProjectScrabbleTeamProject.java:322-323 | after getRows then getCols, the whole of rows is Grid of the board, the subset and the tree |
| Engine.Dawg.FindAllMoves | src/scrabble/ScrabbleTeamProjectScrabbleTeamProject.java:315-354 | rows ends as the constraint grid, and the result fails iff a walk throws, otherwise it is every recorded move with its blank spellings |
| Engine.Dawg.SearchAll | src/scrabble/ScrabbleTeamProjectScrabbleTeamProject.java:325-351 | the square loop returns the moves of every square, x outer and y inner, or fails iff a walk throws |
| Engine.Dawg.SearchLine | src/scrabble/ScrabbleTeamProjectScrabbleTeamProject.java:328-350 | the inner loop appends the moves of squares (x, 0)..(x, 14) in order |
| Engine.Dawg.SearchSquare | src/scrabble/ScrabbleTeamProjectScrabbleTeamProject.java:329-349 | the vertical walk over rows[x][y..], then the horizontal walk over rows[x + 15][y..], from the root with the full hand |
| Engine.Player.constructor | src/scrabble/ScrabbleTeamProjectScrabbleTeamProject.java:364-367 | the player's tree accepts exactly the lines of the word list |
| Engine.Player.ChooseMove | src/scrabble/ScrabbleTeamProjectScrabbleTeamProject.java:378-402 | throws iff findAllMoves throws; otherwise it returns the selection over findAllMoves' result |


## Left out

- Reading the word list from a file (`In`, `readAllLines`, the name `words.txt`) is I/O. The constructors take the lines as a sequence.
- `GateKeeper` is passed in as values. `getSquare` becomes a 15x15 character grid, `getHand` a character sequence, and `verifyLegality` and `score` functions on moves. `setGateKeeper` only stores the collaborator.
- `Move.play` calls the game's `Board.play`, which is not part of this model.
- The `numS` counter (`getRows`, `findAllMoves`, the field) and the two unused heuristics are read by nothing the model covers. `main` only constructs the player.
- `Location` is a (row, column) pair. The Java direction locations `(1, 0)` and `(0, 1)` are the values `Vertical` and `Horizontal`.
- Case mapping (`toUpperCase`, `toLowerCase`, `isUpperCase`) covers the ASCII letters only. No other Unicode letter is modelled.
- Vertex objects and their `HashMap` children are an arena of values indexed by position.
  - Aliasing between vertices is not modelled, since the tree never shares a vertex.
- `clone` of the hand array and the copied `remaining` lists are value semantics: a callee can never change the caller's copy.
- The inner loops `getRows` and `getCols` run for each square are separate methods: `RowLine`, `RowSquare`, `ColLine`, `ColStore`, `ColSquare`, `CrossLetters`, `ReadAbove`, `ReadLeft` and `ReadBelow`.
  - A square's mask is built in a local and stored once.
  - The letter loop collects its bits before they are OR-ed into the grid.
  - The final grid is the same.
- Likewise, parts of `findAllWordsInRow`, `findAllMoves` and `permuteMovesWithBlanks` are separate methods. These are `TryAllLetters`, `PlayLetter`, `SearchAll`, `SearchLine`, `SearchSquare`, `FillGrid`, and the per-case methods of the permutator.
- Engine.Dawg.FindAllMoves: requires each hand character to be `' '` or no later than `'{'`. A later character indexes past the 27-slot count array, and that ArrayIndexOutOfBoundsException is not modelled.
- Engine.Player.ChooseMove: carries the same hand requirement as FindAllMoves.
- Java `int` overflow of the hand counts and scores is not modelled, since no count or score comes near it.
- Enumerator.ExploreSound: states soundness only. It does not claim that every dictionary word placeable on a line is found; the search's exact output is stated by `FindAllWordsInRow` against `Explore` instead.
