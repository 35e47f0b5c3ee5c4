# Spider solitaire exhaustive search, modelled in Dafny

`spider.py` plays every line of a Spider solitaire deal (two decks, ten columns). It
runs a depth-first search: from a position it tries each (source, destination) column
pair in turn. When a move is legal it queues a copy of the game with the cursor past that
move, takes the move, and continues. After the last pair it deals a row from the stock.
A line ends on a win (eight completed piles), on a position whose MD5 fingerprint was
already seen, or when the stock is empty (a loss).

This project models that program and proves what it does.

- `cards.dfy` (module `Cards`): cards and `card_name`, including Python's `str` of a
  rank. Also a reader that takes card names back.
- `tableau.dfy` (module `Tableau`): a game position as a value. It covers the
  consistency check `_invariant`, the scan cursor of `next_move`, the stock deal, and
  the opening deal of `SpiderGame.__init__`.
- `moves.dfy` (module `Moves`):
  - `_find_longest`;
  - the legality search of `move`;
  - `_move_cards`, for the counts of one or more cards that `move` passes to it. The
    slices `[-13:0]` of the completion check follow Python's slice rules exactly;
  - what a move keeps: shape, cards in play, and the consistency check.
- `fingerprint.dfy` (module `Fingerprint`): the string `get_hash` feeds to MD5, with a
  proof that it determines the face-down stacks, face-up stacks and stock exactly.
- `seen.dfy` (module `Seen`): the 256-bucket table of seen fingerprints
  (`_hash_add`, `_hash_find`).
- `search.dfy` (module `Solver`): `play` as a function on values. `LineStep` is one
  pass of the inner loop. `Run` is the whole search, bounded by a fuel count of inner
  passes.
- `game.dfy` (module `Spider`): class `SpiderGame`. Its methods update its fields in
  place, with the loops of the source, and each is proved against the functions above.
- `driver.dfy` (module `Driver`): class `Spider4`. `Play` is proved to leave the object
  exactly as `Solver.Run` describes.
- `deck.dfy` (module `Decks`): class `Deck` (the constructor and `deal`), and how often
  each card occurs in it.

The model follows the code as written, in particular:

- `_find_longest` (spider.py:195) counts the cards at the top of a column that are
  *identical* to the top card. It does not count a descending run of one suit; only
  `move` (spider.py:279-286) tests for such a run.
- The completion check (spider.py:230-232) slices `up[dst][-13:0]`, which is always
  empty. When `_find_longest` returns 13, an empty pile is appended to `_done` and the
  column keeps its cards.

As a consequence, a pile is completed only when 13 identical cards sit at the top of a
column. With no card in play 13 times, no win is ever recorded
(`Solver.SparseDealNeverWon`). Two decks hold every card twice, so the search never
records a win for any shuffle of two decks (`Decks.ShuffledDecksNeverWon`).

Where the program stops on a failed `assert`, the model returns an outcome instead.
There are two such places:

- the consistency check inside `deal_from_pile`: `DealOutcome.Broken`, or
  `Status.InvariantFailed` in the search;
- turning over the placeholder card of rank 0 in `_move_cards`: `MoveResult.Fatal`, or
  `Status.UnknownCard`.

The asserts at spider.py:247, 254 and 256 are proved to hold.

The MD5 digest is a parameter `digest` of type `string -> string`. It is assumed to
return 32 lower-case hexadecimal characters (`Solver.DigestShaped`).

## Model

| member | source | states |
|---|---|---|
| Cards.CardName | spider.py:46-59 | a card's name is its rank token followed by its suit character, so it has at least two characters and ends with the suit |
| Cards.KnownCardName | spider.py:46-59 | the name of a card with rank 0..13 is two characters long, three exactly for a 10, and never contains '*' |
| Cards.TokenOfKnownRank | spider.py:48-59 | for ranks 0..13 the rank token is "A", "J", "Q" or "K" for 1, 11, 12 or 13, "10" for 10 and the one digit of the rank for 0 and 2..9; only the token of 10 is longer than one character, and none contains '*' |
| Cards.DigitsReadBack | spider.py:59 | str of a natural number is a string of decimal digits that reads back as that number and has no leading zero |
| Cards.IntStringShape | spider.py:59 | str of a negative rank is '-' followed by the digits of its magnitude; str of a non-negative rank starts with a digit |
| Cards.ParseCardName | spider.py:46-59 | whatever text follows it, a card name is read back as exactly that card and the length of its name |
| Cards.Digits | spider.py:59 | str of a natural number, built digit by digit; never empty (its read-back is DigitsReadBack) |
| Cards.IntString | spider.py:59 | str of any integer rank: a '-' before the digits of a negative one; never empty (its shape is IntStringShape) |
| Cards.RankToken | spider.py:48-59 | the rank part of card_name: A, J, Q, K for 1, 11, 12, 13 and str of the rank otherwise (its values for ranks 0..13 are TokenOfKnownRank) |
| Cards.CardNameInjective | spider.py:46-59 | two cards with rank 0..13, neither with suit '*', that have the same name are the same card |
| Tableau.Consistent | spider.py:96-113 | the assertions of _invariant: at most 8 completed piles of 13 cards, ten face-down stacks of at most 5, ten face-up stacks, a stock of at most 50 in whole rows of ten, and 104 cards counting 13 per completed pile (the loops that check it are SpiderGame.CheckInvariant) |
| Tableau.DealRow | spider.py:115-125 | the successful branch of deal_from_pile: the first ten stock cards go one onto each face-up stack, the log records the deal and the cursor restarts at (0, 0) (what it keeps is DealKeepsInvariant) |
| Tableau.Advance | spider.py:203-210 | the cursor after k calls of next_move (where it lands is ScanOrder) |
| Tableau.Rounds | spider.py:82-84 | a face-down stack after r rounds of insert(0, cards.pop()): r cards, the latest popped at the front (its growth is RoundsGrow, its cards RoundsCount) |
| Tableau.InitialDeal | spider.py:73-94 | the position SpiderGame.__init__ builds from a card list (its facts are InitialDealFacts and InitialDealCards) |
| Tableau.DealOrder | spider.py:73-93 | the 104 cards the opening deal pops, in the order pop returns them (the deal holds exactly these: InitialDealCards) |
| Tableau.NextCursor | spider.py:203-210 | next_move goes from (src, dst) to (src, dst+1), or to (src+1, 0) when dst+1 reaches 10 |
| Tableau.ScanOrder | spider.py:203-210 | starting from (0, 0), k calls of next_move give (k / 10, k % 10) |
| Tableau.ScanVisitsAllPairs | spider.py:203-210 | from (0, 0) every pair (src, dst) of columns is reached, in row-major order, and the 100th call reaches (10, 0), where the search deals |
| Tableau.SumOfRow | spider.py:120-121 | appending one card to each of the stacks adds one card per stack, and adds exactly the cards dealt |
| Tableau.DealKeepsInvariant | spider.py:115-125 | from a consistent game with a non-empty stock, dealing a row keeps _invariant, keeps the shape (empty face-up ⇒ empty face-down) and keeps the cards in play |
| Tableau.InitialDealFacts | spider.py:73-94 | the opening deal has face-down stacks of 5,5,5,5,4,4,4,4,4,4 cards, one face-up card per column, a stock of 50, no completed pile, and passes _invariant |
| Tableau.RoundsGrow | spider.py:82-84 | each round of insert(0, cards.pop()) puts the next popped card at the front of the stack |
| Tableau.RoundsCount | spider.py:82-84 | after k rounds the face-down stacks hold exactly the first 10k cards popped |
| Tableau.InitialDealRows | spider.py:81-93 | unfolds InitialDeal: which popped card lands on each face-down stack, each face-up stack and each stock position |
| Tableau.InitialDealCards | spider.py:73-93 | the opening deal holds exactly the first 104 cards popped |
| Tableau.DealtFromEnd | spider.py:73-93 | the opening deal holds exactly the last 104 cards of the list, so it never holds a card more often than the list does |
| Moves.FirstAttach | spider.py:261-286 | the cardsToMove loop of move: from k cards, the first count whose deepest card ranks one below the destination's top card, giving up at the bottom of the stack or where the same-suit descending run breaks (its meaning is FirstAttachMeaning) |
| Moves.ShiftTail | spider.py:214-215 | the face-up stacks after extending up[dst] by the last n ≥ 1 cards of up[src] and then cutting the last n cards off up[src] (it keeps the cards in play: ShiftKeepsCards; onto itself it changes nothing: TransferToSelf) |
| Moves.Transfer | spider.py:214-217 | the first half of _move_cards for n ≥ 1: ShiftTail, the log records (src, dst), the cursor restarts at (0, 0) |
| Moves.RevealsPlaceholder | spider.py:219-222 | the fatal case of _move_cards: the emptied source column would turn over a rank-0 placeholder |
| Moves.PySlice | spider.py:231 | Python's s[i:j] with both bounds normalised by SliceBound, so s[-13:0] is empty |
| Moves.PyDeleteSlice | spider.py:232 | Python's s[i:j] = [], so deleting s[-13:0] leaves s unchanged |
| Moves.MoveCards | spider.py:212-234 | _move_cards for n ≥ 1 when it is not fatal: transfer, reveal, completion check (what it keeps is MoveConservesCards and MoveCardsKeepsInvariant) |
| Moves.ApplyMove | spider.py:236-286 | move(True) at the cursor: no legal move resets the cursor; a legal one of MoveLength cards is fatal on the placeholder and otherwise is MoveCards (its shape is MoveShape, what it keeps MoveKeepsInvariant) |
| Moves.IdenticalTail | spider.py:186-201 | _find_longest returns 0 only for an empty stack; otherwise it returns n ≤ the stack size with the top n cards equal to the top card and, when n is less than the stack size, the card below them different |
| Moves.RunTail | spider.py:279-286 | the length of the run at the top of a stack in which each deeper card is one rank higher and of the same suit, ending at the first card that breaks the run |
| Moves.FirstAttachMeaning | spider.py:261-278 | the cardsToMove loop finds a k exactly when some card within the run has rank one less than the destination's top card, and it returns the first such k |
| Moves.MoveLength | spider.py:241-286 | a legal move takes between 1 and all of the face-up cards of the source column |
| Moves.MoveLengthMeaning | spider.py:241-286 | move finds no move from an empty source column; onto an empty column it moves _find_longest cards; otherwise a move exists exactly when some card within the run at the top of the source ranks one below the destination's top card, and it moves the first such count |
| Moves.Reveal | spider.py:218-228 | a column emptied of face-up cards turns over its first face-down card, and nothing else changes |
| Moves.SliceBound | spider.py:214-215 | Python's normalisation of a slice index, negative indices counting from the end |
| Moves.CheckComplete | spider.py:229-232 | as written, the completion check appends an empty pile when _find_longest of the destination is 13 and leaves all stacks unchanged |
| Moves.MoveShape | spider.py:212-232 | a move of n cards puts the top n cards of the source on the destination, removes them from the source, turns over a face-down card when the source is emptied (fatal for the placeholder), logs (src, dst), resets the cursor to (0, 0) and leaves the other columns and the stock alone |
| Moves.TransferToSelf | spider.py:214-215 | moving cards from a column onto itself leaves the face-up stacks unchanged |
| Moves.MoveKeepsShape | spider.py:218-228 | after a non-fatal move every column without face-up cards still has no face-down cards, which is what the asserts at lines 247 and 254 check |
| Moves.ShiftKeepsCards | spider.py:214-215 | the transfer between face-up stacks keeps the cards in play |
| Moves.RevealConservesCards | spider.py:218-228 | turning a face-down card over keeps the cards in play |
| Moves.MoveConservesCards | spider.py:212-232 | _move_cards keeps the cards in play |
| Moves.RevealKeepsDown | spider.py:218-228 | turning a card over never lengthens a face-down stack |
| Moves.CompletionNeedsThirteenCopies | spider.py:195-196 | when _find_longest returns 13, the stack holds at least 13 copies of its top card |
| Moves.CompletionInPlay | spider.py:229-232 | the completion branch fires only when some card is in play at least 13 times |
| Moves.MoveCardsKeepsInvariant | spider.py:212-232 | when no card is in play 13 times, _move_cards keeps _invariant, keeps the cards in play and completes no pile |
| Moves.MoveKeepsInvariant | spider.py:236-286 | when no card is in play 13 times, a non-fatal move keeps _invariant, keeps the cards in play and completes no pile |
| Fingerprint.Names | spider.py:135-136 | the card names of one stack, in order, as get_hash feeds them (read back by ParseNames) |
| Fingerprint.Joined | spider.py:133-145 | each stack preceded by '*', stack after stack (read back by ParseJoined) |
| Fingerprint.Preimage | spider.py:127-146 | everything get_hash feeds to MD5: the ten face-down stacks, the ten face-up stacks and the stock (it determines them: PreimageInjective) |
| Fingerprint.NamesStarFree | spider.py:135-136 | the names of cards with rank 0..13 contain no '*' |
| Fingerprint.NamesSnoc | spider.py:135-136 | adding one card's name extends the names of a stack by that name |
| Fingerprint.JoinedSnoc | spider.py:133-145 | adding one stack extends the pre-image by '*' and that stack's names |
| Fingerprint.ParseNames | spider.py:135-136 | the names of a stack are read back as exactly that stack |
| Fingerprint.ParseJoined | spider.py:133-145 | the pre-image of any stacks of cards with rank 0..13 is read back as exactly those stacks |
| Fingerprint.PreimageInjective | spider.py:127-146 | two positions have the same pre-image exactly when their face-down stacks, face-up stacks and stocks agree; moves, cursor and completed piles take no part |
| Seen.EmptyTable | spider.py:294-296 | the 256 empty buckets of Spider4.__init__ (its facts are EmptyTableFacts) |
| Seen.HashFind | spider.py:307-312 | _hash_find: whether h is in its own bucket (it answers membership in the whole table: FindMeansContains) |
| Seen.HexValue | spider.py:304 | int(_, 16) of one hex digit, either case, is its value below 16 |
| Seen.Bucket | spider.py:304 | the bucket int(h[:2], 16) lies in 0..255 |
| Seen.DigestKeyed | spider.py:304 | every MD5 hex digest has a bucket |
| Seen.HashAdd | spider.py:303-305 | _hash_add appends h to its own bucket and changes no other bucket |
| Seen.EmptyTableFacts | spider.py:294-296 | the initial table of 256 empty buckets is filed, has no repeats and contains nothing |
| Seen.FindMeansContains | spider.py:307-312 | _hash_find is true exactly when the digest is anywhere in the table |
| Seen.AddThenFind | spider.py:303-312 | after _hash_add(h), _hash_find finds h and exactly what it found before; adding an unseen digest keeps the table free of repeats |
| Solver.RunLine | spider.py:317-377 | the rest of the whole search from a line in progress: the inner loop on the current game and, once that line ends, the outer loop popping and playing the games still queued; with no fuel left it parks the line on the queue. It ends with no line in progress, the queue and table well formed, and the win and loss counts never lower |
| Solver.Continue | spider.py:317-377 | with fuel left, one pass of the inner loop followed by the rest of the whole search (Run on one less unit of fuel): the same guarantees as RunLine |
| Solver.Start | spider.py:292-300 | Spider4(game) queues only that game, records its fingerprint, and starts with no wins and no losses |
| Solver.LineStep | spider.py:332-377 | one pass of the inner loop keeps the queue and table well formed, queues at most one game without touching the others, and adds at most one win or one loss |
| Solver.LineStepCases | spider.py:332-377 | unfolds LineStep: one pass, case by case: skip src == dst; advance past an illegal move; for a legal move, queue the copy with the cursor advanced, then stop at the unknown card, count a win, end on a seen fingerprint, or record it and go on; after the last pair, stop on a failed check, count a loss, or deal |
| Solver.LineStepTable | spider.py:354-360 | the table only grows; it changes only after a move, to a position whose fingerprint was not there and is now recorded, and the line goes on from that position |
| Solver.PopLine | spider.py:327 | the game played next is the most recently queued one, and the rest of the queue stays in order |
| Solver.Run | spider.py:314-379 | the search keeps the queue and table well formed, ends with no line in progress, never decreases the win or loss count, and does nothing once stopped |
| Solver.RunPops | spider.py:317-327 | unfolds Run: while games are queued, the search pops the last one and goes on from there |
| Solver.RunSteps | spider.py:332-377 | unfolds RunLine and Continue: with fuel left, running from a line is running from its next pass with one unit less |
| Solver.RunIdle | spider.py:317 | unfolds Run: with nothing queued, the search ends at once |
| Solver.LineStepHealthy | spider.py:332-377 | when no card is in play 13 times, a pass keeps every game consistent with the same cards in play, records no win and never fails the check in deal_from_pile |
| Solver.RunNeverWins | spider.py:314-379 | when no card is in play 13 times, the search never records a win and never fails the check in deal_from_pile, however long it runs |
| Solver.SparseDealNeverWon | spider.py:314-379 | started from a deal with no card in play 13 times, play records no win |
| Spider.SpiderGame.constructor | spider.py:73-94 | the constructor deals exactly the opening deal and the result passes _invariant |
| Spider.SpiderGame.DealDown | spider.py:81-87 | the face-down stacks after four rounds and the extra card for the first four, and the 44 cards consumed |
| Spider.SpiderGame.DealUp | spider.py:88-90 | one card per face-up stack, ten more cards consumed |
| Spider.SpiderGame.FillStock | spider.py:91-93 | the stock is the next 50 cards popped, in order |
| Spider.SpiderGame.Copy | spider.py:341 | the copy has the same position as the original |
| Spider.SpiderGame.CheckInvariant | spider.py:96-113 | the counting loops of _invariant succeed exactly when the game is consistent |
| Spider.SpiderGame.DealFromPile | spider.py:115-125 | deal_from_pile stops on a failed check, returns False with the game unchanged on an empty stock, and otherwise deals one row and still passes the check |
| Spider.SpiderGame.AppendNames | spider.py:135-136 | the loop over a stack appends the names of its cards in order |
| Spider.SpiderGame.GetHash | spider.py:127-146 | get_hash returns the digest of the pre-image |
| Spider.SpiderGame.FindLongest | spider.py:186-201 | the loop of _find_longest computes the identical-tail count |
| Spider.SpiderGame.NextMove | spider.py:203-210 | next_move only advances the cursor |
| Spider.SpiderGame.FindMove | spider.py:241-286 | the legality search of move returns the number of cards a legal move takes, or nothing |
| Spider.SpiderGame.MoveCards | spider.py:212-234 | _move_cards is fatal exactly when it would turn over the placeholder, and otherwise does what the move function describes |
| Spider.SpiderGame.Move | spider.py:236-286 | move(False) reports legality and changes nothing; move(True) makes the move or resets the cursor |
| Driver.Spider4.constructor | spider.py:292-300 | Spider4(game) holds exactly what Start describes |
| Driver.Spider4.HashAdd | spider.py:303-305 | _hash_add updates the table as Seen.HashAdd does and changes nothing else |
| Driver.Spider4.HashFind | spider.py:307-312 | _hash_find is true exactly when the digest is in the table |
| Driver.Spider4.Fork | spider.py:341-343 | a fresh copy of the game, with its cursor advanced, is appended to the queue |
| Driver.Spider4.ForkAndMove | spider.py:341-347 | queue the copy, then make the move on the game itself |
| Driver.Spider4.Conclude | spider.py:348-360 | after a move: count a win at 8 completed piles, end the line on a seen fingerprint, otherwise record it and go on |
| Driver.Spider4.TakeMove | spider.py:339-362 | a legal move: the queue gains the copy, and the win count and table change as Conclude says |
| Driver.Spider4.StepMove | spider.py:338-364 | a move step: an illegal move advances the cursor; a legal one is taken |
| Driver.Spider4.StepDeal | spider.py:365-372 | after the last pair: a failed check stops the program, an empty stock counts a loss, otherwise a row is dealt |
| Driver.Spider4.Step | spider.py:333-376 | one pass of the inner loop leaves the object as LineStep describes |
| Driver.Spider4.Advance | spider.py:332-377 | one pass of the inner loop, seen through Run: running from before equals running from after on one less unit of fuel |
| Driver.Spider4.Park | spider.py:317-327 | when the fuel runs out, the current game goes back on top of the queue, so the next pop resumes it; the object is then as Run on zero fuel leaves it |
| Driver.Spider4.Turn | spider.py:332-377 | one turn of the inner loop: a pass, or a game put back on the queue when the fuel is spent |
| Driver.Spider4.PlayLine | spider.py:332-377 | the inner loop on the popped game ends as Run says: the line ends, the program stops, or the fuel runs out |
| Driver.Spider4.Pop | spider.py:327 | the last queued game is removed and played, as PopLine says |
| Driver.Spider4.Round | spider.py:317-377 | one pass of the outer loop ends as Run says |
| Driver.Spider4.Play | spider.py:314-379 | play leaves the queue, table and counters exactly as Run describes, and reports whether the program stopped on a failed assert |
| Decks.FullDecks | spider.py:26-32 | the cards Deck(decks) holds: 52 per deck, none when decks ≤ 0 (how often each card occurs: FullDecksCount) |
| Decks.OneDeck | spider.py:29-31 | one deck has 52 cards |
| Decks.DeckPosition | spider.py:29-31 | the card with rank v of the i-th suit is the (13i + v)-th card of a deck |
| Decks.OneDeckCount | spider.py:29-31 | one deck holds each rank 1..13 of each suit S, H, C, D exactly once, and nothing else |
| Decks.FullDecksCount | spider.py:26-32 | n decks hold each standard card exactly n times, and nothing else |
| Decks.FewDecksSparse | spider.py:26-32 | up to twelve decks hold no card 13 times, and every card of them has rank 1..13 and a standard suit |
| Decks.Deck.constructor | spider.py:26-32 | Deck(decks) builds `decks` full decks in order, none for decks ≤ 0 |
| Decks.Deck.Deal | spider.py:40-41 | deal removes and returns the last card; on an empty deck it fails |
| Decks.ShuffledDecksNeverWon | spider.py:314-379 | for any shuffle of two decks, play records no win and never fails the check in deal_from_pile |

## Left out

- Printing: the `show` flags, `print_game`, the status lines and the `time` calls
  (spider.py:10-19, 148-184, 223-225, 233-234, 315-316, 319-326, 328-330, 345-346,
  349-351, 357-358, 361-362, 369-370, 373-376). They produce output only. The failed
  assert after the print at 223-225 is modelled.
- `Deck.shuffle` (spider.py:34-38), because it depends on `random`. The shuffle result
  enters `Decks.ShuffledDecksNeverWon` as any list with the cards of two decks.
- MD5 itself. It is the parameter `digest`, assumed to return 32 hex digits.
- `copy.deepcopy`, which is modelled by `SpiderGame.Copy`, a fresh object holding the
  same values.
- The module-level fixture list and script (spider.py:384-412). They are data, not logic.
- Driver.Spider4.Play: does not model an unbounded `while`. Play and `Solver.Run` take
  a fuel count of inner-loop passes. When the fuel runs out, the unfinished game goes
  back on the queue, so a further `Play` resumes it. Termination and completeness of
  the search are not claimed.
- Spider.SpiderGame.constructor: does not model the caller's list shrinking under
  `pop()`. It requires at least 104 cards, because the source raises IndexError
  otherwise.
- Cards.CardName: does not model the branch for a tuple whose length is not 2
  (spider.py:48-49). Cards are always (rank, suit) pairs here.
- Spider.SpiderGame.MoveCards: when it is fatal, it does not describe the state left
  behind. In the source the failed assert ends the program, so that state is never used.
- Decks.Deck.Deal: returns None where `pop()` on an empty list raises IndexError.
- Python's unbounded integers need no wrap-around. Ranks are plain `int`s.
