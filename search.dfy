/** The depth-first search of Spider4.play as a function on values: a stack of
    suspended games, the game currently being played (the line), the table of
    fingerprints already reached, and the won and lost counters. Run bounds the number
    of steps by a fuel argument; the unbounded loop of play is not modelled. */
module Solver {
  import opened Cards
  import opened Tableau
  import opened Moves
  import opened Fingerprint
  import opened Seen

  /** Running, or stopped by a failed assertion: the consistency check in
      deal_from_pile, or the turn of a placeholder card in _move_cards. */
  datatype Status = Running | InvariantFailed | UnknownCard

  datatype Search = Search(
    games: seq<Game>,
    line: Option<Game>,
    seen: seq<seq<string>>,
    won: nat,
    lost: nat,
    status: Status)

  /** The digest function returns hex digests (as MD5's hexdigest does). */
  ghost predicate DigestShaped(digest: string -> string) {
    forall s :: IsHexDigest(digest(s))
  }

  /** Every game has its shape and the table is filed without repeats. */
  predicate Orderly(S: Search) {
    && (forall i :: 0 <= i < |S.games| ==> Shaped(S.games[i]))
    && (S.line.Some? ==> Shaped(S.line.value))
    && Filed(S.seen) && NoRepeats(S.seen)
  }

  /** Spider4(game): the game is the only one queued, its fingerprint is recorded. */
  function Start(g: Game, digest: string -> string): (S: Search)
    requires Shaped(g) && DigestShaped(digest)
    ensures Orderly(S) && S.games == [g] && S.line == None && S.status == Running
    ensures HashFind(S.seen, digest(Preimage(g))) && S.won == 0 && S.lost == 0
  {
    var h := digest(Preimage(g));
    DigestKeyed(h);
    EmptyTableFacts(h);
    AddThenFind(EmptyTable(), h, h);
    Search([g], None, HashAdd(EmptyTable(), h), 0, 0, Running)
  }

  /** One pass of the inner loop of play on the line game g with cursor (src, dst):
      skip src == dst; for src < 10, if the move at the cursor is legal, queue g with
      the cursor advanced, make the move and stop the line on a win (8 completed piles)
      or on a fingerprint already seen, else record it; if it is not legal, advance the
      cursor; for src >= 10 deal a row, counting the game lost when the stock is empty. */
  function LineStep(S: Search, digest: string -> string): (S': Search)
    requires Orderly(S) && S.line.Some? && S.status == Running && DigestShaped(digest)
    ensures Orderly(S')
    ensures |S'.games| == |S.games| || |S'.games| == |S.games| + 1
    ensures S'.games[..|S.games|] == S.games
    ensures S'.won == S.won || S'.won == S.won + 1
    ensures S'.lost == S.lost || S'.lost == S.lost + 1
    ensures S'.status != Running ==> S'.line == None
  {
    var g := S.line.value;
    var c := g.next;
    if c.dst == c.src then
      S.(line := Some(g.(next := NextCursor(c))))
    else if c.src < Columns then
      if MoveLength(g).None? then
        S.(line := Some(g.(next := NextCursor(c))))
      else
        var S1 := S.(games := S.games + [g.(next := NextCursor(c))]);
        if ApplyMove(g).Fatal? then
          S1.(line := None, status := UnknownCard)
        else
          MoveKeepsShape(g);
          var g' := ApplyMove(g).game;
          if |g'.done| == 8 then
            S1.(line := None, won := S.won + 1)
          else
            var h := digest(Preimage(g'));
            DigestKeyed(h);
            if HashFind(S.seen, h) then
              S1.(line := None)
            else
              AddThenFind(S.seen, h, h);
              S1.(line := Some(g'), seen := HashAdd(S.seen, h))
    else if !Consistent(g) then
      S.(line := None, status := InvariantFailed)
    else if g.pile == [] then
      S.(line := None, lost := S.lost + 1)
    else
      DealKeepsInvariant(g);
      S.(line := Some(DealRow(g)))
  }

  /** LineStep case by case, as the inner loop of play reads. */
  lemma LineStepCases(S: Search, digest: string -> string)
    requires Orderly(S) && S.line.Some? && S.status == Running && DigestShaped(digest)
    ensures var g, S' := S.line.value, LineStep(S, digest);
      var c, fork := g.next, g.(next := NextCursor(g.next));
      && (c.dst == c.src ==> S' == S.(line := Some(fork)))
      && (c.dst != c.src && c.src < Columns ==>
            && (MoveLength(g).None? ==> S' == S.(line := Some(fork)))
            && (MoveLength(g).Some? ==>
                  var S1 := S.(games := S.games + [fork]);
                  && (ApplyMove(g).Fatal? ==> S' == S1.(line := None, status := UnknownCard))
                  && (!ApplyMove(g).Fatal? ==>
                        var g' := ApplyMove(g).game;
                        var h := digest(Preimage(g'));
                        && Keyed(h)
                        && (|g'.done| == 8 ==> S' == S1.(line := None, won := S.won + 1))
                        && (|g'.done| != 8 && HashFind(S.seen, h) ==> S' == S1.(line := None))
                        && (|g'.done| != 8 && !HashFind(S.seen, h) ==>
                              S' == S1.(line := Some(g'), seen := HashAdd(S.seen, h))))))
      && (c.src >= Columns ==>
            && (!Consistent(g) ==> S' == S.(line := None, status := InvariantFailed))
            && (Consistent(g) && g.pile == [] ==> S' == S.(line := None, lost := S.lost + 1))
            && (Consistent(g) && g.pile != [] ==> S' == S.(line := Some(DealRow(g)))))
  {
    var g := S.line.value;
    if g.next.dst != g.next.src && g.next.src < Columns && MoveLength(g).Some? && !ApplyMove(g).Fatal? {
      DigestKeyed(digest(Preimage(ApplyMove(g).game)));
    }
  }

  /** The most recently queued game leaves the queue and becomes the running line. */
  function PopLine(S: Search): (P: Search)
    requires S.games != []
    ensures P.line.Some? && P.games + [P.line.value] == S.games
  {
    var n := |S.games| - 1;
    S.(games := S.games[..n], line := Some(S.games[n]))
  }

  /** play's outer loop, bounded by `fuel` passes of its inner loop: with no line
      running, pop the most recently queued game; stop when the queue is empty or an
      assertion has failed. */
  function Run(S: Search, fuel: nat, digest: string -> string): (R: Search)
    requires Orderly(S) && DigestShaped(digest)
    requires S.status != Running ==> S.line == None
    ensures Orderly(R) && R.line == None
    ensures R.won >= S.won && R.lost >= S.lost
    ensures S.status != Running ==> R == S
    decreases fuel, if S.line.Some? then 2 else 3
  {
    if S.status != Running then S
    else match S.line
      case None =>
        if S.games == [] then S
        else Run(PopLine(S), fuel, digest)
      case Some(_) => RunLine(S, fuel, digest)
  }

  /** play's inner loop for the running line: out of fuel, the unfinished line goes
      back on the queue to be resumed later; otherwise one more pass. */
  function RunLine(S: Search, fuel: nat, digest: string -> string): (R: Search)
    requires Orderly(S) && DigestShaped(digest)
    requires S.status == Running && S.line.Some?
    ensures Orderly(R) && R.line == None
    ensures R.won >= S.won && R.lost >= S.lost
    decreases fuel, 1
  {
    if fuel == 0 then S.(games := S.games + [S.line.value], line := None)
    else Continue(S, fuel, digest)
  }

  /** One pass of the inner loop, then the rest of the run on one unit of fuel less. */
  function Continue(S: Search, fuel: nat, digest: string -> string): (R: Search)
    requires Orderly(S) && DigestShaped(digest)
    requires S.status == Running && S.line.Some? && fuel > 0
    ensures Orderly(R) && R.line == None
    ensures R.won >= S.won && R.lost >= S.lost
    decreases fuel, 0
  {
    Run(LineStep(S, digest), fuel - 1, digest)
  }

  /** A game that passes _invariant, has completed no pile and holds the cards M. */
  ghost predicate Healthy(g: Game, M: multiset<Card>) {
    Consistent(g) && g.done == [] && multiset(InPlay(g)) == M
  }

  ghost predicate AllHealthy(S: Search, M: multiset<Card>) {
    && (forall i :: 0 <= i < |S.games| ==> Healthy(S.games[i], M))
    && (S.line.Some? ==> Healthy(S.line.value, M))
  }

  /** When no card is in play 13 times, one step keeps every game healthy, records no
      win and never fails the consistency check of deal_from_pile. */
  lemma LineStepHealthy(S: Search, digest: string -> string, M: multiset<Card>)
    requires Orderly(S) && S.line.Some? && S.status == Running && DigestShaped(digest)
    requires AllHealthy(S, M) && Sparse(M)
    ensures var S' := LineStep(S, digest);
      AllHealthy(S', M) && S'.won == S.won && S'.status != InvariantFailed
  {
    var g := S.line.value;
    var c := g.next;
    var fork := g.(next := NextCursor(c));
    assert Healthy(fork, M) by {
      assert InPlay(fork) == InPlay(g);
    }
    if c.dst != c.src && c.src < Columns && MoveLength(g).Some? {
      var T := LineStep(S, digest);
      if ApplyMove(g).Fatal? {
        FatalStepShape(S, T, digest);
      } else {
        MoveKeepsInvariant(g);
        MovedStepShape(S, T, digest);
      }
      ForkedHealthy(S, T, fork, M);
    } else if c.dst == c.src || c.src < Columns {
      assert LineStep(S, digest) == S.(line := Some(fork));
    } else if Consistent(g) && g.pile != [] {
      DealKeepsInvariant(g);
      assert LineStep(S, digest) == S.(line := Some(DealRow(g)));
    }
  }

  /** Queueing a healthy fork and going on with a healthy game, or with none, keeps
      every game healthy. */
  lemma ForkedHealthy(S: Search, T: Search, fork: Game, M: multiset<Card>)
    requires AllHealthy(S, M) && Healthy(fork, M)
    requires T.games == S.games + [fork]
    requires T.line.Some? ==> Healthy(T.line.value, M)
    ensures AllHealthy(T, M)
  {
    QueueHealthy(S.games, fork, M);
  }

  /** A move that would turn the placeholder over queues the fork and stops the search. */
  lemma FatalStepShape(S: Search, T: Search, digest: string -> string)
    requires Orderly(S) && S.line.Some? && S.status == Running && DigestShaped(digest)
    requires var g := S.line.value;
      g.next.dst != g.next.src && g.next.src < Columns && MoveLength(g).Some? && ApplyMove(g).Fatal?
    requires T == LineStep(S, digest)
    ensures var g := S.line.value;
      T == S.(games := S.games + [g.(next := NextCursor(g.next))], line := None, status := UnknownCard)
  {
  }

  /** After a legal move that does not stop the program and completes no pile, the
      fork is queued, the moved game goes on or the line ends, and no win is counted. */
  lemma MovedStepShape(S: Search, T: Search, digest: string -> string)
    requires Orderly(S) && S.line.Some? && S.status == Running && DigestShaped(digest)
    requires var g := S.line.value;
      && g.next.dst != g.next.src && g.next.src < Columns && MoveLength(g).Some?
      && !ApplyMove(g).Fatal? && ApplyMove(g).game.done == []
    requires T == LineStep(S, digest)
    ensures var g := S.line.value;
      && T.games == S.games + [g.(next := NextCursor(g.next))]
      && T.won == S.won && T.status == Running
      && (T.line == None || T.line == Some(ApplyMove(g).game))
  {
  }

  lemma QueueHealthy(gs: seq<Game>, g: Game, M: multiset<Card>)
    requires forall i :: 0 <= i < |gs| ==> Healthy(gs[i], M)
    requires Healthy(g, M)
    ensures forall i :: 0 <= i < |gs + [g]| ==> Healthy((gs + [g])[i], M)
  {
  }

  /** R, reached from S, has recorded no further win, has not failed the consistency
      check and holds only healthy games. */
  ghost predicate NoWinSince(S: Search, R: Search, M: multiset<Card>) {
    R.won == S.won && R.status != InvariantFailed && AllHealthy(R, M)
  }

  /** When no card is in play 13 times, the search never records a win, never fails
      the consistency check and leaves every queued game healthy, however long it runs. */
  lemma {:induction false} RunNeverWins(S: Search, fuel: nat, digest: string -> string, M: multiset<Card>)
    requires Orderly(S) && DigestShaped(digest)
    requires S.status != Running ==> S.line == None
    requires AllHealthy(S, M) && Sparse(M) && S.status != InvariantFailed
    ensures NoWinSince(S, Run(S, fuel, digest), M)
    decreases fuel, if S.line.Some? then 0 else 1, 1
  {
    if S.status != Running || (S.line.None? && S.games == []) {
      assert Run(S, fuel, digest) == S;
    } else if S.line.None? {
      PopNeverWins(S, PopLine(S), fuel, digest, M);
    } else if fuel > 0 {
      LineStepHealthy(S, digest, M);
      StepNeverWins(S, LineStep(S, digest), fuel, digest, M);
    } else {
      QueueHealthy(S.games, S.line.value, M);
      RunParks(S, digest);
    }
  }

  /** The pop case of RunNeverWins, for P the state with the last queued game as line. */
  lemma {:induction false} PopNeverWins(S: Search, P: Search, fuel: nat, digest: string -> string, M: multiset<Card>)
    requires Orderly(S) && DigestShaped(digest)
    requires S.status == Running && S.line.None? && S.games != []
    requires P == PopLine(S)
    requires AllHealthy(S, M) && Sparse(M)
    ensures NoWinSince(S, Run(S, fuel, digest), M)
    decreases fuel, 1, 0
  {
    assert AllHealthy(P, M) by {
      assert forall i :: 0 <= i < |P.games| ==> P.games[i] == S.games[i];
    }
    RunNeverWins(P, fuel, digest, M);
    RunPops(S, P, fuel, digest, M);
  }

  /** The step case of RunNeverWins, for T the state after one step of the line. */
  lemma {:induction false} StepNeverWins(S: Search, T: Search, fuel: nat, digest: string -> string, M: multiset<Card>)
    requires Orderly(S) && DigestShaped(digest)
    requires S.status == Running && S.line.Some? && fuel > 0
    requires T == LineStep(S, digest)
    requires AllHealthy(T, M) && Sparse(M) && T.won == S.won && T.status != InvariantFailed
    ensures NoWinSince(S, Run(S, fuel, digest), M)
    decreases fuel, 0, 0
  {
    RunNeverWins(T, fuel - 1, digest, M);
    RunSteps(S, T, fuel, digest);
  }

  /** With no line, Run pops the most recently queued game. */
  lemma RunPops(S: Search, P: Search, fuel: nat, digest: string -> string, M: multiset<Card>)
    requires Orderly(S) && DigestShaped(digest)
    requires S.status == Running && S.line.None? && S.games != [] && P == PopLine(S)
    ensures Orderly(P)
    ensures && Run(S, fuel, digest) == Run(P, fuel, digest)
      && (NoWinSince(P, Run(P, fuel, digest), M) ==> NoWinSince(S, Run(S, fuel, digest), M))
  {
  }

  /** With a line and fuel left, Run takes one step of it, to T. */
  lemma RunSteps(S: Search, T: Search, fuel: nat, digest: string -> string)
    requires Orderly(S) && DigestShaped(digest)
    requires S.status == Running && S.line.Some? && fuel > 0
    requires T == LineStep(S, digest)
    ensures Run(S, fuel, digest) == Run(T, fuel - 1, digest)
  {
    assert Run(S, fuel, digest) == RunLine(S, fuel, digest) == Continue(S, fuel, digest);
  }

  /** Out of fuel, Run puts the line back on the queue. */
  lemma RunParks(S: Search, digest: string -> string)
    requires Orderly(S) && DigestShaped(digest)
    requires S.status == Running && S.line.Some?
    ensures Run(S, 0, digest) == S.(games := S.games + [S.line.value], line := None)
  {
  }

  /** With no line and nothing queued, Run has nothing to do. */
  lemma RunIdle(S: Search, fuel: nat, digest: string -> string)
    requires Orderly(S) && DigestShaped(digest)
    requires S.status == Running && S.line == None && S.games == []
    ensures Run(S, fuel, digest) == S
  {
  }

  /** The opening deal of any list of at least 104 cards in which no card occurs 13 times
      among those dealt is never won by the search: the completion check cannot find 13
      identical cards, so no pile is ever completed. */
  lemma SparseDealNeverWon(cards: seq<Card>, fuel: nat, digest: string -> string)
    requires |cards| >= 104 && DigestShaped(digest)
    requires Sparse(multiset(InPlay(InitialDeal(cards))))
    ensures var R := Run(Start(InitialDeal(cards), digest), fuel, digest);
      R.won == 0 && R.status != InvariantFailed
  {
    var g := InitialDeal(cards);
    InitialDealFacts(cards);
    RunNeverWins(Start(g, digest), fuel, digest, multiset(InPlay(g)));
  }

  /** The table only grows, and a line goes on after a move only from a position whose
      fingerprint was not in the table and now is. */
  lemma LineStepTable(S: Search, digest: string -> string, x: string)
    requires Orderly(S) && S.line.Some? && S.status == Running && DigestShaped(digest)
    requires Keyed(x)
    ensures var S' := LineStep(S, digest);
      && (HashFind(S.seen, x) ==> HashFind(S'.seen, x))
      && (S'.seen != S.seen ==>
            && S'.line.Some? && S'.line.value.moves == S.line.value.moves + [Shift(S.line.value.next.src, S.line.value.next.dst)]
            && var h := digest(Preimage(S'.line.value));
               !HashFind(S.seen, h) && HashFind(S'.seen, h) && S'.seen == HashAdd(S.seen, h))
  {
    var g := S.line.value;
    var c := g.next;
    if c.dst != c.src && c.src < Columns && MoveLength(g).Some? && !ApplyMove(g).Fatal? {
      var g' := ApplyMove(g).game;
      var h := digest(Preimage(g'));
      DigestKeyed(h);
      AddThenFind(S.seen, h, x);
      AddThenFind(S.seen, h, h);
      MoveShape(g, MoveLength(g).value);
    }
  }
}
