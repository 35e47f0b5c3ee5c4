/** Spider4: the exhaustive search over the games reachable from one deal, as an object
    holding the stack of suspended games, the table of fingerprints reached, and the
    won and lost counters. Play is proved to do what Solver.Run describes. */
module Driver {
  import opened Cards
  import opened Tableau
  import opened Moves
  import opened Fingerprint
  import opened Seen
  import opened Solver
  import opened Spider

  class Spider4 {
    var games: seq<SpiderGame>
    var hashes: seq<seq<string>>
    var won: nat
    var lost: nat
    /** The hex digest get_hash applies to its pre-image (MD5 in the source). */
    const digest: string -> string

    /** The states of the queued games, oldest first. */
    ghost function States(): seq<Game>
      reads this, games
    {
      seq(|games|, i requires 0 <= i < |games| reads this, games => games[i].State())
    }

    /** The search as a value, with `line` the game being played, if any. */
    ghost function Abstract(line: Option<Game>): Search
      reads this, games
    {
      Search(States(), line, hashes, won, lost, Running)
    }

    /** Queued games are distinct objects, each with its shape; the table is filed
        without repeats; the digest returns hex digests. */
    ghost predicate Valid()
      reads this, games
    {
      && (forall i :: 0 <= i < |games| ==> games[i].Valid())
      && (forall i, j :: 0 <= i < j < |games| ==> games[i] != games[j])
      && Filed(hashes) && NoRepeats(hashes)
      && DigestShaped(digest)
    }

    /** The games of a valid search have their shape. */
    lemma ValidOrderly(line: Option<Game>)
      requires Valid() && (line.Some? ==> Shaped(line.value))
      ensures Orderly(Abstract(line))
    {
    }

    /** Spider4(game): queue the game, and record its fingerprint in a table of 256
        empty buckets. */
    constructor (game: SpiderGame, digest: string -> string)
      requires game.Valid() && DigestShaped(digest)
      ensures Valid() && games == [game]
      ensures Abstract(None) == Start(game.State(), digest)
    {
      this.digest := digest;
      games := [game];
      var t: seq<seq<string>> := [];
      while |t| < Buckets
        invariant |t| <= Buckets && forall i :: 0 <= i < |t| ==> t[i] == []
      {
        t := t + [[]];
      }
      hashes := t;
      won, lost := 0, 0;
      new;
      var h := game.GetHash(digest);
      DigestKeyed(h);
      EmptyTableFacts(h);
      assert hashes == EmptyTable();
      AddThenFind(hashes, h, h);
      HashAdd(h);
    }

    /** _hash_add: append h to the bucket its first two hex digits select. */
    method HashAdd(h: string)
      requires |hashes| == Buckets && Keyed(h)
      modifies this
      ensures hashes == Seen.HashAdd(old(hashes), h)
      ensures games == old(games) && won == old(won) && lost == old(lost)
    {
      var i := Bucket(h);
      hashes := hashes[i := hashes[i] + [h]];
    }

    /** _hash_find: whether h was recorded, looking only in its bucket. */
    method HashFind(h: string) returns (found: bool)
      requires Filed(hashes) && Keyed(h)
      ensures found == Seen.HashFind(hashes, h)
      ensures found <==> Contains(hashes, h)
    {
      var i := Bucket(h);
      found := h in hashes[i];
      FindMeansContains(hashes, h);
    }

    /** One pass of the inner loop of play on `game`: exactly one step of LineStep.
        `continues` says whether the line goes on with `game`. */
    method Step(game: SpiderGame) returns (continues: bool, status: Status)
      requires Valid() && game.Valid() && game !in games
      modifies this, game
      ensures Valid() && game !in games && (continues ==> game.Valid())
      ensures forall i :: 0 <= i < |games| ==> games[i] in old(games) || fresh(games[i])
      ensures old(Orderly(Abstract(Some(game.State()))))
      ensures var S := LineStep(old(Abstract(Some(game.State()))), digest);
        && Abstract(if continues then Some(game.State()) else None) == S.(status := Running)
        && status == S.status
    {
      ValidOrderly(Some(game.State()));
      LineStepCases(Abstract(Some(game.State())), digest);
      var src, dst := game.next.src, game.next.dst;
      if dst == src {
        game.NextMove();
        return true, Running;
      }
      if src < Columns {
        continues, status := StepMove(game);
      } else {
        continues, status := StepDeal(game);
      }
    }

    /** The inner loop of play at a cursor (src, dst) with src < 10 and src != dst:
        try the move; if it is legal, queue a copy of the game with the cursor advanced,
        make the move, and end the line on a win or a fingerprint already recorded
        (recording it otherwise); if it is not legal, advance the cursor. */
    method StepMove(game: SpiderGame) returns (continues: bool, status: Status)
      requires Valid() && game.Valid() && game !in games
      requires game.next.src < Columns && game.next.src != game.next.dst
      modifies this, game
      ensures Valid() && game !in games && (continues ==> game.Valid())
      ensures forall i :: 0 <= i < |games| ==> games[i] in old(games) || fresh(games[i])
      ensures var g := old(game.State());
        var fork := g.(next := Tableau.NextCursor(g.next));
        var S := old(Abstract(Some(g)));
        && (MoveLength(g).None? ==>
              continues && status == Running && game.State() == fork && Abstract(None) == S.(line := None))
        && (MoveLength(g).Some? ==>
              var S1 := S.(games := S.games + [fork], line := None);
              && (ApplyMove(g).Fatal? ==> !continues && status == UnknownCard && Abstract(None) == S1)
              && (!ApplyMove(g).Fatal? ==>
                    var g' := ApplyMove(g).game;
                    var h := digest(Preimage(g'));
                    && status == Running
                    && (|g'.done| == 8 ==> !continues && Abstract(None) == S1.(won := S.won + 1))
                    && (|g'.done| != 8 && Keyed(h) && Seen.HashFind(S.seen, h) ==>
                          !continues && Abstract(None) == S1)
                    && (|g'.done| != 8 && Keyed(h) && !Seen.HashFind(S.seen, h) ==>
                          continues && game.State() == g' && Abstract(None) == S1.(seen := Seen.HashAdd(S.seen, h)))))
    {
      var legal, _ := game.Move(false);
      if !legal {
        game.NextMove();
        return true, Running;
      }
      continues, status := TakeMove(game);
    }

    /** A legal move at the cursor: queue a copy of the game with the cursor advanced,
        make the move, and end the line on a win or a fingerprint already recorded,
        recording it otherwise. */
    method TakeMove(game: SpiderGame) returns (continues: bool, status: Status)
      requires Valid() && game.Valid() && game !in games
      requires game.next.src < Columns && MoveLength(game.State()).Some?
      modifies this, game
      ensures Valid() && game !in games && (continues ==> game.Valid())
      ensures forall i :: 0 <= i < |games| ==> games[i] in old(games) || fresh(games[i])
      ensures var g := old(game.State());
        && States() == old(States()) + [g.(next := Tableau.NextCursor(g.next))] && lost == old(lost)
        && (ApplyMove(g).Fatal? ==>
              !continues && status == UnknownCard && won == old(won) && hashes == old(hashes))
        && (!ApplyMove(g).Fatal? ==>
              var g' := ApplyMove(g).game;
              var h := digest(Preimage(g'));
              && status == Running
              && (|g'.done| == 8 ==> !continues && won == old(won) + 1 && hashes == old(hashes))
              && (|g'.done| != 8 && Keyed(h) && Seen.HashFind(old(hashes), h) ==>
                    !continues && won == old(won) && hashes == old(hashes))
              && (|g'.done| != 8 && Keyed(h) && !Seen.HashFind(old(hashes), h) ==>
                    continues && game.State() == g' && won == old(won) && hashes == Seen.HashAdd(old(hashes), h)))
    {
      var fatal := ForkAndMove(game);
      if fatal {
        return false, UnknownCard;
      }
      continues := Conclude(game);
      status := Running;
    }

    /** Queue a copy of the game with the cursor advanced, then make the move on the
        game itself; `fatal` when the move's own assertion fails. */
    method ForkAndMove(game: SpiderGame) returns (fatal: bool)
      requires Valid() && game.Valid() && game !in games
      requires game.next.src < Columns
      modifies this, game
      ensures Valid() && game !in games
      ensures forall i :: 0 <= i < |games| ==> games[i] in old(games) || fresh(games[i])
      ensures var g := old(game.State());
        && States() == old(States()) + [g.(next := Tableau.NextCursor(g.next))]
        && hashes == old(hashes) && won == old(won) && lost == old(lost)
        && (fatal <==> ApplyMove(g).Fatal?)
        && (!fatal ==> game.Valid() && game.State() == ApplyMove(g).game)
    {
      Fork(game);
      ghost var queued := States();
      var _, f := game.Move(true);
      assert States() == queued by {
        assert forall i :: 0 <= i < |games| ==> games[i] != game;
      }
      fatal := f;
    }

    /** After a move: count a win and end the line when all 8 piles are complete; end
        the line on a fingerprint already recorded; otherwise record it and go on. */
    method Conclude(game: SpiderGame) returns (continues: bool)
      requires Valid() && game.Valid() && game !in games
      modifies this
      ensures Valid() && games == old(games) && lost == old(lost)
      ensures var h := digest(Preimage(game.State()));
        && Keyed(h)
        && (|game.done| == 8 ==> !continues && won == old(won) + 1 && hashes == old(hashes))
        && (|game.done| != 8 && Seen.HashFind(old(hashes), h) ==>
              !continues && won == old(won) && hashes == old(hashes))
        && (|game.done| != 8 && !Seen.HashFind(old(hashes), h) ==>
              continues && won == old(won) && hashes == Seen.HashAdd(old(hashes), h))
    {
      DigestKeyed(digest(Preimage(game.State())));
      if |game.done| == 8 {
        won := won + 1;
        return false;
      }
      var h := game.GetHash(digest);
      var seen := HashFind(h);
      if seen {
        return false;
      }
      AddThenFind(hashes, h, h);
      HashAdd(h);
      return true;
    }

    /** copy.deepcopy of the game, its cursor advanced, pushed on the queue. */
    method Fork(game: SpiderGame)
      requires Valid() && game.Valid() && game !in games
      modifies this
      ensures Valid() && game !in games
      ensures |games| == |old(games)| + 1 && games[..|old(games)|] == old(games)
      ensures fresh(games[|old(games)|])
      ensures States() == old(States()) + [game.State().(next := Tableau.NextCursor(game.next))]
      ensures hashes == old(hashes) && won == old(won) && lost == old(lost)
    {
      var game2 := new SpiderGame.Copy(game);
      game2.NextMove();
      games := games + [game2];
    }

    /** The inner loop of play once the cursor has passed the last source column: deal a
        row from the stock, counting the game lost when the stock is empty. */
    method StepDeal(game: SpiderGame) returns (continues: bool, status: Status)
      requires Valid() && game.Valid() && game !in games && game.next.src >= Columns
      modifies this, game
      ensures Valid() && game !in games && (continues ==> game.Valid())
      ensures games == old(games) && hashes == old(hashes) && won == old(won)
      ensures var g := old(game.State());
        && (!Consistent(g) ==> !continues && status == InvariantFailed && lost == old(lost))
        && (Consistent(g) && g.pile == [] ==> !continues && status == Running && lost == old(lost) + 1)
        && (Consistent(g) && g.pile != [] ==>
              continues && status == Running && lost == old(lost) && game.State() == DealRow(g))
    {
      var r := game.DealFromPile();
      if r == Broken {
        return false, InvariantFailed;
      }
      if r == Exhausted {
        lost := lost + 1;
        return false, Running;
      }
      return true, Running;
    }

    /** One pass of play's inner loop, seen from Run: with `fuel` left, running the
        search from `cur` comes to the same as running it from the state this step
        leaves, `next`, on one unit less. */
    method Advance(game: SpiderGame, ghost cur: Search, fuel: nat) returns (continues: bool, status: Status, ghost next: Search)
      requires Valid() && game.Valid() && game !in games
      requires cur == Abstract(Some(game.State())) && fuel > 0
      modifies this, game
      ensures Valid() && game !in games && (continues ==> game.Valid())
      ensures forall i :: 0 <= i < |games| ==> games[i] in old(games) || fresh(games[i])
      ensures Orderly(cur) && Orderly(next) && status == next.status
      ensures status != Running ==> !continues && next.line == None
      ensures Run(cur, fuel, digest) == Run(next, fuel - 1, digest)
      ensures status != Running ==> Run(next, fuel - 1, digest) == next
      ensures status != Running ==> Abstract(None) == next.(status := Running)
      ensures status == Running ==> Abstract(if continues then Some(game.State()) else None) == next
    {
      ValidOrderly(Some(game.State()));
      next := LineStep(cur, digest);
      RunSteps(cur, next, fuel, digest);
      continues, status := Step(game);
      if status == Running {
        assert next.(status := Running) == next;
      }
    }

    /** Out of fuel: the game goes back on the queue, which is where Run leaves it. */
    method Park(game: SpiderGame, ghost cur: Search)
      requires Valid() && game.Valid() && game !in games
      requires cur == Abstract(Some(game.State()))
      modifies this
      ensures Valid() && Orderly(Abstract(None)) && games == old(games) + [game]
      ensures Orderly(cur) && Run(cur, 0, digest).status == Running
      ensures Abstract(None) == Run(cur, 0, digest).(status := Running)
    {
      ValidOrderly(Some(game.State()));
      RunParks(cur, digest);
      games := games + [game];
      ValidOrderly(None);
      assert States() == cur.games + [game.State()];
    }

    /** One turn of the inner loop of play with `fuel` left: park the game when the
        fuel is out, otherwise take one step. `over` says the line has ended (`stop`
        when the search stops with it); otherwise `next` is the state to go on from. */
    method Turn(game: SpiderGame, ghost cur: Search, fuel: nat)
      returns (over: bool, stop: bool, status: Status, rest: nat, ghost next: Search)
      requires Valid() && game.Valid() && game !in games
      requires cur == Abstract(Some(game.State()))
      modifies this, game
      ensures Valid() && Orderly(cur)
      ensures forall i :: 0 <= i < |games| ==> games[i] in old(games) || games[i] == game || fresh(games[i])
      ensures !over ==> game.Valid() && game !in games && !stop && rest < fuel
      ensures !over ==> (forall i :: 0 <= i < |games| ==> games[i] in old(games) || fresh(games[i]))
      ensures !over ==> next == Abstract(Some(game.State())) && Orderly(next) && next.status == Running
      ensures !over ==> Run(cur, fuel, digest) == Run(next, rest, digest)
      ensures over ==> Orderly(Abstract(None))
      ensures over && stop ==>
        Abstract(None) == Run(cur, fuel, digest).(status := Running) && status == Run(cur, fuel, digest).status
      ensures over && !stop ==>
        status == Running && rest < fuel && Run(Abstract(None), rest, digest) == Run(cur, fuel, digest)
    {
      ValidOrderly(Some(game.State()));
      if fuel == 0 {
        Park(game, cur);
        return true, true, Running, 0, cur;
      }
      var continues, st;
      continues, st, next := Advance(game, cur, fuel);
      rest := fuel - 1;
      ValidOrderly(None);
      if st != Running {
        return true, true, st, rest, next;
      }
      if !continues {
        return true, false, Running, rest, next;
      }
      ValidOrderly(Some(game.State()));
      return false, false, Running, rest, next;
    }

    /** The inner loop of play for the popped game: step it until its line ends
        (`stop` false, `rest` fuel left), an assertion fails, or the fuel runs out and
        the game goes back on the queue (`stop` true in both cases). */
    method PlayLine(game: SpiderGame, fuel: nat) returns (rest: nat, stop: bool, status: Status)
      requires Valid() && game.Valid() && game !in games
      modifies this, game
      ensures Valid() && Orderly(Abstract(None))
      ensures forall i :: 0 <= i < |games| ==> games[i] in old(games) || games[i] == game || fresh(games[i])
      ensures old(Orderly(Abstract(Some(game.State()))))
      ensures var R := Run(old(Abstract(Some(game.State()))), fuel, digest);
        && (stop ==> Abstract(None) == R.(status := Running) && status == R.status)
        && (!stop ==> status == Running && rest < fuel && Run(Abstract(None), rest, digest) == R)
    {
      ValidOrderly(Some(game.State()));
      ghost var target := Run(Abstract(Some(game.State())), fuel, digest);
      ghost var cur := Abstract(Some(game.State()));
      rest := fuel;
      while true
        invariant Valid() && game.Valid() && game !in games
        invariant forall i :: 0 <= i < |games| ==> games[i] in old(games) || fresh(games[i])
        invariant cur == Abstract(Some(game.State()))
        invariant Orderly(cur) && Run(cur, rest, digest) == target
        invariant rest <= fuel
        decreases rest
      {
        var over, halt, st, left, next := Turn(game, cur, rest);
        if over {
          return left, halt, st;
        }
        cur, rest := next, left;
      }
    }

    /** The pop at the head of play's outer loop: the most recently queued game
        leaves the queue and becomes the running line. */
    method Pop() returns (game: SpiderGame)
      requires Valid() && |games| > 0
      modifies this
      ensures Valid() && game.Valid() && game !in games
      ensures game == old(games[|games| - 1]) && games == old(games[..|games| - 1])
      ensures Abstract(Some(game.State())) == PopLine(old(Abstract(None)))
    {
      ghost var idle := Abstract(None);
      game := games[|games| - 1];
      ghost var before := States();
      games := games[..|games| - 1];
      assert States() == before[..|games|];
      assert Abstract(Some(game.State())) == PopLine(idle);
    }

    /** One pass of play's outer loop: pop the most recently queued game and play its
        line; `stop` when the search stops with it, otherwise `rest` fuel is left. */
    method Round(fuel: nat) returns (stop: bool, status: Status, rest: nat)
      requires Valid() && |games| > 0
      modifies this, games
      ensures Valid() && Orderly(Abstract(None))
      ensures forall i :: 0 <= i < |games| ==> games[i] in old(games) || fresh(games[i])
      ensures old(Orderly(Abstract(None)))
      ensures var R := Run(old(Abstract(None)), fuel, digest);
        && (stop ==> Abstract(None) == R.(status := Running) && status == R.status)
        && (!stop ==> rest < fuel && Run(Abstract(None), rest, digest) == R)
    {
      ValidOrderly(None);
      ghost var idle := Abstract(None);
      ghost var popped := PopLine(idle);
      RunPops(idle, popped, fuel, digest, multiset{});
      var game := Pop();
      assert Abstract(Some(game.State())) == popped;
      rest, stop, status := PlayLine(game, fuel);
    }

    /** play, bounded by `fuel` passes of its inner loop: pop the most recently queued
        game and play it until its line ends, while games are queued; out of fuel, the
        unfinished game goes back on the queue. The result is what Run describes, and
        `status` says whether an assertion of the program failed. */
    method Play(fuel: nat) returns (status: Status)
      requires Valid()
      modifies this, games
      ensures Valid()
      ensures old(Orderly(Abstract(None)))
      ensures var R := Run(old(Abstract(None)), fuel, digest);
        Abstract(None) == R.(status := Running) && status == R.status
    {
      ValidOrderly(None);
      ghost var target := Run(Abstract(None), fuel, digest);
      var f := fuel;
      while |games| > 0
        invariant Valid() && Orderly(Abstract(None))
        invariant forall i :: 0 <= i < |games| ==> games[i] in old(games) || fresh(games[i])
        invariant Run(Abstract(None), f, digest) == target
        decreases f
      {
        var stop, st, rest := Round(f);
        if stop {
          return st;
        }
        f := rest;
      }
      RunIdle(Abstract(None), f, digest);
      status := Running;
    }
  }
}
