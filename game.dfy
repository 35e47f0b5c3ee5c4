/** One game of Spider solitaire as an object whose stacks the methods change in
    place. Each method is proved against the function on the Game value (module
    Tableau and module Moves) that specifies it. */
module Spider {
  import opened Cards
  import opened Tableau
  import opened Moves
  import opened Fingerprint

  /** What deal_from_pile did: its consistency check failed (the program stops), the
      stock was empty, or a row was dealt. */
  datatype DealOutcome = Broken | Exhausted | Dealt

  /** One more card name extends the names of a prefix. */
  lemma NamesPrefix(text: string, cs: seq<Card>, j: nat)
    requires j < |cs|
    ensures text + Names(cs[..j]) + CardName(cs[j]) == text + Names(cs[..j + 1])
  {
    assert cs[..j + 1] == cs[..j] + [cs[j]];
    NamesSnoc(cs[..j], cs[j]);
  }

  /** One more stack extends the pre-image of a prefix. */
  lemma JoinedPrefix(front: seq<seq<Card>>, cols: seq<seq<Card>>, i: nat)
    requires i < |cols|
    ensures Joined(front + cols[..i]) + "*" + Names(cols[i]) == Joined(front + cols[..i + 1])
  {
    assert front + cols[..i + 1] == (front + cols[..i]) + [cols[i]];
    JoinedSnoc(front + cols[..i], cols[i]);
  }

  class SpiderGame {
    var down: seq<seq<Card>>
    var up: seq<seq<Card>>
    var pile: seq<Card>
    var done: seq<seq<Card>>
    var moves: seq<MoveRecord>
    var next: Cursor

    /** The game as a value. */
    function State(): Game
      reads this
    {
      Game(down, up, pile, done, moves, next)
    }

    ghost predicate Valid()
      reads this
    {
      Shaped(State())
    }

    /** Deals from the end of `cards`: four rounds to the front of the ten face-down
        stacks, one more to the first four, one face-up card per column and fifty cards
        to the stock; then runs the consistency check, which passes. */
    constructor (cards: seq<Card>)
      requires |cards| >= 104
      ensures State() == InitialDeal(cards)
      ensures Valid() && Consistent(State())
    {
      var d, rest := DealDown(cards);
      var u, rest' := DealUp(cards, rest);
      var p := FillStock(cards, rest');
      down, up, pile, done, moves, next := d, u, p, [], [], Cursor(0, 0);
      new;
      assert State() == InitialDeal(cards) by {
        var g := InitialDeal(cards);
        assert forall c :: 0 <= c < Columns ==> d[c] == g.down[c];
        assert forall c :: 0 <= c < Columns ==> u[c] == g.up[c];
        assert forall k :: 0 <= k < 50 ==> p[k] == g.pile[k];
      }
      InitialDealFacts(cards);
      var ok := CheckInvariant();
      assert ok;
    }

    /** The face-down part of the opening deal: four rounds of one card popped to the
        front of each of the ten stacks, then one more to the front of the first four. */
    static method DealDown(cards: seq<Card>) returns (d: seq<seq<Card>>, rest: seq<Card>)
      requires |cards| >= 104
      ensures |d| == Columns && rest == cards[..|cards| - 44]
      ensures forall c :: 0 <= c < Columns ==>
        d[c] == (if c < 4 then [Popped(cards, 40 + c)] else []) + Rounds(cards, 4, c)
    {
      rest := cards;
      d := seq(Columns, _ => []);
      var i := 0;
      while i < 4
        invariant 0 <= i <= 4 && |d| == Columns
        invariant rest == cards[..|cards| - Columns * i]
        invariant forall c :: 0 <= c < Columns ==> d[c] == Rounds(cards, i, c)
      {
        var j := 0;
        while j < Columns
          invariant 0 <= j <= Columns && |d| == Columns
          invariant rest == cards[..|cards| - Columns * i - j]
          invariant forall c :: 0 <= c < Columns ==>
            d[c] == Rounds(cards, if c < j then i + 1 else i, c)
        {
          RoundsGrow(cards, i, j);
          d := d[j := [rest[|rest| - 1]] + d[j]];
          rest := rest[..|rest| - 1];
          j := j + 1;
        }
        i := i + 1;
      }
      i := 0;
      while i < 4
        invariant 0 <= i <= 4 && |d| == Columns
        invariant rest == cards[..|cards| - 40 - i]
        invariant forall c :: 0 <= c < Columns ==>
          d[c] == (if c < i then [Popped(cards, 40 + c)] else []) + Rounds(cards, 4, c)
      {
        d := d[i := [rest[|rest| - 1]] + d[i]];
        rest := rest[..|rest| - 1];
        i := i + 1;
      }
    }

    /** One card popped onto each of the ten face-up stacks. */
    static method DealUp(cards: seq<Card>, rest: seq<Card>) returns (u: seq<seq<Card>>, rest': seq<Card>)
      requires |cards| >= 104 && rest == cards[..|cards| - 44]
      ensures |u| == Columns && rest' == cards[..|cards| - 54]
      ensures forall c :: 0 <= c < Columns ==> u[c] == [Popped(cards, 44 + c)]
    {
      rest' := rest;
      u := seq(Columns, _ => []);
      var i := 0;
      while i < Columns
        invariant 0 <= i <= Columns && |u| == Columns
        invariant rest' == cards[..|cards| - 44 - i]
        invariant forall c :: 0 <= c < Columns ==>
          u[c] == if c < i then [Popped(cards, 44 + c)] else []
      {
        u := u[i := u[i] + [rest'[|rest'| - 1]]];
        rest' := rest'[..|rest'| - 1];
        i := i + 1;
      }
    }

    /** The remaining fifty cards popped onto the stock in turn. */
    static method FillStock(cards: seq<Card>, rest: seq<Card>) returns (p: seq<Card>)
      requires |cards| >= 104 && rest == cards[..|cards| - 54]
      ensures |p| == 50 && forall k :: 0 <= k < 50 ==> p[k] == Popped(cards, 54 + k)
    {
      var r := rest;
      p := [];
      var i := 0;
      while i < 50
        invariant 0 <= i <= 50 && |p| == i
        invariant r == cards[..|cards| - 54 - i]
        invariant forall k :: 0 <= k < i ==> p[k] == Popped(cards, 54 + k)
      {
        p := p + [r[|r| - 1]];
        r := r[..|r| - 1];
        i := i + 1;
      }
    }

    /** copy.deepcopy of a game: an independent object in the same state. */
    constructor Copy(other: SpiderGame)
      ensures State() == other.State()
    {
      down, up, pile, done := other.down, other.up, other.pile, other.done;
      moves, next := other.moves, other.next;
    }

    /** _invariant: true exactly when every assertion of the consistency check holds. */
    method CheckInvariant() returns (ok: bool)
      ensures ok == Consistent(State())
    {
      var count := 0;
      ok := |done| <= 8;
      var i := 0;
      while i < |done|
        invariant 0 <= i <= |done| && count == 13 * i
        invariant ok == (|done| <= 8 && forall k :: 0 <= k < i ==> |done[k]| == 13)
      {
        ok := ok && |done[i]| == 13;
        count := count + 13;
        i := i + 1;
      }
      ok := ok && |down| == Columns;
      i := 0;
      while i < |down|
        invariant 0 <= i <= |down| && count == 13 * |done| + Sum(down[..i])
        invariant ok == (&& |done| <= 8 && (forall k :: 0 <= k < |done| ==> |done[k]| == 13)
                         && |down| == Columns && forall k :: 0 <= k < i ==> |down[k]| <= 5)
      {
        ok := ok && |down[i]| <= 5;
        assert down[..i + 1] == down[..i] + [down[i]];
        SumSnoc(down[..i], down[i]);
        count := count + |down[i]|;
        i := i + 1;
      }
      assert down[..|down|] == down;
      ok := ok && |up| == Columns;
      i := 0;
      while i < |up|
        invariant 0 <= i <= |up| && count == 13 * |done| + Sum(down) + Sum(up[..i])
      {
        assert up[..i + 1] == up[..i] + [up[i]];
        SumSnoc(up[..i], up[i]);
        count := count + |up[i]|;
        i := i + 1;
      }
      assert up[..|up|] == up;
      ok := ok && |pile| <= 50 && |pile| % 10 == 0;
      count := count + |pile|;
      ok := ok && count == 104;
    }

    /** deal_from_pile: check consistency, then give each face-up stack the next card
        from the front of the stock, restart the scan and log the deal; the check that
        follows always passes. */
    method DealFromPile() returns (r: DealOutcome)
      requires Valid()
      modifies this
      ensures Valid()
      ensures r == Broken <==> !Consistent(old(State()))
      ensures r == Exhausted <==> Consistent(old(State())) && old(pile) == []
      ensures r != Dealt ==> State() == old(State())
      ensures r == Dealt ==> State() == DealRow(old(State())) && Consistent(State())
    {
      var ok := CheckInvariant();
      if !ok {
        return Broken;
      }
      if |pile| == 0 {
        return Exhausted;
      }
      DealKeepsInvariant(State());
      var i := 0;
      while i < |up|
        invariant 0 <= i <= |up| == Columns
        invariant pile == old(pile)[i..]
        invariant forall j :: 0 <= j < Columns ==>
          up[j] == if j < i then old(up[j]) + [old(pile)[j]] else old(up[j])
        invariant down == old(down) && done == old(done)
        invariant moves == old(moves) && next == old(next)
      {
        up := up[i := up[i] + [pile[0]]];
        pile := pile[1..];
        i := i + 1;
      }
      next := Cursor(0, 0);
      moves := moves + [Deal];
      assert State() == DealRow(old(State()));
      ok := CheckInvariant();
      assert ok;
      r := Dealt;
    }

    /** Appends the names of `cs` to a digest's input, as get_hash does stack by stack. */
    static method AppendNames(text: string, cs: seq<Card>) returns (t: string)
      ensures t == text + Names(cs)
    {
      t := text;
      var j := 0;
      while j < |cs|
        invariant 0 <= j <= |cs| && t == text + Names(cs[..j])
      {
        NamesPrefix(text, cs, j);
        t := t + CardName(cs[j]);
        j := j + 1;
      }
      assert cs[..|cs|] == cs;
    }

    /** get_hash: the digest of the pre-image built from the face-down stacks, the
        face-up stacks and the stock, each introduced by '*'. */
    method GetHash(digest: string -> string) returns (h: string)
      ensures h == digest(Preimage(State()))
    {
      var text := "";
      var i := 0;
      while i < |down|
        invariant 0 <= i <= |down| && text == Joined([] + down[..i])
      {
        JoinedPrefix([], down, i);
        text := AppendNames(text + "*", down[i]);
        i := i + 1;
      }
      assert [] + down[..|down|] == down + up[..0];
      i := 0;
      while i < |up|
        invariant 0 <= i <= |up| && text == Joined(down + up[..i])
      {
        JoinedPrefix(down, up, i);
        text := AppendNames(text + "*", up[i]);
        i := i + 1;
      }
      assert down + up[..|up|] == down + up;
      JoinedSnoc(down + up, pile);
      text := AppendNames(text + "*", pile);
      h := digest(text);
    }

    /** _find_longest: the number of cards at the top of `stack` identical to its top
        card (the whole stack when it has fewer than two cards). */
    static method FindLongest(stack: seq<Card>) returns (n: nat)
      ensures n == IdenticalTail(stack)
    {
      var L := |stack|;
      if L < 2 {
        return L;
      }
      var num := 2;
      while true
        invariant 2 <= num <= L
        invariant forall k :: 1 <= k < num ==> FromTop(stack, k) == FromTop(stack, 1)
        decreases L - num
      {
        var deeper, above := stack[L - num], stack[L - (num - 1)];
        assert deeper == FromTop(stack, num) && above == FromTop(stack, num - 1);
        if deeper.rank != above.rank || deeper.suit != above.suit {
          return num - 1;
        }
        if num == L {
          return num;
        }
        num := num + 1;
      }
    }

    /** next_move: advance the cursor, leaving everything else as it was. */
    method NextMove()
      requires Valid()
      modifies this
      ensures Valid()
      ensures State() == old(State()).(next := NextCursor(old(next)))
    {
      var src, dst := next.src, next.dst;
      dst := dst + 1;
      if dst >= Columns {
        src := src + 1;
        dst := 0;
      }
      next := Cursor(src, dst);
    }

    /** The search of move(): how many cards the move at the cursor takes, if it is legal. */
    method FindMove() returns (r: Option<nat>)
      requires Valid() && next.src < Columns
      ensures r == MoveLength(State())
    {
      var src, dst := next.src, next.dst;
      var us, ud := up[src], up[dst];
      if |us| == 0 {
        assert down[src] == [];
        return None;
      }
      if |ud| == 0 {
        assert down[dst] == [];
        var n := FindLongest(us);
        assert 1 <= n <= |us|;
        return Some(n);
      }
      var k := 1;
      while true
        invariant 1 <= k <= |us|
        invariant FirstAttach(us, Top(ud).rank, k) == MoveLength(State())
        decreases |us| - k
      {
        if us[|us| - k].rank == ud[|ud| - 1].rank - 1 {
          return Some(k);
        }
        k := k + 1;
        if k > |us| {
          return None;
        }
        var card1, card2 := us[|us| - k], us[|us| - k + 1];
        if card1.rank != card2.rank + 1 || card1.suit != card2.suit {
          return None;
        }
      }
    }

    /** _move_cards: move the top n cards of up[src] onto up[dst], log the move and
        restart the scan; turn over the first face-down card of an emptied column,
        stopping (fatal) if it is the placeholder; then run the completion check on
        up[dst]. */
    method MoveCards(src: nat, dst: nat, n: nat) returns (fatal: bool)
      requires Valid() && src < Columns && dst < Columns && 1 <= n <= |up[src]|
      modifies this
      ensures fatal <==> RevealsPlaceholder(Transfer(old(State()), src, dst, n), src)
      ensures !fatal ==> State() == Moves.MoveCards(old(State()), src, dst, n)
    {
      up := up[dst := up[dst] + up[src][|up[src]| - n..]];
      up := up[src := up[src][..|up[src]| - n]];
      moves := moves + [Shift(src, dst)];
      next := Cursor(0, 0);
      ghost var t := Transfer(old(State()), src, dst, n);
      assert State() == t;
      if |up[src]| == 0 {
        if |down[src]| > 0 {
          if down[src][0].rank == 0 {
            return true;
          }
          assert up[src] + [down[src][0]] == [down[src][0]];
          up := up[src := up[src] + [down[src][0]]];
          down := down[src := down[src][1..]];
        }
      }
      assert State() == Reveal(t, src);
      var longest := FindLongest(up[dst]);
      if longest == 13 {
        done := done + [PySlice(up[dst], -13, 0)];
        up := up[dst := PyDeleteSlice(up[dst], -13, 0)];
      }
      fatal := false;
    }

    /** move(do_move): whether the move at the cursor is legal; with do_move, carry it
        out (or, when it is not legal, restart the scan), as ApplyMove describes. */
    method Move(doMove: bool := true) returns (legal: bool, fatal: bool)
      requires Valid() && next.src < Columns
      modifies this
      ensures legal == MoveLength(old(State())).Some?
      ensures !doMove ==> State() == old(State()) && !fatal
      ensures doMove ==> (fatal <==> ApplyMove(old(State())).Fatal?)
      ensures doMove && !ApplyMove(old(State())).Fatal? ==>
        State() == ApplyMove(old(State())).game && Valid()
    {
      var found := FindMove();
      legal, fatal := found.Some?, false;
      if !doMove {
        return;
      }
      if found.None? {
        next := Cursor(0, 0);
        return;
      }
      if !ApplyMove(State()).Fatal? {
        MoveKeepsShape(State());
      }
      fatal := MoveCards(next.src, next.dst, found.value);
    }
  }
}
