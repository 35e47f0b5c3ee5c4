/** The move engine as functions on the game value: how many cards a move takes,
    whether a move is legal, and what carrying it out does to the tableau. */
module Moves {
  import opened Cards
  import opened Tableau

  /** `deeper` lies directly under `shallower` in a run that may move together:
      one rank higher and the same suit. */
  predicate Descends(deeper: Card, shallower: Card) {
    deeper.rank == shallower.rank + 1 && deeper.suit == shallower.suit
  }

  /** The k-th card from the top, Python's s[-k]. */
  function FromTop(s: seq<Card>, k: nat): Card
    requires 1 <= k <= |s|
  {
    s[|s| - k]
  }

  /** What _find_longest computes: the number of cards at the top of `s` that are
      identical to the top card (rank and suit both equal), or |s| when |s| < 2. */
  function IdenticalTail(s: seq<Card>): (r: nat)
    ensures r <= |s| && (r == 0 <==> s == [])
    ensures forall k :: 1 <= k <= r ==> FromTop(s, k) == FromTop(s, 1)
    ensures 1 <= r < |s| ==> FromTop(s, r + 1) != FromTop(s, 1)
  {
    if |s| < 2 then |s|
    else if FromTop(s, 2) != FromTop(s, 1) then 1
    else
      var p := s[..|s| - 1];
      var r := IdenticalTail(p);
      assert forall k :: 1 <= k <= |p| ==> FromTop(p, k) == FromTop(s, k + 1);
      assert forall k :: 2 <= k <= r + 1 ==> FromTop(s, k) == FromTop(p, k - 1);
      1 + r
  }

  /** The length of the longest run at the top of `s` in which each deeper card is one
      rank higher than the card on it and of the same suit. */
  function RunTail(s: seq<Card>): (r: nat)
    ensures r <= |s| && (r == 0 <==> s == [])
    ensures forall k :: 1 <= k < r ==> Descends(FromTop(s, k + 1), FromTop(s, k))
    ensures 1 <= r < |s| ==> !Descends(FromTop(s, r + 1), FromTop(s, r))
  {
    if |s| < 2 then |s|
    else if !Descends(FromTop(s, 2), FromTop(s, 1)) then 1
    else
      var p := s[..|s| - 1];
      var r := RunTail(p);
      assert forall k :: 1 <= k <= |p| ==> FromTop(p, k) == FromTop(s, k + 1);
      assert forall k :: 2 <= k <= r ==> FromTop(s, k) == FromTop(p, k - 1);
      assert forall k :: 2 <= k < r + 1 ==> Descends(FromTop(s, k + 1), FromTop(s, k));
      1 + r
  }

  /** The search loop of move() for a non-empty destination whose top card has rank
      `rank`: try k = 1, 2, ... cards from the top of `s`; succeed at the first k whose
      deepest card is one rank below `rank`; give up past the bottom of `s` or where the
      run stops descending in one suit. */
  function FirstAttach(s: seq<Card>, rank: int, k: nat): Option<nat>
    requires 1 <= k <= |s|
    decreases |s| - k
  {
    if FromTop(s, k).rank == rank - 1 then Some(k)
    else if k + 1 > |s| then None
    else if !Descends(FromTop(s, k + 1), FromTop(s, k)) then None
    else FirstAttach(s, rank, k + 1)
  }

  /** The top card of a non-empty stack. */
  function Top(s: seq<Card>): Card
    requires s != []
  {
    s[|s| - 1]
  }

  /** move(False) at the cursor: None when no move from up[src] to up[dst] is legal,
      otherwise the number of cards the move takes. */
  function MoveLength(g: Game): (r: Option<nat>)
    requires Shaped(g) && g.next.src < Columns
    ensures r.Some? ==> 1 <= r.value <= |g.up[g.next.src]|
  {
    var us, ud := g.up[g.next.src], g.up[g.next.dst];
    if us == [] then None
    else if ud == [] then Some(IdenticalTail(us))
    else
      FirstAttachMeaning(us, Top(ud).rank, 1);
      FirstAttach(us, Top(ud).rank, 1)
  }

  /** First half of _move_cards: the top n cards of up[src] go onto up[dst] (the list is
      extended first, then the last n cards of up[src] as it now is are cut off), the log
      records (src, dst) and the scan restarts at (0, 0). move only ever asks for n >= 1;
      with n = 0 Python's [-0:] would take the whole stack, which this does not cover. */
  function Transfer(g: Game, src: nat, dst: nat, n: nat): Game
    requires src < |g.up| && dst < |g.up| && 1 <= n <= |g.up[src]|
  {
    g.(up := ShiftTail(g.up, src, dst, n),
       moves := g.moves + [Shift(src, dst)],
       next := Cursor(0, 0))
  }

  /** The face-up stacks after `_up[dst].extend(_up[src][-n:])` and then
      `_up[src][-n:] = []`, for n >= 1, where [-n:] is the last n cards. */
  function ShiftTail(up: seq<seq<Card>>, src: nat, dst: nat, n: nat): seq<seq<Card>>
    requires src < |up| && dst < |up| && 1 <= n <= |up[src]|
  {
    var up1 := up[dst := up[dst] + up[src][|up[src]| - n..]];
    up1[src := up1[src][..|up1[src]| - n]]
  }

  /** The fatal case of _move_cards: the face-down card that would be turned over is the
      rank-0 placeholder. */
  predicate RevealsPlaceholder(g: Game, src: nat)
    requires src < |g.up| && src < |g.down|
  {
    g.up[src] == [] && g.down[src] != [] && g.down[src][0].rank == 0
  }

  /** Turning over a face-down card when a column has no face-up cards left. */
  function Reveal(g: Game, src: nat): (r: Game)
    requires src < |g.up| && src < |g.down|
    ensures g.up[src] == [] && g.down[src] != [] ==>
      r.up == g.up[src := [g.down[src][0]]] && r.down == g.down[src := g.down[src][1..]]
    ensures !(g.up[src] == [] && g.down[src] != []) ==> r == g
    ensures r.pile == g.pile && r.done == g.done && r.moves == g.moves && r.next == g.next
  {
    if g.up[src] == [] && g.down[src] != [] then
      g.(up := g.up[src := [g.down[src][0]]], down := g.down[src := g.down[src][1..]])
    else g
  }

  /** Python's normalisation of a slice bound against a list of length `len`. */
  function SliceBound(i: int, len: nat): (r: nat)
    ensures r <= len
    ensures i >= 0 ==> r == if i > len then len else i
    ensures i < 0 ==> r == if len + i < 0 then 0 else len + i
  {
    if i < 0 then (if len + i < 0 then 0 else len + i)
    else if i > len then len else i
  }

  /** Python's s[i:j]. */
  function PySlice(s: seq<Card>, i: int, j: int): seq<Card> {
    var a, b := SliceBound(i, |s|), SliceBound(j, |s|);
    if a < b then s[a..b] else []
  }

  /** Python's `s[i:j] = []`. */
  function PyDeleteSlice(s: seq<Card>, i: int, j: int): seq<Card> {
    var a, b := SliceBound(i, |s|), SliceBound(j, |s|);
    if a < b then s[..a] + s[b..] else s
  }

  /** The completion check at the end of _move_cards: when _find_longest of up[dst] is 13,
      the slice up[dst][-13:0] is appended to the completed piles and deleted from up[dst].
      That slice ends at 0, so it is always empty: the branch appends an empty pile and
      never takes a card off the column. */
  function CheckComplete(g: Game, dst: nat): (r: Game)
    requires dst < |g.up|
    ensures r.up == g.up && r.down == g.down && r.pile == g.pile
    ensures r.moves == g.moves && r.next == g.next
    ensures IdenticalTail(g.up[dst]) == 13 ==> r.done == g.done + [[]]
    ensures IdenticalTail(g.up[dst]) != 13 ==> r.done == g.done
  {
    var s := g.up[dst];
    if IdenticalTail(s) == 13 then
      g.(done := g.done + [PySlice(s, -13, 0)], up := g.up[dst := PyDeleteSlice(s, -13, 0)])
    else g
  }

  /** _move_cards when it does not stop on a placeholder. */
  function MoveCards(g: Game, src: nat, dst: nat, n: nat): Game
    requires src < Columns && dst < Columns && |g.up| == Columns && |g.down| == Columns
    requires 1 <= n <= |g.up[src]|
  {
    CheckComplete(Reveal(Transfer(g, src, dst, n), src), dst)
  }

  /** The outcome of move(True) at the cursor. */
  datatype MoveResult = NoMove(game: Game) | Moved(game: Game) | Fatal

  /** move(True): an illegal move only resets the cursor to (0, 0); a legal one moves
      MoveLength cards, unless the card it would turn over is the placeholder. */
  function ApplyMove(g: Game): MoveResult
    requires Shaped(g) && g.next.src < Columns
  {
    var src, dst := g.next.src, g.next.dst;
    match MoveLength(g)
    case None => NoMove(g.(next := Cursor(0, 0)))
    case Some(n) =>
      if RevealsPlaceholder(Transfer(g, src, dst, n), src) then Fatal
      else Moved(MoveCards(g, src, dst, n))
  }

  /** The search of FirstAttach, read declaratively: starting at k inside the
      descending run, it finds the least j >= k within the run whose card attaches. */
  lemma {:induction false} FirstAttachMeaning(s: seq<Card>, rank: int, k: nat)
    requires 1 <= k <= RunTail(s)
    ensures FirstAttach(s, rank, k).Some? <==>
      exists j :: k <= j <= RunTail(s) && FromTop(s, j).rank == rank - 1
    ensures FirstAttach(s, rank, k).Some? ==>
      var j := FirstAttach(s, rank, k).value;
      && k <= j <= RunTail(s) && FromTop(s, j).rank == rank - 1
      && forall i :: k <= i < j ==> FromTop(s, i).rank != rank - 1
    decreases |s| - k
  {
    var n := RunTail(s);
    if FromTop(s, k).rank == rank - 1 {
    } else if k + 1 > |s| {
    } else if !Descends(FromTop(s, k + 1), FromTop(s, k)) {
      assert n == k;
    } else {
      assert n != k;
      FirstAttachMeaning(s, rank, k + 1);
      if exists j :: k <= j <= n && FromTop(s, j).rank == rank - 1 {
        var j :| k <= j <= n && FromTop(s, j).rank == rank - 1;
        assert j != k;
      }
    }
  }

  /** What move(False) decides, stated without the search loop: no move from an empty
      column; onto an empty column the whole identical tail moves; otherwise the move
      is legal exactly when some card within the descending same-suit run at the top of
      up[src] is one rank below the top of up[dst], and it takes the shallowest such. */
  lemma MoveLengthMeaning(g: Game)
    requires Shaped(g) && g.next.src < Columns
    ensures var us, ud := g.up[g.next.src], g.up[g.next.dst];
      && (us == [] ==> MoveLength(g) == None)
      && (us != [] && ud == [] ==> MoveLength(g) == Some(IdenticalTail(us)))
      && (us != [] && ud != [] ==>
           && (MoveLength(g).Some? <==>
                 exists k :: 1 <= k <= RunTail(us) && FromTop(us, k).rank == Top(ud).rank - 1)
           && (MoveLength(g).Some? ==>
                 var n := MoveLength(g).value;
                 && 1 <= n <= RunTail(us) && FromTop(us, n).rank == Top(ud).rank - 1
                 && forall i :: 1 <= i < n ==> FromTop(us, i).rank != Top(ud).rank - 1))
  {
    var us, ud := g.up[g.next.src], g.up[g.next.dst];
    if us != [] && ud != [] {
      FirstAttachMeaning(us, Top(ud).rank, 1);
    }
  }

  /** Carrying out a legal move between two different columns: the top n cards of
      up[src] land on up[dst] in the same order; up[src] keeps the rest, and when it is
      emptied its first face-down card (if any) becomes its only face-up card, unless
      that card is the placeholder, which stops the program; no other column, the stock
      or the face-down cards of dst change; the log gains (src, dst), the scan restarts
      at (0, 0), and the completed piles change only by the empty pile of the
      completion check. */
  lemma MoveShape(g: Game, n: nat)
    requires Shaped(g) && g.next.src < Columns && g.next.src != g.next.dst
    requires MoveLength(g) == Some(n)
    ensures var src, dst, us := g.next.src, g.next.dst, g.up[g.next.src];
      && 1 <= n <= |us|
      && (ApplyMove(g).Fatal? <==> n == |us| && g.down[src] != [] && g.down[src][0].rank == 0)
      && (ApplyMove(g).Moved? ==>
           var g' := ApplyMove(g).game;
           && g'.up[dst] == g.up[dst] + us[|us| - n..]
           && (n < |us| ==> g'.up[src] == us[..|us| - n] && g'.down[src] == g.down[src])
           && (n == |us| && g.down[src] == [] ==> g'.up[src] == [] && g'.down[src] == [])
           && (n == |us| && g.down[src] != [] ==>
                 g'.up[src] == [g.down[src][0]] && g'.down[src] == g.down[src][1..])
           && |g'.up| == Columns && |g'.down| == Columns
           && (forall i :: 0 <= i < Columns && i != src && i != dst ==>
                 g'.up[i] == g.up[i] && g'.down[i] == g.down[i])
           && g'.down[dst] == g.down[dst]
           && g'.pile == g.pile && g'.moves == g.moves + [Shift(src, dst)]
           && g'.next == Cursor(0, 0)
           && (g'.done == g.done || (g'.done == g.done + [[]] && IdenticalTail(g'.up[dst]) == 13)))
  {
    var src, dst := g.next.src, g.next.dst;
    var t := Transfer(g, src, dst, n);
    assert t.up[dst] == g.up[dst] + g.up[src][|g.up[src]| - n..];
    assert t.up[src] == g.up[src][..|g.up[src]| - n];
  }

  /** When src and dst are the same column, _move_cards extends the column with a copy
      of its own top n cards and then cuts n cards off: the column is unchanged. */
  lemma TransferToSelf(g: Game, src: nat, n: nat)
    requires src < |g.up| && 1 <= n <= |g.up[src]|
    ensures Transfer(g, src, src, n).up == g.up
  {
    var us := g.up[src];
    assert (us + us[|us| - n..])[..|us|] == us;
  }

  /** Every legal move keeps the shape of the game, in particular "no face-up cards
      implies no face-down cards", which the assertions of move() rely on. */
  lemma MoveKeepsShape(g: Game)
    requires Shaped(g) && g.next.src < Columns
    requires !ApplyMove(g).Fatal?
    ensures Shaped(ApplyMove(g).game)
  {
    var src, dst := g.next.src, g.next.dst;
    match MoveLength(g)
    case None =>
    case Some(n) =>
      if src == dst {
        TransferToSelf(g, src, n);
      } else {
        MoveShape(g, n);
      }
  }

  /** Moving the top n cards of one stack onto another (extend, then cut) keeps the
      cards of the stacks. */
  lemma {:induction false} ShiftKeepsCards(up: seq<seq<Card>>, src: nat, dst: nat, n: nat)
    requires src < |up| && dst < |up| && 1 <= n <= |up[src]|
    ensures multiset(Flatten(ShiftTail(up, src, dst, n))) == multiset(Flatten(up))
  {
    var us := up[src];
    var tail := us[|us| - n..];
    var up1 := up[dst := up[dst] + tail];
    var x := up1[src][..|up1[src]| - n];
    var up2 := up1[src := x];
    assert up1[src] == x + tail by {
      if src == dst {
        assert up1[src] == us + tail;
      } else {
        assert up1[src] == us;
        assert us == us[..|us| - n] + tail;
      }
    }
    forall c ensures multiset(Flatten(up2))[c] == multiset(Flatten(up))[c] {
      FlattenUpdateCount(up, dst, up[dst] + tail, c);
      FlattenUpdateCount(up1, src, x, c);
      assert multiset(up[dst] + tail)[c] == multiset(up[dst])[c] + multiset(tail)[c];
      assert multiset(x + tail)[c] == multiset(x)[c] + multiset(tail)[c];
    }
    assert multiset(Flatten(up2)) == multiset(Flatten(up));
  }

  /** Turning a card over moves it from the face-down to the face-up stacks. */
  lemma RevealConservesCards(t: Game, src: nat)
    requires src < |t.up| && src < |t.down|
    ensures multiset(InPlay(Reveal(t, src))) == multiset(InPlay(t))
  {
    var r := Reveal(t, src);
    if t.up[src] == [] && t.down[src] != [] {
      var d := t.down[src];
      assert d == [d[0]] + d[1..];
      assert r.up == t.up[src := [d[0]]] && r.down == t.down[src := d[1..]] && r.pile == t.pile;
      forall c ensures multiset(InPlay(r))[c] == multiset(InPlay(t))[c] {
        FlattenUpdateCount(t.up, src, [d[0]], c);
        FlattenUpdateCount(t.down, src, d[1..], c);
        assert multiset(d)[c] == multiset([d[0]])[c] + multiset(d[1..])[c];
        assert multiset(InPlay(r))[c] == multiset(Flatten(r.down))[c] + multiset(Flatten(r.up))[c] + multiset(r.pile)[c];
        assert multiset(InPlay(t))[c] == multiset(Flatten(t.down))[c] + multiset(Flatten(t.up))[c] + multiset(t.pile)[c];
      }
    }
  }

  /** _move_cards neither creates nor destroys a card in play: it only moves cards
      between face-up stacks and turns one face-down card over. */
  lemma MoveConservesCards(g: Game, src: nat, dst: nat, n: nat)
    requires src < Columns && dst < Columns && |g.up| == Columns && |g.down| == Columns
    requires 1 <= n <= |g.up[src]|
    ensures multiset(InPlay(MoveCards(g, src, dst, n))) == multiset(InPlay(g))
  {
    var t := Transfer(g, src, dst, n);
    ShiftKeepsCards(g.up, src, dst, n);
    InPlayOfParts(t, g);
    var r := Reveal(t, src);
    RevealConservesCards(t, src);
    assert InPlay(CheckComplete(r, dst)) == InPlay(r);
  }

  /** Two games whose face-down stacks and stocks agree and whose face-up stacks hold
      the same cards have the same cards in play. */
  lemma InPlayOfParts(g: Game, h: Game)
    requires g.down == h.down && g.pile == h.pile
    requires multiset(Flatten(g.up)) == multiset(Flatten(h.up))
    ensures multiset(InPlay(g)) == multiset(InPlay(h))
  {
  }

  /** A stack whose every card is c holds |t| copies of c. */
  lemma {:induction false} UniformCount(t: seq<Card>, c: Card)
    requires forall i :: 0 <= i < |t| ==> t[i] == c
    ensures multiset(t)[c] == |t|
  {
    if t != [] {
      UniformCount(t[1..], c);
      assert t == [t[0]] + t[1..];
    }
  }

  /** The completion check can only fire on a column holding 13 copies of one card. */
  lemma CompletionNeedsThirteenCopies(s: seq<Card>)
    requires IdenticalTail(s) == 13
    ensures multiset(s)[Top(s)] >= 13
  {
    var t := s[|s| - 13..];
    forall i | 0 <= i < 13 ensures t[i] == Top(s) {
      assert t[i] == FromTop(s, 13 - i);
    }
    UniformCount(t, Top(s));
    assert s == s[..|s| - 13] + t;
  }

  /** A column that would fire the completion check puts 13 copies of its top card in play. */
  lemma CompletionInPlay(r: Game, dst: nat)
    requires dst < |r.up| && IdenticalTail(r.up[dst]) == 13
    ensures multiset(InPlay(r))[Top(r.up[dst])] >= 13
  {
    var c := Top(r.up[dst]);
    CompletionNeedsThirteenCopies(r.up[dst]);
    StackInFlatten(r.up, dst);
    assert multiset(Flatten(r.up))[c] >= 13;
  }

  /** If no card is in play 13 times, a legal move keeps the game consistent (the
      check of _invariant passes), keeps every card in play, and the completion check
      never fires, so the completed piles stay empty. */
  lemma MoveKeepsInvariant(g: Game)
    requires Shaped(g) && g.next.src < Columns
    requires Consistent(g) && g.done == [] && Sparse(multiset(InPlay(g)))
    requires !ApplyMove(g).Fatal?
    ensures var g' := ApplyMove(g).game;
      Consistent(g') && g'.done == [] && multiset(InPlay(g')) == multiset(InPlay(g))
  {
    var src, dst := g.next.src, g.next.dst;
    match MoveLength(g)
    case None =>
    case Some(n) =>
      assert ApplyMove(g).game == MoveCards(g, src, dst, n);
      MoveCardsKeepsInvariant(g, src, dst, n);
  }

  /** MoveKeepsInvariant for the move of the top n cards of up[src] onto up[dst]. */
  lemma MoveCardsKeepsInvariant(g: Game, src: nat, dst: nat, n: nat)
    requires src < Columns && dst < Columns && |g.up| == Columns && |g.down| == Columns
    requires 1 <= n <= |g.up[src]|
    requires Consistent(g) && g.done == [] && Sparse(multiset(InPlay(g)))
    ensures var g' := MoveCards(g, src, dst, n);
      Consistent(g') && g'.done == [] && multiset(InPlay(g')) == multiset(InPlay(g))
  {
    var t := Transfer(g, src, dst, n);
    var r := Reveal(t, src);
    MoveConservesCards(g, src, dst, n);
    InPlayOfParts(CheckComplete(r, dst), r);
    if IdenticalTail(r.up[dst]) == 13 {
      CompletionInPlay(r, dst);
      assert false;
    }
    assert MoveCards(g, src, dst, n) == r;
    RevealKeepsDown(t, src);
    assert |InPlay(r)| == |InPlay(g)| by {
      assert |multiset(InPlay(r))| == |multiset(InPlay(g))|;
    }
  }

  /** Turning a card over shortens the face-down stacks and keeps everything but the
      face-up stacks consistent with the game it came from. */
  lemma RevealKeepsDown(t: Game, src: nat)
    requires src < |t.up| && src < |t.down|
    ensures var r := Reveal(t, src);
      && |r.up| == |t.up| && |r.down| == |t.down|
      && forall i :: 0 <= i < |t.down| ==> |r.down[i]| <= |t.down[i]|
  {
  }
}
