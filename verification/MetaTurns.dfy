/** The search for a metadata block as turns of its loop, and when it ends. */
module MetaTurns {
  import opened TreeIndex
  import opened PackedStates
  import opened Utils
  import opened MetaTree
  import opened MetaFree
  import opened MetaSearch

  /** The search is under way, has settled on a node, has come back to the root from the right, or
      has ended in one of the original's error exits. */
  datatype Progress = Going(items: seq<TwoBit>, s: Search) | Taken(s: Search) | Exhausted | Failed

  /** One turn of the loop. */
  function Turn(depth: nat, size: nat, items: seq<TwoBit>, s: Search): Progress {
    if s.idx == 1 && s.state == UpRight then Exhausted
    else if s.idx >= Pow2(depth) || s.state == Down then
      if s.idx == 0 || s.idx > |items| then Failed
      else
        var node, leaf := items[s.idx - 1], s.idx >= Pow2(depth);
        if leaf && (node == NODE_SPLIT || node == NODE_FULL) then Failed
        else if node == NODE_FREE && (leaf || Fits(s, size)) then Taken(s)
        else if node == NODE_FREE then
          if 2 * s.idx >= |items| then Failed
          else Going(items[s.idx - 1 := NODE_SPLIT][2 * s.idx - 1 := NODE_FREE][2 * s.idx := NODE_FREE], GoLeft(s))
        else if node == NODE_SPLIT && !Fits(s, size) then Going(items, GoLeft(s))
        else Going(items, GoUp(s))
    else if s.state == UpLeft then Going(items, GoRight(s))
    else Going(items, GoUp(s))
  }

  /** At most `n` turns of the loop. */
  function Turns(depth: nat, size: nat, items: seq<TwoBit>, s: Search, n: nat): Progress
    decreases n
  {
    if n == 0 then Going(items, s)
    else
      match Turn(depth, size, items, s)
      case Going(items', s') => Turns(depth, size, items', s', n - 1)
      case p => p
  }

  lemma {:induction false} TurnsNext(depth: nat, size: nat, items: seq<TwoBit>, s: Search, n: nat,
                                     items': seq<TwoBit>, s': Search)
    requires Turns(depth, size, items, s, n) == Going(items', s')
    ensures Turns(depth, size, items, s, n + 1) == Turn(depth, size, items', s')
    decreases n
  {
    hide Turn;
    if n > 0 {
      var p := Turn(depth, size, items, s);
      TurnsNext(depth, size, p.items, p.s, n - 1, items', s');
    } else {
      var p := Turn(depth, size, items, s);
      assert p.Going? ==> Turns(depth, size, p.items, p.s, 0) == p;
    }
  }

  /** Where the search starts. */
  ghost function Start(e: Request): Search {
    Search(1, Down, Total(e.depth), e.memory)
  }

  /** The search comes to an end, with result `r`. */
  ghost predicate EndsWith(e: Request, r: Option<int>) {
    exists n: nat :: var p := Turns(e.depth, e.size, e.items, Start(e), n);
                     (p.Exhausted? && r == None) || (p.Taken? && r == Some(p.s.ptr))
  }

  lemma FirstTurn(e: Request)
    ensures Turns(e.depth, e.size, e.items, Start(e), 0) == Going(e.items, Start(e))
  {
  }

  lemma SearchEnded(e: Request, n: nat, r: Option<int>)
    requires var p := Turns(e.depth, e.size, e.items, Start(e), n);
             (p.Exhausted? && r == None) || (p.Taken? && r == Some(p.s.ptr))
    ensures EndsWith(e, r)
  {
  }

  ghost predicate Ends(e: Request) {
    exists r :: EndsWith(e, r)
  }

  /** Whatever is live, a search in a tree with some memory free comes to an end. */
  lemma {:induction false} SearchEnds(e: Request, items: seq<TwoBit>, s: Search, m: Mode) returns (n: nat)
    requires RequestOk(e) && Inv(e, items, s, m) && |items| == Pow2(e.depth + 1)
    ensures var p := Turns(e.depth, e.size, items, s, n); p.Exhausted? || p.Taken?
    decreases Rank0(e, s, m), Rank1(s, m), Rank2(e, s, m)
  {
    hide RequestOk, At, NoneBefore, PendingOk, CanonOk, LiveOk, FirstFit, NoFit, Inv, Rank0, Rank1, Rank2,
         GoesAstray, BlockLen, AstrayTake, LeavesIn, NodeOk, BlockAddr, Height, Next, Pow2, GoUp, GoLeft, GoRight;
    var t, m' := Turn(e.depth, e.size, items, s), Next(s, m);
    if s.idx == 1 && s.state == UpRight {
      return 1;
    }
    Looking(e, items, s, m);
    if s.idx >= Pow2(e.depth) || s.state == Down {
      var node := items[s.idx - 1];
      if node == NODE_FREE && (s.idx >= Pow2(e.depth) || Fits(s, e.size)) {
        return 1;
      } else if node == NODE_FREE {
        StepDivide(e, items, s, m);
        m' := Splitting;
      } else if node == NODE_SPLIT && !Fits(s, e.size) {
        StepInto(e, items, s, m);
        m' := if m.Astray? then Next(s, m) else m;
      } else {
        StepBack(e, items, s, m);
      }
    } else if s.state == UpLeft {
      StepOver(e, items, s, m);
    } else {
      StepOut(e, items, s, m);
    }
    n := SearchEnds(e, t.items, t.s, m');
    n := n + 1;
  }

  /** The search is at the root on its way down, or outside the tree on its way back to the root. */
  predicate Circling(s: Search) {
    (s.idx == 1 && s.state == Down) || (s.idx == 0 && s.state != Down)
  }

  /** A search in a tree whose root is full or used goes round in circles for ever. */
  lemma {:induction false} CirclesForEver(depth: nat, size: nat, items: seq<TwoBit>, s: Search, n: nat)
    requires depth >= 1 && |items| >= 1 && items[0] in {NODE_FULL, NODE_USED} && Circling(s)
    ensures Turns(depth, size, items, s, n).Going?
    decreases n
  {
    if n > 0 {
      assert Pow2(depth) > 1;
      var p := Turn(depth, size, items, s);
      assert p.Going? && p.items == items && Circling(p.s);
      CirclesForEver(depth, size, items, p.s, n - 1);
    }
  }
}
