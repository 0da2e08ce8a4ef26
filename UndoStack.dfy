/** The ship builder's undo stack (ShipBuilderLib/UndoStack.cpp): a deque of undo actions
    with a running total of their costs, trimmed from the oldest end so that it never holds
    more than `MaxEntries` actions nor more than `MaxCost` total cost. */
module UndoStack {

  /** An undo action: what it restores (`payload`) and what it costs to keep (GetCost). */
  datatype UndoAction<A> = UndoAction(cost: nat, payload: A)

  /** The total cost of a sequence of actions. */
  function SumCosts<A>(s: seq<UndoAction<A>>): nat {
    if s == [] then 0 else s[0].cost + SumCosts(s[1..])
  }

  /** Appending an action adds its cost to the total. */
  lemma {:induction false} SumCostsAppend<A>(s: seq<UndoAction<A>>, a: UndoAction<A>)
    ensures SumCosts(s + [a]) == SumCosts(s) + a.cost
  {
    if s != [] {
      assert (s + [a])[1..] == s[1..] + [a];
      SumCostsAppend(s[1..], a);
    }
  }

  /** Every single action costs at most the total. */
  lemma {:induction false} SumCostsBoundsEach<A>(s: seq<UndoAction<A>>, i: nat)
    requires i < |s|
    ensures s[i].cost <= SumCosts(s)
  {
    if i > 0 {
      SumCostsBoundsEach(s[1..], i - 1);
    }
  }

  /** Removing actions from the front never raises the total. */
  lemma {:induction false} SumCostsSuffix<A>(s: seq<UndoAction<A>>, j: nat)
    requires j <= |s|
    ensures SumCosts(s[j..]) <= SumCosts(s)
  {
    if j > 0 {
      assert s[j..] == s[1..][j - 1..];
      SumCostsSuffix(s[1..], j - 1);
    }
  }

  /** Whether a stack is within both caps. */
  predicate Fits<A>(s: seq<UndoAction<A>>, maxEntries: nat, maxCost: nat) {
    |s| <= maxEntries && SumCosts(s) <= maxCost
  }

  /** How many of the oldest actions the trimming loop removes from `s`. */
  function TrimCount<A>(s: seq<UndoAction<A>>, maxEntries: nat, maxCost: nat): (k: nat)
    ensures k <= |s|
    decreases |s|
  {
    if Fits(s, maxEntries, maxCost) then 0
    else if s == [] then 0
    else 1 + TrimCount(s[1..], maxEntries, maxCost)
  }

  /** The stack after the trimming loop: `s` without its TrimCount oldest actions. */
  function Trim<A>(s: seq<UndoAction<A>>, maxEntries: nat, maxCost: nat): seq<UndoAction<A>> {
    s[TrimCount(s, maxEntries, maxCost)..]
  }

  /** The trimmed stack is within both caps, and no shorter cut would be: each of the
      longer suffixes of `s` breaks a cap. */
  lemma {:induction false} TrimIsShortestCut<A>(s: seq<UndoAction<A>>, maxEntries: nat, maxCost: nat)
    ensures Fits(Trim(s, maxEntries, maxCost), maxEntries, maxCost)
    ensures forall j :: 0 <= j < TrimCount(s, maxEntries, maxCost) ==> !Fits(s[j..], maxEntries, maxCost)
    decreases |s|
  {
    if !Fits(s, maxEntries, maxCost) && s != [] {
      TrimIsShortestCut(s[1..], maxEntries, maxCost);
      assert Trim(s, maxEntries, maxCost) == Trim(s[1..], maxEntries, maxCost);
      forall j | 0 < j < TrimCount(s, maxEntries, maxCost)
        ensures !Fits(s[j..], maxEntries, maxCost)
      {
        assert s[j..] == s[1..][j - 1..];
      }
    }
  }

  /** A stack that is within both caps is left alone. */
  lemma TrimFitting<A>(s: seq<UndoAction<A>>, maxEntries: nat, maxCost: nat)
    requires Fits(s, maxEntries, maxCost)
    ensures Trim(s, maxEntries, maxCost) == s
  {
  }

  /** An action that on its own costs more than the cap is trimmed away with everything
      before it: the stack ends empty. */
  lemma PushOverCostEmpties<A>(s: seq<UndoAction<A>>, a: UndoAction<A>, maxEntries: nat, maxCost: nat)
    requires a.cost > maxCost
    ensures Trim(s + [a], maxEntries, maxCost) == []
  {
    var t := s + [a];
    TrimIsShortestCut(t, maxEntries, maxCost);
    var k := TrimCount(t, maxEntries, maxCost);
    if k < |t| {
      assert t[k..][|t[k..]| - 1] == a;
      SumCostsBoundsEach(t[k..], |t[k..]| - 1);
    }
  }

  class UndoStack<A> {
    const MaxEntries: nat
    const MaxCost: nat
    /** mStack, oldest action first. */
    var Stack: seq<UndoAction<A>>
    /** mTotalCost. */
    var TotalCost: nat

    /** The running total is the sum of the stored costs, and both caps hold. */
    ghost predicate Valid()
      reads this
    {
      TotalCost == SumCosts(Stack) && Fits(Stack, MaxEntries, MaxCost)
    }

    constructor (maxEntries: nat, maxCost: nat)
      ensures Valid()
      ensures MaxEntries == maxEntries && MaxCost == maxCost
      ensures Stack == [] && TotalCost == 0
    {
      MaxEntries := maxEntries;
      MaxCost := maxCost;
      Stack := [];
      TotalCost := 0;
    }

    /** Push: appends the action and adds its cost, then drops the oldest actions until
        both caps hold again. */
    method Push(undoAction: UndoAction<A>)
      requires Valid()
      modifies this
      ensures Valid()
      ensures Stack == Trim(old(Stack) + [undoAction], MaxEntries, MaxCost)
    {
      TotalCost := TotalCost + undoAction.cost;
      SumCostsAppend(Stack, undoAction);
      Stack := Stack + [undoAction];
      ghost var pushed := Stack;
      ghost var dropped := 0;
      while |Stack| > MaxEntries || TotalCost > MaxCost
        invariant TotalCost == SumCosts(Stack)
        invariant dropped <= TrimCount(pushed, MaxEntries, MaxCost)
        invariant Stack == pushed[dropped..]
        invariant Trim(Stack, MaxEntries, MaxCost) == Trim(pushed, MaxEntries, MaxCost)
        decreases |Stack|
      {
        // the total never underflows: the front action costs at most the total
        assert Stack != [];
        SumCostsBoundsEach(Stack, 0);
        assert TotalCost >= Stack[0].cost;
        TotalCost := TotalCost - Stack[0].cost;
        assert pushed[dropped + 1..] == Stack[1..];
        Stack := Stack[1..];
        dropped := dropped + 1;
      }
      TrimIsShortestCut(pushed, MaxEntries, MaxCost);
    }

    /** Pop: removes and returns the most recent action, subtracting its cost. The source
        asserts that the stack is not empty. */
    method Pop() returns (undoAction: UndoAction<A>)
      requires Valid() && Stack != []
      modifies this
      ensures Valid()
      ensures undoAction == old(Stack[|Stack| - 1])
      ensures Stack == old(Stack[..|Stack| - 1])
      ensures TotalCost == old(TotalCost) - undoAction.cost
    {
      undoAction := Stack[|Stack| - 1];
      assert Stack == Stack[..|Stack| - 1] + [undoAction];
      SumCostsAppend(Stack[..|Stack| - 1], undoAction);
      SumCostsSuffix(Stack, 0);
      Stack := Stack[..|Stack| - 1];
      assert TotalCost >= undoAction.cost;
      TotalCost := TotalCost - undoAction.cost;
    }
  }

  /** A Push that needs no trimming, followed by a Pop, hands back the pushed action and
      restores the previous stack and total. */
  method PushThenPop<A>(u: UndoStack<A>, a: UndoAction<A>) returns (r: UndoAction<A>)
    requires u.Valid()
    requires Fits(u.Stack + [a], u.MaxEntries, u.MaxCost)
    modifies u
    ensures u.Valid()
    ensures r == a && u.Stack == old(u.Stack) && u.TotalCost == old(u.TotalCost)
  {
    TrimFitting(u.Stack + [a], u.MaxEntries, u.MaxCost);
    u.Push(a);
    r := u.Pop();
    assert (old(u.Stack) + [a])[..|old(u.Stack)|] == old(u.Stack);
  }

  /** The pure counterpart of PushThenPop: without trimming, dropping the last action of the
      pushed stack gives back the old stack, and the last action is the pushed one. */
  lemma PushPopRoundTrip<A>(s: seq<UndoAction<A>>, a: UndoAction<A>, maxEntries: nat, maxCost: nat)
    requires Fits(s + [a], maxEntries, maxCost)
    ensures var t := Trim(s + [a], maxEntries, maxCost);
      t != [] && t[|t| - 1] == a && t[..|t| - 1] == s
  {
    TrimFitting(s + [a], maxEntries, maxCost);
  }

  /** The stack after a Push holds only actions that were on the stack or were pushed, newest
      last; the pushed action survives exactly when the trimmed stack is not empty. */
  lemma TrimKeepsNewest<A>(s: seq<UndoAction<A>>, a: UndoAction<A>, maxEntries: nat, maxCost: nat)
    ensures var t := Trim(s + [a], maxEntries, maxCost);
      |t| <= |s| + 1 && (t != [] ==> t[|t| - 1] == a) &&
      (forall i :: 0 <= i < |t| - 1 ==> t[i] == s[i + (|s| + 1 - |t|)])
  {
  }
}
