/**
 Distribution of main memory over the operators of a query. The tree is made of nodes that are
 updated in place: one pass counts the operators still without memory and adds up what is
 assigned, a second gives every one of them the same share of the rest.
 */
module MemoryDistribution {
  import opened Basics
  import opened QueryTerms

  // No operator gets less, whatever has been spent.
  const FLOOR: nat := 16

  function Max(a: int, b: int): int { if a >= b then a else b }

  // ------------------------------------------------------------ what the passes mean

  /** The sizes of all operators that use memory, from the root down and from left to right. */
  function Sizes(node: OpNode): seq<nat>
    decreases node, 1
  {
    if node.kind.KOperator?
    then (if node.usesMemory then [node.memorySize] else []) + SizesOf(node.kind.sons)
    else []
  }

  function SizesOf(sons: seq<OpNode>): seq<nat>
    decreases sons, 0
  {
    if sons == [] then [] else Sizes(sons[0]) + SizesOf(sons[1..])
  }

  function Sum(s: seq<nat>): nat { if s == [] then 0 else s[0] + Sum(s[1..]) }

  function Zeros(s: seq<nat>): nat {
    if s == [] then 0 else (if s[0] == 0 then 1 else 0) + Zeros(s[1..])
  }

  function Filled(s: seq<nat>, share: nat): (r: seq<nat>)
    ensures |r| == |s|
    ensures forall i | 0 <= i < |s| :: r[i] == if s[i] == 0 then share else s[i]
  {
    if s == [] then [] else [if s[0] == 0 then share else s[0]] + Filled(s[1..], share)
  }

  /** The tree with `share` given to every operator that uses memory and has none. */
  function Distribute(node: OpNode, share: nat): OpNode
    decreases node, 1
  {
    if node.kind.KOperator? then
      node.(memorySize := if node.usesMemory && node.memorySize == 0 then share else node.memorySize,
            kind := node.kind.(sons := DistributeOver(node.kind.sons, share)))
    else node
  }

  function DistributeOver(sons: seq<OpNode>, share: nat): (r: seq<OpNode>)
    ensures |r| == |sons|
    ensures forall i | 0 <= i < |sons| :: r[i] == Distribute(sons[i], share)
    decreases sons, 0
  {
    if sons == [] then [] else [Distribute(sons[0], share)] + DistributeOver(sons[1..], share)
  }

  /** The share of one of `n` operators when `spent` of `available` is assigned. */
  function Share(available: nat, spent: nat, n: nat): nat
    requires n > 0
  {
    Max(if available > spent then (available - spent) / n else 0, FLOOR)
  }

  lemma {:induction false} SumAppend(a: seq<nat>, b: seq<nat>)
    ensures Sum(a + b) == Sum(a) + Sum(b) && Zeros(a + b) == Zeros(a) + Zeros(b)
    decreases |a|
  {
    if a == [] {
      assert a + b == b;
    } else {
      assert (a + b)[1..] == a[1..] + b;
      SumAppend(a[1..], b);
    }
  }

  lemma {:induction false} FilledAppend(a: seq<nat>, b: seq<nat>, share: nat)
    ensures Filled(a + b, share) == Filled(a, share) + Filled(b, share)
  {
    forall i | 0 <= i < |a + b|
      ensures Filled(a + b, share)[i] == (Filled(a, share) + Filled(b, share))[i]
    {}
  }

  /** Distribution changes the sizes that were zero and nothing else. */
  lemma {:induction false} DistributeFills(node: OpNode, share: nat)
    ensures Sizes(Distribute(node, share)) == Filled(Sizes(node), share)
    decreases node, 1
  {
    if node.kind.KOperator? {
      DistributeOverFills(node.kind.sons, share);
      FilledAppend(if node.usesMemory then [node.memorySize] else [], SizesOf(node.kind.sons), share);
    }
  }

  lemma {:induction false} DistributeOverFills(sons: seq<OpNode>, share: nat)
    ensures SizesOf(DistributeOver(sons, share)) == Filled(SizesOf(sons), share)
    decreases sons, 0
  {
    if sons != [] {
      DistributeFills(sons[0], share);
      DistributeOverFills(sons[1..], share);
      assert DistributeOver(sons, share)[1..] == DistributeOver(sons[1..], share);
      FilledAppend(Sizes(sons[0]), SizesOf(sons[1..]), share);
    }
  }

  lemma {:induction false} SumFilled(s: seq<nat>, share: nat)
    ensures Sum(Filled(s, share)) == Sum(s) + share * Zeros(s)
    decreases |s|
  {
    if s != [] {
      SumFilled(s[1..], share);
      assert Filled(s, share)[1..] == Filled(s[1..], share);
      assert share * (1 + Zeros(s[1..])) == share + share * Zeros(s[1..]);
    }
  }

  lemma DivideBounds(a: int, n: nat)
    requires n > 0 && a >= 0
    ensures a / n * n <= a < a / n * n + n
  {}

  /** `k` times `n` stays within `a` exactly when `k` stays within the quotient. */
  lemma QuotientAtLeast(a: nat, n: nat, k: nat)
    requires n > 0
    ensures a / n >= k <==> a >= k * n
  {
    DivideBounds(a, n);
    if a / n >= k {
      assert a / n * n >= k * n;
    } else {
      assert (a / n + 1) * n <= k * n;
    }
  }

  /**
   All memory handed out. The budget is kept exactly when the sum of the explicit sizes has not
   run over, or leaves so little that the floor applies.
   */
  lemma {:induction false} Budget(s: seq<nat>, available: nat)
    requires Zeros(s) > 0 && available < SIZET
    ensures var n, explicit := Zeros(s), Sum(s);
            var total := Sum(Filled(s, Share(available, SizeT(explicit), n)));
            && (total <= Max(available, explicit + FLOOR * n) <==>
                  explicit < SIZET || available < SizeT(explicit) + (FLOOR + 1) * n)
            && (explicit < SIZET && explicit + FLOOR * n <= available ==> total > available - n)
  {
    var n, explicit := Zeros(s), Sum(s);
    var spent := SizeT(explicit);
    var share := Share(available, spent, n);
    SumFilled(s, share);
    if available > spent {
      var rest: nat := available - spent;
      DivideBounds(rest, n);
      QuotientAtLeast(rest, n, FLOOR);
      QuotientAtLeast(rest, n, FLOOR + 1);
      assert share * n == Max(rest / n * n, FLOOR * n);
      if rest / n >= FLOOR + 1 { assert share * n > FLOOR * n; }
    }
  }

  lemma SizesOfRoot(tree: OpNode)
    requires tree.kind.KOperator?
    ensures var below := SizesOf(tree.kind.sons);
            && Zeros(Sizes(tree)) == (if tree.usesMemory && tree.memorySize == 0 then 1 else 0) + Zeros(below)
            && Sum(Sizes(tree)) == (if tree.usesMemory then tree.memorySize else 0) + Sum(below)
  {
    var own := if tree.usesMemory then [tree.memorySize] else [];
    SumAppend(own, SizesOf(tree.kind.sons));
  }

  lemma SizesOfSon(trees: seq<OpNode>, i: nat)
    requires i < |trees|
    ensures var here, rest := Sizes(trees[i]), SizesOf(trees[i + 1..]);
            && Zeros(SizesOf(trees[i..])) == Zeros(here) + Zeros(rest)
            && Sum(SizesOf(trees[i..])) == Sum(here) + Sum(rest)
  {
    assert trees[i..][1..] == trees[i + 1..];
    SumAppend(Sizes(trees[i]), SizesOf(trees[i + 1..]));
  }

  /** The tree without the memory sizes of operators that use memory. */
  function Strip(node: OpNode): OpNode
    decreases node, 1
  {
    if node.kind.KOperator? then node.(memorySize := if node.usesMemory then 0 else node.memorySize,
                                           kind := node.kind.(sons := StripAll(node.kind.sons)))
    else node
  }

  function StripAll(sons: seq<OpNode>): seq<OpNode>
    decreases sons, 0
  {
    if sons == [] then [] else [Strip(sons[0])] + StripAll(sons[1..])
  }

  lemma {:induction false} DistributeStrips(node: OpNode, share: nat)
    ensures Strip(Distribute(node, share)) == Strip(node)
    decreases node, 1
  {
    if node.kind.KOperator? { DistributeOverStrips(node.kind.sons, share); }
  }

  lemma {:induction false} DistributeOverStrips(sons: seq<OpNode>, share: nat)
    ensures StripAll(DistributeOver(sons, share)) == StripAll(sons)
    decreases sons, 0
  {
    if sons != [] {
      DistributeStrips(sons[0], share);
      DistributeOverStrips(sons[1..], share);
      assert DistributeOver(sons, share)[1..] == DistributeOver(sons[1..], share);
    }
  }

  /** The tree Construct leaves behind. */
  function Assigned(tree: OpNode, globalMemory: nat): OpNode {
    var s := Sizes(tree);
    if Zeros(s) == 0 then tree else Distribute(tree, Share(globalMemory, SizeT(Sum(s)), Zeros(s)))
  }

  lemma {:induction false} NoZeros(s: seq<nat>)
    ensures Zeros(s) == 0 <==> forall i | 0 <= i < |s| :: s[i] != 0
    decreases |s|
  {
    if s != [] {
      NoZeros(s[1..]);
      assert forall i | 1 <= i < |s| :: s[i] == s[1..][i - 1];
    }
  }

  /**
   For every tree: each operator that uses memory has some, explicit sizes stay, the others all
   get the same amount, nothing else changes, and the budget is kept exactly as `Budget` says.
   */
  lemma {:induction false} MemoryIsShared(tree: OpNode, globalMemory: nat)
    requires globalMemory < SIZET
    ensures var s, s' := Sizes(tree), Sizes(Assigned(tree, globalMemory));
            && Strip(Assigned(tree, globalMemory)) == Strip(tree) && |s'| == |s|
            && (forall i | 0 <= i < |s| :: if s[i] == 0 then s'[i] >= FLOOR else s'[i] == s[i])
            && (forall i, j | 0 <= i < |s| && 0 <= j < |s| && s[i] == s[j] == 0 :: s'[i] == s'[j])
            && (Sum(s) < SIZET ==> Sum(s') <= Max(globalMemory, Sum(s) + FLOOR * Zeros(s)))
            && (Zeros(s) > 0 && Sum(s) + FLOOR * Zeros(s) <= globalMemory ==> Sum(s') > globalMemory - Zeros(s))
  {
    var s := Sizes(tree);
    NoZeros(s);
    if Zeros(s) > 0 {
      var share := Share(globalMemory, SizeT(Sum(s)), Zeros(s));
      DistributeFills(tree, share);
      DistributeStrips(tree, share);
      Budget(s, globalMemory);
    }
  }

  function Using(size: nat, sons: seq<OpNode>): OpNode {
    OpNode(KOperator(1, 0, sons), TYPEERROR, true, false, 0, 0, true, size)
  }

  /** The sizes -1, as `size_t` takes it, and 2 add up to 1, and the third operator gets nearly everything again. */
  lemma BudgetLost() returns (tree: OpNode)
    ensures Sizes(tree) == [-1 % SIZET, 2, 0]
    ensures Sum(Sizes(Assigned(tree, 512))) > Max(512, Sum(Sizes(tree)) + FLOOR * Zeros(Sizes(tree)))
  {
    var c := Using(0, []);
    var b := Using(2, [c]);
    tree := Using(-1 % SIZET, [b]);
    var s: seq<nat> := [SIZET - 1, 2, 0];
    assert [c][1..] == [] && [b][1..] == [];
    assert Sizes(c) == [0] && SizesOf([c]) == [0] && Sizes(b) == [2, 0] && SizesOf([b]) == [2, 0];
    assert Sizes(tree) == s;
    assert s[1..] == [2, 0] && s[1..][1..] == [0] && s[1..][1..][1..] == [];
    assert Sum([0]) == 0 && Sum([2, 0]) == 2 && Sum(s) == SIZET + 1;
    assert Zeros([0]) == 1 && Zeros([2, 0]) == 1 && Zeros(s) == 1;
    Budget(s, 512);
    DistributeFills(tree, Share(512, SizeT(Sum(s)), 1));
  }

  lemma Splice<T>(was: seq<T>, done: seq<T>, i: nat)
    requires |done| == |was| && i < |was|
    ensures var now := done[..i] + was[i..];
            now[i] == was[i] && now[i := done[i]] == done[..i + 1] + was[i + 1..]
  {}

  // ------------------------------------------------------------------- nodes in place

  class TreeNode {
    const head: OpNode // what the passes do not touch; its sons and memory size are not used
    var memorySize: nat
    var sons: seq<TreeNode>
    ghost var Repr: set<TreeNode>

    ghost predicate Valid()
      reads this, Repr
      decreases Repr
    {
      && this in Repr
      && (!head.kind.KOperator? ==> sons == [])
      && (forall i | 0 <= i < |sons| ::
            sons[i] in Repr && sons[i].Repr <= Repr && this !in sons[i].Repr && sons[i].Valid())
      && (forall i, j | 0 <= i < j < |sons| :: sons[i].Repr !! sons[j].Repr)
    }

    ghost function Tree(): OpNode
      requires Valid()
      reads this, Repr
      decreases Repr, |sons| + 1
    {
      if head.kind.KOperator?
      then head.(memorySize := memorySize, kind := head.kind.(sons := Trees(0)))
      else head
    }

    /** The trees of the sons from `k` on. */
    ghost function Trees(k: nat): (r: seq<OpNode>)
      requires Valid() && k <= |sons|
      reads this, Repr
      ensures |r| == |sons| - k
      decreases Repr, |sons| - k
    {
      if k == |sons| then [] else [sons[k].Tree()] + Trees(k + 1)
    }

    lemma {:induction false} TreesFrom(k: nat)
      requires Valid() && k <= |sons|
      ensures forall i | k <= i < |sons| :: Trees(k)[i - k] == sons[i].Tree()
      decreases |sons| - k
    {
      if k < |sons| { TreesFrom(k + 1); }
    }

    lemma TreesAt()
      requires Valid()
      ensures forall i | 0 <= i < |sons| :: sons[i].Tree() == Trees(0)[i]
    {
      TreesFrom(0);
      forall i | 0 <= i < |sons| ensures sons[i].Tree() == Trees(0)[i] {
        assert Trees(0)[i - 0] == sons[i].Tree();
      }
    }

    lemma TreesAre(ts: seq<OpNode>)
      requires Valid() && |ts| == |sons| && forall i | 0 <= i < |sons| :: sons[i].Tree() == ts[i]
      ensures Trees(0) == ts
    {
      TreesAt();
    }

    /** Adds up assigned memory and counts the operators without any; `sum` is exact, `spent` wraps. */
    method CountMemoryOperators(spentAlready: nat, ghost exact: nat) returns (memOps: nat, spent: nat, ghost sum: nat)
      requires Valid() && spentAlready == SizeT(exact)
      ensures Valid() && Tree() == old(Tree())
      ensures memOps == Zeros(Sizes(old(Tree())))
      ensures spent == SizeT(sum) && sum == exact + Sum(Sizes(old(Tree())))
      decreases Repr, 2
    {
      memOps, spent, sum := 0, spentAlready, exact;
      if head.kind.KOperator? {
        SizesOfRoot(Tree());
        if head.usesMemory {
          if memorySize == 0 {
            memOps := 1;
          } else {
            SizeTAdd(exact, memorySize);
            spent, sum := SizeT(spent + memorySize), exact + memorySize;
          }
        }
        var n;
        n, spent, sum := CountInSons(spent, sum, Trees(0));
        memOps := memOps + n;
      }
    }

    method CountInSons(spentAlready: nat, ghost exact: nat, ghost trees: seq<OpNode>)
      returns (memOps: nat, spent: nat, ghost sum: nat)
      requires Valid() && spentAlready == SizeT(exact) && Trees(0) == trees
      ensures Valid() && Trees(0) == trees
      ensures memOps == Zeros(SizesOf(trees)) && spent == SizeT(sum) && sum == exact + Sum(SizesOf(trees))
      decreases Repr, 1
    {
      memOps, spent, sum := 0, spentAlready, exact;
      for i := 0 to |sons|
        invariant Valid() && Trees(0) == trees && spent == SizeT(sum)
        invariant memOps + Zeros(SizesOf(trees[i..])) == Zeros(SizesOf(trees))
        invariant sum + Sum(SizesOf(trees[i..])) == exact + Sum(SizesOf(trees))
      {
        SizesOfSon(trees, i);
        var n;
        n, spent, sum := CountInSon(i, spent, sum, trees);
        memOps := memOps + n;
      }
    }

    method CountInSon(i: nat, spentAlready: nat, ghost exact: nat, ghost trees: seq<OpNode>)
      returns (memOps: nat, spent: nat, ghost sum: nat)
      requires Valid() && i < |sons| && spentAlready == SizeT(exact) && Trees(0) == trees
      ensures Valid() && Trees(0) == trees
      ensures memOps == Zeros(Sizes(trees[i])) && spent == SizeT(sum) && sum == exact + Sum(Sizes(trees[i]))
      decreases Repr, 0
    {
      TreesAt();
      memOps, spent, sum := sons[i].CountMemoryOperators(spentAlready, exact);
    }

    method DistributeMemory(perMemoryOperator: nat)
      requires Valid()
      modifies Repr
      ensures Valid() && Repr == old(Repr)
      ensures Tree() == Distribute(old(Tree()), perMemoryOperator)
      decreases Repr, 2
    {
      if head.kind.KOperator? {
        if head.usesMemory && memorySize == 0 {
          SetMemory(perMemoryOperator);
        }
        DistributeToSons(perMemoryOperator);
      }
    }

    method DistributeToSons(perMemoryOperator: nat)
      requires Valid()
      modifies Repr - {this}
      ensures Valid() && Trees(0) == DistributeOver(old(Trees(0)), perMemoryOperator)
      decreases Repr, 1
    {
      ghost var was := Trees(0);
      ghost var done := DistributeOver(was, perMemoryOperator);
      for i := 0 to |sons|
        invariant Valid() && Trees(0) == done[..i] + was[i..]
      {
        Splice(was, done, i);
        DistributeToSon(i, perMemoryOperator);
      }
      assert done[..|was|] + was[|was|..] == done;
    }

    method SetMemory(size: nat)
      requires Valid()
      modifies this`memorySize
      ensures Valid() && memorySize == size && Trees(0) == old(Trees(0))
    {
      TreesAt();
      ghost var was := Trees(0);
      memorySize := size;
      TreesAre(was);
    }

    /** The sons lie apart, so one of them can be updated without disturbing the others. */
    method DistributeToSon(i: nat, perMemoryOperator: nat)
      requires Valid() && i < |sons|
      modifies sons[i].Repr
      ensures Valid() && Repr == old(Repr) && sons == old(sons) && memorySize == old(memorySize)
      ensures Trees(0) == old(Trees(0))[i := Distribute(old(Trees(0))[i], perMemoryOperator)]
      decreases Repr, 0
    {
      ghost var was := Trees(0);
      TreesAt();
      sons[i].DistributeMemory(perMemoryOperator);
      TreesAre(was[i := Distribute(was[i], perMemoryOperator)]);
    }

    /** What Construct does once the tree is built; this node is its root. */
    method AssignMemory(globalMemory: nat)
      requires Valid() && globalMemory < SIZET
      modifies Repr
      ensures Valid() && Repr == old(Repr)
      ensures Tree() == Assigned(old(Tree()), globalMemory)
    {
      var noMemoryOperators, memorySpent, _ := CountMemoryOperators(0, 0);
      if noMemoryOperators > 0 {
        var perOperator := 0;
        if globalMemory > memorySpent {
          perOperator := (globalMemory - memorySpent) / noMemoryOperators;
        }
        if perOperator < FLOOR {
          perOperator := FLOOR;
        }
        DistributeMemory(perOperator);
      }
    }
  }
}
