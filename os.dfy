/**
 * The inline primitives of samd21/os.h: the nested interrupt-disable
 * counter, and the sentinel doubly linked list (also used, name for name,
 * by samd21/list.h).
 */
module Os {
  import opened Machine

  /**
   * OS_InterruptDisable/OS_InterruptEnable: a uint8_t nesting count, and
   * whether the processor's interrupts are on.  Disabling always turns
   * interrupts off; enabling turns them on only when the count returns to 0.
   */
  class InterruptState {
    var count: U8
    var enabled: bool

    /** Interrupts on and nothing nested (the state out of reset). */
    constructor ()
      ensures count == 0 && enabled
    {
      count := 0;
      enabled := true;
    }

    /** OS_IsInterruptsDisabled */
    predicate IsDisabled()
      reads this
    {
      count > 0
    }

    /** OS_InterruptDisable */
    method Disable()
      modifies this
      ensures (count, enabled) == DisableStep(old(count), old(enabled))
    {
      enabled := false;
      count := ToU8(count + 1);
    }

    /** OS_InterruptEnable */
    method Enable()
      modifies this
      ensures (count, enabled) == EnableStep(old(count), old(enabled))
    {
      count := ToU8(count - 1);
      if count == 0 {
        enabled := true;
      }
    }
  }

  /** The effect of OS_InterruptDisable on (count, enabled): the count wraps at 256. */
  function DisableStep(count: U8, enabled: bool): (r: (U8, bool))
    ensures !r.1 && (count < 0xFF ==> r.0 == count + 1)
  {
    (ToU8(count + 1), false)
  }

  /** The effect of OS_InterruptEnable on (count, enabled): the count wraps below 0. */
  function EnableStep(count: U8, enabled: bool): (r: (U8, bool))
    ensures count > 0 ==> r.0 == count - 1
    ensures r.1 <==> enabled || count == 1
  {
    var c := ToU8(count - 1);
    (c, if c == 0 then true else enabled)
  }

  /** k nested disables. */
  function Disables(s: (U8, bool), k: nat): (U8, bool)
    decreases k
  {
    if k == 0 then s else Disables(DisableStep(s.0, s.1), k - 1)
  }

  /** j enables. */
  function Enables(s: (U8, bool), j: nat): (U8, bool)
    decreases j
  {
    if j == 0 then s else Enables(EnableStep(s.0, s.1), j - 1)
  }

  /** k nested disables from depth c (k > 0, no wrap) leave interrupts off at depth c + k. */
  lemma {:induction false} DisablesNest(c: U8, e: bool, k: nat)
    requires 0 < k && c + k < 0x100
    ensures Disables((c, e), k) == (c + k, false)
    decreases k
  {
    if k > 1 {
      DisablesNest(c + 1, false, k - 1);
    }
  }

  /** From depth d with interrupts off, j <= d enables leave them off until the j-th returns the depth to 0. */
  lemma {:induction false} EnablesUnnest(d: U8, j: nat)
    requires j <= d
    ensures Enables((d, false), j) == (d - j, d == j && j > 0)
    decreases j
  {
    if j > 0 {
      EnablesUnnest(d - 1, j - 1);
    }
  }

  /**
   * Nested critical sections: from interrupts on and depth 0, k disables
   * (fewer than 256) followed by j <= k enables leave interrupts on exactly
   * when every disable has been matched.
   */
  lemma NestedCriticalSections(k: nat, j: nat)
    requires 0 < k < 0x100 && j <= k
    ensures Enables(Disables((0, true), k), j).1 <==> j == k
  {
    DisablesNest(0, true, k);
    EnablesUnnest(k, j);
  }

  /** A node address; NULL is 0 and nodes live at positive addresses. */
  type Addr = int
  const NULL: Addr := 0
  /** &List->Head: the list header seen as the node before the first. */
  const HEAD: Addr := -1
  /** &List->Tail: the list header seen as the node after the last. */
  const TAIL: Addr := -2

  predicate Distinct(nodes: seq<Addr>)
  {
    forall i, j :: 0 <= i < j < |nodes| ==> nodes[i] != nodes[j]
  }

  /** Node addresses: positive and pairwise distinct. */
  predicate Addresses(nodes: seq<Addr>)
  {
    (forall i :: 0 <= i < |nodes| ==> nodes[i] > 0) && Distinct(nodes)
  }

  /**
   * Head, TailPred and the nodes' Succ/Pred words link the chain HEAD,
   * nodes..., TAIL in both directions: Head is the first node (TAIL when
   * there is none), TailPred the last (HEAD when there is none), and
   * neighbours point at each other.
   */
  predicate Linked(nodes: seq<Addr>, head: Addr, tailPred: Addr, succ: map<Addr, Addr>, pred: map<Addr, Addr>)
  {
    (forall i :: 0 <= i < |nodes| ==> nodes[i] in succ && nodes[i] in pred)
    && (nodes == [] ==> head == TAIL && tailPred == HEAD)
    && (nodes != [] ==>
          head == nodes[0] && pred[nodes[0]] == HEAD
          && tailPred == nodes[|nodes| - 1] && succ[nodes[|nodes| - 1]] == TAIL)
    && (forall i :: 0 <= i < |nodes| - 1 ==> succ[nodes[i]] == nodes[i + 1] && pred[nodes[i + 1]] == nodes[i])
  }

  /** The links OS_ListAddHead writes make the node the new first one. */
  lemma AddHeadLinks(ns: seq<Addr>, head: Addr, tailPred: Addr, succ: map<Addr, Addr>, pred: map<Addr, Addr>, n: Addr)
    requires Addresses(ns) && Linked(ns, head, tailPred, succ, pred) && n > 0 && n !in ns
    ensures var succ1 := succ[n := head];
      var pred1 := pred[n := HEAD];
      if ns == [] then Linked([n], n, n, succ1, pred1)
      else Linked([n] + ns, n, tailPred, succ1, pred1[head := n])
  {
    var ms := [n] + ns;
    assert forall i :: 1 <= i < |ms| ==> ms[i] == ns[i - 1];
  }

  /** The links OS_ListAddTail writes make the node the new last one. */
  lemma AddTailLinks(ns: seq<Addr>, head: Addr, tailPred: Addr, succ: map<Addr, Addr>, pred: map<Addr, Addr>, n: Addr)
    requires Addresses(ns) && Linked(ns, head, tailPred, succ, pred) && n > 0 && n !in ns
    ensures var succ1 := succ[n := TAIL];
      var pred1 := pred[n := tailPred];
      if ns == [] then Linked([n], n, n, succ1, pred1)
      else Linked(ns + [n], head, n, succ1[tailPred := n], pred1)
  {
    var ms := ns + [n];
    assert forall i :: 0 <= i < |ns| ==> ms[i] == ns[i];
  }

  /** The links OS_ListRemove writes around the node at position k leave the others linked in order. */
  lemma RemoveLinks(ns: seq<Addr>, head: Addr, tailPred: Addr, succ: map<Addr, Addr>, pred: map<Addr, Addr>, k: nat)
    requires Addresses(ns) && Linked(ns, head, tailPred, succ, pred) && k < |ns|
    ensures var p := if k == 0 then HEAD else ns[k - 1];
      var s := if k == |ns| - 1 then TAIL else ns[k + 1];
      var head1 := if p == HEAD then s else head;
      var succ1 := if p == HEAD then succ else succ[p := s];
      var tailPred1 := if s == TAIL then p else tailPred;
      var pred1 := if s == TAIL then pred else pred[s := p];
      var ms := ns[..k] + ns[k + 1..];
      Addresses(ms) && Linked(ms, head1, tailPred1, succ1, pred1)
  {
    var ms := ns[..k] + ns[k + 1..];
    assert forall i :: 0 <= i < k ==> ms[i] == ns[i];
    assert forall i :: k <= i < |ms| ==> ms[i] == ns[i + 1];
  }

  /**
   * OS_List_t with the links of the nodes on it.  The header's three words
   * overlap two pseudo-nodes: HEAD (Succ = Head, Pred = Tail) and TAIL
   * (Succ = Tail, Pred = TailPred); Tail is always NULL.  `nodes` is the
   * order of the nodes on the list.
   */
  class List {
    var head: Addr
    var tail: Addr
    var tailPred: Addr
    var succ: map<Addr, Addr>
    var pred: map<Addr, Addr>
    ghost var nodes: seq<Addr>

    /** Node x's Succ word, where the header's words stand in for HEAD and TAIL. */
    function Succ(x: Addr): Addr
      reads this
    {
      if x == HEAD then head else if x == TAIL then tail else if x in succ then succ[x] else NULL
    }

    /** Node x's Pred word. */
    function Pred(x: Addr): Addr
      reads this
    {
      if x == HEAD then tail else if x == TAIL then tailPred else if x in pred then pred[x] else NULL
    }

    /** The links form the chain HEAD, nodes..., TAIL in both directions. */
    ghost predicate Valid()
      reads this
    {
      tail == NULL && Addresses(nodes) && Linked(nodes, head, tailPred, succ, pred)
    }

    /** OS_ListInit: an empty list. */
    constructor ()
      ensures Valid() && nodes == []
    {
      head, tail, tailPred := TAIL, NULL, HEAD;
      succ, pred := map[], map[];
      nodes := [];
    }

    /** OS_ListIsEmpty */
    method IsEmpty() returns (b: bool)
      requires Valid()
      ensures b <==> nodes == []
    {
      b := tailPred == HEAD;
    }

    /** OS_ListHead: the first node, or NULL on an empty list. */
    method First() returns (n: Addr)
      requires Valid()
      ensures n == if nodes == [] then NULL else nodes[0]
    {
      var empty := IsEmpty();
      n := if empty then NULL else head;
    }

    /** OS_ListTail: the last node, or NULL on an empty list. */
    method Last() returns (n: Addr)
      requires Valid()
      ensures n == if nodes == [] then NULL else nodes[|nodes| - 1]
    {
      var empty := IsEmpty();
      n := if empty then NULL else tailPred;
    }

    /** LIST_NextNode (samd21/list.h): the node after x, or TAIL after the last. */
    function Next(x: Addr): (r: Addr)
      requires Valid()
      reads this
      ensures forall i :: 0 <= i < |nodes| && nodes[i] == x ==> r == if i + 1 < |nodes| then nodes[i + 1] else TAIL
    {
      Succ(x)
    }

    /** Writes node x's Succ word. */
    method SetSucc(x: Addr, v: Addr)
      modifies this`head, this`tail, this`succ
      ensures head == (if x == HEAD then v else old(head)) && tail == (if x == TAIL then v else old(tail))
      ensures succ == if x == HEAD || x == TAIL then old(succ) else old(succ)[x := v]
    {
      if x == HEAD {
        head := v;
      } else if x == TAIL {
        tail := v;
      } else {
        succ := succ[x := v];
      }
    }

    /** Writes node x's Pred word. */
    method SetPred(x: Addr, v: Addr)
      modifies this`tail, this`tailPred, this`pred
      ensures tail == (if x == HEAD then v else old(tail)) && tailPred == (if x == TAIL then v else old(tailPred))
      ensures pred == if x == HEAD || x == TAIL then old(pred) else old(pred)[x := v]
    {
      if x == HEAD {
        tail := v;
      } else if x == TAIL {
        tailPred := v;
      } else {
        pred := pred[x := v];
      }
    }

    /** OS_ListAddHead: the node becomes the first; the others keep their order. */
    method AddHead(n: Addr)
      requires Valid() && n > 0 && n !in nodes
      modifies this
      ensures Valid() && nodes == [n] + old(nodes)
    {
      AddHeadLinks(nodes, head, tailPred, succ, pred, n);
      var first := head;
      SetSucc(n, first);
      SetPred(n, HEAD);
      SetPred(first, n);
      SetSucc(HEAD, n);
      nodes := [n] + nodes;
    }

    /** OS_ListAddTail: the node becomes the last; the others keep their order. */
    method AddTail(n: Addr)
      requires Valid() && n > 0 && n !in nodes
      modifies this
      ensures Valid() && nodes == old(nodes) + [n]
    {
      AddTailLinks(nodes, head, tailPred, succ, pred, n);
      var last := tailPred;
      SetSucc(n, TAIL);
      SetPred(n, last);
      SetSucc(last, n);
      SetPred(TAIL, n);
      nodes := nodes + [n];
    }

    /** OS_ListRemove: the node at position k is unlinked; the others keep their order. */
    method Remove(n: Addr)
      requires Valid() && n in nodes
      modifies this
      ensures Valid()
      ensures exists k :: 0 <= k < |old(nodes)| && old(nodes)[k] == n && nodes == old(nodes)[..k] + old(nodes)[k + 1..]
    {
      ghost var k :| 0 <= k < |nodes| && nodes[k] == n;
      RemoveLinks(nodes, head, tailPred, succ, pred, k);
      var p := Pred(n);
      var s := Succ(n);
      assert p == if k == 0 then HEAD else nodes[k - 1];
      assert s == if k == |nodes| - 1 then TAIL else nodes[k + 1];
      SetSucc(p, s);
      SetPred(s, p);
      nodes := nodes[..k] + nodes[k + 1..];
    }

    /** OS_ListRemoveHead: NULL on an empty list, else the first node, unlinked. */
    method RemoveHead() returns (n: Addr)
      requires Valid()
      modifies this
      ensures Valid()
      ensures old(nodes) == [] ==> n == NULL && nodes == []
      ensures old(nodes) != [] ==> n == old(nodes)[0] && nodes == old(nodes)[1..]
    {
      n := First();
      if n != NULL {
        Remove(n);
      }
    }

    /** OS_ListRemoveTail: NULL on an empty list, else the last node, unlinked. */
    method RemoveTail() returns (n: Addr)
      requires Valid()
      modifies this
      ensures Valid()
      ensures old(nodes) == [] ==> n == NULL && nodes == []
      ensures old(nodes) != [] ==> n == old(nodes)[|old(nodes)| - 1] && nodes == old(nodes)[..|old(nodes)| - 1]
    {
      n := Last();
      if n != NULL {
        Remove(n);
      }
    }
  }
}
