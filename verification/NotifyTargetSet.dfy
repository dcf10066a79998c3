/** The set of listeners of src/devkit/data/NotifyTargetSet.hh: a list that is copied when it is changed
    while locked, so that whoever locked it goes on seeing the list as it was. */
module NotifyTargetSet {
  import opened Basics

  /** A listener, known by its address. */
  type Target = int

  // ----- What the set is for

  /** The listeners in the order they were added, and the lists seen at the locks, the latest first. */
  datatype View = View(live: seq<Target>, snapshots: seq<seq<Target>>)

  function Without(s: seq<Target>, t: Target): (r: seq<Target>)
    ensures t !in r && forall x :: x in r <==> x in s && x != t
  {
    if s == [] then []
    else if s[0] == t then Without(s[1..], t)
    else [s[0]] + Without(s[1..], t)
  }

  lemma {:induction false} WithoutAbsent(s: seq<Target>, t: Target)
    requires t !in s
    ensures Without(s, t) == s
  {
    if s != [] {
      WithoutAbsent(s[1..], t);
    }
  }

  lemma {:induction false} WithoutSkips(a: seq<Target>, t: Target, b: seq<Target>)
    requires t !in a && t !in b
    ensures Without(a + [t] + b, t) == a + b
  {
    if a == [] {
      assert ([t] + b)[1..] == b;
      WithoutAbsent(b, t);
    } else {
      assert (a + [t] + b)[1..] == a[1..] + [t] + b;
      WithoutSkips(a[1..], t, b);
    }
  }

  /** Finds a listener and erases it. */
  method Erased(s: seq<Target>, t: Target) returns (r: seq<Target>)
    requires Distinct(s)
    ensures r == Without(s, t) && Distinct(r)
  {
    var at := 0;
    while at < |s| && s[at] != t
      invariant at <= |s| && t !in s[..at]
    {
      at := at + 1;
    }
    if at == |s| {
      WithoutAbsent(s, t);
      return s;
    }
    assert s == s[..at] + [t] + s[at + 1..];
    WithoutSkips(s[..at], t, s[at + 1..]);
    r := s[..at] + s[at + 1..];
  }

  datatype Op = Add(t: Target) | Remove(t: Target) | Clear | Lock | LockIfNotEmpty | Unlock

  function Step(v: View, op: Op): View {
    match op
    case Add(t) => if t in v.live then v else v.(live := v.live + [t])
    case Remove(t) => v.(live := Without(v.live, t))
    case Clear => v.(live := [])
    case Lock => v.(snapshots := [v.live] + v.snapshots)
    case LockIfNotEmpty => if v.live == [] then v else v.(snapshots := [v.live] + v.snapshots)
    case Unlock => if v.snapshots == [] then v else v.(snapshots := v.snapshots[1..])
  }

  function Run(v: View, ops: seq<Op>): View {
    if ops == [] then v else Step(Run(v, ops[..|ops| - 1]), ops[|ops| - 1])
  }

  /** When a listener that is in the set now was added. */
  function AddedAt(ops: seq<Op>, t: Target): (n: int)
    ensures n < |ops|
  {
    if ops == [] then -1
    else
      var n := |ops| - 1;
      match ops[n]
      case Add(u) => if u == t && AddedAt(ops[..n], t) < 0 then n else AddedAt(ops[..n], t)
      case Remove(u) => if u == t then -1 else AddedAt(ops[..n], t)
      case Clear => -1
      case _ => AddedAt(ops[..n], t)
  }

  ghost predicate Before(s: seq<Target>, ops: seq<Op>) {
    forall i, j :: 0 <= i < j < |s| ==> AddedAt(ops, s[i]) < AddedAt(ops, s[j])
  }

  lemma {:induction false} WithoutKeepsOrder(s: seq<Target>, t: Target, ops: seq<Op>)
    requires Before(s, ops)
    ensures Before(Without(s, t), ops)
  {
    if s != [] {
      assert Before(s[1..], ops);
      WithoutKeepsOrder(s[1..], t, ops);
      var r := Without(s[1..], t);
      forall j | 0 <= j < |r| ensures AddedAt(ops, s[0]) < AddedAt(ops, r[j]) {
        assert r[j] in s[1..];
        var k :| 0 <= k < |s[1..]| && s[1..][k] == r[j];
        assert s[k + 1] == r[j];
      }
    }
  }

  lemma SameTimes(s: seq<Target>, ops: seq<Op>, later: seq<Op>)
    requires Before(s, ops) && forall t :: t in s ==> AddedAt(later, t) == AddedAt(ops, t)
    ensures Before(s, later)
  {
  }

  /** A list holds exactly the listeners that a run added and has not removed since, each once, in the order
      they were added. */
  ghost predicate InOrder(live: seq<Target>, ops: seq<Op>) {
    (forall t :: t in live <==> AddedAt(ops, t) >= 0) && Before(live, ops) && Distinct(live)
  }

  lemma AddKeepsOrder(live: seq<Target>, ops: seq<Op>, u: Target)
    requires InOrder(live, ops)
    ensures InOrder(if u in live then live else live + [u], ops + [Op.Add(u)])
  {
    var later := ops + [Op.Add(u)];
    assert later[..|ops|] == ops;
    SameTimes(live, ops, later);
  }

  lemma RemoveKeepsOrder(live: seq<Target>, ops: seq<Op>, u: Target)
    requires InOrder(live, ops)
    ensures InOrder(Without(live, u), ops + [Op.Remove(u)])
  {
    var later := ops + [Op.Remove(u)];
    assert later[..|ops|] == ops;
    WithoutKeepsOrder(live, u, ops);
    SameTimes(Without(live, u), ops, later);
  }

  lemma OtherKeepsOrder(live: seq<Target>, ops: seq<Op>, op: Op)
    requires InOrder(live, ops) && !op.Add? && !op.Remove?
    ensures InOrder(if op.Clear? then [] else live, ops + [op])
  {
    var later := ops + [op];
    assert later[..|ops|] == ops;
    if !op.Clear? {
      SameTimes(live, ops, later);
    }
  }

  /** After any run the live list is in order. */
  lemma {:induction false} LiveIsInsertionOrder(ops: seq<Op>)
    ensures InOrder(Run(View([], []), ops).live, ops)
  {
    if ops != [] {
      var rest, op := ops[..|ops| - 1], ops[|ops| - 1];
      LiveIsInsertionOrder(rest);
      assert ops == rest + [op];
      var live := Run(View([], []), rest).live;
      match op {
        case Add(u) => AddKeepsOrder(live, rest, u);
        case Remove(u) => RemoveKeepsOrder(live, rest, u);
        case _ => OtherKeepsOrder(live, rest, op);
      }
    }
  }

  /** The run never releases the locks that are held at the start. */
  ghost predicate KeepsLocks(v: View, ops: seq<Op>) {
    forall n :: 0 <= n <= |ops| ==> |Run(v, ops[..n]).snapshots| >= |v.snapshots|
  }

  lemma StepKeepsOlder(v: View, op: Op, n: nat)
    requires n <= |v.snapshots| && n <= |Step(v, op).snapshots|
    ensures Step(v, op).snapshots[|Step(v, op).snapshots| - n..] == v.snapshots[|v.snapshots| - n..]
  {
  }

  /** Whatever happens until it unlocks, a lock holder goes on seeing the list it locked. */
  lemma {:induction false} SnapshotsAreIsolated(v: View, ops: seq<Op>)
    requires KeepsLocks(v, ops)
    ensures var w := Run(v, ops);
            |w.snapshots| >= |v.snapshots| && w.snapshots[|w.snapshots| - |v.snapshots|..] == v.snapshots
  {
    if ops != [] {
      var n := |ops| - 1;
      assert forall i :: 0 <= i <= n ==> ops[..n][..i] == ops[..i];
      SnapshotsAreIsolated(v, ops[..n]);
      assert ops[..|ops|] == ops && |Run(v, ops[..|ops|]).snapshots| >= |v.snapshots|;
      StepKeepsOlder(Run(v, ops[..n]), ops[n], |v.snapshots|);
    }
  }

  // ----- The chain of nodes

  class TargetListNode {
    var vTargetList: seq<Target>
    var nLockCount: nat
    var pNext: TargetListNode?

    constructor (list: seq<Target>)
      ensures vTargetList == list && nLockCount == 0 && pNext == null
    {
      vTargetList, nLockCount, pNext := list, 0, null;
    }
  }

  /** A node and what it holds. */
  datatype NodeState = NodeState(node: TargetListNode, list: seq<Target>, locks: nat)

  /** The node a lock holder works on, and the list it sees there. */
  datatype Holder = Holder(node: TargetListNode, list: seq<Target>)

  /** The lock holders of a chain, the latest first: those of the first node, then those of the next ones. */
  ghost function Holders(chain: seq<NodeState>): seq<Holder>
    decreases |chain|, if chain == [] then 0 else chain[0].locks
  {
    if chain == [] then []
    else if chain[0].locks == 0 then Holders(chain[1..])
    else [Holder(chain[0].node, chain[0].list)] + Holders([chain[0].(locks := chain[0].locks - 1)] + chain[1..])
  }

  ghost function Lists(holders: seq<Holder>): (r: seq<seq<Target>>)
    ensures |r| == |holders| && forall i :: 0 <= i < |r| ==> r[i] == holders[i].list
  {
    seq(|holders|, i requires 0 <= i < |holders| => holders[i].list)
  }

  ghost function TotalLocks(chain: seq<NodeState>): nat {
    if chain == [] then 0 else chain[0].locks + TotalLocks(chain[1..])
  }

  /** The lock counts add up to the number of lock holders. */
  lemma {:induction false} LocksAddUp(chain: seq<NodeState>)
    ensures |Holders(chain)| == TotalLocks(chain)
    decreases |chain|, if chain == [] then 0 else chain[0].locks
  {
    if chain != [] {
      if chain[0].locks == 0 {
        LocksAddUp(chain[1..]);
      } else {
        var less := [chain[0].(locks := chain[0].locks - 1)] + chain[1..];
        assert less[1..] == chain[1..];
        LocksAddUp(less);
      }
    }
  }

  /** Every node behind the first one is locked. */
  ghost predicate OnlyFirstUnlocked(chain: seq<NodeState>) {
    forall i :: 1 <= i < |chain| ==> chain[i].locks > 0
  }

  /** A holder's node is in the chain, with the list the holder sees and a lock. */
  lemma {:induction false} HolderIsInChain(chain: seq<NodeState>, a: nat) returns (i: nat)
    requires a < |Holders(chain)|
    ensures i < |chain| && chain[i].node == Holders(chain)[a].node && chain[i].list == Holders(chain)[a].list
            && chain[i].locks > 0
    decreases |chain|, if chain == [] then 0 else chain[0].locks
  {
    if chain[0].locks == 0 {
      i := HolderIsInChain(chain[1..], a);
      i := i + 1;
    } else if a == 0 {
      i := 0;
    } else {
      i := HolderIsInChain([chain[0].(locks := chain[0].locks - 1)] + chain[1..], a - 1);
    }
  }

  lemma PutInFront(node: NodeState, chain: seq<NodeState>)
    requires node.locks == 0
    ensures Holders([node] + chain) == Holders(chain)
  {
    assert ([node] + chain)[1..] == chain;
  }

  lemma UnlockFirst(chain: seq<NodeState>)
    requires chain != [] && chain[0].locks > 0
    ensures Holders(chain) ==
            [Holder(chain[0].node, chain[0].list)] + Holders(chain[0 := chain[0].(locks := chain[0].locks - 1)])
  {
    assert [chain[0].(locks := chain[0].locks - 1)] + chain[1..] == chain[0 := chain[0].(locks := chain[0].locks - 1)];
  }

  lemma UnlockSecond(chain: seq<NodeState>)
    requires |chain| > 1 && chain[0].locks == 0 && chain[1].locks > 0
    ensures Holders(chain) ==
            [Holder(chain[1].node, chain[1].list)] + Holders(chain[1 := chain[1].(locks := chain[1].locks - 1)])
  {
    var less := chain[1 := chain[1].(locks := chain[1].locks - 1)];
    UnlockFirst(chain[1..]);
    assert less[1..] == chain[1..][0 := less[1]];
  }

  class NotifyTargetSet {
    var pTargetList: TargetListNode?
    ghost var chain: seq<NodeState>

    ghost function Nodes(): set<TargetListNode>
      reads this
    {
      set i | 0 <= i < |chain| :: chain[i].node
    }

    ghost predicate NodeHolds(i: nat)
      requires i < |chain|
      reads this, Nodes()
    {
      var node := chain[i].node;
      && node.vTargetList == chain[i].list && node.nLockCount == chain[i].locks
      && node.pNext == (if i + 1 < |chain| then chain[i + 1].node else null)
    }

    ghost predicate Linked()
      reads this, Nodes()
    {
      && pTargetList == (if chain == [] then null else chain[0].node)
      && (forall i, j :: 0 <= i < j < |chain| ==> chain[i].node != chain[j].node)
      && (forall i :: 0 <= i < |chain| ==> NodeHolds(i))
      && (chain != [] ==> Distinct(chain[0].list))
    }

    ghost predicate Valid()
      reads this, Nodes()
    {
      Linked() && OnlyFirstUnlocked(chain)
    }

    ghost function Contents(): View
      reads this
    {
      View(if chain == [] then [] else chain[0].list, Lists(Holders(chain)))
    }

    constructor ()
      ensures Valid() && Contents() == View([], []) && Nodes() == {}
    {
      pTargetList, chain := null, [];
    }

    /** Changes the list of the first node, which nobody may be looking at. */
    method SetList(list: seq<Target>)
      requires Valid() && chain != [] && chain[0].locks == 0 && Distinct(list)
      modifies this`chain, chain[0].node`vTargetList
      ensures Valid() && chain == old(chain)[0 := old(chain)[0].(list := list)]
      ensures Nodes() == old(Nodes())
      ensures Holders(chain) == old(Holders(chain))
    {
      assert NodeHolds(0);
      pTargetList.vTargetList := list;
      chain := chain[0 := chain[0].(list := list)];
      Renewed();
      forall i | 0 <= i < |chain| ensures NodeHolds(i) {
        assert old(NodeHolds(i));
      }
    }

    /** Puts an unlocked copy in front when the list is locked; leaves everything as it is otherwise. */
    method EnsureMutable()
      requires Valid() && chain != []
      modifies this
      ensures if old(chain)[0].locks == 0 then chain == old(chain)
              else |chain| > 0 && fresh(chain[0].node) && chain[1..] == old(chain)
      ensures Valid() && chain != [] && chain[0].locks == 0 && chain[0].list == old(chain)[0].list
      ensures fresh(Nodes() - old(Nodes()))
      ensures Holders(chain) == old(Holders(chain))
    {
      assert NodeHolds(0);
      if pTargetList.nLockCount > 0 {
        var node := new TargetListNode(pTargetList.vTargetList);
        node.pNext := pTargetList;
        PutInFront(NodeState(node, pTargetList.vTargetList, 0), chain);
        chain := [NodeState(node, pTargetList.vTargetList, 0)] + chain;
        pTargetList := node;
        forall i | 0 <= i < |chain| ensures NodeHolds(i) {
          assert i > 0 ==> old(NodeHolds(i - 1)) && chain[i] == old(chain)[i - 1];
        }
      }
    }

    method Add(t: Target)
      requires Valid()
      modifies this, Nodes()
      ensures Valid() && Contents() == Step(old(Contents()), Op.Add(t)) && fresh(Nodes() - old(Nodes()))
      ensures Holders(chain) == old(Holders(chain))
    {
      if pTargetList == null {
        pTargetList := new TargetListNode([]);
        chain := [NodeState(pTargetList, [], 0)];
      } else {
        assert NodeHolds(0);
        if t in pTargetList.vTargetList {
          return;
        }
        EnsureMutable();
      }
      assert NodeHolds(0);
      SetList(pTargetList.vTargetList + [t]);
    }

    method Remove(t: Target)
      requires Valid()
      modifies this, Nodes()
      ensures Valid() && Contents() == Step(old(Contents()), Op.Remove(t)) && fresh(Nodes() - old(Nodes()))
      ensures Holders(chain) == old(Holders(chain))
    {
      if pTargetList == null {
        return;
      }
      assert NodeHolds(0);
      if t !in pTargetList.vTargetList {
        WithoutAbsent(pTargetList.vTargetList, t);
        return;
      }
      EnsureMutable();
      assert NodeHolds(0);
      var list := Erased(pTargetList.vTargetList, t);
      SetList(list);
    }

    method Clear()
      requires Valid()
      modifies this, Nodes()
      ensures Valid() && Contents() == Step(old(Contents()), Op.Clear) && fresh(Nodes() - old(Nodes()))
      ensures Holders(chain) == old(Holders(chain))
    {
      if pTargetList != null {
        EnsureMutable();
        SetList([]);
      }
    }

    /** The nodes of the chain are the ones they were. */
    twostate lemma Renewed()
      requires |chain| == |old(chain)| && forall i :: 0 <= i < |chain| ==> chain[i].node == old(chain)[i].node
      ensures Nodes() == old(Nodes())
    {
      assert forall n :: n in Nodes() ==> exists i :: 0 <= i < |chain| && old(chain)[i].node == n;
      forall n | n in old(Nodes()) ensures n in Nodes() {
        var i :| 0 <= i < |old(chain)| && old(chain)[i].node == n;
        assert chain[i].node == n;
      }
    }

    // ----- Locks

    method CountLock()
      requires Valid() && chain != []
      modifies this`chain, chain[0].node`nLockCount
      ensures Valid() && chain == old(chain)[0 := old(chain)[0].(locks := old(chain)[0].locks + 1)]
      ensures Nodes() == old(Nodes())
      ensures Holders(chain) == [Holder(chain[0].node, chain[0].list)] + old(Holders(chain))
    {
      assert NodeHolds(0);
      pTargetList.nLockCount := pTargetList.nLockCount + 1;
      chain := chain[0 := chain[0].(locks := chain[0].locks + 1)];
      Renewed();
      forall i | 0 <= i < |chain| ensures NodeHolds(i) {
        assert old(NodeHolds(i));
      }
    }

    method LockIfNotEmpty() returns (locked: bool)
      requires Valid()
      modifies this`chain, Nodes()
      ensures Valid() && Nodes() == old(Nodes())
      ensures Contents() == Step(old(Contents()), Op.LockIfNotEmpty)
      ensures locked <==> old(Contents()).live != []
      ensures locked ==> Holders(chain) == [Holder(chain[0].node, chain[0].list)] + old(Holders(chain))
      ensures !locked ==> Holders(chain) == old(Holders(chain))
    {
      if pTargetList == null {
        return false;
      }
      assert NodeHolds(0);
      if pTargetList.vTargetList == [] {
        return false;
      }
      CountLock();
      return true;
    }

    method Lock()
      requires Valid()
      modifies this, Nodes()
      ensures Valid() && fresh(Nodes() - old(Nodes()))
      ensures Contents() == Step(old(Contents()), Op.Lock)
      ensures Holders(chain) == [Holder(chain[0].node, chain[0].list)] + old(Holders(chain))
    {
      if pTargetList == null {
        pTargetList := new TargetListNode([]);
        chain := [NodeState(pTargetList, [], 0)];
      }
      CountLock();
    }

    method UncountLock()
      requires Valid() && chain != [] && chain[0].locks > 0
      modifies this`chain, chain[0].node`nLockCount
      ensures Valid() && chain == old(chain)[0 := old(chain)[0].(locks := old(chain)[0].locks - 1)]
      ensures Nodes() == old(Nodes())
      ensures old(Holders(chain)) == [Holder(chain[0].node, chain[0].list)] + Holders(chain)
    {
      UnlockFirst(chain);
      assert NodeHolds(0);
      pTargetList.nLockCount := pTargetList.nLockCount - 1;
      chain := chain[0 := chain[0].(locks := chain[0].locks - 1)];
      Renewed();
      forall i | 0 <= i < |chain| ensures NodeHolds(i) {
        assert old(NodeHolds(i));
      }
    }

    method DropNext()
      requires Linked() && |chain| > 1 && chain[0].locks == 0 && chain[1].locks == 0
      requires forall i :: 2 <= i < |chain| ==> chain[i].locks > 0
      modifies this`chain, chain[0].node`pNext
      ensures Valid() && Nodes() <= old(Nodes()) && chain == [old(chain)[0]] + old(chain)[2..]
      ensures Holders(chain) == old(Holders(chain))
    {
      assert NodeHolds(0) && NodeHolds(1);
      pTargetList.pNext := pTargetList.pNext.pNext;
      chain := [chain[0]] + chain[2..];
      forall i | 0 <= i < |chain| ensures NodeHolds(i) {
        assert old(NodeHolds(if i == 0 then 0 else i + 1));
      }
    }

    method UnlockNext()
      requires Valid() && |chain| > 1 && chain[0].locks == 0
      modifies this`chain, Nodes()
      ensures Valid() && Nodes() <= old(Nodes()) && |chain| > 0
      ensures old(Holders(chain)) != [] && Holders(chain) == old(Holders(chain))[1..]
      ensures chain[0].list == old(chain)[0].list
    {
      UnlockSecond(chain);
      assert NodeHolds(0) && NodeHolds(1);
      var next := pTargetList.pNext;
      next.nLockCount := next.nLockCount - 1;
      chain := chain[1 := chain[1].(locks := chain[1].locks - 1)];
      Renewed();
      forall i | 0 <= i < |chain| ensures NodeHolds(i) {
        assert old(NodeHolds(i));
      }
      if next.nLockCount == 0 {
        DropNext();
      }
    }

    /** Releases the latest lock; a node nobody holds any more is dropped. */
    method Unlock()
      requires Valid()
      modifies this`chain, Nodes()
      ensures Valid() && Nodes() <= old(Nodes())
      ensures Contents() == Step(old(Contents()), Op.Unlock)
      ensures old(Holders(chain)) != [] ==> Holders(chain) == old(Holders(chain))[1..]
      ensures old(Holders(chain)) == [] ==> chain == old(chain)
    {
      if pTargetList == null {
        return;
      }
      assert NodeHolds(0);
      if pTargetList.nLockCount > 0 {
        UncountLock();
      } else if pTargetList.pNext != null {
        UnlockNext();
      }
    }

    // ----- Queries

    /** The list a holder sees is the list of its node, which is still there. */
    lemma HolderSeesItsList(a: nat)
      requires Valid() && a < |Holders(chain)|
      ensures Holders(chain)[a].node in Nodes()
      ensures Holders(chain)[a].node.vTargetList == Holders(chain)[a].list
      ensures Holders(chain)[a].node.nLockCount > 0
    {
      var i := HolderIsInChain(chain, a);
      assert NodeHolds(i);
    }

    /** When nothing is locked, one node is left at most, and it is not locked. */
    lemma UnlockedIsOneNode()
      requires Valid() && Holders(chain) == []
      ensures |chain| <= 1 && (pTargetList != null ==> pTargetList.nLockCount == 0 && pTargetList.pNext == null)
    {
      if chain != [] {
        assert NodeHolds(0);
      }
    }

    method IsEmpty() returns (r: bool)
      requires Valid()
      ensures r <==> Contents().live == []
    {
      if pTargetList != null {
        assert NodeHolds(0);
      }
      r := pTargetList == null || pTargetList.vTargetList == [];
    }
  }
}
