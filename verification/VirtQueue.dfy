/** The split virtqueue: descriptor table with its free list, available ring and used ring
(section 2.6, "Split Virtqueues", of VIRTIO 1.1).
 */
module VirtQueue {

  /** A descriptor; `hasNext` and `write` are the NEXT and WRITE flags. */
  datatype Desc = Desc(addr: nat, len: nat, hasNext: bool, write: bool, next: nat)

  datatype Buf = Buf(addr: nat, len: nat)

  type Table = seq<Desc>

  // The lists threaded through the table.

  predicate InTable(t: Table, xs: seq<nat>) { forall i :: 0 <= i < |xs| ==> xs[i] < |t| }

  /** Following `next` from each element of `xs` leads to the following one. */
  predicate Linked(t: Table, xs: seq<nat>) {
    InTable(t, xs) && forall i :: 0 <= i < |xs| - 1 ==> t[xs[i]].next == xs[i + 1]
  }

  /** A buffer chain as the device sees it: NEXT is set on all descriptors but the last. */
  predicate Chain(t: Table, xs: seq<nat>) {
    xs != [] && Linked(t, xs) && forall i :: 0 <= i < |xs| ==> (t[xs[i]].hasNext <==> i < |xs| - 1)
  }

  predicate FreeList(t: Table, head: nat, xs: seq<nat>) {
    Linked(t, xs) && (xs != [] ==> xs[0] == head)
  }

  function Members(chains: seq<seq<nat>>): multiset<nat> {
    if chains == [] then multiset{} else multiset(chains[0]) + Members(chains[1..])
  }

  predicate Below(i: nat, n: nat) { i < n }

  function Indices(n: nat): set<nat> { set i: nat | i < n && Below(i, n) }

  /** Every descriptor is at exactly one position of the lists. */
  predicate Spread(lists: seq<seq<nat>>, n: nat) { Members(lists) == multiset(Indices(n)) }

  /** The free list and the in-flight chains are genuine lists, and every descriptor is on
      exactly one of them. */
  ghost predicate Partition(t: Table, head: nat, avail: seq<nat>, chains: seq<seq<nat>>) {
    && FreeList(t, head, avail)
    && (forall j :: 0 <= j < |chains| ==> Chain(t, chains[j]))
    && Spread([avail] + chains, |t|)
  }

  function Last(xs: seq<nat>): nat
    requires xs != []
  {
    xs[|xs| - 1]
  }

  // Recycling a chain.

  function Without(chains: seq<seq<nat>>, j: nat): seq<seq<nat>>
    requires j < |chains|
  {
    chains[..j] + chains[j + 1..]
  }

  /** The descriptor just before `head`, cyclically, whose `next` the recycling also rewrites. */
  function Before(head: nat, n: nat): nat {
    if head > 0 then head - 1 else if n > 0 then n - 1 else 0
  }

  function SetNext(t: Table, i: nat, next: nat): Table
    requires i < |t|
  {
    t[i := t[i].(next := next)]
  }

  /** The table after `recycle_descriptors` has put `chain` in front of a free list that began at `head`. */
  function Recycled(t: Table, head: nat, chain: seq<nat>): Table
    requires chain != [] && InTable(t, chain)
  {
    SetNext(SetNext(t, Before(chain[0], |t|), chain[0]), Last(chain), head)
  }

  ghost predicate LastOf(x: nat, xs: seq<nat>) { xs != [] && x == Last(xs) }

  /** The condition under which recycling chain `j` does no harm: the descriptor before its head
      is the last one of whichever list it is on. */
  ghost predicate SafeToRecycle(n: nat, avail: seq<nat>, chains: seq<seq<nat>>, j: nat)
    requires j < |chains| && chains[j] != []
  {
    var p := Before(chains[j][0], n);
    LastOf(p, avail) || exists k :: 0 <= k < |chains| && LastOf(p, chains[k])
  }

  lemma Twice(xs: seq<nat>, i: nat, j: nat)
    requires i < j < |xs| && xs[i] == xs[j]
    ensures multiset(xs)[xs[i]] >= 2
  {
    assert xs == xs[..i] + [xs[i]] + xs[i + 1..j] + [xs[j]] + xs[j + 1..];
  }

  lemma {:induction false} MemberOf(chains: seq<seq<nat>>, j: nat)
    requires j < |chains|
    ensures Members(chains) == multiset(chains[j]) + Members(Without(chains, j))
    decreases chains
  {
    if j == 0 {
      assert Without(chains, 0) == chains[1..];
    } else {
      MemberOf(chains[1..], j - 1);
      assert Without(chains, j)[1..] == Without(chains[1..], j - 1);
      assert Without(chains, j)[0] == chains[0];
    }
  }

  lemma {:induction false} DupAcross(lists: seq<seq<nat>>, k: nat, l: nat, x: nat)
    requires k < l < |lists| && x in lists[k] && x in lists[l]
    ensures Members(lists)[x] >= 2
  {
    MemberOf(lists, l);
    assert Without(lists, l)[k] == lists[k];
    MemberOf(Without(lists, l), k);
  }

  /** Distinct positions hold distinct descriptors. */
  lemma SamePlace(lists: seq<seq<nat>>, n: nat, k: nat, i: nat, l: nat, j: nat)
    requires Spread(lists, n)
    requires k < |lists| && i < |lists[k]| && l < |lists| && j < |lists[l]|
    requires lists[k][i] == lists[l][j]
    ensures k == l && i == j
  {
    var x := lists[k][i];
    assert Members(lists)[x] <= 1;
    if k < l {
      DupAcross(lists, k, l, x);
    } else if l < k {
      DupAcross(lists, l, k, x);
    } else if i != j {
      MemberOf(lists, k);
      if i < j { Twice(lists[k], i, j); } else { Twice(lists[k], j, i); }
    }
  }

  lemma Apart(lists: seq<seq<nat>>, n: nat, k: nat, i: nat, l: nat, j: nat)
    requires Spread(lists, n) && (k != l || i != j)
    requires k < |lists| && i < |lists[k]| && l < |lists| && j < |lists[l]|
    ensures lists[k][i] != lists[l][j]
  {
    if lists[k][i] == lists[l][j] { SamePlace(lists, n, k, i, l, j); }
  }

  lemma {:induction false} FindMember(lists: seq<seq<nat>>, x: nat) returns (k: nat, i: nat)
    requires x in Members(lists)
    ensures k < |lists| && i < |lists[k]| && lists[k][i] == x
    decreases lists
  {
    if x in lists[0] {
      k := 0;
      i :| 0 <= i < |lists[0]| && lists[0][i] == x;
    } else {
      k, i := FindMember(lists[1..], x);
      k := k + 1;
    }
  }

  /** In a partition every descriptor of the table has its place. */
  lemma Locate(lists: seq<seq<nat>>, n: nat, x: nat) returns (k: nat, i: nat)
    requires Spread(lists, n) && x < n
    ensures k < |lists| && i < |lists[k]| && lists[k][i] == x
  {
    assert Below(x, n) && x in Indices(n);
    k, i := FindMember(lists, x);
  }

  lemma SpreadAfterRecycle(avail: seq<nat>, chains: seq<seq<nat>>, j: nat, n: nat)
    requires Spread([avail] + chains, n) && j < |chains|
    ensures Spread([chains[j] + avail] + Without(chains, j), n)
  {
    MemberOf(chains, j);
    assert ([avail] + chains)[1..] == chains;
    assert ([chains[j] + avail] + Without(chains, j))[1..] == Without(chains, j);
  }

  /** Away from the ends of the lists, a harmless recycling changes no link. */
  lemma LinkKept(t: Table, head: nat, avail: seq<nat>, chains: seq<seq<nat>>, j: nat, k: nat, i: nat)
    requires Partition(t, head, avail, chains)
    requires j < |chains| && SafeToRecycle(|t|, avail, chains, j)
    requires k < |chains| + 1 && i + 1 < |([avail] + chains)[k]|
    ensures var x := ([avail] + chains)[k][i];
            x < |t| && Recycled(t, head, chains[j])[x] == t[x]
  {
    var lists := [avail] + chains;
    var x, p := lists[k][i], Before(chains[j][0], |t|);
    assert lists[j + 1] == chains[j];
    assert InTable(t, lists[k]) by { if k > 0 { assert Chain(t, chains[k - 1]); } }
    if x == Last(chains[j]) { SamePlace(lists, |t|, k, i, j + 1, |chains[j]| - 1); }
    if x == p {
      if LastOf(p, avail) {
        SamePlace(lists, |t|, k, i, 0, |avail| - 1);
      } else {
        var l :| 0 <= l < |chains| && LastOf(p, chains[l]);
        assert lists[l + 1] == chains[l];
        SamePlace(lists, |t|, k, i, l + 1, |chains[l]| - 1);
      }
    }
  }

  lemma RecycledFreeList(t: Table, head: nat, avail: seq<nat>, chains: seq<seq<nat>>, j: nat)
    requires Partition(t, head, avail, chains)
    requires j < |chains| && SafeToRecycle(|t|, avail, chains, j)
    ensures FreeList(Recycled(t, head, chains[j]), chains[j][0], chains[j] + avail)
  {
    var c, t' := chains[j], Recycled(t, head, chains[j]);
    var lists := [avail] + chains;
    assert Chain(t, c) && lists[j + 1] == c;
    var all := c + avail;
    forall i | 0 <= i < |all| - 1 ensures t'[all[i]].next == all[i + 1] {
      if i < |c| - 1 {
        LinkKept(t, head, avail, chains, j, j + 1, i);
      } else if i >= |c| {
        LinkKept(t, head, avail, chains, j, 0, i - |c|);
      }
    }
  }

  lemma RecycledChain(t: Table, head: nat, avail: seq<nat>, chains: seq<seq<nat>>, j: nat, k: nat)
    requires Partition(t, head, avail, chains)
    requires j < |chains| && SafeToRecycle(|t|, avail, chains, j) && k < |chains| && k != j
    ensures Chain(Recycled(t, head, chains[j]), chains[k])
  {
    var d, t' := chains[k], Recycled(t, head, chains[j]);
    assert Chain(t, d) && ([avail] + chains)[k + 1] == d;
    forall i | 0 <= i < |d| - 1 ensures t'[d[i]].next == d[i + 1] {
      LinkKept(t, head, avail, chains, j, k + 1, i);
    }
  }

  lemma SafeRecycleKeepsPartition(t: Table, head: nat, avail: seq<nat>, chains: seq<seq<nat>>, j: nat)
    requires Partition(t, head, avail, chains)
    requires j < |chains| && SafeToRecycle(|t|, avail, chains, j)
    ensures Partition(Recycled(t, head, chains[j]), chains[j][0], chains[j] + avail, Without(chains, j))
  {
    RecycledFreeList(t, head, avail, chains, j);
    SpreadAfterRecycle(avail, chains, j, |t|);
    var rest := Without(chains, j);
    forall k | 0 <= k < |rest| ensures Chain(Recycled(t, head, chains[j]), rest[k]) {
      RecycledChain(t, head, avail, chains, j, if k < j then k else k + 1);
    }
  }

  // The walk of `recycle_descriptors`, which finds the end of the chain by its flags and links.

  /** The table the walk goes over: the descriptor before the head is already linked to it. */
  function Relinked(t: Table, head: nat): Table
    requires head < |t|
  {
    SetNext(t, Before(head, |t|), head)
  }

  /** The walk from `head` ends, after visiting `path`. */
  predicate WalkEndsAlong(t: Table, head: nat, path: seq<nat>)
    requires head < |t|
  {
    Chain(Relinked(t, head), path) && path[0] == head
  }

  /** Recycling from `head` ends, and leaves the table `t'`. */
  ghost predicate RecyclesTo(t: Table, freeHead: nat, head: nat, t': Table) {
    head < |t| && exists path :: WalkEndsAlong(t, head, path) && t' == SetNext(Relinked(t, head), Last(path), freeHead)
  }

  /** The descriptor before the chain's head is in the chain itself, and is not its last. */
  predicate OwnPredecessor(n: nat, c: seq<nat>, i: nat) { i + 1 < |c| && c[i] == Before(c[0], n) }

  ghost predicate PrecededByItself(n: nat, c: seq<nat>) { exists i: nat :: OwnPredecessor(n, c, i) }

  lemma {:induction false} ChainUnique(t: Table, a: seq<nat>, b: seq<nat>, k: nat)
    requires Chain(t, a) && Chain(t, b) && a[0] == b[0] && k < |a|
    ensures k < |b| && a[k] == b[k]
    decreases k
  {
    if k > 0 { ChainUnique(t, a, b, k - 1); }
  }

  /** A table has one chain from a given head. */
  lemma SameChain(t: Table, a: seq<nat>, b: seq<nat>)
    requires Chain(t, a) && Chain(t, b) && a[0] == b[0]
    ensures a == b
  {
    forall k | 0 <= k < |a| ensures k < |b| && a[k] == b[k] { ChainUnique(t, a, b, k); }
    ChainUnique(t, b, a, |b| - 1);
  }

  lemma WalkFollowsChain(t: Table, head: nat, avail: seq<nat>, chains: seq<seq<nat>>, j: nat)
    requires Partition(t, head, avail, chains) && j < |chains| && !PrecededByItself(|t|, chains[j])
    ensures chains[j] != [] && chains[j][0] < |t| && WalkEndsAlong(t, chains[j][0], chains[j])
  {
    var c := chains[j];
    assert Chain(t, c);
    var t1 := Relinked(t, c[0]);
    forall i | 0 <= i < |c| - 1 ensures t1[c[i]].next == c[i + 1] { assert !OwnPredecessor(|t|, c, i); }
  }

  /** Linked back to its head in the middle, the walk only ever visits the chain up to there. */
  lemma {:induction false} WalkStaysInside(t: Table, head: nat, avail: seq<nat>, chains: seq<seq<nat>>, j: nat, i: nat,
                                           path: seq<nat>, k: nat) returns (m: nat)
    requires Partition(t, head, avail, chains) && j < |chains| && OwnPredecessor(|t|, chains[j], i)
    requires chains[j][0] < |t| && k < |path| && Linked(Relinked(t, chains[j][0]), path) && path[0] == chains[j][0]
    ensures m <= i && path[k] == chains[j][m] && Relinked(t, chains[j][0])[path[k]].hasNext
    decreases k
  {
    var c := chains[j];
    assert Chain(t, c) && ([avail] + chains)[j + 1] == c;
    if k == 0 {
      m := 0;
    } else {
      var n := WalkStaysInside(t, head, avail, chains, j, i, path, k - 1);
      m := if n == i then 0 else n + 1;
      if n != i { Apart([avail] + chains, |t|, j + 1, n, j + 1, i); }
    }
  }

  lemma WalkNeverEnds(t: Table, head: nat, avail: seq<nat>, chains: seq<seq<nat>>, j: nat, path: seq<nat>)
    requires Partition(t, head, avail, chains) && j < |chains| && PrecededByItself(|t|, chains[j])
    ensures chains[j][0] < |t| && !WalkEndsAlong(t, chains[j][0], path)
  {
    assert Chain(t, chains[j]);
    var i: nat :| OwnPredecessor(|t|, chains[j], i);
    if WalkEndsAlong(t, chains[j][0], path) {
      var _ := WalkStaysInside(t, head, avail, chains, j, i, path, |path| - 1);
    }
  }

  lemma LinkedNext(t: Table, xs: seq<nat>, x: nat)
    requires Linked(t, xs) && xs != [] && t[Last(xs)].next == x < |t|
    ensures Linked(t, xs + [x])
  {
    var ys := xs + [x];
    forall i | 0 <= i < |ys| - 1 ensures t[ys[i]].next == ys[i + 1] {
      if i < |xs| - 1 { assert t[xs[i]].next == xs[i + 1]; }
    }
  }

  /** However many steps are taken, the walk has visited that many descriptors and goes on. */
  lemma {:induction false} WalkGoesOn(t: Table, head: nat, avail: seq<nat>, chains: seq<seq<nat>>, j: nat, n: nat)
    returns (path: seq<nat>)
    requires Partition(t, head, avail, chains) && j < |chains| && PrecededByItself(|t|, chains[j])
    ensures chains[j][0] < |t| && |path| == n + 1 && path[0] == chains[j][0]
    ensures Linked(Relinked(t, chains[j][0]), path) && Relinked(t, chains[j][0])[path[n]].hasNext
    decreases n
  {
    var c := chains[j];
    assert Chain(t, c);
    var t1 := Relinked(t, c[0]);
    var i: nat :| OwnPredecessor(|t|, c, i);
    if n == 0 {
      path := [c[0]];
    } else {
      var before := WalkGoesOn(t, head, avail, chains, j, n - 1);
      path := before + [t1[before[n - 1]].next];
      var m := WalkStaysInside(t, head, avail, chains, j, i, before, n - 1);
      assert ([avail] + chains)[j + 1] == c;
      if m != i { Apart([avail] + chains, |t|, j + 1, m, j + 1, i); }
      assert path[n] == c[if m == i then 0 else m + 1];
      LinkedNext(t1, before, path[n]);
    }
    var _ := WalkStaysInside(t, head, avail, chains, j, i, path, n);
  }

  /** Recycling a chain ends exactly when the descriptor before its head is not one of the chain's
      own other than the last, and then it leaves the chain in front of the free list. */
  lemma RecycleEndsIff(t: Table, head: nat, avail: seq<nat>, chains: seq<seq<nat>>, j: nat, t': Table)
    requires Partition(t, head, avail, chains) && j < |chains|
    ensures chains[j] != [] && InTable(t, chains[j])
    ensures RecyclesTo(t, head, chains[j][0], t') <==>
            !PrecededByItself(|t|, chains[j]) && t' == Recycled(t, head, chains[j])
  {
    var c := chains[j];
    assert Chain(t, c);
    if PrecededByItself(|t|, c) {
      forall path ensures !WalkEndsAlong(t, c[0], path) { WalkNeverEnds(t, head, avail, chains, j, path); }
    } else {
      WalkFollowsChain(t, head, avail, chains, j);
      forall path | WalkEndsAlong(t, c[0], path) ensures path == c { SameChain(Relinked(t, c[0]), path, c); }
    }
  }

  // A harmful recycling that ends.

  lemma PredecessorPlace(t: Table, head: nat, avail: seq<nat>, chains: seq<seq<nat>>, j: nat) returns (k: nat, i: nat)
    requires Partition(t, head, avail, chains) && j < |chains| && chains[j] != [] && chains[j][0] < |t|
    requires !SafeToRecycle(|t|, avail, chains, j) && !PrecededByItself(|t|, chains[j])
    ensures k <= |chains| && k != j + 1 && i + 1 < |([avail] + chains)[k]|
    ensures ([avail] + chains)[k][i] == Before(chains[j][0], |t|)
  {
    var lists, p := [avail] + chains, Before(chains[j][0], |t|);
    k, i := Locate(lists, |t|, p);
    if k == 0 { assert !LastOf(p, avail); } else { assert !LastOf(p, chains[k - 1]); }
    assert !OwnPredecessor(|t|, chains[j], i);
  }

  /** A chain that held the descriptor now runs into the recycled one. */
  lemma OtherChainBroken(t: Table, head: nat, avail: seq<nat>, chains: seq<seq<nat>>, j: nat, k: nat, i: nat)
    requires Partition(t, head, avail, chains) && j < |chains| && k < |chains| && k != j
    requires chains[j] != [] && InTable(t, chains[j])
    requires i + 1 < |chains[k]| && chains[k][i] == Before(chains[j][0], |t|)
    ensures !Chain(Recycled(t, head, chains[j]), chains[k])
  {
    var lists, c, d := [avail] + chains, chains[j], chains[k];
    assert Chain(t, d) && Chain(t, c) && lists[j + 1] == c && lists[k + 1] == d;
    Apart(lists, |t|, k + 1, i, j + 1, |c| - 1);
    Apart(lists, |t|, k + 1, i + 1, j + 1, 0);
  }

  /** Links that lead from `loop` back into it are never left. */
  predicate Closed(t: Table, loop: seq<nat>) { forall x :: x in loop ==> x < |t| && t[x].next in loop }

  lemma {:induction false} Trapped(t: Table, loop: seq<nat>, xs: seq<nat>, k: nat)
    requires Linked(t, xs) && k < |xs| && xs[0] in loop && Closed(t, loop)
    ensures xs[k] in loop
    decreases k
  {
    if k > 0 {
      Trapped(t, loop, xs, k - 1);
      assert t[xs[k - 1]].next == xs[k];
    }
  }

  /** The recycled chain and the free list up to the descriptor before the head form a cycle. */
  lemma FreeListLoops(t: Table, head: nat, avail: seq<nat>, chains: seq<seq<nat>>, j: nat, i: nat, m: nat)
    requires Partition(t, head, avail, chains) && j < |chains| && chains[j] != [] && InTable(t, chains[j])
    requires i + 1 < |avail| && avail[i] == Before(chains[j][0], |t|)
    requires m < |chains[j] + avail[..i + 1]|
    ensures var loop := chains[j] + avail[..i + 1];
            loop[m] < |t| && Recycled(t, head, chains[j])[loop[m]].next in loop
  {
    var lists, c := [avail] + chains, chains[j];
    var loop, t' := c + avail[..i + 1], Recycled(t, head, c);
    assert Chain(t, c) && lists[j + 1] == c;
    assert loop[0] in loop && loop[|c|] in loop;
    if m < |c| {
      Apart(lists, |t|, j + 1, m, 0, i);
      if m < |c| - 1 {
        Apart(lists, |t|, j + 1, m, j + 1, |c| - 1);
        assert t'[loop[m]].next == loop[m + 1];
      }
    } else {
      var n := m - |c|;
      assert loop[m] == avail[n];
      Apart(lists, |t|, 0, n, j + 1, |c| - 1);
      if n < i {
        Apart(lists, |t|, 0, n, 0, i);
        assert t'[loop[m]].next == loop[m + 1];
      }
    }
  }

  lemma FreeListLoses(t: Table, head: nat, avail: seq<nat>, chains: seq<seq<nat>>, j: nat, i: nat, avail': seq<nat>)
    requires Partition(t, head, avail, chains) && j < |chains| && chains[j] != [] && InTable(t, chains[j])
    requires i + 1 < |avail| && avail[i] == Before(chains[j][0], |t|)
    ensures !Partition(Recycled(t, head, chains[j]), chains[j][0], avail', Without(chains, j))
  {
    var lists, c := [avail] + chains, chains[j];
    var loop, t', x := c + avail[..i + 1], Recycled(t, head, c), avail[i + 1];
    assert lists[j + 1] == c;
    if Partition(t', c[0], avail', Without(chains, j)) {
      var k, m := Locate([avail'] + Without(chains, j), |t|, x);
      if k > 0 {
        var l := if k - 1 < j then k - 1 else k;
        assert Without(chains, j)[k - 1] == chains[l] && lists[l + 1] == chains[l];
        SamePlace(lists, |t|, 0, i + 1, l + 1, m);
      } else {
        forall y | y in loop ensures y < |t'| && t'[y].next in loop {
          var n :| 0 <= n < |loop| && loop[n] == y;
          FreeListLoops(t, head, avail, chains, j, i, n);
        }
        assert loop[0] == c[0];
        Trapped(t', loop, avail', m);
        LeftOut(lists, |t|, c, avail, j, i);
      }
    }
  }

  lemma LeftOut(lists: seq<seq<nat>>, n: nat, c: seq<nat>, avail: seq<nat>, j: nat, i: nat)
    requires Spread(lists, n) && j + 1 < |lists| && lists[0] == avail && lists[j + 1] == c && i + 1 < |avail|
    ensures avail[i + 1] !in c + avail[..i + 1]
  {
    var loop := c + avail[..i + 1];
    forall m | 0 <= m < |loop| ensures loop[m] != avail[i + 1] {
      if m < |c| { Apart(lists, n, j + 1, m, 0, i + 1); } else { Apart(lists, n, 0, m - |c|, 0, i + 1); }
    }
  }

  /** Whatever list is taken for the free list, it or another chain is broken afterwards. */
  lemma UnsafeRecycleBreaksPartition(t: Table, head: nat, avail: seq<nat>, chains: seq<seq<nat>>, j: nat, avail': seq<nat>)
    requires Partition(t, head, avail, chains) && j < |chains| && chains[j] != [] && InTable(t, chains[j])
    requires !SafeToRecycle(|t|, avail, chains, j) && !PrecededByItself(|t|, chains[j])
    ensures !Partition(Recycled(t, head, chains[j]), chains[j][0], avail', Without(chains, j))
  {
    var k, i := PredecessorPlace(t, head, avail, chains, j);
    if k == 0 {
      FreeListLoses(t, head, avail, chains, j, i, avail');
    } else {
      OtherChainBroken(t, head, avail, chains, j, k - 1, i);
      assert Without(chains, j)[if k - 1 < j then k - 1 else k - 2] == chains[k - 1];
    }
  }

  /** Recycling chain `j` ends with a correct free list and intact chains exactly when the
      descriptor before the chain's head ends the list it is on. */
  lemma RecycleKeepsPartitionIff(t: Table, head: nat, avail: seq<nat>, chains: seq<seq<nat>>, j: nat)
    requires Partition(t, head, avail, chains) && j < |chains|
    ensures chains[j] != []
    ensures (exists t', avail' :: RecyclesTo(t, head, chains[j][0], t') &&
                                  Partition(t', chains[j][0], avail', Without(chains, j)))
            <==> SafeToRecycle(|t|, avail, chains, j)
  {
    var c := chains[j];
    assert Chain(t, c);
    if SafeToRecycle(|t|, avail, chains, j) {
      SafeIsNotOwn(t, head, avail, chains, j);
      RecycleEndsIff(t, head, avail, chains, j, Recycled(t, head, c));
      SafeRecycleKeepsPartition(t, head, avail, chains, j);
    } else {
      forall t', avail' | RecyclesTo(t, head, c[0], t')
        ensures !Partition(t', c[0], avail', Without(chains, j))
      {
        RecycleEndsIff(t, head, avail, chains, j, t');
        UnsafeRecycleBreaksPartition(t, head, avail, chains, j, avail');
      }
    }
  }

  lemma SafeIsNotOwn(t: Table, head: nat, avail: seq<nat>, chains: seq<seq<nat>>, j: nat)
    requires Partition(t, head, avail, chains) && j < |chains| && chains[j] != []
    requires SafeToRecycle(|t|, avail, chains, j)
    ensures !PrecededByItself(|t|, chains[j])
  {
    LastSomewhere(|t|, avail, chains, j);
    var lists, p := [avail] + chains, Before(chains[j][0], |t|);
    assert lists[j + 1] == chains[j];
    var l: nat :| l < |lists| && LastOf(p, lists[l]);
    forall i: nat | i + 1 < |chains[j]| ensures chains[j][i] != p { Apart(lists, |t|, j + 1, i, l, |lists[l]| - 1); }
  }

  lemma LastSomewhere(n: nat, avail: seq<nat>, chains: seq<seq<nat>>, j: nat)
    requires j < |chains| && chains[j] != [] && SafeToRecycle(n, avail, chains, j)
    ensures exists l: nat :: l < |[avail] + chains| && LastOf(Before(chains[j][0], n), ([avail] + chains)[l])
  {
    var lists, p := [avail] + chains, Before(chains[j][0], n);
    if LastOf(p, avail) {
      assert LastOf(p, lists[0]);
    } else {
      var k :| 0 <= k < |chains| && LastOf(p, chains[k]);
      assert LastOf(p, lists[k + 1]);
    }
  }

  // Adding a chain.

  /** `t'` is `t` with the buffers written to the descriptors `xs`, in order, as one chain:
      device-readable inputs first, then device-writable outputs. Links are not touched. */
  predicate Filled(t: Table, t': Table, xs: seq<nat>, ins: seq<Buf>, outs: seq<Buf>) {
    && |t'| == |t| && |xs| == |ins| + |outs| && InTable(t, xs)
    && (forall x :: 0 <= x < |t| && x !in xs ==> t'[x] == t[x])
    && (forall i :: 0 <= i < |xs| ==>
          t'[xs[i]] == Desc((ins + outs)[i].addr, (ins + outs)[i].len, i < |xs| - 1, i >= |ins|, t[xs[i]].next))
  }

  // The device's view of a chain (section 2.6.5 of VIRTIO 1.1).

  datatype Segment = Segment(buf: Buf, write: bool)

  /** What the device collects from `head` on, along the NEXT flags, over at most `n` descriptors. */
  function Gathered(t: Table, head: nat, n: nat): seq<Segment>
    decreases n, t
  {
    if n == 0 || head >= |t| then []
    else [Segment(Buf(t[head].addr, t[head].len), t[head].write)]
         + if t[head].hasNext then Gathered(t, t[head].next, n - 1) else []
  }

  lemma {:induction false} GatheredAlong(t: Table, xs: seq<nat>, n: nat, i: nat)
    requires Chain(t, xs) && |xs| <= n && i < |xs|
    ensures |Gathered(t, xs[0], n)| == |xs|
    ensures Gathered(t, xs[0], n)[i] == Segment(Buf(t[xs[i]].addr, t[xs[i]].len), t[xs[i]].write)
    decreases |xs|
  {
    if |xs| > 1 {
      var rest := xs[1..];
      assert Chain(t, rest);
      GatheredAlong(t, rest, n - 1, if i > 0 then i - 1 else 0);
    }
  }

  /** From `head` on the device finds first the inputs, to read, and then the outputs, to write. */
  ghost predicate Offers(t: Table, head: nat, ins: seq<Buf>, outs: seq<Buf>) {
    var got := Gathered(t, head, |t|);
    && |got| == |ins| + |outs| && (forall i :: 0 <= i < |ins| ==> got[i] == Segment(ins[i], false))
    && (forall i :: 0 <= i < |outs| ==> got[|ins| + i] == Segment(outs[i], true))
  }

  lemma FilledOffers(t: Table, t': Table, xs: seq<nat>, ins: seq<Buf>, outs: seq<Buf>)
    requires Filled(t, t', xs, ins, outs) && Chain(t', xs) && |xs| <= |t'|
    ensures Offers(t', xs[0], ins, outs)
  {
    var got := Gathered(t', xs[0], |t'|);
    forall i | 0 <= i < |xs| ensures |got| == |xs| && got[i] == Segment((ins + outs)[i], i >= |ins|) {
      GatheredAlong(t', xs, |t'|, i);
    }
    assert |got| == |xs| by { GatheredAlong(t', xs, |t'|, 0); }
    forall i | 0 <= i < |outs| ensures got[|ins| + i] == Segment(outs[i], true) {
      assert (ins + outs)[|ins| + i] == outs[i];
    }
  }

  lemma {:induction false} MembersAppend(lists: seq<seq<nat>>, xs: seq<nat>)
    ensures Members(lists + [xs]) == Members(lists) + multiset(xs)
    decreases lists
  {
    if lists == [] {
      assert [xs][1..] == [];
    } else {
      assert (lists + [xs])[1..] == lists[1..] + [xs];
      MembersAppend(lists[1..], xs);
    }
  }

  lemma SpreadAfterAdd(avail: seq<nat>, chains: seq<seq<nat>>, k: nat, n: nat)
    requires Spread([avail] + chains, n) && k <= |avail|
    ensures Spread([avail[k..]] + (chains + [avail[..k]]), n)
  {
    assert avail == avail[..k] + avail[k..];
    assert ([avail] + chains)[1..] == chains;
    assert ([avail[k..]] + (chains + [avail[..k]]))[1..] == chains + [avail[..k]];
    MembersAppend(chains, avail[..k]);
  }

  /** Descriptors off the front of the free list are not written by an add. */
  lemma Untouched(t: Table, t': Table, head: nat, avail: seq<nat>, chains: seq<seq<nat>>,
                  ins: seq<Buf>, outs: seq<Buf>, l: nat, i: nat)
    requires Partition(t, head, avail, chains) && |ins| + |outs| <= |avail|
    requires Filled(t, t', avail[..|ins| + |outs|], ins, outs)
    requires l <= |chains| && i < |([avail] + chains)[l]| && (l == 0 ==> i >= |ins| + |outs|)
    ensures var x := ([avail] + chains)[l][i];
            x < |t| && t'[x] == t[x]
  {
    var lists, xs := [avail] + chains, avail[..|ins| + |outs|];
    if l > 0 { assert Chain(t, chains[l - 1]); }
    var x := lists[l][i];
    if x in xs {
      var m :| 0 <= m < |xs| && xs[m] == x;
      SamePlace(lists, |t|, 0, m, l, i);
    }
  }

  /** Taking the first `k` descriptors of the free list as a new chain keeps the partition. */
  lemma AddKeepsPartition(t: Table, t': Table, head: nat, avail: seq<nat>, chains: seq<seq<nat>>,
                          ins: seq<Buf>, outs: seq<Buf>)
    requires Partition(t, head, avail, chains)
    requires 0 < |ins| + |outs| <= |avail|
    requires Filled(t, t', avail[..|ins| + |outs|], ins, outs)
    ensures var k := |ins| + |outs|;
            Partition(t', t[avail[k - 1]].next, avail[k..], chains + [avail[..k]])
  {
    var k := |ins| + |outs|;
    SpreadAfterAdd(avail, chains, k, |t|);
    var lists := [avail] + chains;
    forall i | k <= i < |avail| ensures t'[avail[i]] == t[avail[i]] {
      Untouched(t, t', head, avail, chains, ins, outs, 0, i);
    }
    forall j | 0 <= j < |chains| ensures Chain(t', chains[j]) {
      assert Chain(t, chains[j]) && lists[j + 1] == chains[j];
      forall i | 0 <= i < |chains[j]| ensures t'[chains[j][i]] == t[chains[j][i]] {
        Untouched(t, t', head, avail, chains, ins, outs, j + 1, i);
      }
    }
    assert Chain(t', avail[..k]);
  }

  // The initial free list.

  function Iota(n: nat): (s: seq<nat>)
    ensures |s| == n && forall i :: 0 <= i < n ==> s[i] == i
  {
    if n == 0 then [] else Iota(n - 1) + [n - 1]
  }

  lemma {:induction false} IotaSpread(n: nat)
    ensures multiset(Iota(n)) == multiset(Indices(n))
  {
    if n == 0 {
      assert Indices(0) == {};
    } else {
      IotaSpread(n - 1);
      IndicesNext(n - 1);
      MultisetAdd(Iota(n - 1), Indices(n - 1), n - 1);
    }
  }

  lemma MultisetAdd(xs: seq<nat>, s: set<nat>, x: nat)
    requires multiset(xs) == multiset(s) && x !in s
    ensures multiset(xs + [x]) == multiset(s + {x})
  {
  }

  lemma IndicesNext(n: nat)
    ensures Indices(n + 1) == Indices(n) + {n}
  {
    forall i: nat ensures i in Indices(n + 1) <==> i in Indices(n) + {n} {
      assert Below(i, n + 1) <==> (Below(i, n) || i == n);
    }
  }

  lemma {:induction false} InitialPartition(t: Table)
    requires forall i :: 0 <= i < |t| - 1 ==> t[i].next == i + 1
    ensures Partition(t, 0, Iota(|t|), [])
  {
    IotaSpread(|t|);
    assert ([Iota(|t|)] + [])[1..] == [];
  }

  // The last-in-first-out discipline.

  predicate Consecutive(xs: seq<nat>, from: nat) { forall i :: 0 <= i < |xs| ==> xs[i] == from + i }

  /** The chains, oldest first, occupy consecutive descriptors starting at `from`. */
  predicate StackFrom(chains: seq<seq<nat>>, from: nat)
    decreases chains
  {
    chains == [] || (chains[0] != [] && Consecutive(chains[0], from) && StackFrom(chains[1..], from + |chains[0]|))
  }

  function Used(chains: seq<seq<nat>>): nat {
    if chains == [] then 0 else |chains[0]| + Used(chains[1..])
  }

  predicate Stacked(n: nat, avail: seq<nat>, chains: seq<seq<nat>>) {
    StackFrom(chains, 0) && Consecutive(avail, Used(chains)) && Used(chains) + |avail| == n
  }

  lemma {:induction false} StackPush(chains: seq<seq<nat>>, from: nat, xs: seq<nat>)
    requires StackFrom(chains, from) && xs != [] && Consecutive(xs, from + Used(chains))
    ensures StackFrom(chains + [xs], from) && Used(chains + [xs]) == Used(chains) + |xs|
    decreases chains
  {
    if chains == [] {
      assert [xs][1..] == [];
    } else {
      StackPush(chains[1..], from + |chains[0]|, xs);
      assert (chains + [xs])[1..] == chains[1..] + [xs];
    }
  }

  /** The newest chain is on top, and the one below it, if any, ends just before it. */
  lemma {:induction false} StackTop(chains: seq<seq<nat>>, from: nat)
    requires StackFrom(chains, from) && chains != []
    ensures var n := |chains| - 1;
            && StackFrom(chains[..n], from) && Used(chains) == Used(chains[..n]) + |chains[n]|
            && chains[n] != [] && Consecutive(chains[n], from + Used(chains[..n]))
            && (n > 0 ==> chains[n - 1] != [] && Last(chains[n - 1]) + 1 == from + Used(chains[..n]))
            && (n == 0 ==> Used(chains[..n]) == 0)
    decreases chains
  {
    var n := |chains| - 1;
    if n > 0 {
      StackTop(chains[1..], from + |chains[0]|);
      assert chains[1..][..n - 1] == chains[..n][1..] && chains[..n][0] == chains[0];
      if n == 1 { assert chains[1..][..0] == []; }
    }
  }

  /** Popping the newest chain is always harmless, and leaves the stack shape. */
  lemma PopTopIsSafe(n: nat, avail: seq<nat>, chains: seq<seq<nat>>)
    requires Stacked(n, avail, chains) && chains != []
    ensures var j := |chains| - 1;
            && chains[j] != []
            && SafeToRecycle(n, avail, chains, j)
            && Stacked(n, chains[j] + avail, Without(chains, j))
  {
    var j := |chains| - 1;
    StackTop(chains, 0);
    assert Without(chains, j) == chains[..j];
    var p := Before(chains[j][0], n);
    if j > 0 {
      assert LastOf(p, chains[j - 1]);
    } else if avail != [] {
      assert LastOf(p, avail);
    } else {
      assert LastOf(p, chains[0]);
    }
  }

  datatype QState = QState(table: Table, head: nat, avail: seq<nat>, chains: seq<seq<nat>>)

  predicate AddStep(s: QState, s': QState, ins: seq<Buf>, outs: seq<Buf>) {
    var k := |ins| + |outs|;
    && 0 < k <= |s.avail| && InTable(s.table, s.avail)
    && Filled(s.table, s'.table, s.avail[..k], ins, outs)
    && s'.head == s.table[s.avail[k - 1]].next
    && s'.avail == s.avail[k..] && s'.chains == s.chains + [s.avail[..k]]
  }

  predicate PopStep(s: QState, s': QState, j: nat) {
    && j < |s.chains| && s.chains[j] != [] && InTable(s.table, s.chains[j])
    && s' == QState(Recycled(s.table, s.head, s.chains[j]), s.chains[j][0],
                    s.chains[j] + s.avail, Without(s.chains, j))
  }

  datatype Event = Add(ins: seq<Buf>, outs: seq<Buf>) | Pop

  predicate LifoStep(s: QState, e: Event, s': QState) {
    match e
    case Add(ins, outs) => AddStep(s, s', ins, outs)
    case Pop => |s.chains| > 0 && PopStep(s, s', |s.chains| - 1)
  }

  ghost predicate Good(s: QState) {
    Partition(s.table, s.head, s.avail, s.chains) && Stacked(|s.table|, s.avail, s.chains)
  }

  lemma LifoStepKeepsGood(s: QState, e: Event, s': QState)
    requires Good(s) && LifoStep(s, e, s')
    ensures Good(s')
  {
    match e
    case Add(ins, outs) =>
      var k := |ins| + |outs|;
      AddKeepsPartition(s.table, s'.table, s.head, s.avail, s.chains, ins, outs);
      StackPush(s.chains, 0, s.avail[..k]);
    case Pop =>
      PopTopIsSafe(|s.table|, s.avail, s.chains);
      SafeRecycleKeepsPartition(s.table, s.head, s.avail, s.chains, |s.chains| - 1);
  }

  /** In every run in which the most recently added outstanding chain is always returned first,
      the free list and the in-flight chains partition the descriptor table throughout. */
  lemma {:induction false} LifoRunKeepsPartition(run: seq<QState>, events: seq<Event>, i: nat)
    requires |run| == |events| + 1 && i < |run|
    requires run[0].head == 0 && run[0].avail == Iota(|run[0].table|) && run[0].chains == []
    requires forall k :: 0 <= k < |run[0].table| - 1 ==> run[0].table[k].next == k + 1
    requires forall k :: 0 <= k < |events| ==> LifoStep(run[k], events[k], run[k + 1])
    ensures Good(run[i])
    decreases i
  {
    if i == 0 {
      InitialPartition(run[0].table);
    } else {
      LifoRunKeepsPartition(run, events, i - 1);
      LifoStepKeepsGood(run[i - 1], events[i - 1], run[i]);
    }
  }

  // Any order of returns.

  function IndexOf(xs: seq<nat>, x: nat): (i: nat)
    requires x in xs
    ensures i < |xs| && xs[i] == x
  {
    if xs[0] == x then 0 else 1 + IndexOf(xs[1..], x)
  }

  function FilledTable(t: Table, xs: seq<nat>, ins: seq<Buf>, outs: seq<Buf>): (t': Table)
    requires |xs| == |ins| + |outs|
    ensures |t'| == |t|
  {
    seq(|t|, x requires 0 <= x < |t| =>
      if x in xs then
        var i := IndexOf(xs, x);
        Desc((ins + outs)[i].addr, (ins + outs)[i].len, i < |xs| - 1, i >= |ins|, t[x].next)
      else t[x])
  }

  /** The state after an add, for any state with enough free descriptors. */
  function AddOf(s: QState, ins: seq<Buf>, outs: seq<Buf>): QState
    requires 0 < |ins| + |outs| <= |s.avail| && InTable(s.table, s.avail)
  {
    var k := |ins| + |outs|;
    QState(FilledTable(s.table, s.avail[..k], ins, outs), s.table[s.avail[k - 1]].next, s.avail[k..],
           s.chains + [s.avail[..k]])
  }

  lemma AddOfIsStep(s: QState, ins: seq<Buf>, outs: seq<Buf>)
    requires Partition(s.table, s.head, s.avail, s.chains) && 0 < |ins| + |outs| <= |s.avail|
    ensures AddStep(s, AddOf(s, ins, outs), ins, outs)
  {
    var xs, lists := s.avail[..|ins| + |outs|], [s.avail] + s.chains;
    forall i | 0 <= i < |xs| ensures IndexOf(xs, xs[i]) == i {
      var m := IndexOf(xs, xs[i]);
      if m != i { Apart(lists, |s.table|, 0, m, 0, i); }
    }
  }

  datatype AnyEvent = AddBufs(ins: seq<Buf>, outs: seq<Buf>) | PopChain(j: nat)

  /** An add, or the return of a chain that can be recycled without harm. */
  ghost predicate HarmlessStep(s: QState, e: AnyEvent, s': QState) {
    match e
    case AddBufs(ins, outs) => AddStep(s, s', ins, outs)
    case PopChain(j) => PopStep(s, s', j) && SafeToRecycle(|s.table|, s.avail, s.chains, j)
  }

  predicate Initial(s: QState, n: nat) {
    && |s.table| == n && s.head == 0 && s.avail == Iota(n) && s.chains == []
    && forall i :: 0 <= i < n - 1 ==> s.table[i].next == i + 1
  }

  ghost predicate HarmlessRun(n: nat, run: seq<QState>, events: seq<AnyEvent>) {
    && |run| == |events| + 1 && Initial(run[0], n)
    && (forall k :: 0 <= k < |events| ==> HarmlessStep(run[k], events[k], run[k + 1]))
  }

  ghost predicate Ordered(s: QState) { Partition(s.table, s.head, s.avail, s.chains) }

  lemma HarmlessStepKeepsPartition(s: QState, e: AnyEvent, s': QState)
    requires Ordered(s) && HarmlessStep(s, e, s')
    ensures Ordered(s') && |s'.table| == |s.table|
  {
    match e
    case AddBufs(ins, outs) => AddKeepsPartition(s.table, s'.table, s.head, s.avail, s.chains, ins, outs);
    case PopChain(j) => SafeRecycleKeepsPartition(s.table, s.head, s.avail, s.chains, j);
  }

  /** In every run without a harmful return, in whatever order, the lists partition the table. */
  lemma {:induction false} HarmlessRunKeepsPartition(n: nat, run: seq<QState>, events: seq<AnyEvent>, i: nat)
    requires HarmlessRun(n, run, events) && i < |run|
    ensures Ordered(run[i]) && |run[i].table| == n
    decreases i
  {
    if i == 0 {
      InitialPartition(run[0].table);
    } else {
      HarmlessRunKeepsPartition(n, run, events, i - 1);
      HarmlessStepKeepsPartition(run[i - 1], events[i - 1], run[i]);
    }
  }

  lemma RunExtended(n: nat, run: seq<QState>, events: seq<AnyEvent>, e: AnyEvent, s': QState)
    requires HarmlessRun(n, run, events) && HarmlessStep(run[|events|], e, s')
    ensures HarmlessRun(n, run + [s'], events + [e])
  {
    var more, all := run + [s'], events + [e];
    forall k | 0 <= k < |all| ensures HarmlessStep(more[k], all[k], more[k + 1]) {
      if k < |events| { assert HarmlessStep(run[k], events[k], run[k + 1]); }
    }
  }

  /** The run ends in a state with these lists. */
  ghost predicate Reaches(run: seq<QState>, events: seq<AnyEvent>, n: nat, avail: seq<nat>, chains: seq<seq<nat>>) {
    HarmlessRun(n, run, events) && run[|events|].avail == avail && run[|events|].chains == chains
  }

  lemma ThenAdd(run: seq<QState>, events: seq<AnyEvent>, n: nat, front: seq<nat>, rest: seq<nat>, chains: seq<seq<nat>>)
    returns (run': seq<QState>, events': seq<AnyEvent>)
    requires Reaches(run, events, n, front + rest, chains) && front != []
    ensures Reaches(run', events', n, rest, chains + [front])
  {
    var ins := seq(|front|, _ => Buf(0, 0));
    var s := run[|events|];
    HarmlessRunKeepsPartition(n, run, events, |events|);
    AddOfIsStep(s, ins, []);
    RunExtended(n, run, events, AddBufs(ins, []), AddOf(s, ins, []));
    run', events' := run + [AddOf(s, ins, [])], events + [AddBufs(ins, [])];
  }

  lemma ThenPop(run: seq<QState>, events: seq<AnyEvent>, n: nat, avail: seq<nat>, chains: seq<seq<nat>>, j: nat)
    returns (run': seq<QState>, events': seq<AnyEvent>)
    requires Reaches(run, events, n, avail, chains)
    requires j < |chains| && chains[j] != [] && SafeToRecycle(n, avail, chains, j)
    ensures Reaches(run', events', n, chains[j] + avail, Without(chains, j))
  {
    var s := run[|events|];
    HarmlessRunKeepsPartition(n, run, events, |events|);
    assert Chain(s.table, chains[j]);
    var s' := QState(Recycled(s.table, s.head, chains[j]), chains[j][0], chains[j] + avail, Without(chains, j));
    RunExtended(n, run, events, PopChain(j), s');
    run', events' := run + [s'], events + [PopChain(j)];
  }

  lemma SafeBehind(n: nat, avail: seq<nat>, chains: seq<seq<nat>>, j: nat, k: nat)
    requires j < |chains| && chains[j] != [] && k < |chains| && LastOf(Before(chains[j][0], n), chains[k])
    ensures SafeToRecycle(n, avail, chains, j)
  {
  }

  lemma FourAdded() returns (run: seq<QState>, events: seq<AnyEvent>)
    ensures Reaches(run, events, 4, [], [[0], [1], [2], [3]])
  {
    var t := seq(4, (i: nat) => Desc(0, 0, false, false, i + 1));
    run, events := [QState(t, 0, Iota(4), [])], [];
    assert Iota(4) == [0] + [1, 2, 3];
    run, events := ThenAdd(run, events, 4, [0], [1, 2, 3], []);
    assert [1, 2, 3] == [1] + [2, 3];
    run, events := ThenAdd(run, events, 4, [1], [2, 3], [[0]]);
    assert [2, 3] == [2] + [3];
    run, events := ThenAdd(run, events, 4, [2], [3], [[0], [1]]);
    assert [3] == [3] + [];
    run, events := ThenAdd(run, events, 4, [3], [], [[0], [1], [2]]);
  }

  lemma FirstReturned() returns (run: seq<QState>, events: seq<AnyEvent>)
    ensures Reaches(run, events, 4, [0], [[1], [2], [3]])
  {
    run, events := FourAdded();
    var chains: seq<seq<nat>> := [[0], [1], [2], [3]];
    SafeBehind(4, [], chains, 0, 3);
    run, events := ThenPop(run, events, 4, [], chains, 0);
    assert [0] + [] == [0] && Without(chains, 0) == [[1], [2], [3]];
  }

  lemma SecondReturned() returns (run: seq<QState>, events: seq<AnyEvent>)
    ensures Reaches(run, events, 4, [1, 0], [[2], [3]])
  {
    run, events := FirstReturned();
    var chains: seq<seq<nat>> := [[1], [2], [3]];
    assert LastOf(0, [0]);
    run, events := ThenPop(run, events, 4, [0], chains, 0);
    assert [1] + [0] == [1, 0] && Without(chains, 0) == [[2], [3]];
  }

  lemma ThirdReturned() returns (run: seq<QState>, events: seq<AnyEvent>)
    ensures Reaches(run, events, 4, [3, 1, 0], [[2]])
  {
    run, events := SecondReturned();
    var chains: seq<seq<nat>> := [[2], [3]];
    SafeBehind(4, [1, 0], chains, 1, 0);
    run, events := ThenPop(run, events, 4, [1, 0], chains, 1);
    assert [3] + [1, 0] == [3, 1, 0] && Without(chains, 1) == [[2]];
  }

  lemma TwoAdded() returns (run: seq<QState>, events: seq<AnyEvent>)
    ensures Reaches(run, events, 4, [], [[2], [3], [1, 0]])
  {
    run, events := ThirdReturned();
    assert [3, 1, 0] == [3] + [1, 0];
    run, events := ThenAdd(run, events, 4, [3], [1, 0], [[2]]);
    assert [1, 0] == [1, 0] + [];
    run, events := ThenAdd(run, events, 4, [1, 0], [], [[2], [3]]);
    assert [[2], [3]] + [[1, 0]] == [[2], [3], [1, 0]];
  }

  lemma FourthReturned() returns (run: seq<QState>, events: seq<AnyEvent>)
    ensures Reaches(run, events, 4, [3], [[2], [1, 0]])
  {
    run, events := TwoAdded();
    var chains: seq<seq<nat>> := [[2], [3], [1, 0]];
    SafeBehind(4, [], chains, 1, 0);
    run, events := ThenPop(run, events, 4, [], chains, 1);
    assert [3] + [] == [3] && Without(chains, 1) == [[2], [1, 0]];
  }

  lemma ChainsRebuilt() returns (run: seq<QState>, events: seq<AnyEvent>)
    ensures Reaches(run, events, 4, [], [[2], [1, 0, 3]])
  {
    run, events := FourthReturned();
    var chains: seq<seq<nat>> := [[2], [1, 0]];
    SafeBehind(4, [3], chains, 1, 1);
    run, events := ThenPop(run, events, 4, [3], chains, 1);
    assert [1, 0] + [3] == [1, 0, 3] + [] && Without(chains, 1) == [[2]];
    run, events := ThenAdd(run, events, 4, [1, 0, 3], [], [[2]]);
  }

  /** A queue of four whose returns so far did no harm can hold a chain whose recycling never ends. */
  lemma EndlessRecycleIsReachable() returns (run: seq<QState>, events: seq<AnyEvent>)
    ensures HarmlessRun(4, run, events)
    ensures var s := run[|events|];
            && Partition(s.table, s.head, s.avail, s.chains) && s.chains == [[2], [1, 0, 3]]
            && forall t' :: !RecyclesTo(s.table, s.head, 1, t')
  {
    run, events := ChainsRebuilt();
    var s := run[|events|];
    HarmlessRunKeepsPartition(4, run, events, |events|);
    assert OwnPredecessor(4, [1, 0, 3], 1);
    forall t' ensures !RecyclesTo(s.table, s.head, 1, t') {
      RecycleEndsIff(s.table, s.head, s.avail, s.chains, 1, t');
    }
  }

  /** Returning chains in the order they were added is not harmless: with a table of four and
      two one-descriptor chains outstanding, the second return links a descriptor that is
      already on the free list back to the front, and the free list becomes a cycle. */
  lemma FifoReturnBreaksPartition(s: QState, s1: QState, s2: QState)
    requires Partition(s.table, s.head, s.avail, s.chains)
    requires |s.table| == 4 && s.avail == [2, 3] && s.chains == [[0], [1]]
    requires PopStep(s, s1, 0) && PopStep(s1, s2, 0)
    ensures Partition(s1.table, s1.head, s1.avail, s1.chains)
    ensures !Partition(s2.table, s2.head, s2.avail, s2.chains)
    ensures s2.head == 1 && s2.table[1].next == 0 && s2.table[0].next == 1
  {
    assert LastOf(3, s.avail);
    SafeRecycleKeepsPartition(s.table, s.head, s.avail, s.chains, 0);
    assert s1.avail == [0, 2, 3] && s1.chains == [[1]];
    assert !LastOf(0, s1.avail) && !LastOf(0, s1.chains[0]);
    UnsafeRecycleBreaksPartition(s1.table, s1.head, s1.avail, s1.chains, 0, s2.avail);
  }
}
