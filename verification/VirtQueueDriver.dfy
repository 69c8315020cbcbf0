/** The driver's queue object: the descriptor table and both rings, with their wrapping 16-bit
indices, and the device's side of the rings as environment steps.
 */
module VirtQueueDriver {
  import opened Bits
  import opened VirtQueue
  import opened Wrappers

  datatype QueueError = InvalidArgs | BufferTooSmall | NotReady | WrongToken

  datatype UsedElem = UsedElem(id: nat, len: nat)

  // Ring arithmetic.

  /** The sizes `new` accepts: the powers of two up to 256. */
  ghost predicate QueueSize(n: nat) { exists k: nat :: k <= 8 && n == Pow2(k) }

  /** `idx & (size - 1)`. */
  function Slot(idx: nat, size: nat): nat
    requires size > 0
  {
    And(idx, size - 1)
  }

  function WrappingAdd1(idx: nat): nat { (idx + 1) % 0x1_0000 }

  lemma {:induction false} SlotIsRem(idx: nat, size: nat)
    requires QueueSize(size)
    ensures size > 0 && Slot(idx, size) == Rem(idx, size) < size
  {
    var k: nat :| k <= 8 && size == Pow2(k);
    MaskIsRem(idx, k);
  }

  /** The masked slot is the index modulo the queue size. */
  lemma SlotIsMod(idx: nat, size: nat)
    requires QueueSize(size)
    ensures size > 0 && Slot(idx, size) == idx % size
  {
    SlotIsRem(idx, size);
    RemIsMod(idx, size);
  }

  lemma PowerAtMost(size: nat)
    requires QueueSize(size)
    ensures 0 < size <= 256
  {
    var k: nat :| k <= 8 && size == Pow2(k);
    Pow2Monotone(k, 8);
    SmallPowers();
  }

  lemma {:induction false} SizeDividesWrap(size: nat)
    requires QueueSize(size)
    ensures size > 0 && Rem(0x1_0000, size) == 0
  {
    var k: nat :| k <= 8 && size == Pow2(k);
    SmallPowers();
    Pow2Divides(k, 16);
  }

  /** A wrapped index selects the same slot as the total count it stands for. */
  lemma SlotOfWrapped(total: nat, size: nat)
    requires QueueSize(size)
    ensures size > 0 && Slot(total % 0x1_0000, size) == Slot(total, size)
  {
    SlotIsRem(total, size);
    SlotIsRem(total % 0x1_0000, size);
    SizeDividesWrap(size);
    RemIsMod(total, 0x1_0000);
    RemOfRem(total, 0x1_0000, size);
  }

  lemma WrapNext(total: nat)
    ensures WrappingAdd1(total % 0x1_0000) == (total + 1) % 0x1_0000
  {
  }

  lemma {:induction false} RemsDiffer(a: nat, b: nat, m: nat)
    requires a < b < a + m
    ensures Rem(a, m) != Rem(b, m)
    decreases a
  {
    if a >= m { RemsDiffer(a - m, b - m, m); }
  }

  /** Fewer than `size` apart, two counts select different slots. */
  lemma SlotsDiffer(a: nat, b: nat, size: nat)
    requires QueueSize(size) && a < b < a + size
    ensures Slot(a, size) != Slot(b, size)
  {
    SlotIsRem(a, size);
    SlotIsRem(b, size);
    RemsDiffer(a, b, size);
  }

  /** Counts less than 2^16 apart are equal exactly when their wrapped indices are. */
  lemma WrappedEqual(a: nat, b: nat)
    requires a <= b < a + 0x1_0000
    ensures a % 0x1_0000 == b % 0x1_0000 <==> a == b
  {
  }

  /** The ring's live entries `[from, |log|)` are in their slots. */
  predicate Holds<T(==)>(ring: seq<T>, log: seq<T>, from: nat, size: nat)
    requires 0 < size <= |ring|
  {
    forall k :: from <= k < |log| ==> Slot(k, size) < |ring| && ring[Slot(k, size)] == log[k]
  }

  /** Writing in the slot past the log appends to the ring: while fewer than `size` entries are
      live, none of them is overwritten. */
  lemma SlotAppend<T>(ring: seq<T>, log: seq<T>, from: nat, size: nat, x: T)
    requires QueueSize(size) && 0 < size == |ring| && Holds(ring, log, from, size) && from <= |log| < from + size
    ensures Slot(|log|, size) < size && Holds(ring[Slot(|log|, size) := x], log + [x], from, size)
  {
    SlotIsRem(|log|, size);
    var ring' := ring[Slot(|log|, size) := x];
    forall k | from <= k < |log| + 1 ensures Slot(k, size) < size && ring'[Slot(k, size)] == (log + [x])[k] {
      if k < |log| { SlotsDiffer(k, |log|, size); }
    }
  }

  /** The same at the wrapped index, whose successor stands for the longer log. */
  lemma RingAppend<T>(ring: seq<T>, log: seq<T>, from: nat, size: nat, idx: nat, x: T)
    requires QueueSize(size) && 0 < |ring| == size && Holds(ring, log, from, size)
    requires from <= |log| < from + size && idx == |log| % 0x1_0000
    ensures Slot(idx, size) < size && Holds(ring[Slot(idx, size) := x], log + [x], from, size)
    ensures WrappingAdd1(idx) == |log + [x]| % 0x1_0000
  {
    SlotOfWrapped(|log|, size);
    SlotAppend(ring, log, from, size, x);
    WrapNext(|log|);
  }

  /** Reading at the wrapped index gives the oldest live entry. */
  lemma RingRead<T>(ring: seq<T>, log: seq<T>, from: nat, size: nat, idx: nat)
    requires QueueSize(size) && 0 < |ring| == size && Holds(ring, log, from, size)
    requires from < |log| && idx == from % 0x1_0000
    ensures Slot(idx, size) < size && ring[Slot(idx, size)] == log[from]
    ensures Holds(ring, log, from + 1, size)
    ensures WrappingAdd1(idx) == (from + 1) % 0x1_0000
  {
    SlotOfWrapped(from, size);
    SlotIsRem(from, size);
    WrapNext(from);
  }

  lemma {:induction false} UsedBounds(chains: seq<seq<nat>>)
    requires forall j :: 0 <= j < |chains| ==> chains[j] != []
    ensures |chains| <= Used(chains) == |Members(chains)|
    decreases chains
  {
    if chains != [] { UsedBounds(chains[1..]); }
  }

  lemma {:induction false} IndicesSize(n: nat)
    ensures |Indices(n)| == n
  {
    IotaSpread(n);
    assert |multiset(Iota(n))| == n;
    assert |multiset(Indices(n))| == |Indices(n)|;
  }

  /** In a partition the free list has the table's size less the descriptors in flight. */
  lemma {:induction false} FreeCount(t: Table, head: nat, avail: seq<nat>, chains: seq<seq<nat>>)
    requires Partition(t, head, avail, chains)
    ensures |avail| + Used(chains) == |t| && |chains| <= Used(chains)
  {
    forall j | 0 <= j < |chains| ensures chains[j] != [] { assert Chain(t, chains[j]); }
    UsedBounds(chains);
    assert ([avail] + chains)[1..] == chains;
    IndicesSize(|t|);
    assert |multiset(avail)| == |avail|;
    assert |multiset(Indices(|t|))| == |Indices(|t|)|;
  }

  /** The chain an add makes offers its buffers to the device. */
  lemma AddOffers(t: Table, t': Table, head: nat, avail: seq<nat>, chains: seq<seq<nat>>, ins: seq<Buf>, outs: seq<Buf>)
    requires Partition(t, head, avail, chains) && 0 < |ins| + |outs| <= |avail|
    requires Filled(t, t', avail[..|ins| + |outs|], ins, outs)
    ensures Offers(t', avail[0], ins, outs)
  {
    var xs := avail[..|ins| + |outs|];
    FreeCount(t, head, avail, chains);
    AddKeepsPartition(t, t', head, avail, chains, ins, outs);
    assert (chains + [xs])[|chains|] == xs && Chain(t', xs);
    FilledOffers(t, t', xs, ins, outs);
  }

  lemma {:induction false} UsedWithout(chains: seq<seq<nat>>, j: nat)
    requires j < |chains|
    ensures Used(chains) == |chains[j]| + Used(Without(chains, j))
    decreases chains
  {
    if j == 0 {
      assert Without(chains, 0) == chains[1..];
    } else {
      UsedWithout(chains[1..], j - 1);
      assert Without(chains, j)[1..] == Without(chains[1..], j - 1) && Without(chains, j)[0] == chains[0];
    }
  }

  lemma {:induction false} UsedAppend(chains: seq<seq<nat>>, xs: seq<nat>)
    ensures Used(chains + [xs]) == Used(chains) + |xs|
    decreases chains
  {
    if chains == [] {
      assert [xs][1..] == [];
    } else {
      UsedAppend(chains[1..], xs);
      assert (chains + [xs])[1..] == chains[1..] + [xs];
    }
  }

  /** `t'` is `t` with the buffers written to the descriptors `xs`, NEXT set on every one. */
  predicate Taken(t: Table, t': Table, xs: seq<nat>, bufs: seq<Buf>, write: bool) {
    && |t'| == |t| && |xs| == |bufs| && InTable(t, xs)
    && (forall x :: 0 <= x < |t| && x !in xs ==> t'[x] == t[x])
    && (forall i :: 0 <= i < |xs| ==>
          t'[xs[i]] == Desc(bufs[i].addr, bufs[i].len, true, write, t[xs[i]].next))
  }

  predicate Distinct(xs: seq<nat>) { forall i, j :: 0 <= i < j < |xs| ==> xs[i] != xs[j] }

  lemma TakenNext(t: Table, t1: Table, xs: seq<nat>, bufs: seq<Buf>, write: bool, i: nat)
    requires i < |xs| && i < |bufs| && InTable(t, xs) && Distinct(xs) && Taken(t, t1, xs[..i], bufs[..i], write)
    ensures t1[xs[i]] == t[xs[i]]
    ensures Taken(t, t1[xs[i] := Desc(bufs[i].addr, bufs[i].len, true, write, t1[xs[i]].next)], xs[..i + 1], bufs[..i + 1], write)
  {
    var ys, cs := xs[..i + 1], bufs[..i + 1];
    var t2 := t1[xs[i] := Desc(bufs[i].addr, bufs[i].len, true, write, t1[xs[i]].next)];
    assert xs[i] !in xs[..i];
    forall k | 0 <= k < |ys| ensures t2[ys[k]] == Desc(cs[k].addr, cs[k].len, true, write, t[ys[k]].next) {
      if k < i { assert ys[k] == xs[..i][k] && cs[k] == bufs[..i][k]; }
    }
    forall x | 0 <= x < |t| && x !in ys ensures t2[x] == t[x] {
      assert x !in xs[..i] by { assert forall k :: 0 <= k < i ==> ys[k] == xs[..i][k]; }
      assert ys[i] == xs[i];
    }
  }

  lemma TakenKeepsLinks(t: Table, t': Table, xs: seq<nat>, n: nat, bufs: seq<Buf>, write: bool)
    requires Linked(t, xs) && Distinct(xs) && n <= |xs| && Taken(t, t', xs[..n], bufs, write)
    ensures forall i :: 0 <= i < |xs| ==> t'[xs[i]].next == t[xs[i]].next
    ensures Linked(t', xs[n..]) && Distinct(xs[n..])
  {
    forall i | 0 <= i < |xs| ensures t'[xs[i]].next == t[xs[i]].next {
      if i < n { assert xs[..n][i] == xs[i]; } else { assert xs[i] !in xs[..n]; }
    }
  }

  /** The two loops and the clearing of the last NEXT flag add up to one filled chain. */
  lemma TakenTwice(t: Table, t1: Table, t2: Table, xs: seq<nat>, ins: seq<Buf>, outs: seq<Buf>)
    requires Distinct(xs) && |xs| == |ins| + |outs| && xs != []
    requires Taken(t, t1, xs[..|ins|], ins, false) && Taken(t1, t2, xs[|ins|..], outs, true)
    ensures InTable(t, xs) && |t2| == |t|
    ensures Filled(t, t2[Last(xs) := t2[Last(xs)].(hasNext := false)], xs, ins, outs)
  {
    var n := |ins|;
    forall i | 0 <= i < |xs| ensures xs[i] < |t| {
      if i < n { assert xs[..n][i] == xs[i]; } else { assert xs[n..][i - n] == xs[i]; }
    }
    var t3 := t2[Last(xs) := t2[Last(xs)].(hasNext := false)];
    forall i | 0 <= i < |xs|
      ensures t3[xs[i]] == Desc((ins + outs)[i].addr, (ins + outs)[i].len, i < |xs| - 1, i >= n, t[xs[i]].next)
    {
      if i < n {
        assert xs[..n][i] == xs[i] && xs[i] !in xs[n..];
      } else {
        assert xs[n..][i - n] == xs[i] && xs[i] !in xs[..n];
      }
    }
    forall x | 0 <= x < |t| && x !in xs ensures t3[x] == t[x] {
      assert x !in xs[..n] && x !in xs[n..];
    }
  }

  lemma FillAll(t: Table, t1: Table, t2: Table, xs: seq<nat>, ins: seq<Buf>, outs: seq<Buf>)
    requires Linked(t, xs) && Distinct(xs) && 0 < |ins| + |outs| <= |xs|
    requires Taken(t, t1, xs[..|ins|], ins, false) && Taken(t1, t2, xs[|ins|..][..|outs|], outs, true)
    ensures var last := xs[|ins| + |outs| - 1];
            last < |t2| && Filled(t, t2[last := t2[last].(hasNext := false)], xs[..|ins| + |outs|], ins, outs)
  {
    var ys, n := xs[..|ins| + |outs|], |ins|;
    assert ys[..n] == xs[..n] && ys[n..] == xs[n..][..|outs|];
    TakenTwice(t, t1, t2, ys, ins, outs);
  }

  // What the pending used elements mean.

  predicate HeadAt(chains: seq<seq<nat>>, j: nat, id: nat) {
    j < |chains| && chains[j] != [] && chains[j][0] == id
  }

  ghost predicate IsHead(chains: seq<seq<nat>>, id: nat) { exists j: nat :: HeadAt(chains, j, id) }

  /** Each element the device has returned and the driver has not yet popped names the head of
      a different in-flight chain. */
  ghost predicate PendingOk(chains: seq<seq<nat>>, used: seq<UsedElem>, popped: nat) {
    && (forall k :: popped <= k < |used| ==> IsHead(chains, used[k].id))
    && (forall k, l :: popped <= k < l < |used| ==> used[k].id != used[l].id)
  }

  lemma PendingAfterAdd(chains: seq<seq<nat>>, used: seq<UsedElem>, popped: nat, xs: seq<nat>)
    requires PendingOk(chains, used, popped)
    ensures PendingOk(chains + [xs], used, popped)
  {
    forall k | popped <= k < |used| ensures IsHead(chains + [xs], used[k].id) {
      var j: nat :| HeadAt(chains, j, used[k].id);
      assert HeadAt(chains + [xs], j, used[k].id);
    }
  }

  lemma PendingAfterPop(chains: seq<seq<nat>>, used: seq<UsedElem>, popped: nat, j: nat)
    requires PendingOk(chains, used, popped) && popped < |used| && HeadAt(chains, j, used[popped].id)
    ensures PendingOk(Without(chains, j), used, popped + 1)
  {
    forall k | popped + 1 <= k < |used| ensures IsHead(Without(chains, j), used[k].id) {
      var l: nat :| HeadAt(chains, l, used[k].id);
      assert l != j;
      assert HeadAt(Without(chains, j), if l < j then l else l - 1, used[k].id);
    }
  }

  class Queue {
    const size: nat
    const descs: array<Desc>
    const availRing: array<nat>
    const usedRing: array<UsedElem>
    var numUsed: nat
    var freeHead: nat
    var availIdx: nat
    var usedIdx: nat       // written by the device
    var lastUsedIdx: nat
    var deviceIdx: nat     // the device's own position in the available ring

    ghost var avail: seq<nat>          // the free list
    ghost var chains: seq<seq<nat>>    // in-flight chains, oldest first
    ghost var heads: seq<nat>          // every head ever added
    ghost var used: seq<UsedElem>      // every element the device ever returned
    ghost var consumed: nat            // how many heads the device has taken
    ghost var popped: nat              // how many used elements the driver has popped

    ghost predicate TableOk()
      reads this, descs
    {
      && descs.Length == size
      && Partition(descs[..], freeHead, avail, chains)
      && numUsed == Used(chains)
    }

    ghost predicate RingsOk()
      reads this, availRing, usedRing
    {
      && QueueSize(size) && 0 < size == availRing.Length && usedRing.Length == size
      && popped <= |used| <= consumed <= |heads|
      && availIdx == |heads| % 0x1_0000 && usedIdx == |used| % 0x1_0000 && lastUsedIdx == popped % 0x1_0000
      && deviceIdx == consumed % 0x1_0000
      && Holds(availRing[..], heads, consumed, size)
      && Holds(usedRing[..], used, popped, size)
    }

    ghost predicate Valid()
      reads this, descs, availRing, usedRing
    {
      TableOk() && RingsOk() && PendingOk(chains, used, popped) && |heads| - popped == |chains|
    }

    /** No more heads are in flight than there are descriptors. */
    lemma InFlightBound()
      requires Valid()
      ensures |used| <= |heads| <= popped + size && |chains| + |avail| <= size
    {
      FreeCount(descs[..], freeHead, avail, chains);
    }

    constructor (n: nat)
      requires QueueSize(n)
      ensures Valid() && size == n && avail == Iota(n) && chains == [] && heads == [] && used == []
      ensures fresh(descs) && fresh(availRing) && fresh(usedRing)
    {
      size := n;
      var d := new Desc[n](_ => Desc(0, 0, false, false, 0));
      var i := 0;
      while i < n - 1
        invariant 0 <= i <= n - 1
        invariant forall k :: 0 <= k < i ==> d[k].next == k + 1
      {
        d[i] := d[i].(next := i + 1);
        i := i + 1;
      }
      descs := d;
      availRing := new nat[n](_ => 0);
      usedRing := new UsedElem[n](_ => UsedElem(0, 0));
      numUsed, freeHead, availIdx, usedIdx, lastUsedIdx, deviceIdx := 0, 0, 0, 0, 0, 0;
      avail, chains, heads, used, consumed, popped := Iota(n), [], [], [], 0, 0;
      InitialPartition(d[..]);
    }

    /** One of the two loops of `add_buf`: writes buffers to descriptors taken off the free list. */
    method Take(bufs: seq<Buf>, write: bool, last: nat, ghost xs: seq<nat>) returns (last': nat)
      requires Linked(descs[..], xs) && |bufs| <= |xs| && (xs != [] ==> freeHead == xs[0])
      requires Distinct(xs)
      modifies `freeHead, descs
      ensures Taken(old(descs[..]), descs[..], xs[..|bufs|], bufs, write)
      ensures bufs == [] ==> last' == last && freeHead == old(freeHead)
      ensures bufs != [] ==> last' == xs[|bufs| - 1] && freeHead == old(descs[..])[xs[|bufs| - 1]].next
    {
      last' := last;
      var i := 0;
      while i < |bufs|
        invariant 0 <= i <= |bufs|
        invariant Taken(old(descs[..]), descs[..], xs[..i], bufs[..i], write)
        invariant i == 0 ==> last' == last && freeHead == old(freeHead)
        invariant i > 0 ==> last' == xs[i - 1] && freeHead == old(descs[..])[xs[i - 1]].next
      {
        ghost var t, t1 := old(descs[..]), descs[..];
        TakenNext(t, t1, xs, bufs, write, i);
        assert freeHead == xs[i] by {
          if i > 0 { assert t[xs[i - 1]].next == xs[i]; }
        }
        descs[freeHead] := descs[freeHead].(addr := bufs[i].addr, len := bufs[i].len, hasNext := true, write := write);
        assert descs[..] == t1[xs[i] := Desc(bufs[i].addr, bufs[i].len, true, write, t1[xs[i]].next)];
        last' := freeHead;
        freeHead := descs[freeHead].next;
        i := i + 1;
      }
      assert bufs[..i] == bufs;
    }

    lemma FreeListDistinct()
      requires TableOk()
      ensures Distinct(avail)
    {
      forall i, j | 0 <= i < j < |avail| ensures avail[i] != avail[j] {
        if avail[i] == avail[j] { SamePlace([avail] + chains, size, 0, i, 0, j); }
      }
    }

    /** The descriptor half of `add_buf`. */
    method FillChain(ins: seq<Buf>, outs: seq<Buf>, ghost xs: seq<nat>) returns (head: nat)
      requires Linked(descs[..], xs) && Distinct(xs) && xs != [] && freeHead == xs[0]
      requires 0 < |ins| + |outs| <= |xs|
      modifies `freeHead, descs
      ensures head == xs[0]
      ensures Filled(old(descs[..]), descs[..], xs[..|ins| + |outs|], ins, outs)
      ensures freeHead == old(descs[xs[|ins| + |outs| - 1]].next)
    {
      ghost var n, t0 := |ins|, descs[..];
      head := freeHead;
      var last := Take(ins, false, freeHead, xs);
      ghost var t1 := descs[..];
      TakenKeepsLinks(t0, t1, xs, n, ins, false);
      last := Take(outs, true, last, xs[n..]);
      ghost var t2 := descs[..];
      FillAll(t0, t1, t2, xs, ins, outs);
      assert last == xs[n + |outs| - 1];
      descs[last] := descs[last].(hasNext := false);
      assert descs[..] == t2[last := t2[last].(hasNext := false)];
    }

    /** Moves the front of the free list into a new in-flight chain. */
    method AddChain(ins: seq<Buf>, outs: seq<Buf>) returns (head: nat)
      requires TableOk() && 0 < |ins| + |outs| <= |avail|
      modifies `freeHead, `numUsed, `avail, `chains, descs
      ensures TableOk()
      ensures var k := |ins| + |outs|;
              && head == old(avail)[0]
              && avail == old(avail)[k..] && chains == old(chains) + [old(avail)[..k]]
              && Filled(old(descs[..]), descs[..], old(avail)[..k], ins, outs) && Offers(descs[..], head, ins, outs)
    {
      FreeListDistinct();
      ghost var k, t0, h0 := |ins| + |outs|, descs[..], freeHead;
      head := FillChain(ins, outs, avail);
      numUsed := numUsed + |ins| + |outs|;
      AddKeepsPartition(t0, descs[..], h0, avail, chains, ins, outs);
      UsedAppend(chains, avail[..k]);
      AddOffers(t0, descs[..], h0, avail, chains, ins, outs);
      chains := chains + [avail[..k]];
      avail := avail[k..];
    }

    /** Puts a head in the available ring. The slot it writes holds no head the device has yet
        to take. */
    method Publish(head: nat)
      requires RingsOk() && |heads| < consumed + size
      modifies `availIdx, `heads, availRing
      ensures RingsOk() && heads == old(heads) + [head]
    {
      RingAppend(availRing[..], heads, consumed, size, availIdx, head);
      var slot := Slot(availIdx, size);
      ghost var ring := availRing[..];
      availRing[slot] := head;
      assert availRing[..] == ring[slot := head];
      availIdx := WrappingAdd1(availIdx);
      heads := heads + [head];
    }

    /** Adds a chain, or says why not. */
    method AddBuf(ins: seq<Buf>, outs: seq<Buf>) returns (r: Result<nat, QueueError>)
      requires Valid()
      modifies `freeHead, `numUsed, `avail, `chains, `availIdx, `heads, descs, availRing
      ensures Valid()
      ensures ins == [] && outs == [] ==> r == Err(InvalidArgs)
      ensures (ins != [] || outs != []) && |ins| + |outs| + old(numUsed) > size ==> r == Err(BufferTooSmall)
      ensures (ins != [] || outs != []) && |ins| + |outs| + old(numUsed) <= size ==> r.Ok?
      ensures r.Err? ==> descs[..] == old(descs[..]) && avail == old(avail) && chains == old(chains) && heads == old(heads)
      ensures r.Ok? ==>
                var k := |ins| + |outs|;
                && 0 < k <= |old(avail)| && r.value == old(avail)[0]
                && avail == old(avail)[k..] && chains == old(chains) + [old(avail)[..k]]
                && Filled(old(descs[..]), descs[..], old(avail)[..k], ins, outs)
                && heads == old(heads) + [r.value] && Offers(descs[..], r.value, ins, outs)
    {
      hide Partition, Filled, Offers, Holds, Slot;
      if |ins| == 0 && |outs| == 0 { return Err(InvalidArgs); }
      if |ins| + |outs| + numUsed > size { return Err(BufferTooSmall); }
      FreeCount(descs[..], freeHead, avail, chains);
      PendingAfterAdd(chains, used, popped, avail[..|ins| + |outs|]);
      var head := AddChain(ins, outs);
      Publish(head);
      r := Ok(head);
    }

    /** The device takes the next available head: exactly the heads added, in order. */
    method DeviceTake() returns (head: nat)
      requires Valid() && consumed < |heads|
      modifies `consumed, `deviceIdx
      ensures Valid() && consumed == old(consumed) + 1 && head == heads[old(consumed)]
    {
      RingRead(availRing[..], heads, consumed, size, deviceIdx);
      head := availRing[Slot(deviceIdx, size)];
      deviceIdx := WrappingAdd1(deviceIdx);
      consumed := consumed + 1;
    }

    /** The device's write to the used ring. The slot it writes holds no element the driver has yet
        to pop. */
    method FillUsed(elem: UsedElem)
      requires RingsOk() && |used| < consumed && |used| < popped + size
      modifies `usedIdx, `used, usedRing
      ensures RingsOk() && used == old(used) + [elem]
    {
      RingAppend(usedRing[..], used, popped, size, usedIdx, elem);
      ghost var ring := usedRing[..];
      var slot := Slot(usedIdx, size);
      usedRing[slot] := elem;
      assert usedRing[..] == ring[slot := elem];
      usedIdx := WrappingAdd1(usedIdx);
      used := used + [elem];
    }

    /** The device returns an in-flight chain it has taken and not returned before. */
    method DeviceReturn(elem: UsedElem)
      requires Valid() && |used| < consumed
      requires IsHead(chains, elem.id) && forall k :: popped <= k < |used| ==> used[k].id != elem.id
      modifies `usedIdx, `used, usedRing
      ensures Valid() && used == old(used) + [elem]
    {
      InFlightBound();
      FillUsed(elem);
    }

    /** Whether a used element is pending; the wrapped comparison decides it exactly. */
    method CanPop() returns (b: bool)
      requires Valid()
      ensures b <==> popped < |used|
    {
      InFlightBound();
      PowerAtMost(size);
      WrappedEqual(popped, |used|);
      b := lastUsedIdx != usedIdx;
    }

    /** Puts chain `j`, which starts at `head`, in front of the free list. The walk ends because the
        descriptor before the head does not lead it back into the chain. */
    method Recycle(head: nat, ghost j: nat)
      requires TableOk() && HeadAt(chains, j, head) && !PrecededByItself(size, chains[j])
      modifies `freeHead, `numUsed, descs
      ensures InTable(old(descs[..]), chains[j])
      ensures descs[..] == Recycled(old(descs[..]), old(freeHead), chains[j])
      ensures freeHead == head && numUsed == old(numUsed) - |chains[j]|
    {
      ghost var c, t := chains[j], descs[..];
      assert Chain(t, c);
      WalkFollowsChain(t, freeHead, avail, chains, j);
      UsedWithout(chains, j);
      var originFreeHead := freeHead;
      freeHead := head;
      var before := if head == 0 then size - 1 else head - 1;
      descs[before] := descs[before].(next := head);
      ghost var t1 := Relinked(t, head);
      var cur := head;
      ghost var i := 0;
      while descs[cur].hasNext
        invariant 0 <= i < |c| && cur == c[i]
        invariant descs[..] == t1 && numUsed == old(numUsed) - i && freeHead == head
        decreases |c| - i
      {
        assert t1[c[i]].next == c[i + 1];
        numUsed := numUsed - 1;
        cur := descs[cur].next;
        i := i + 1;
      }
      assert i == |c| - 1 && cur == Last(c);
      numUsed := numUsed - 1;
      descs[cur] := descs[cur].(next := originFreeHead);
    }

    /** The descriptor half of a pop. */
    method FreeChain(head: nat, ghost j: nat)
      requires TableOk() && HeadAt(chains, j, head) && !PrecededByItself(size, chains[j])
      modifies `freeHead, `numUsed, `avail, `chains, descs
      ensures avail == old(chains)[j] + old(avail) && chains == Without(old(chains), j)
      ensures old(SafeToRecycle(size, avail, chains, j)) ==> TableOk()
      ensures !old(SafeToRecycle(size, avail, chains, j)) ==> Broken(descs[..], freeHead, chains)
    {
      ghost var t, h := descs[..], freeHead;
      UsedWithout(chains, j);
      Recycle(head, j);
      if SafeToRecycle(size, avail, chains, j) {
        SafeRecycleKeepsPartition(t, h, avail, chains, j);
      } else {
        UnsafeRecycleBreaks(t, h, avail, chains, j);
      }
      avail := chains[j] + avail;
      chains := Without(chains, j);
    }

    /** The ring half of a pop. */
    method AdvanceUsed()
      requires RingsOk() && popped < |used|
      modifies `lastUsedIdx, `popped
      ensures RingsOk() && popped == old(popped) + 1
    {
      RingRead(usedRing[..], used, popped, size, lastUsedIdx);
      lastUsedIdx := WrappingAdd1(lastUsedIdx);
      popped := popped + 1;
    }

    /** The chain that the next pop returns can be recycled without harm. */
    ghost predicate NextPopSafe()
      reads this
    {
      popped < |used| ==>
        forall j: nat :: HeadAt(chains, j, used[popped].id) ==> SafeToRecycle(size, avail, chains, j)
    }

    /** Its recycling ends. */
    ghost predicate NextPopEnds()
      reads this
    {
      popped < |used| ==>
        forall j: nat :: HeadAt(chains, j, used[popped].id) ==> !PrecededByItself(size, chains[j])
    }

    /** A harmless pop ends; it is one of the pops that do. */
    lemma SafePopEnds()
      requires Valid() && NextPopSafe()
      ensures NextPopEnds()
    {
      if popped < |used| {
        forall j: nat | HeadAt(chains, j, used[popped].id) ensures !PrecededByItself(size, chains[j]) {
          SafeIsNotOwn(descs[..], freeHead, avail, chains, j);
        }
      }
    }

    lemma NextHead() returns (j: nat)
      requires Valid() && popped < |used|
      ensures HeadAt(chains, j, used[popped].id)
      ensures NextPopSafe() <==> SafeToRecycle(size, avail, chains, j)
    {
      assert IsHead(chains, used[popped].id);
      j :| HeadAt(chains, j, used[popped].id);
      forall k: nat | HeadAt(chains, k, used[popped].id) ensures k == j {
        OneHead([avail] + chains, size, chains, j, k, used[popped].id);
      }
    }

    /** The tail shared by the two pops: recycle the returned chain, advance the index. */
    method TakeBack(elem: UsedElem)
      requires Valid() && popped < |used| && elem == used[popped] && NextPopEnds()
      modifies `freeHead, `numUsed, `avail, `chains, `lastUsedIdx, `popped, descs
      ensures popped == old(popped) + 1 && PoppedTo(old(avail), old(chains), avail, chains, elem.id)
      ensures old(NextPopSafe()) ==> Valid()
      ensures !old(NextPopSafe()) ==> Broken(descs[..], freeHead, chains)
    {
      ghost var j := NextHead();
      PendingAfterPop(chains, used, popped, j);
      ghost var avail0, chains0 := avail, chains;
      FreeChain(elem.id, j);
      AdvanceUsed();
      PoppedAt(avail0, chains0, j, elem.id);
    }

    /** Nothing is ready exactly when nothing is pending. Otherwise the oldest returned element is
        popped, and the queue stays in order exactly when its chain could be recycled without harm. */
    method PopUsed() returns (r: Result<UsedElem, QueueError>)
      requires Valid() && NextPopEnds()
      modifies `freeHead, `numUsed, `avail, `chains, `lastUsedIdx, `popped, descs
      ensures old(popped) == |used| ==> r == Err(NotReady) && Valid() && popped == old(popped) && chains == old(chains)
      ensures old(popped) < |used| ==>
                && r == Ok(used[old(popped)]) && popped == old(popped) + 1
                && PoppedTo(old(avail), old(chains), avail, chains, r.value.id)
                && (old(NextPopSafe()) ==> Valid())
                && (!old(NextPopSafe()) ==> Broken(descs[..], freeHead, chains))
    {
      var ready := CanPop();
      if !ready { return Err(NotReady); }
      RingRead(usedRing[..], used, popped, size, lastUsedIdx);
      var elem := usedRing[Slot(lastUsedIdx, size)];
      TakeBack(elem);
      r := Ok(elem);
    }

    method PopUsedWithToken(token: nat) returns (r: Result<nat, QueueError>)
      requires Valid() && (popped < |used| && used[popped].id == token ==> NextPopEnds())
      modifies `freeHead, `numUsed, `avail, `chains, `lastUsedIdx, `popped, descs
      ensures old(popped) == |used| ==> r == Err(NotReady)
      ensures old(popped) < |used| && used[old(popped)].id != token ==> r == Err(WrongToken)
      ensures r.Err? ==> Valid() && popped == old(popped) && chains == old(chains) && avail == old(avail)
      ensures old(popped) < |used| && used[old(popped)].id == token ==>
                && r == Ok(used[old(popped)].len) && popped == old(popped) + 1
                && PoppedTo(old(avail), old(chains), avail, chains, token)
                && (old(NextPopSafe()) ==> Valid())
                && (!old(NextPopSafe()) ==> Broken(descs[..], freeHead, chains))
    {
      var ready := CanPop();
      if !ready { return Err(NotReady); }
      RingRead(usedRing[..], used, popped, size, lastUsedIdx);
      var elem := usedRing[Slot(lastUsedIdx, size)];
      if elem.id != token { return Err(WrongToken); }
      TakeBack(elem);
      r := Ok(elem.len);
    }

    /** With the stack shape, a device that returns the newest chain first always returns one
        that can be recycled without harm. */
    lemma LifoPopSafe()
      requires Valid() && Stacked(size, avail, chains) && chains != [] && popped < |used|
      requires HeadAt(chains, |chains| - 1, used[popped].id)
      ensures NextPopSafe()
    {
      PopTopIsSafe(size, avail, chains);
      forall j: nat | HeadAt(chains, j, used[popped].id)
        ensures SafeToRecycle(size, avail, chains, j)
      {
        OneHead([avail] + chains, size, chains, |chains| - 1, j, used[popped].id);
      }
    }

    /** Popping the newest of any number of chains keeps the queue in order and in the stack shape. */
    method PopNewest() returns (r: Result<UsedElem, QueueError>)
      requires Valid() && Stacked(size, avail, chains) && chains != [] && popped < |used|
      requires HeadAt(chains, |chains| - 1, used[popped].id)
      modifies `freeHead, `numUsed, `avail, `chains, `lastUsedIdx, `popped, descs
      ensures Valid() && Stacked(size, avail, chains) && r == Ok(used[old(popped)])
      ensures chains == old(chains)[..|old(chains)| - 1] && avail == old(chains)[|old(chains)| - 1] + old(avail)
    {
      LifoPopSafe();
      SafePopEnds();
      ghost var avail0, chains0, id := avail, chains, used[popped].id;
      NewestOnly(size, avail, chains, id);
      r := PopUsed();
      assert PoppedTo(avail0, chains0, avail, chains, id);
    }
  }

  /** What popping the newest chain of a stack leaves, whichever way its head is looked up. */
  lemma NewestOnly(n: nat, avail: seq<nat>, chains: seq<seq<nat>>, id: nat)
    requires Stacked(n, avail, chains) && Spread([avail] + chains, n) && chains != [] && HeadAt(chains, |chains| - 1, id)
    ensures forall avail', chains' :: PoppedTo(avail, chains, avail', chains', id) ==>
              && Stacked(n, avail', chains')
              && chains' == chains[..|chains| - 1] && avail' == chains[|chains| - 1] + avail
  {
    var top := |chains| - 1;
    PopTopIsSafe(n, avail, chains);
    assert Without(chains, top) == chains[..top];
    forall j: nat | HeadAt(chains, j, id) ensures j == top {
      OneHead([avail] + chains, n, chains, top, j, id);
    }
  }

  /** Popping the chain with head `id` took it off the chains and put it before the free list. */
  ghost predicate PoppedTo(avail: seq<nat>, chains: seq<seq<nat>>, avail': seq<nat>, chains': seq<seq<nat>>, id: nat) {
    exists j: nat :: HeadAt(chains, j, id) && avail' == chains[j] + avail && chains' == Without(chains, j)
  }

  lemma PoppedAt(avail: seq<nat>, chains: seq<seq<nat>>, j: nat, id: nat)
    requires HeadAt(chains, j, id)
    ensures PoppedTo(avail, chains, chains[j] + avail, Without(chains, j), id)
  {
  }

  /** No free list goes with these chains in this table. */
  ghost predicate Broken(t: Table, head: nat, chains: seq<seq<nat>>) {
    forall avail :: !Partition(t, head, avail, chains)
  }

  lemma UnsafeRecycleBreaks(t: Table, head: nat, avail: seq<nat>, chains: seq<seq<nat>>, j: nat)
    requires Partition(t, head, avail, chains) && j < |chains| && chains[j] != [] && InTable(t, chains[j])
    requires !SafeToRecycle(|t|, avail, chains, j) && !PrecededByItself(|t|, chains[j])
    ensures Broken(Recycled(t, head, chains[j]), chains[j][0], Without(chains, j))
  {
    forall avail' ensures !Partition(Recycled(t, head, chains[j]), chains[j][0], avail', Without(chains, j)) {
      UnsafeRecycleBreaksPartition(t, head, avail, chains, j, avail');
    }
  }

  /** Only one chain has a given head. */
  lemma OneHead(lists: seq<seq<nat>>, n: nat, chains: seq<seq<nat>>, j: nat, k: nat, id: nat)
    requires Spread(lists, n) && |lists| == |chains| + 1 && lists[1..] == chains
    requires HeadAt(chains, j, id) && HeadAt(chains, k, id)
    ensures j == k
  {
    assert lists[j + 1] == chains[j] && lists[k + 1] == chains[k];
    SamePlace(lists, n, j + 1, 0, k + 1, 0);
  }

  lemma StackAfterAdd(n: nat, avail: seq<nat>, chains: seq<seq<nat>>, k: nat)
    requires Stacked(n, avail, chains) && 0 < k <= |avail|
    ensures Stacked(n, avail[k..], chains + [avail[..k]])
  {
    StackPush(chains, 0, avail[..k]);
  }

  /** Nothing is in flight and the free list is the whole table in order. */
  ghost predicate Quiet(q: Queue)
    reads q, q.descs, q.availRing, q.usedRing
  {
    q.Valid() && q.chains == [] && Stacked(q.size, q.avail, [])
  }

  /** One chain is in flight, with the head `id`, and the free list is what follows it. */
  ghost predicate Busy(q: Queue, id: nat)
    reads q, q.descs, q.availRing, q.usedRing
  {
    q.Valid() && |q.chains| == 1 && Stacked(q.size, q.avail, q.chains) && HeadAt(q.chains, 0, id)
  }

  lemma QuietFacts(q: Queue)
    requires Quiet(q)
    ensures q.numUsed == 0 && |q.avail| == q.size && q.popped == |q.used| == q.consumed == |q.heads|
  {
  }

  method Submit(q: Queue, ins: seq<Buf>, outs: seq<Buf>) returns (token: nat)
    requires Quiet(q) && 0 < |ins| + |outs| <= q.size
    modifies q, q.descs, q.availRing
    ensures Busy(q, token) && q.heads == old(q.heads) + [token] && q.used == old(q.used)
    ensures q.popped == |q.used| == q.consumed == |old(q.heads)| && Offers(q.descs[..], token, ins, outs)
  {
    QuietFacts(q);
    StackAfterAdd(q.size, q.avail, q.chains, |ins| + |outs|);
    var added := q.AddBuf(ins, outs);
    token := added.value;
    assert q.chains[0][0] == token;
  }

  /** The device's turn: it takes the head it is offered, sees the buffers behind it and returns
      that chain. */
  method Answer(q: Queue, ghost token: nat, answer: nat) returns (head: nat)
    requires Busy(q, token) && q.popped == |q.used| == q.consumed < |q.heads| && q.heads[q.consumed] == token
    modifies q, q.usedRing
    ensures Busy(q, token) && q.used == old(q.used) + [UsedElem(token, answer)] && q.popped == |old(q.used)|
    ensures q.heads == old(q.heads) && head == token
  {
    head := q.DeviceTake();
    q.DeviceReturn(UsedElem(head, answer));
  }

  method Finish(q: Queue, token: nat) returns (r: Result<nat, QueueError>)
    requires Busy(q, token) && q.popped < |q.used| && q.used[q.popped].id == token
    modifies q, q.descs
    ensures Quiet(q) && r == Ok(old(q.used[q.popped].len)) && q.heads == old(q.heads) && q.used == old(q.used)
  {
    q.LifoPopSafe();
    q.SafePopEnds();
    ghost var avail, chains := q.avail, q.chains;
    NewestOnly(q.size, avail, chains, token);
    r := q.PopUsedWithToken(token);
    assert PoppedTo(avail, chains, q.avail, q.chains, token);
  }

  /** A synchronous request, with the device's turn in between: it always succeeds, gives the driver
      what the device answered, and leaves the queue as quiet as it was, over any number of requests. */
  method SynchronousRequest(q: Queue, ins: seq<Buf>, outs: seq<Buf>, answer: nat)
    returns (r: Result<nat, QueueError>, ghost seen: Table, ghost head: nat)
    requires Quiet(q) && 0 < |ins| + |outs| <= q.size
    modifies q, q.descs, q.availRing, q.usedRing
    ensures Quiet(q) && r == Ok(answer) && Offers(seen, head, ins, outs)
    ensures |q.heads| == |old(q.heads)| + 1 && |q.used| == |old(q.used)| + 1
  {
    var token := Submit(q, ins, outs);
    seen := q.descs[..];
    var taken := Answer(q, token, answer);
    head := taken;
    r := Finish(q, token);
  }
}
