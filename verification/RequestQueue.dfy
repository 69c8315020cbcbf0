/** The block I/O request queue, which merges adjacent bios and thereby reorders them.

The meaning of a stream of bios is the disk it leaves and what each read returned. The main
result is that the merged stream the device executes means the same as the stream that was
submitted.
 */
module RequestQueue {
  import opened Wrappers

  type Sid = nat
  type Sector = int

  /** The sectors whose contents are defined. */
  type Disk = map<Sid, Sector>

  datatype BioType = Read | Write | Flush | Discard

  /** A submitted bio: the sectors `[start, End())`, one element of `data` for each of them. */
  datatype Bio = Bio(typ: BioType, start: Sid, data: seq<Sector>) {
    function End(): Sid { start + |data| }
  }

  datatype Request = Request(typ: BioType, lo: Sid, hi: Sid, bios: seq<Bio>)

  // The queue operations.

  predicate CanMerge(r: Request, b: Bio) {
    b.typ == r.typ && (b.start == r.hi || b.End() == r.lo)
  }

  function MergeBio(r: Request, b: Bio): Request
    requires CanMerge(r, b)
  {
    if b.start == r.hi then r.(hi := b.End(), bios := r.bios + [b])
    else r.(lo := b.start, bios := [b] + r.bios)
  }

  function FromBio(b: Bio): Request { Request(b.typ, b.start, b.End(), [b]) }

  /** The newest request is at the front, index 0. */
  function Enqueued(queue: seq<Request>, b: Bio): seq<Request> {
    if queue != [] && CanMerge(queue[0], b) then [MergeBio(queue[0], b)] + queue[1..]
    else [FromBio(b)] + queue
  }

  // The meaning of a stream of bios.

  datatype Outcome = Outcome(disk: Disk, returned: multiset<(Bio, seq<Option<Sector>>)>)

  function SectorAt(d: Disk, s: Sid): Option<Sector> { if s in d then Some(d[s]) else None }

  predicate Covers(b: Bio, s: Sid) { b.start <= s < b.End() }

  function Range(b: Bio): set<Sid> { set s: Sid | b.start <= s < b.End() && Covers(b, s) }

  function DiskAfter(d: Disk, b: Bio): Disk {
    match b.typ
    case Write => d + map s | s in Range(b) :: b.data[s - b.start]
    case Discard => d - Range(b)
    case _ => d
  }

  function Contents(d: Disk, start: Sid, n: nat): seq<Option<Sector>>
    decreases n
  {
    if n == 0 then [] else [SectorAt(d, start)] + Contents(d, start + 1, n - 1)
  }

  function ReadsOf(d: Disk, b: Bio): multiset<(Bio, seq<Option<Sector>>)> {
    if b.typ == Read then multiset{(b, Contents(d, b.start, |b.data|))} else multiset{}
  }

  /** Executes the bios one after the other. */
  function Exec(d: Disk, bios: seq<Bio>): Outcome
    decreases bios
  {
    if bios == [] then Outcome(d, multiset{})
    else
      var rest := Exec(DiskAfter(d, bios[0]), bios[1..]);
      Outcome(rest.disk, ReadsOf(d, bios[0]) + rest.returned)
  }

  predicate Disjoint(a: Bio, b: Bio) { Range(a) !! Range(b) }

  lemma OutsideUnchanged(d: Disk, a: Bio, s: Sid)
    requires s !in Range(a)
    ensures SectorAt(DiskAfter(d, a), s) == SectorAt(d, s)
  {
  }

  lemma SwapDisks(d: Disk, a: Bio, b: Bio)
    requires Disjoint(a, b)
    ensures DiskAfter(DiskAfter(d, a), b) == DiskAfter(DiskAfter(d, b), a)
  {
    var ab, ba := DiskAfter(DiskAfter(d, a), b), DiskAfter(DiskAfter(d, b), a);
    forall s: Sid ensures SectorAt(ab, s) == SectorAt(ba, s) {
      if s !in Range(a) {
        OutsideUnchanged(d, a, s);
        OutsideUnchanged(DiskAfter(d, b), a, s);
      } else {
        OutsideUnchanged(d, b, s);
        OutsideUnchanged(DiskAfter(d, a), b, s);
      }
    }
    SameSectors(ab, ba);
  }

  lemma SameSectors(d: Disk, e: Disk)
    requires forall s: Sid :: SectorAt(d, s) == SectorAt(e, s)
    ensures d == e
  {
    assert forall s :: s in d ==> SectorAt(d, s) == SectorAt(e, s);
    assert forall s :: s in e ==> SectorAt(d, s) == SectorAt(e, s);
  }

  lemma {:induction false} ContentsUnaffected(d: Disk, a: Bio, start: Sid, n: nat)
    requires forall s :: start <= s < start + n ==> s !in Range(a)
    ensures Contents(DiskAfter(d, a), start, n) == Contents(d, start, n)
    decreases n
  {
    if n > 0 {
      OutsideUnchanged(d, a, start);
      ContentsUnaffected(d, a, start + 1, n - 1);
    }
  }

  lemma ReadUnaffected(d: Disk, a: Bio, b: Bio)
    requires Disjoint(a, b)
    ensures ReadsOf(DiskAfter(d, a), b) == ReadsOf(d, b)
  {
    forall s | b.start <= s < b.End() ensures s !in Range(a) {
      assert Covers(b, s);
    }
    ContentsUnaffected(d, a, b.start, |b.data|);
  }

  lemma {:induction false} ExecTwo(d: Disk, x: Bio, y: Bio, rest: seq<Bio>)
    ensures var d2 := DiskAfter(DiskAfter(d, x), y);
            && Exec(d, [x, y] + rest).disk == Exec(d2, rest).disk
            && Exec(d, [x, y] + rest).returned ==
               ReadsOf(d, x) + ReadsOf(DiskAfter(d, x), y) + Exec(d2, rest).returned
  {
    assert ([x, y] + rest)[1..] == [y] + rest && ([y] + rest)[1..] == rest;
    var e := Exec(DiskAfter(d, x), [y] + rest);
    assert e.returned == ReadsOf(DiskAfter(d, x), y) + Exec(DiskAfter(DiskAfter(d, x), y), rest).returned;
  }

  lemma {:induction false} Swap(d: Disk, x: Bio, y: Bio, rest: seq<Bio>)
    requires Disjoint(x, y)
    ensures Exec(d, [x, y] + rest) == Exec(d, [y, x] + rest)
  {
    ExecTwo(d, x, y, rest);
    ExecTwo(d, y, x, rest);
    SwapDisks(d, x, y);
    ReadUnaffected(d, x, y);
    ReadUnaffected(d, y, x);
  }

  /** A bio may move to the front past bios it does not overlap. */
  lemma {:induction false} MoveToFront(d: Disk, ys: seq<Bio>, x: Bio)
    requires forall y :: y in ys ==> Disjoint(y, x)
    ensures Exec(d, ys + [x]) == Exec(d, [x] + ys)
    decreases ys
  {
    if ys == [] {
      assert ys + [x] == [x] + ys;
    } else {
      var y, rest := ys[0], ys[1..];
      assert (ys + [x])[1..] == rest + [x];
      assert ([y, x] + rest)[1..] == [x] + rest;
      MoveToFront(DiskAfter(d, y), rest, x);
      assert Exec(d, ys + [x]) == Exec(d, [y, x] + rest);
      Swap(d, y, x, rest);
      assert [x] + ys == [x, y] + rest;
    }
  }

  lemma {:induction false} ExecConcat(d: Disk, xs: seq<Bio>, ys: seq<Bio>)
    ensures Exec(d, xs + ys).disk == Exec(Exec(d, xs).disk, ys).disk
    ensures Exec(d, xs + ys).returned == Exec(d, xs).returned + Exec(Exec(d, xs).disk, ys).returned
    decreases xs
  {
    if xs == [] {
      assert xs + ys == ys;
    } else {
      assert (xs + ys)[1..] == xs[1..] + ys;
      ExecConcat(DiskAfter(d, xs[0]), xs[1..], ys);
    }
  }

  // The bios of a request tile its sector range.

  predicate Tiles(bios: seq<Bio>, lo: Sid, hi: Sid)
    decreases bios
  {
    if bios == [] then lo == hi else bios[0].start == lo && Tiles(bios[1..], bios[0].End(), hi)
  }

  lemma {:induction false} TilesInside(bios: seq<Bio>, lo: Sid, hi: Sid)
    requires Tiles(bios, lo, hi)
    ensures lo <= hi
    ensures forall b :: b in bios ==> lo <= b.start && b.End() <= hi
    decreases bios
  {
    if bios != [] { TilesInside(bios[1..], bios[0].End(), hi); }
  }

  lemma {:induction false} TilesAppend(bios: seq<Bio>, lo: Sid, b: Bio)
    requires Tiles(bios, lo, b.start)
    ensures Tiles(bios + [b], lo, b.End())
    decreases bios
  {
    if bios == [] {
      assert [b][1..] == [];
    } else {
      TilesAppend(bios[1..], bios[0].End(), b);
      assert (bios + [b])[1..] == bios[1..] + [b];
    }
  }

  /** The request holds exactly the bios of `seg`, a run of consecutive submissions, all of its
      own type; they tile its range; and executing them in request order means the same as
      executing them in submission order. */
  ghost predicate Faithful(r: Request, seg: seq<Bio>) {
    && multiset(r.bios) == multiset(seg)
    && (forall b :: b in r.bios ==> b.typ == r.typ)
    && Tiles(r.bios, r.lo, r.hi)
    && (forall d :: Exec(d, r.bios) == Exec(d, seg))
  }

  lemma MergeIsFaithful(r: Request, seg: seq<Bio>, b: Bio)
    requires Faithful(r, seg) && CanMerge(r, b)
    ensures Faithful(MergeBio(r, b), seg + [b])
  {
    var m := MergeBio(r, b);
    TilesInside(r.bios, r.lo, r.hi);
    if b.start == r.hi {
      TilesAppend(r.bios, r.lo, b);
    } else {
      assert ([b] + r.bios)[1..] == r.bios;
    }
    forall y | b.start != r.hi && y in r.bios ensures Disjoint(y, b) {
      assert b.End() <= y.start;
    }
    forall d ensures Exec(d, m.bios) == Exec(d, seg + [b]) {
      ExecConcat(d, r.bios, [b]);
      ExecConcat(d, seg, [b]);
      assert Exec(d, r.bios + [b]) == Exec(d, seg + [b]);
      if b.start != r.hi { MoveToFront(d, r.bios, b); }
    }
  }

  lemma NewIsFaithful(b: Bio)
    ensures Faithful(FromBio(b), [b])
  {
    assert [b][1..] == [];
  }

  // Whole runs of enqueues and dequeues.

  datatype Op = Enqueue(bio: Bio) | Dequeue

  /** `submitted` and `executed` record what went in and what came out, oldest first. */
  datatype State = State(queue: seq<Request>, submitted: seq<Bio>, executed: seq<Request>)

  const EMPTY: State := State([], [], [])

  /** A dequeue of an empty queue waits, and so is no step. */
  predicate Enabled(s: State, op: Op) { op.Dequeue? ==> s.queue != [] }

  function Next(s: State, op: Op): State
    requires Enabled(s, op)
  {
    match op
    case Enqueue(b) => State(Enqueued(s.queue, b), s.submitted + [b], s.executed)
    case Dequeue =>
      var n := |s.queue|;
      State(s.queue[..n - 1], s.submitted, s.executed + [s.queue[n - 1]])
  }

  predicate ValidRun(s: State, ops: seq<Op>)
    decreases ops
  {
    ops == [] || (Enabled(s, ops[0]) && ValidRun(Next(s, ops[0]), ops[1..]))
  }

  function Run(s: State, ops: seq<Op>): State
    requires ValidRun(s, ops)
    decreases ops
  {
    if ops == [] then s else Run(Next(s, ops[0]), ops[1..])
  }

  function Reversed(q: seq<Request>): seq<Request> {
    if q == [] then [] else Reversed(q[1..]) + [q[0]]
  }

  /** All requests there have ever been, oldest first: the executed ones, then the queued ones. */
  function Requests(s: State): seq<Request> { s.executed + Reversed(s.queue) }

  function Bios(rs: seq<Request>): seq<Bio> {
    if rs == [] then [] else rs[0].bios + Bios(rs[1..])
  }

  function Concat(segs: seq<seq<Bio>>): seq<Bio> {
    if segs == [] then [] else segs[0] + Concat(segs[1..])
  }

  /** Request by request, the two lists are faithful to each other. */
  ghost predicate AllFaithful(rs: seq<Request>, segs: seq<seq<Bio>>) {
    |rs| == |segs| && forall i :: 0 <= i < |rs| ==> Faithful(rs[i], segs[i])
  }

  ghost predicate Inv(s: State, segs: seq<seq<Bio>>) {
    AllFaithful(Requests(s), segs) && Concat(segs) == s.submitted
  }

  lemma {:induction false} ConcatAppend(segs: seq<seq<Bio>>, seg: seq<Bio>)
    ensures Concat(segs + [seg]) == Concat(segs) + seg
    decreases segs
  {
    if segs == [] {
      assert [seg][1..] == [] && Concat([]) == [];
    } else {
      ConcatAppend(segs[1..], seg);
      assert (segs + [seg])[1..] == segs[1..] + [seg];
    }
  }

  lemma {:induction false} ReversedDropLast(q: seq<Request>)
    requires q != []
    ensures Reversed(q) == [q[|q| - 1]] + Reversed(q[..|q| - 1])
    decreases q
  {
    var n := |q|;
    if n > 1 {
      ReversedDropLast(q[1..]);
      assert q[1..][..n - 2] == q[..n - 1][1..];
      assert q[..n - 1][0] == q[0];
    }
  }

  /** The newest request is the last of all requests. */
  lemma {:induction false} FrontIsLast(executed: seq<Request>, front: Request, rest: seq<Request>)
    ensures executed + Reversed([front] + rest) == executed + Reversed(rest) + [front]
  {
    assert ([front] + rest)[1..] == rest;
  }

  lemma MergeKeepsInv(s: State, b: Bio, segs: seq<seq<Bio>>) returns (segs': seq<seq<Bio>>)
    requires Inv(s, segs) && s.queue != [] && CanMerge(s.queue[0], b)
    ensures Inv(Next(s, Enqueue(b)), segs')
  {
    var front, rest := s.queue[0], s.queue[1..];
    var older, last := s.executed + Reversed(rest), |segs| - 1;
    assert s.queue == [front] + rest;
    FrontIsLast(s.executed, front, rest);
    FrontIsLast(s.executed, MergeBio(front, b), rest);
    assert Faithful(Requests(s)[last], segs[last]);
    MergeIsFaithful(front, segs[last], b);
    LastFaithful(older, front, segs);
    AppendFaithful(older, segs[..last], MergeBio(front, b), segs[last] + [b]);
    segs' := segs[..last] + [segs[last] + [b]];
    assert segs == segs[..last] + [segs[last]];
    ConcatAppend(segs[..last], segs[last]);
    ConcatAppend(segs[..last], segs[last] + [b]);
  }

  lemma LastFaithful(older: seq<Request>, r: Request, segs: seq<seq<Bio>>)
    requires AllFaithful(older + [r], segs)
    ensures |segs| == |older| + 1 && AllFaithful(older, segs[..|older|]) && Faithful(r, segs[|older|])
  {
    forall i | 0 <= i <= |older| ensures Faithful((older + [r])[i], segs[i]) {
    }
    forall i | 0 <= i < |older| ensures Faithful(older[i], segs[..|older|][i]) {
      assert Faithful((older + [r])[i], segs[i]);
    }
  }

  /** Pairing one more request with one more segment. */
  lemma AppendFaithful(rs: seq<Request>, segs: seq<seq<Bio>>, r: Request, seg: seq<Bio>)
    requires AllFaithful(rs, segs) && Faithful(r, seg)
    ensures AllFaithful(rs + [r], segs + [seg])
  {
    var more, moreSegs := rs + [r], segs + [seg];
    forall i | 0 <= i < |more| ensures Faithful(more[i], moreSegs[i]) {
      if i < |rs| { assert Faithful(rs[i], segs[i]); }
    }
  }

  lemma PushKeepsInv(s: State, b: Bio, segs: seq<seq<Bio>>)
    requires Inv(s, segs) && !(s.queue != [] && CanMerge(s.queue[0], b))
    ensures Inv(Next(s, Enqueue(b)), segs + [[b]])
  {
    assert ([FromBio(b)] + s.queue)[1..] == s.queue;
    assert Requests(Next(s, Enqueue(b))) == Requests(s) + [FromBio(b)];
    NewIsFaithful(b);
    AppendFaithful(Requests(s), segs, FromBio(b), [b]);
    ConcatAppend(segs, [b]);
  }

  lemma DequeueKeepsInv(s: State, segs: seq<seq<Bio>>)
    requires Inv(s, segs) && s.queue != []
    ensures Inv(Next(s, Dequeue), segs)
  {
    ReversedDropLast(s.queue);
    assert Requests(Next(s, Dequeue)) == Requests(s);
  }

  lemma StepKeepsInv(s: State, op: Op, segs: seq<seq<Bio>>) returns (segs': seq<seq<Bio>>)
    requires Inv(s, segs) && Enabled(s, op)
    ensures Inv(Next(s, op), segs')
  {
    if op.Dequeue? {
      DequeueKeepsInv(s, segs);
      segs' := segs;
    } else if s.queue != [] && CanMerge(s.queue[0], op.bio) {
      segs' := MergeKeepsInv(s, op.bio, segs);
    } else {
      PushKeepsInv(s, op.bio, segs);
      segs' := segs + [[op.bio]];
    }
  }

  lemma {:induction false} RunKeepsInv(s: State, ops: seq<Op>, segs: seq<seq<Bio>>)
    returns (segs': seq<seq<Bio>>)
    requires Inv(s, segs) && ValidRun(s, ops)
    ensures Inv(Run(s, ops), segs')
    decreases ops
  {
    if ops == [] {
      segs' := segs;
    } else {
      var mid := StepKeepsInv(s, ops[0], segs);
      segs' := RunKeepsInv(Next(s, ops[0]), ops[1..], mid);
    }
  }

  lemma {:induction false} FaithfulStreams(d: Disk, rs: seq<Request>, segs: seq<seq<Bio>>)
    requires AllFaithful(rs, segs)
    ensures Exec(d, Bios(rs)) == Exec(d, Concat(segs))
    ensures multiset(Bios(rs)) == multiset(Concat(segs))
    decreases rs
  {
    if rs != [] {
      assert Faithful(rs[0], segs[0]);
      forall i | 0 <= i < |rs[1..]| ensures Faithful(rs[1..][i], segs[1..][i]) {
        assert Faithful(rs[i + 1], segs[i + 1]);
      }
      FaithfulStreams(Exec(d, segs[0]).disk, rs[1..], segs[1..]);
      ExecConcat(d, rs[0].bios, Bios(rs[1..]));
      ExecConcat(d, segs[0], Concat(segs[1..]));
    }
  }

  lemma {:induction false} ConcatSplit(xs: seq<seq<Bio>>, ys: seq<seq<Bio>>)
    ensures Concat(xs + ys) == Concat(xs) + Concat(ys)
    decreases xs
  {
    if xs == [] {
      assert xs + ys == ys;
    } else {
      assert (xs + ys)[1..] == xs[1..] + ys;
      ConcatSplit(xs[1..], ys);
    }
  }

  lemma FirstFaithful(xs: seq<Request>, ys: seq<Request>, segs: seq<seq<Bio>>)
    requires AllFaithful(xs + ys, segs)
    ensures AllFaithful(xs, segs[..|xs|]) && |segs| == |xs| + |ys|
  {
    forall i | 0 <= i < |xs| ensures Faithful(xs[i], segs[..|xs|][i]) {
      assert Faithful((xs + ys)[i], segs[i]);
    }
  }

  lemma {:induction false} PrefixOfConcat(segs: seq<seq<Bio>>, n: nat)
    requires n <= |segs|
    ensures |Concat(segs[..n])| <= |Concat(segs)| && Concat(segs)[..|Concat(segs[..n])|] == Concat(segs[..n])
  {
    assert segs == segs[..n] + segs[n..];
    ConcatSplit(segs[..n], segs[n..]);
  }

  /** The requests already taken correspond to a prefix of the submissions. */
  lemma ExecutedPrefix(s: State, segs: seq<seq<Bio>>, d: Disk) returns (k: nat)
    requires Inv(s, segs)
    ensures k <= |s.submitted|
    ensures Exec(d, Bios(s.executed)) == Exec(d, s.submitted[..k])
    ensures multiset(Bios(s.executed)) == multiset(s.submitted[..k])
    ensures s.queue == [] ==> k == |s.submitted|
  {
    var n := |s.executed|;
    FirstFaithful(s.executed, Reversed(s.queue), segs);
    FaithfulStreams(d, s.executed, segs[..n]);
    PrefixOfConcat(segs, n);
    k := |Concat(segs[..n])|;
    if |s.queue| == 0 { assert segs[..n] == segs; }
  }

  lemma ReachableInv(ops: seq<Op>) returns (segs: seq<seq<Bio>>)
    requires ValidRun(EMPTY, ops)
    ensures Inv(Run(EMPTY, ops), segs)
  {
    assert Requests(EMPTY) == [] && Concat([]) == [];
    segs := RunKeepsInv(EMPTY, ops, []);
  }

  /** After any run, the requests the device has taken mean what a prefix of the submissions
      means, and together with those still queued they mean what all submissions mean. No bio
      is lost or repeated. */
  lemma MergedStreamMeansSubmittedStream(ops: seq<Op>, d: Disk) returns (k: nat)
    requires ValidRun(EMPTY, ops)
    ensures var s := Run(EMPTY, ops);
            && k <= |s.submitted|
            && Exec(d, Bios(s.executed)) == Exec(d, s.submitted[..k])
            && multiset(Bios(s.executed)) == multiset(s.submitted[..k])
            && Exec(d, Bios(Requests(s))) == Exec(d, s.submitted)
            && multiset(Bios(Requests(s))) == multiset(s.submitted)
            && (s.queue == [] ==> k == |s.submitted|)
  {
    var segs := ReachableInv(ops);
    var s := Run(EMPTY, ops);
    FaithfulStreams(d, Requests(s), segs);
    k := ExecutedPrefix(s, segs, d);
  }

  /** Every request ever formed covers one contiguous sector range, bio after bio, with bios of
      its own type only. */
  lemma {:induction false} RequestsTileTheirRange(ops: seq<Op>, i: nat)
    requires ValidRun(EMPTY, ops) && i < |Requests(Run(EMPTY, ops))|
    ensures var r := Requests(Run(EMPTY, ops))[i];
            Tiles(r.bios, r.lo, r.hi) && forall b :: b in r.bios ==> b.typ == r.typ
  {
    var segs := ReachableInv(ops);
    assert Faithful(Requests(Run(EMPTY, ops))[i], segs[i]);
  }

  // Nothing that could be merged is left apart.

  /** `openers[i]` is the bio for which the queue's request `i` was made: one of another type than
      the next older request, or that neither begins where its range ends nor ends where it begins. */
  predicate OpenedBy(queue: seq<Request>, openers: seq<Bio>) {
    && |openers| == |queue| && (forall i :: 0 <= i < |queue| ==> openers[i] in queue[i].bios)
    && (forall i :: 0 <= i < |queue| - 1 ==>
          openers[i].typ == queue[i + 1].typ ==>
            openers[i].start != queue[i + 1].hi && openers[i].End() != queue[i + 1].lo)
  }

  lemma StepKeepsOpened(s: State, op: Op, openers: seq<Bio>) returns (openers': seq<Bio>)
    requires Enabled(s, op) && OpenedBy(s.queue, openers)
    ensures OpenedBy(Next(s, op).queue, openers')
  {
    var queue, queue' := s.queue, Next(s, op).queue;
    if op.Dequeue? {
      openers' := openers[..|queue| - 1];
    } else if |queue| > 0 && CanMerge(queue[0], op.bio) {
      openers' := openers;
      assert queue'[1..] == queue[1..] && openers[0] in queue'[0].bios;
    } else {
      openers' := [op.bio] + openers;
      assert queue' == [FromBio(op.bio)] + queue;
    }
  }

  lemma {:induction false} RunKeepsOpened(s: State, ops: seq<Op>, openers: seq<Bio>) returns (openers': seq<Bio>)
    requires ValidRun(s, ops) && OpenedBy(s.queue, openers)
    ensures OpenedBy(Run(s, ops).queue, openers')
    decreases ops
  {
    if ops == [] {
      openers' := openers;
    } else {
      var mid := StepKeepsOpened(s, ops[0], openers);
      openers' := RunKeepsOpened(Next(s, ops[0]), ops[1..], mid);
    }
  }

  /** After any run, every queued request was opened by a bio of its own that the next older
      request could not take at either end. */
  lemma OnlyOpensWhenApart(ops: seq<Op>) returns (openers: seq<Bio>)
    requires ValidRun(EMPTY, ops)
    ensures OpenedBy(Run(EMPTY, ops).queue, openers)
  {
    openers := RunKeepsOpened(EMPTY, ops, []);
  }

  class BioRequestSingleQueue {
    var queue: seq<Request>
    var numRequests: nat

    ghost predicate Valid()
      reads this
    {
      numRequests == |queue|
    }

    constructor ()
      ensures Valid() && queue == []
    {
      queue, numRequests := [], 0;
    }

    method EnqueueBio(bio: Bio)
      requires Valid()
      modifies this
      ensures Valid() && queue == Enqueued(old(queue), bio)
      ensures var merged := |old(queue)| > 0 && old(queue)[0].typ == bio.typ
                            && (bio.start == old(queue)[0].hi || bio.End() == old(queue)[0].lo);
              && (!merged ==>
                    |queue| == |old(queue)| + 1 && queue[1..] == old(queue) && queue[0].bios == [bio]
                    && queue[0].typ == bio.typ && queue[0].lo == bio.start && queue[0].hi == bio.End())
              && (merged ==>
                    var newest := old(queue)[0];
                    && |queue| == |old(queue)| && queue[1..] == old(queue)[1..] && queue[0].typ == newest.typ
                    && (bio.start == newest.hi ==>
                          queue[0].bios == newest.bios + [bio] && queue[0].lo == newest.lo && queue[0].hi == bio.End())
                    && (bio.start != newest.hi ==>
                          queue[0].bios == [bio] + newest.bios && queue[0].lo == bio.start && queue[0].hi == newest.hi))
    {
      if |queue| > 0 {
        var front := queue[0];
        if CanMerge(front, bio) {
          if bio.start == front.hi {
            front := front.(hi := bio.End());
            front := front.(bios := front.bios + [bio]);
          } else {
            front := front.(lo := bio.start);
            front := front.(bios := [bio] + front.bios);
          }
          queue := queue[0 := front];
          return;
        }
      }
      queue := [FromBio(bio)] + queue;
      numRequests := numRequests + 1;
    }

    /** One pass of the dequeue loop; `None` means the caller has to wait. */
    method TryDequeue() returns (r: Option<Request>)
      requires Valid()
      modifies this
      ensures Valid()
      ensures old(queue) == [] ==> r == None && queue == []
      ensures old(queue) != [] ==> r.Some? && old(queue) == queue + [r.value]
    {
      r := None;
      if numRequests > 0 {
        var n := |queue|;
        r := Some(queue[n - 1]);
        queue := queue[..n - 1];
        numRequests := numRequests - 1;
      }
    }
  }
}
