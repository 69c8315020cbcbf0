/** The packed 64-bit lock word shared by `RwLock` and `RwMutex`.

Every acquisition attempt (and the guard it may produce) is an agent. Each atomic
access of an agent to the word is one step, and steps of any number of agents
interleave arbitrarily. The agent's phase records what it believes it holds; the word
records what the hardware sees. The main results tie the two together in every run.
 */
module RwLock {

  const WORD: nat := 0x1_0000_0000_0000_0000
  const READER: nat := 1
  const WRITER: nat := 0x8000_0000_0000_0000
  const UPGRADEABLE_READER: nat := 0x4000_0000_0000_0000
  const BEING_UPGRADED: nat := 0x2000_0000_0000_0000
  const MAX_READER: nat := 0x1000_0000_0000_0000

  type Agent = nat

  datatype Phase =
    | Idle
    | Reading        // holds a read guard
    | ReadFailed     // added READER, saw a blocker, has yet to subtract it
    | Writing        // holds a write guard
    | Upreading      // holds an upread guard
    | UpreadFailed   // set UPGRADEABLE_READER under a writer, has yet to subtract it
    | Upgrading      // inside `upgrade`, BEING_UPGRADED set
    | Upgraded       // exchange succeeded, the consumed upread guard not yet dropped

  datatype Step =
    | TryRead(a: Agent)
    | UndoRead(a: Agent)
    | DropRead(a: Agent)
    | TryWrite(a: Agent)
    | Store(a: Agent, v: int)
    | DropWrite(a: Agent)
    | TryUpread(a: Agent)
    | UndoUpread(a: Agent)
    | DropUpread(a: Agent)
    | BeginUpgrade(a: Agent)
    | TryUpgrade(a: Agent)
    | FinishUpgrade(a: Agent)

  datatype State = State(word: nat, phase: map<Agent, Phase>, value: int)

  const INIT: State := State(0, map[], 0)

  // The bits of the word, and the atomic operations on it with 64-bit wrap-around.

  predicate WriterBit(w: nat) { (w / 0x8000_0000_0000_0000) % 2 == 1 }

  predicate UpreadBit(w: nat) { (w / 0x4000_0000_0000_0000) % 2 == 1 }

  predicate UpgradeBit(w: nat) { (w / 0x2000_0000_0000_0000) % 2 == 1 }

  predicate MaxReaderBit(w: nat) { (w / 0x1000_0000_0000_0000) % 2 == 1 }

  function FetchAdd(w: nat, d: nat): nat { (w + d) % 0x1_0000_0000_0000_0000 }

  function FetchSub(w: nat, d: nat): nat { (w - d) % 0x1_0000_0000_0000_0000 }

  function OrUpread(w: nat): nat { if UpreadBit(w) then w else w + UPGRADEABLE_READER }

  function OrUpgrade(w: nat): nat { if UpgradeBit(w) then w else w + BEING_UPGRADED }

  function ClearWriter(w: nat): nat { if WriterBit(w) then w - WRITER else w }

  function PhaseOf(s: State, a: Agent): Phase {
    if a in s.phase then s.phase[a] else Idle
  }

  /** The phase an agent must be in to take the step. */
  predicate Allowed(p: Phase, step: Step) {
    match step
    case TryRead(_) => p == Idle
    case UndoRead(_) => p == ReadFailed
    case DropRead(_) => p == Reading
    case TryWrite(_) => p == Idle
    case Store(_, _) => p == Writing
    case DropWrite(_) => p == Writing
    case TryUpread(_) => p == Idle
    case UndoUpread(_) => p == UpreadFailed
    case DropUpread(_) => p == Upreading
    case BeginUpgrade(_) => p == Upreading
    case TryUpgrade(_) => p == Upreading || p == Upgrading
    case FinishUpgrade(_) => p == Upgraded
  }

  /** One atomic access: the new word, and the phase the fetched word puts the agent in. */
  function Access(w: nat, p: Phase, step: Step): (nat, Phase) {
    match step
    case TryRead(_) =>
      var free := !WriterBit(w) && !MaxReaderBit(w) && !UpgradeBit(w);
      (FetchAdd(w, READER), if free then Reading else ReadFailed)
    case UndoRead(_) => (FetchSub(w, READER), Idle)
    case DropRead(_) => (FetchSub(w, READER), Idle)
    case TryWrite(_) => if w == 0 then (WRITER, Writing) else (w, p)
    case Store(_, _) => (w, p)
    case DropWrite(_) => (ClearWriter(w), Idle)
    case TryUpread(_) =>
      (OrUpread(w),
       if UpreadBit(w) then Idle else if WriterBit(w) then UpreadFailed else Upreading)
    case UndoUpread(_) => (FetchSub(w, UPGRADEABLE_READER), Idle)
    case DropUpread(_) => (FetchSub(w, UPGRADEABLE_READER), Idle)
    case BeginUpgrade(_) => (OrUpgrade(w), Upgrading)
    case TryUpgrade(_) =>
      if w == UPGRADEABLE_READER + BEING_UPGRADED then (WRITER + UPGRADEABLE_READER, Upgraded) else (w, p)
    case FinishUpgrade(_) => (FetchSub(w, UPGRADEABLE_READER), Writing)
  }

  predicate Enabled(s: State, step: Step) { Allowed(PhaseOf(s, step.a), step) }

  function Next(s: State, step: Step): State
    requires Enabled(s, step)
  {
    var (word, p) := Access(s.word, PhaseOf(s, step.a), step);
    State(word, s.phase[step.a := p], if step.Store? then step.v else s.value)
  }

  // Counting agents by phase.

  ghost function With(m: map<Agent, Phase>, p: Phase): set<Agent> {
    set a | a in m && m[a] == p
  }

  ghost function Count(m: map<Agent, Phase>, p: Phase): nat {
    |With(m, p)|
  }

  lemma CountUpdate(m: map<Agent, Phase>, a: Agent, p: Phase, q: Phase)
    ensures Count(m[a := p], q) ==
            Count(m, q) - (if a in m && m[a] == q then 1 else 0) + (if p == q then 1 else 0)
  {
    WithUpdate(m, a, p, q);
    AddOrRemove(With(m, q), a);
  }

  lemma WithUpdate(m: map<Agent, Phase>, a: Agent, p: Phase, q: Phase)
    ensures With(m[a := p], q) == if p == q then With(m, q) + {a} else With(m, q) - {a}
    ensures a in With(m, q) <==> a in m && m[a] == q
  {
    var after, before := With(m[a := p], q), With(m, q);
    forall b ensures b in after <==> if b == a then p == q else b in before {
    }
  }

  lemma AddOrRemove(s: set<Agent>, a: Agent)
    ensures |s + {a}| == |s| + (if a in s then 0 else 1)
    ensures |s - {a}| == |s| - (if a in s then 1 else 0)
  {
    if a in s { assert s + {a} == s && (s - {a}) + {a} == s; } else { assert s - {a} == s; }
  }

  lemma EmptyCount(p: Phase)
    ensures Count(map[], p) == 0
  {
    assert With(map[], p) == {};
  }

  lemma CountPositive(m: map<Agent, Phase>, a: Agent)
    requires a in m
    ensures Count(m, m[a]) >= 1
  {
    assert a in With(m, m[a]);
  }

  lemma CountTwo(m: map<Agent, Phase>, a: Agent, b: Agent)
    requires a in m && b in m && a != b && m[a] == m[b]
    ensures Count(m, m[a]) >= 2
  {
    var all := With(m, m[a]);
    assert {a, b} <= all;
    assert |{a, b}| == 2;
    SubsetSize({a, b}, all);
  }

  lemma {:induction false} SubsetSize(x: set<Agent>, y: set<Agent>)
    requires x <= y
    ensures |x| <= |y|
  {
    if x != {} {
      var e :| e in x;
      SubsetSize(x - {e}, y - {e});
    }
  }

  // The invariant: the word is the sum of what the agents hold.

  ghost function Failing(s: State): nat { Count(s.phase, ReadFailed) }

  /** In-flight failing readers that have not yet undone their increment stay below 2^60. */
  ghost predicate Bounded(s: State) { Failing(s) < MAX_READER }

  ghost function WriteHolders(s: State): nat {
    Count(s.phase, Writing) + Count(s.phase, Upgraded)
  }

  ghost function UpreadHolders(s: State): nat {
    Count(s.phase, Upreading) + Count(s.phase, UpreadFailed)
    + Count(s.phase, Upgrading) + Count(s.phase, Upgraded)
  }

  ghost function ReaderCount(s: State): nat {
    Count(s.phase, Reading) + Count(s.phase, ReadFailed)
  }

  /** The word the agents should produce: a bit for each kind of exclusive holder, then the reader count. */
  ghost function Decoded(s: State): nat {
    Packed(WriteHolders(s) > 0, UpreadHolders(s) > 0, Count(s.phase, Upgrading) > 0, ReaderCount(s))
  }

  function Packed(w: bool, u: bool, b: bool, n: nat): nat {
    (if w then WRITER else 0) + (if u then UPGRADEABLE_READER else 0) + (if b then BEING_UPGRADED else 0) + n
  }

  ghost predicate Inv(s: State) {
    && s.word == Decoded(s)
    && WriteHolders(s) <= 1
    && UpreadHolders(s) <= 1
    && Count(s.phase, Reading) <= MAX_READER
    && Bounded(s)
    && (WriteHolders(s) == 1 ==>
          Count(s.phase, Reading) == 0 && Count(s.phase, Upreading) == 0 && Count(s.phase, Upgrading) == 0)
  }

  lemma BitsOfWord(w: bool, u: bool, b: bool, n: nat)
    requires n < BEING_UPGRADED
    ensures var x := Packed(w, u, b, n);
            && WriterBit(x) == w && UpreadBit(x) == u && UpgradeBit(x) == b
            && MaxReaderBit(x) == (n >= MAX_READER)
  {
  }

  lemma WordBits(s: State)
    requires Inv(s)
    ensures WriterBit(s.word) <==> WriteHolders(s) == 1
    ensures UpreadBit(s.word) <==> UpreadHolders(s) == 1
    ensures UpgradeBit(s.word) <==> Count(s.phase, Upgrading) == 1
    ensures MaxReaderBit(s.word) <==> ReaderCount(s) >= MAX_READER
  {
    BitsOfWord(WriteHolders(s) > 0, UpreadHolders(s) > 0, Count(s.phase, Upgrading) > 0, ReaderCount(s));
  }

  /** What moving agent `a` to phase `p` does to the counts. */
  lemma Moved(s: State, a: Agent, p: Phase)
    ensures PhaseOf(s, a) == Idle || Count(s.phase, PhaseOf(s, a)) >= 1
    ensures forall q :: q != Idle ==>
                          Count(s.phase[a := p], q) ==
                          Count(s.phase, q) - (if PhaseOf(s, a) == q then 1 else 0) + (if p == q then 1 else 0)
  {
    if a in s.phase { CountPositive(s.phase, a); }
    forall q | q != Idle {
      CountUpdate(s.phase, a, p, q);
    }
  }

  lemma TryReadKeepsInv(s: State, a: Agent)
    requires Inv(s) && Enabled(s, TryRead(a)) && Bounded(Next(s, TryRead(a)))
    ensures Inv(Next(s, TryRead(a)))
  {
    var s' := Next(s, TryRead(a));
    assert s'.word == s.word + 1;
    WordBits(s);
    Moved(s, a, s'.phase[a]);
    assert WriteHolders(s') == WriteHolders(s) && UpreadHolders(s') == UpreadHolders(s);
    assert ReaderCount(s') == ReaderCount(s) + 1;
  }

  lemma LeaveReadKeepsInv(s: State, step: Step)
    requires Inv(s) && Enabled(s, step) && (step.UndoRead? || step.DropRead?)
    ensures Inv(Next(s, step))
  {
    Moved(s, step.a, Idle);
    var s' := Next(s, step);
    assert s'.word == s.word - 1;
    assert WriteHolders(s') == WriteHolders(s) && UpreadHolders(s') == UpreadHolders(s);
  }

  lemma WriteStepKeepsInv(s: State, step: Step)
    requires Inv(s) && Enabled(s, step) && (step.TryWrite? || step.Store? || step.DropWrite?)
    ensures Inv(Next(s, step))
  {
    WordBits(s);
    Moved(s, step.a, Next(s, step).phase[step.a]);
  }

  lemma TryUpreadKeepsInv(s: State, a: Agent)
    requires Inv(s) && Enabled(s, TryUpread(a))
    ensures Inv(Next(s, TryUpread(a)))
  {
    WordBits(s);
    Moved(s, a, Next(s, TryUpread(a)).phase[a]);
  }

  lemma LeaveUpreadKeepsInv(s: State, step: Step)
    requires Inv(s) && Enabled(s, step) && (step.UndoUpread? || step.DropUpread? || step.FinishUpgrade?)
    ensures Inv(Next(s, step))
  {
    Moved(s, step.a, Next(s, step).phase[step.a]);
  }

  lemma UpgradeStepKeepsInv(s: State, step: Step)
    requires Inv(s) && Enabled(s, step) && (step.BeginUpgrade? || step.TryUpgrade?)
    ensures Inv(Next(s, step))
  {
    WordBits(s);
    Moved(s, step.a, Next(s, step).phase[step.a]);
  }

  /** One step of any agent keeps the invariant, provided the step does not bring the
      number of failing readers to 2^60. */
  lemma StepKeepsInv(s: State, step: Step)
    requires Inv(s) && Enabled(s, step)
    requires Bounded(Next(s, step))
    ensures Inv(Next(s, step))
  {
    match step
    case TryRead(a) => TryReadKeepsInv(s, a);
    case UndoRead(_) => LeaveReadKeepsInv(s, step);
    case DropRead(_) => LeaveReadKeepsInv(s, step);
    case TryWrite(_) => WriteStepKeepsInv(s, step);
    case Store(_, _) => WriteStepKeepsInv(s, step);
    case DropWrite(_) => WriteStepKeepsInv(s, step);
    case TryUpread(a) => TryUpreadKeepsInv(s, a);
    case UndoUpread(_) => LeaveUpreadKeepsInv(s, step);
    case DropUpread(_) => LeaveUpreadKeepsInv(s, step);
    case FinishUpgrade(_) => LeaveUpreadKeepsInv(s, step);
    case _ => UpgradeStepKeepsInv(s, step);
  }

  // Runs.

  predicate ValidRun(s: State, steps: seq<Step>)
    decreases steps
  {
    steps == [] || (Enabled(s, steps[0]) && ValidRun(Next(s, steps[0]), steps[1..]))
  }

  function Run(s: State, steps: seq<Step>): State
    requires ValidRun(s, steps)
    decreases steps
  {
    if steps == [] then s else Run(Next(s, steps[0]), steps[1..])
  }

  /** Every state the run passes through, including the first and the last, is bounded. */
  ghost predicate BoundedRun(s: State, steps: seq<Step>)
    requires ValidRun(s, steps)
    decreases steps
  {
    Bounded(s) && (steps == [] || BoundedRun(Next(s, steps[0]), steps[1..]))
  }

  lemma InitInv()
    ensures Inv(INIT)
  {
    forall p { EmptyCount(p); }
  }

  lemma {:induction false} RunKeepsInv(s: State, steps: seq<Step>)
    requires Inv(s) && ValidRun(s, steps) && BoundedRun(s, steps)
    ensures Inv(Run(s, steps))
    decreases steps
  {
    if steps != [] {
      StepKeepsInv(s, steps[0]);
      RunKeepsInv(Next(s, steps[0]), steps[1..]);
    }
  }

  lemma IdleIffZero(s: State)
    requires Inv(s)
    ensures s.word == 0 <==> forall a :: a in s.phase ==> s.phase[a] == Idle
  {
    if s.word == 0 {
      forall a | a in s.phase ensures s.phase[a] == Idle { CountPositive(s.phase, a); }
    } else if forall a :: a in s.phase ==> s.phase[a] == Idle {
      forall p | p != Idle ensures Count(s.phase, p) == 0 {
        assert With(s.phase, p) == {};
      }
    }
  }

  /** What the guards of two different agents can be at the same time. */
  predicate Compatible(p: Phase, q: Phase) {
    match p
    case Writing => q in {Idle, ReadFailed, UpreadFailed}
    case Upgraded => q in {Idle, ReadFailed}
    case Upreading => q in {Idle, Reading, ReadFailed}
    case Upgrading => q in {Idle, Reading, ReadFailed}
    case _ => true
  }

  lemma PairCompatible(s: State, a: Agent, b: Agent)
    requires Inv(s) && a in s.phase && b in s.phase && a != b
    ensures Compatible(s.phase[a], s.phase[b])
  {
    CountPositive(s.phase, a);
    CountPositive(s.phase, b);
    if s.phase[a] == s.phase[b] { CountTwo(s.phase, a, b); }
  }

  /** What the two lock types promise their users, in every state of every run: readers and
      a writer never coexist, there is one writer and one upreader at most, the reader count
      never reaches bit 61, and an idle lock has the word 0. */
  lemma {:induction false} Exclusion(steps: seq<Step>)
    requires ValidRun(INIT, steps) && BoundedRun(INIT, steps)
    ensures var s := Run(INIT, steps);
            && s.word == Decoded(s) < WORD
            && ReaderCount(s) < BEING_UPGRADED
            && (s.word == 0 <==> forall a :: a in s.phase ==> s.phase[a] == Idle)
            && (forall a, b :: a in s.phase && b in s.phase && a != b ==> Compatible(s.phase[a], s.phase[b]))
  {
    InitInv();
    RunKeepsInv(INIT, steps);
    var s := Run(INIT, steps);
    IdleIffZero(s);
    forall a, b | a in s.phase && b in s.phase && a != b
      ensures Compatible(s.phase[a], s.phase[b])
    {
      PairCompatible(s, a, b);
    }
  }

  // The protected value.

  predicate Sharing(p: Phase) { p in {Reading, Upreading, Upgrading, Upgraded} }

  /** Agent `a` keeps a read or upread guard (possibly one being upgraded) in every state of the run. */
  predicate SharesThroughout(s: State, steps: seq<Step>, a: Agent)
    requires ValidRun(s, steps)
    decreases steps
  {
    Sharing(PhaseOf(s, a)) && (steps == [] || SharesThroughout(Next(s, steps[0]), steps[1..], a))
  }

  /** No state of the run gives another agent a write guard. */
  predicate NoOtherWriter(s: State, steps: seq<Step>, a: Agent)
    requires ValidRun(s, steps)
    decreases steps
  {
    && (forall b :: b in s.phase && b != a ==> s.phase[b] != Writing && s.phase[b] != Upgraded)
    && (steps == [] || NoOtherWriter(Next(s, steps[0]), steps[1..], a))
  }

  lemma SharerExcludesWriter(s: State, a: Agent)
    requires Inv(s) && Sharing(PhaseOf(s, a))
    ensures forall b :: b in s.phase && b != a ==> s.phase[b] != Writing && s.phase[b] != Upgraded
  {
    CountPositive(s.phase, a);
    forall b | b in s.phase && b != a
      ensures s.phase[b] != Writing && s.phase[b] != Upgraded
    {
      CountPositive(s.phase, b);
      if s.phase[a] == s.phase[b] { CountTwo(s.phase, a, b); }
    }
  }

  lemma {:induction false} SharedValueIsStable(s: State, steps: seq<Step>, a: Agent)
    requires Inv(s) && ValidRun(s, steps) && BoundedRun(s, steps)
    requires SharesThroughout(s, steps, a)
    ensures Run(s, steps).value == s.value
    ensures NoOtherWriter(s, steps, a)
    decreases steps
  {
    SharerExcludesWriter(s, a);
    if steps != [] {
      StepKeepsInv(s, steps[0]);
      SharedValueIsStable(Next(s, steps[0]), steps[1..], a);
    }
  }

  /** Upgrading is atomic: from the grant of the upread guard to the return of `upgrade`
      nobody else writes, so the writer starts from the value the upreader saw. */
  lemma {:induction false} UpgradeIsAtomic(s: State, steps: seq<Step>, a: Agent)
    requires Inv(s) && PhaseOf(s, a) == Upreading
    requires ValidRun(s, steps) && BoundedRun(s, steps) && SharesThroughout(s, steps, a)
    requires Enabled(Run(s, steps), FinishUpgrade(a))
    ensures var s' := Next(Run(s, steps), FinishUpgrade(a));
            && PhaseOf(s', a) == Writing
            && s'.value == s.value
            && forall b :: b in s'.phase && b != a ==> s'.phase[b] in {Idle, ReadFailed}
  {
    SharedValueIsStable(s, steps, a);
    RunKeepsInv(s, steps);
    var t := Run(s, steps);
    CountPositive(t.phase, a);
    forall b | b in t.phase && b != a
      ensures t.phase[b] in {Idle, ReadFailed}
    {
      CountPositive(t.phase, b);
      if t.phase[a] == t.phase[b] { CountTwo(t.phase, a, b); }
    }
  }

  /** `try_upgrade` called on a plain upread guard, without `upgrade` having announced itself
      first, never succeeds; during `upgrade` it succeeds exactly when no reader is in flight. */
  lemma TryUpgradeOutcome(s: State, a: Agent)
    requires Inv(s) && Enabled(s, TryUpgrade(a))
    ensures PhaseOf(Next(s, TryUpgrade(a)), a) == Upgraded <==>
            PhaseOf(s, a) == Upgrading && Count(s.phase, Reading) == 0 && Count(s.phase, ReadFailed) == 0
  {
    WordBits(s);
    CountPositive(s.phase, a);
  }

  /** What an agent's phase says about every other agent. */
  ghost predicate Alone(s: State, a: Agent, others: set<Phase>) { forall b :: b != a ==> PhaseOf(s, b) in others }

  // What each access is granted, read off what the agents hold.

  /** A step changes no phase but its own agent's, and no value unless it is a store. */
  lemma OnlyOwnPhase(s: State, step: Step, b: Agent)
    requires Enabled(s, step)
    ensures b != step.a ==> PhaseOf(Next(s, step), b) == PhaseOf(s, b)
    ensures Next(s, step).value == if step.Store? then step.v else s.value
  {
  }

  /** No agent writes or is about to, and the reader count is below its bound. */
  ghost predicate OpenToReaders(s: State) {
    WriteHolders(s) == 0 && Count(s.phase, Upgrading) == 0 && ReaderCount(s) < MAX_READER
  }

  /** A read attempt is granted exactly when nobody writes, nobody waits in an upgrade, and there
      are fewer than 2^60 readers; an upread guard is no obstacle. */
  lemma ReadGrantedIff(s: State, a: Agent)
    requires Inv(s) && PhaseOf(s, a) == Idle
    ensures PhaseOf(Next(s, TryRead(a)), a) == if OpenToReaders(s) then Reading else ReadFailed
  {
    WordBits(s);
  }

  /** A write attempt is granted exactly when every other agent is idle. */
  lemma WriteGrantedIff(s: State, a: Agent)
    requires Inv(s) && PhaseOf(s, a) == Idle
    ensures PhaseOf(Next(s, TryWrite(a)), a) == if Alone(s, a, {Idle}) then Writing else Idle
  {
    IdleIffZero(s);
    if s.word != 0 {
      var b :| b in s.phase && s.phase[b] != Idle;
      assert PhaseOf(s, b) !in {Idle};
    } else {
      forall b | b != a ensures PhaseOf(s, b) in {Idle} { assert b in s.phase ==> s.phase[b] == Idle; }
    }
  }

  /** An upread attempt is granted exactly when nobody holds or has set the upread bit and nobody
      writes; only under a writer does it leave a bit behind that it has to take back. */
  lemma UpreadGrantedIff(s: State, a: Agent)
    requires Inv(s) && PhaseOf(s, a) == Idle
    ensures PhaseOf(Next(s, TryUpread(a)), a) ==
            if UpreadHolders(s) > 0 then Idle else if WriteHolders(s) > 0 then UpreadFailed else Upreading
  {
    WordBits(s);
  }

  /** Leaving: a drop or an undo makes the agent idle, a finished upgrade a writer. */
  lemma LeavesTo(s: State, step: Step)
    requires Enabled(s, step)
    ensures step.DropRead? || step.UndoRead? || step.DropWrite? || step.DropUpread? || step.UndoUpread? ==>
              PhaseOf(Next(s, step), step.a) == Idle
    ensures step.FinishUpgrade? || step.Store? ==> PhaseOf(Next(s, step), step.a) == Writing
    ensures step.BeginUpgrade? ==> PhaseOf(Next(s, step), step.a) == Upgrading
  {
  }

  // Wake-up tests of `RwMutex`, which compare the word fetched by a drop.

  /** The drop of an upread guard wakes the queue only if it fetched 0, which it never does. */
  lemma UpreadDropNeverWakes(s: State, a: Agent)
    requires Inv(s) && PhaseOf(s, a) in {Upreading, Upgraded}
    ensures s.word != 0
  {
    CountPositive(s.phase, a);
  }

  /** The drop of a read guard wakes a waiter exactly when it leaves the mutex wholly idle. */
  lemma ReadDropWakesIffIdle(s: State, a: Agent)
    requires Inv(s) && PhaseOf(s, a) == Reading
    ensures s.word == READER <==> forall b :: b != a ==> PhaseOf(s, b) == Idle
  {
    CountPositive(s.phase, a);
    if s.word == READER {
      forall b | b != a ensures PhaseOf(s, b) == Idle {
        if b in s.phase {
          CountPositive(s.phase, b);
          if s.phase[b] == Reading { CountTwo(s.phase, a, b); }
        }
      }
    } else if forall b :: b != a ==> PhaseOf(s, b) == Idle {
      forall p | p != Idle ensures Count(s.phase, p) == if p == Reading then 1 else 0 {
        assert With(s.phase, p) == if p == Reading then {a} else {} by {
          forall b | b in s.phase && b != a ensures s.phase[b] == Idle { assert PhaseOf(s, b) == Idle; }
        }
      }
    }
  }

  // The bound on failing readers is exact.

  lemma {:induction false} RunAppend(s: State, steps: seq<Step>, step: Step)
    requires ValidRun(s, steps) && Enabled(Run(s, steps), step)
    ensures ValidRun(s, steps + [step])
    ensures Run(s, steps + [step]) == Next(Run(s, steps), step)
    decreases steps
  {
    if steps == [] {
      assert [step][1..] == [];
    } else {
      RunAppend(Next(s, steps[0]), steps[1..], step);
      assert (steps + [step])[1..] == steps[1..] + [step];
    }
  }

  ghost predicate AtMostFailing(s: State, steps: seq<Step>, n: nat)
    requires ValidRun(s, steps)
    decreases steps
  {
    Failing(s) <= n && (steps == [] || AtMostFailing(Next(s, steps[0]), steps[1..], n))
  }

  lemma {:induction false} AtMostFailingAppend(s: State, steps: seq<Step>, step: Step, n: nat)
    requires ValidRun(s, steps) && Enabled(Run(s, steps), step)
    requires AtMostFailing(s, steps, n) && Failing(Next(Run(s, steps), step)) <= n
    ensures ValidRun(s, steps + [step]) && AtMostFailing(s, steps + [step], n)
    decreases steps
  {
    RunAppend(s, steps, step);
    if steps == [] {
      assert [step][1..] == [];
    } else {
      AtMostFailingAppend(Next(s, steps[0]), steps[1..], step, n);
      assert (steps + [step])[1..] == steps[1..] + [step];
    }
  }

  /** Agents below `n` have each tried to read once: the first 2^60 read, the rest are in flight. */
  ghost predicate Burst(s: State, n: nat) {
    && s.word == n && Failing(s) == (if n <= MAX_READER then 0 else n - MAX_READER)
    && (forall a: nat :: PhaseOf(s, a) == if a >= n then Idle else if a < MAX_READER then Reading else ReadFailed)
  }

  lemma BurstGrows(s: State, n: nat)
    requires Burst(s, n) && n < BEING_UPGRADED
    ensures Enabled(s, TryRead(n)) && Burst(Next(s, TryRead(n)), n + 1)
  {
    assert PhaseOf(s, n) == Idle;
    BitsOfWord(false, false, false, n);
    var s' := Next(s, TryRead(n));
    Moved(s, n, s'.phase[n]);
    forall a: nat ensures PhaseOf(s', a) == if a >= n + 1 then Idle else if a < MAX_READER then Reading else ReadFailed {
      assert a != n ==> PhaseOf(s', a) == PhaseOf(s, a);
    }
  }

  /** `n` read attempts with nobody leaving. */
  lemma {:induction false} ReadBurst(n: nat) returns (steps: seq<Step>)
    requires n <= BEING_UPGRADED
    ensures ValidRun(INIT, steps) && AtMostFailing(INIT, steps, MAX_READER) && Burst(Run(INIT, steps), n)
  {
    if n == 0 {
      EmptyCount(ReadFailed);
      steps := [];
    } else {
      var prev := ReadBurst(n - 1);
      BurstGrows(Run(INIT, prev), n - 1);
      AtMostFailingAppend(INIT, prev, TryRead(n - 1), MAX_READER);
      RunAppend(INIT, prev, TryRead(n - 1));
      steps := prev + [TryRead(n - 1)];
    }
  }

  /** With 2^60 failing readers in flight, one more than `Bounded` allows, a run reaches a
      state where a write guard and read guards are held at once. */
  lemma FailingReaderBoundIsTight() returns (steps: seq<Step>, w: Agent, r: Agent)
    ensures ValidRun(INIT, steps) && AtMostFailing(INIT, steps, MAX_READER)
    ensures PhaseOf(Run(INIT, steps), w) == Writing && PhaseOf(Run(INIT, steps), r) == Reading
  {
    var burst := ReadBurst(BEING_UPGRADED);
    w, r := BEING_UPGRADED, 0;
    steps := burst;
    var s0 := Run(INIT, steps);
    assert PhaseOf(s0, w) == Idle && PhaseOf(s0, r) == Reading;
    BitsOfWord(false, false, true, 0);
    steps := ExtendTight(steps, TryUpread(w));
    var s1 := Run(INIT, steps);
    assert PhaseOf(s1, w) == Upreading && PhaseOf(s1, r) == Reading;
    steps := ExtendTight(steps, TryUpgrade(w));
    var s2 := Run(INIT, steps);
    assert PhaseOf(s2, w) == Upgraded && PhaseOf(s2, r) == Reading;
    steps := ExtendTight(steps, FinishUpgrade(w));
  }

  lemma ExtendTight(steps: seq<Step>, step: Step) returns (more: seq<Step>)
    requires ValidRun(INIT, steps) && AtMostFailing(INIT, steps, MAX_READER)
    requires Failing(Run(INIT, steps)) <= MAX_READER
    requires step.TryUpread? || step.TryUpgrade? || step.FinishUpgrade?
    requires Enabled(Run(INIT, steps), step)
    ensures more == steps + [step]
    ensures ValidRun(INIT, more) && AtMostFailing(INIT, more, MAX_READER)
    ensures Run(INIT, more) == Next(Run(INIT, steps), step)
    ensures Failing(Run(INIT, more)) <= MAX_READER
  {
    var s := Run(INIT, steps);
    Moved(s, step.a, PhaseOf(Next(s, step), step.a));
    more := steps + [step];
    AtMostFailingAppend(INIT, steps, step, MAX_READER);
    RunAppend(INIT, steps, step);
  }

  ghost predicate NoWriterBeside(s: State, a: Agent) {
    forall b :: b != a ==> PhaseOf(s, b) != Writing && PhaseOf(s, b) != Upgraded
  }

  lemma ReadGrant(s: State, a: Agent)
    requires Inv(s) && PhaseOf(s, a) == Reading
    ensures NoWriterBeside(s, a)
  {
    SharerExcludesWriter(s, a);
  }

  lemma ExclusiveGrant(s: State, a: Agent)
    requires Inv(s)
    ensures PhaseOf(s, a) == Writing ==> Alone(s, a, {Idle, ReadFailed, UpreadFailed})
    ensures PhaseOf(s, a) == Upgraded ==> Alone(s, a, {Idle, ReadFailed})
    ensures PhaseOf(s, a) == Upreading ==> Alone(s, a, {Idle, Reading, ReadFailed})
  {
    forall b | b != a && a in s.phase && b in s.phase ensures Compatible(s.phase[a], s.phase[b]) {
      PairCompatible(s, a, b);
    }
  }

  lemma AddThenSub(w: nat)
    requires w < WORD
    ensures FetchSub(FetchAdd(w, READER), READER) == w
  {
  }

  /** A refused upread attempt leaves the word as it was, once it has been undone. */
  lemma UpreadRefused(s: State, a: Agent)
    requires Inv(s) && PhaseOf(s, a) == Idle
    ensures var s1 := Next(s, TryUpread(a));
            && (PhaseOf(s1, a) == Idle ==> s1.word == s.word)
            && (PhaseOf(s1, a) == UpreadFailed ==> Next(s1, UndoUpread(a)).word == s.word)
  {
  }

  /** The lock object. Each of the first methods is one atomic access to the word, as the source
      performs it; each keeps the invariant, and a grant says what the others cannot hold. */
  class Lock {
    var lock: nat
    var val: int
    ghost var phase: map<Agent, Phase>

    ghost function Abs(): State
      reads this
    {
      State(lock, phase, val)
    }

    constructor (v: int)
      ensures Abs() == INIT.(value := v) && Inv(Abs())
    {
      lock := 0;
      val := v;
      phase := map[];
      new;
      forall p { EmptyCount(p); }
    }

    method TryReadAdd(ghost a: Agent) returns (granted: bool)
      requires Inv(Abs()) && Enabled(Abs(), Step.TryRead(a)) && Bounded(Next(Abs(), Step.TryRead(a)))
      modifies this
      ensures Abs() == Next(old(Abs()), Step.TryRead(a)) && Inv(Abs())
      ensures granted <==> OpenToReaders(old(Abs()))
      ensures phase == old(phase)[a := if granted then Reading else ReadFailed] && val == old(val)
      ensures granted ==> NoWriterBeside(Abs(), a)
    {
      TryReadKeepsInv(Abs(), a);
      ReadGrantedIff(Abs(), a);
      ghost var s' := Next(Abs(), Step.TryRead(a));
      var old_ := lock;
      lock := FetchAdd(lock, READER);
      granted := !WriterBit(old_) && !MaxReaderBit(old_) && !UpgradeBit(old_);
      phase := phase[a := if granted then Reading else ReadFailed];
      if granted { ReadGrant(s', a); }
    }

    method SubReader(ghost a: Agent) returns (ghost step: Step)
      requires Inv(Abs()) && PhaseOf(Abs(), a) in {Reading, ReadFailed}
      modifies this
      ensures step == if PhaseOf(old(Abs()), a) == Reading then DropRead(a) else UndoRead(a)
      ensures Abs() == Next(old(Abs()), step) && Inv(Abs())
      ensures phase == old(phase)[a := Idle] && val == old(val)
    {
      step := if PhaseOf(Abs(), a) == Reading then DropRead(a) else UndoRead(a);
      LeaveReadKeepsInv(Abs(), step);
      lock := FetchSub(lock, READER);
      phase := phase[a := Idle];
    }

    method TryWriteExchange(ghost a: Agent) returns (granted: bool)
      requires Inv(Abs()) && Enabled(Abs(), TryWrite(a))
      modifies this
      ensures Abs() == Next(old(Abs()), TryWrite(a)) && Inv(Abs())
      ensures granted <==> Alone(old(Abs()), a, {Idle})
      ensures phase == old(phase)[a := if granted then Writing else Idle] && val == old(val)
      ensures !granted ==> lock == old(lock)
    {
      WriteStepKeepsInv(Abs(), TryWrite(a));
      WriteGrantedIff(Abs(), a);
      granted := lock == 0;
      if granted {
        lock := WRITER;
      }
      phase := phase[a := if granted then Writing else Idle];
    }

    method WriteValue(ghost a: Agent, v: int)
      requires Inv(Abs()) && Enabled(Abs(), Store(a, v))
      modifies this
      ensures Abs() == Next(old(Abs()), Store(a, v)) && Inv(Abs())
      ensures val == v && lock == old(lock) && phase == old(phase)[a := Writing]
      ensures Alone(Abs(), a, {Idle, ReadFailed, UpreadFailed})
    {
      WriteStepKeepsInv(Abs(), Store(a, v));
      ExclusiveGrant(Next(Abs(), Store(a, v)), a);
      val := v;
      phase := phase[a := Writing];
    }

    method DropWriter(ghost a: Agent)
      requires Inv(Abs()) && Enabled(Abs(), DropWrite(a))
      modifies this
      ensures Abs() == Next(old(Abs()), DropWrite(a)) && Inv(Abs())
      ensures phase == old(phase)[a := Idle] && val == old(val)
    {
      WriteStepKeepsInv(Abs(), DropWrite(a));
      lock := ClearWriter(lock);
      phase := phase[a := Idle];
    }

    method TryUpreadOr(ghost a: Agent) returns (granted: bool, undo: bool)
      requires Inv(Abs()) && Enabled(Abs(), Step.TryUpread(a))
      modifies this
      ensures Abs() == Next(old(Abs()), Step.TryUpread(a)) && Inv(Abs())
      ensures granted <==> WriteHolders(old(Abs())) == 0 && UpreadHolders(old(Abs())) == 0
      ensures undo <==> WriteHolders(old(Abs())) > 0 && UpreadHolders(old(Abs())) == 0
      ensures phase == old(phase)[a := if granted then Upreading else if undo then UpreadFailed else Idle]
      ensures val == old(val) && (granted ==> Alone(Abs(), a, {Idle, Reading, ReadFailed}))
    {
      TryUpreadKeepsInv(Abs(), a);
      UpreadGrantedIff(Abs(), a);
      ghost var s' := Next(Abs(), Step.TryUpread(a));
      var w, u := WriterBit(lock), UpreadBit(lock);
      lock := OrUpread(lock);
      granted, undo := !w && !u, w && !u;
      phase := phase[a := if granted then Upreading else if undo then UpreadFailed else Idle];
      ExclusiveGrant(s', a);
    }

    method SubUpreader(ghost a: Agent) returns (ghost step: Step)
      requires Inv(Abs()) && PhaseOf(Abs(), a) in {Upreading, UpreadFailed, Upgraded}
      modifies this
      ensures step == match PhaseOf(old(Abs()), a)
                      case Upreading => DropUpread(a)
                      case UpreadFailed => UndoUpread(a)
                      case _ => FinishUpgrade(a)
      ensures Abs() == Next(old(Abs()), step) && Inv(Abs())
      ensures phase == old(phase)[a := if PhaseOf(old(Abs()), a) == Upgraded then Writing else Idle] && val == old(val)
    {
      step := match PhaseOf(Abs(), a)
              case Upreading => DropUpread(a)
              case UpreadFailed => UndoUpread(a)
              case _ => FinishUpgrade(a);
      LeaveUpreadKeepsInv(Abs(), step);
      lock := FetchSub(lock, UPGRADEABLE_READER);
      phase := phase[a := if PhaseOf(Abs(), a) == Upgraded then Writing else Idle];
    }

    method UpgradeOr(ghost a: Agent)
      requires Inv(Abs()) && Enabled(Abs(), BeginUpgrade(a))
      modifies this
      ensures Abs() == Next(old(Abs()), BeginUpgrade(a)) && Inv(Abs())
      ensures phase == old(phase)[a := Upgrading] && val == old(val)
    {
      UpgradeStepKeepsInv(Abs(), BeginUpgrade(a));
      lock := OrUpgrade(lock);
      phase := phase[a := Upgrading];
    }

    method TryUpgradeExchange(ghost a: Agent) returns (granted: bool)
      requires Inv(Abs()) && Enabled(Abs(), Step.TryUpgrade(a))
      modifies this
      ensures Abs() == Next(old(Abs()), Step.TryUpgrade(a)) && Inv(Abs())
      ensures granted <==> PhaseOf(old(Abs()), a) == Upgrading && ReaderCount(old(Abs())) == 0
      ensures phase == old(phase)[a := if granted then Upgraded else PhaseOf(old(Abs()), a)] && val == old(val)
      ensures !granted ==> lock == old(lock)
      ensures granted ==> Alone(Abs(), a, {Idle, ReadFailed})
    {
      UpgradeStepKeepsInv(Abs(), Step.TryUpgrade(a));
      TryUpgradeOutcome(Abs(), a);
      ghost var s' := Next(Abs(), Step.TryUpgrade(a));
      granted := lock == UPGRADEABLE_READER + BEING_UPGRADED;
      if granted {
        lock := WRITER + UPGRADEABLE_READER;
      }
      phase := phase[a := if granted then Upgraded else PhaseOf(Abs(), a)];
      ExclusiveGrant(s', a);
    }

    // The source's functions, when nothing interleaves: a refusal leaves no trace in the word.

    method TryRead(ghost a: Agent) returns (granted: bool)
      requires Inv(Abs()) && PhaseOf(Abs(), a) == Idle && Bounded(Next(Abs(), Step.TryRead(a)))
      modifies this
      ensures Inv(Abs()) && val == old(val)
      ensures granted <==> OpenToReaders(old(Abs()))
      ensures phase == old(phase)[a := if granted then Reading else Idle]
      ensures granted ==> NoWriterBeside(Abs(), a)
      ensures !granted ==> lock == old(lock)
    {
      WordFits(Abs());
      AddThenSub(lock);
      granted := TryReadAdd(a);
      if !granted { var _ := SubReader(a); }
    }

    method TryUpread(ghost a: Agent) returns (granted: bool)
      requires Inv(Abs()) && PhaseOf(Abs(), a) == Idle
      modifies this
      ensures Inv(Abs()) && val == old(val)
      ensures granted <==> WriteHolders(old(Abs())) == 0 && UpreadHolders(old(Abs())) == 0
      ensures phase == old(phase)[a := if granted then Upreading else Idle]
      ensures granted ==> Alone(Abs(), a, {Idle, Reading, ReadFailed})
      ensures !granted ==> lock == old(lock)
    {
      UpreadRefused(Abs(), a);
      var undo;
      granted, undo := TryUpreadOr(a);
      if undo { var _ := SubUpreader(a); }
    }

    /** A successful exchange consumes the upread guard and leaves a write guard. */
    method TryUpgrade(ghost a: Agent) returns (granted: bool)
      requires Inv(Abs()) && Enabled(Abs(), Step.TryUpgrade(a))
      modifies this
      ensures Inv(Abs()) && val == old(val)
      ensures granted <==> PhaseOf(old(Abs()), a) == Upgrading && ReaderCount(old(Abs())) == 0
      ensures phase == old(phase)[a := if granted then Writing else PhaseOf(old(Abs()), a)]
      ensures granted ==> Alone(Abs(), a, {Idle, ReadFailed, UpreadFailed})
      ensures !granted ==> lock == old(lock)
    {
      granted := TryUpgradeExchange(a);
      if granted {
        var _ := SubUpreader(a);
        ExclusiveGrant(Abs(), a);
      }
    }
  }

  lemma WordFits(s: State)
    requires Inv(s)
    ensures s.word < WORD
  {
  }
}
