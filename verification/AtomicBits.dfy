/** A fixed number of bits in 64-bit words, and the iterators that find ones and zeroes a word at a
time.
 */
module AtomicBits {

  import opened Wrappers

  /** A 64-bit word, least significant bit first. */
  type Word = w: seq<bool> | |w| == 64 witness seq(64, _ => false)

  function Filled(b: bool): (w: Word)
    ensures forall j :: 0 <= j < 64 ==> w[j] == b
  {
    seq(64, _ => b)
  }

  /** `w` with its bits from `valid` on set to `b`: the mask that removes garbage bits. */
  function Masked(w: Word, valid: nat, b: bool): (r: Word)
    requires valid <= 64
    ensures forall j :: 0 <= j < 64 ==> r[j] == if j < valid then w[j] else b
  {
    w[..valid] + Filled(b)[valid..]
  }

  /** The position of the first bit equal to `b`, or 64: `trailing_zeros` for ones and
      `trailing_ones` for zeroes. */
  function FirstAt(w: Word, b: bool, from: nat): (k: nat)
    requires from <= 64
    ensures from <= k <= 64 && (forall j :: from <= j < k ==> w[j] != b) && (k < 64 ==> w[k] == b)
    decreases 64 - from
  {
    if from == 64 || w[from] == b then from else FirstAt(w, b, from + 1)
  }

  function NumWords(numBits: nat): nat { (numBits + 63) / 64 }

  type Words = seq<Word>

  /** Bit `i` of the words. */
  predicate BitOf(ws: Words, i: nat)
    requires i < 64 * |ws|
  {
    ws[i / 64][i % 64]
  }

  /** The positions from `from` to `n` where the bit is `b`. */
  function Positions(ws: Words, n: nat, b: bool, from: nat): (s: seq<nat>)
    requires from <= n <= 64 * |ws|
    decreases n - from
  {
    if from == n then []
    else if BitOf(ws, from) == b then [from] + Positions(ws, n, b, from + 1)
    else Positions(ws, n, b, from + 1)
  }

  predicate Increasing(s: seq<nat>) { forall k, l :: 0 <= k < l < |s| ==> s[k] < s[l] }

  /** `s` lists, in increasing order, exactly the positions from `from` to `n` where the bit is `b`. */
  ghost predicate Lists(ws: Words, n: nat, b: bool, from: nat, s: seq<nat>)
    requires n <= 64 * |ws|
  {
    && Increasing(s)
    && (forall k :: 0 <= k < |s| ==> from <= s[k] < n && BitOf(ws, s[k]) == b)
    && (forall i :: from <= i < n && BitOf(ws, i) == b ==> i in s)
  }

  lemma IncreasingCons(x: nat, s: seq<nat>)
    requires Increasing(s) && forall k :: 0 <= k < |s| ==> x < s[k]
    ensures Increasing([x] + s)
  {
  }

  lemma InCons(x: nat, s: seq<nat>, i: nat)
    ensures i in [x] + s <==> i == x || i in s
  {
    assert ([x] + s)[0] == x;
    if i in s {
      var k :| 0 <= k < |s| && s[k] == i;
      assert ([x] + s)[k + 1] == i;
    }
  }

  lemma ListsMore(ws: Words, n: nat, b: bool, from: nat, s: seq<nat>)
    requires from < n <= 64 * |ws| && Lists(ws, n, b, from + 1, s) && BitOf(ws, from) == b
    ensures Lists(ws, n, b, from, [from] + s)
  {
    hide BitOf, Increasing;
    IncreasingCons(from, s);
    forall i | from <= i < n && BitOf(ws, i) == b ensures i in [from] + s { InCons(from, s, i); }
  }

  lemma {:induction false} PositionsAre(ws: Words, n: nat, b: bool, from: nat)
    requires from <= n <= 64 * |ws|
    ensures Lists(ws, n, b, from, Positions(ws, n, b, from))
    decreases n - from
  {
    hide BitOf;
    if from < n {
      PositionsAre(ws, n, b, from + 1);
      if BitOf(ws, from) == b { ListsMore(ws, n, b, from, Positions(ws, n, b, from + 1)); }
    }
  }

  lemma {:induction false} SkipTo(ws: Words, n: nat, b: bool, from: nat, end: nat)
    requires from <= end <= n <= 64 * |ws|
    requires forall i :: from <= i < end ==> BitOf(ws, i) != b
    ensures Positions(ws, n, b, from) == Positions(ws, n, b, end)
    decreases end - from
  {
    if from < end { SkipTo(ws, n, b, from + 1, end); }
  }

  class AtomicBits {
    const numBits: nat
    const u64s: array<Word>

    ghost predicate Valid()
      reads this
    {
      u64s.Length == NumWords(numBits)
    }

    /** All bits zeroes, or all bits ones. */
    constructor (b: bool, n: nat)
      ensures Valid() && numBits == n && fresh(u64s)
      ensures forall i :: 0 <= i < n ==> BitOf(u64s[..], i) == b
    {
      numBits := n;
      u64s := new Word[NumWords(n)](_ => Filled(b));
    }

    method Get(index: nat) returns (b: bool)
      requires Valid() && index < numBits
      ensures b == BitOf(u64s[..], index)
    {
      var i, j := index / 64, index % 64;
      b := u64s[i][j];
    }

    /** Sets one bit and leaves every other as it was. */
    method Set(index: nat, b: bool)
      requires Valid() && index < numBits
      modifies u64s
      ensures forall i :: 0 <= i < numBits ==> BitOf(u64s[..], i) == if i == index then b else BitOf(old(u64s[..]), i)
    {
      var i, j := index / 64, index % 64;
      u64s[i] := u64s[i][j := b];
    }
  }

  /** Where an iterator over `ws` stands: it has passed the positions before `from`, and `val` holds
      what is left of word `idx`. */
  predicate Standing(ws: Words, n: nat, b: bool, idx: nat, val: Word, from: nat) {
    && |ws| == NumWords(n) && from <= n
    && (idx < |ws| ==>
          && idx * 64 <= from <= idx * 64 + 64
          && (forall j :: 0 <= j < 64 ==>
                val[j] == if idx * 64 + j < from || idx * 64 + j >= n then !b else ws[idx][j]))
    && (idx >= |ws| ==> from == n)
  }

  lemma {:induction false} Found(ws: Words, n: nat, b: bool, idx: nat, val: Word, from: nat, first: nat)
    requires Standing(ws, n, b, idx, val, from) && idx < |ws|
    requires first < 64 && val[first] == b && forall j :: 0 <= j < first ==> val[j] != b
    ensures var pos := idx * 64 + first;
            && from <= pos < n && Standing(ws, n, b, idx, val[first := !b], pos + 1)
            && Positions(ws, n, b, from) == [pos] + Positions(ws, n, b, pos + 1)
  {
    var pos := idx * 64 + first;
    forall i | from <= i < pos ensures BitOf(ws, i) != b {
      assert i / 64 == idx && i % 64 == i - idx * 64 && val[i - idx * 64] != b;
    }
    SkipTo(ws, n, b, from, pos);
    assert pos / 64 == idx && pos % 64 == first;
  }

  lemma {:induction false} Exhausted(ws: Words, n: nat, b: bool, idx: nat, val: Word, from: nat, end: nat)
    requires Standing(ws, n, b, idx, val, from) && idx < |ws| && forall j :: 0 <= j < 64 ==> val[j] != b
    requires end == if (idx + 1) * 64 < n then (idx + 1) * 64 else n
    ensures from <= end && Positions(ws, n, b, from) == Positions(ws, n, b, end)
    ensures end < n <==> idx + 1 < |ws|
  {
    forall i | from <= i < end ensures BitOf(ws, i) != b {
      assert i / 64 == idx && i % 64 == i - idx * 64 && val[i - idx * 64] != b;
    }
    SkipTo(ws, n, b, from, end);
  }

  lemma Arrived(ws: Words, n: nat, b: bool, idx: nat, val: Word)
    requires |ws| == NumWords(n) && 0 < idx <= |ws|
    requires idx < |ws| ==> forall j :: 0 <= j < 64 ==> val[j] == if idx * 64 + j >= n then !b else ws[idx][j]
    ensures Standing(ws, n, b, idx, val, if idx * 64 < n then idx * 64 else n)
  {
  }

  lemma {:induction false} AtEnd(ws: Words, n: nat, b: bool, idx: nat, val: Word, from: nat)
    requires Standing(ws, n, b, idx, val, from) && idx >= |ws|
    ensures |Positions(ws, n, b, from)| == 0
  {
  }

  function NumGarbage(n: nat): nat { if n % 64 != 0 then 64 - n % 64 else 0 }

  /** `OnesIter` for `b == true`, `ZeroesIter` for `b == false`: the two differ only in which bits
      they look for and what garbage bits are set to. */
  class BitsIter {
    const bits: AtomicBits
    const b: bool
    var u64Idx: nat
    var u64Val: Word
    const numGarbage: nat
    ghost var from: nat    // the first position not yet passed

    ghost predicate Valid()
      reads this, bits, bits.u64s
    {
      && bits.Valid() && numGarbage == NumGarbage(bits.numBits)
      && Standing(bits.u64s[..], bits.numBits, b, u64Idx, u64Val, from)
    }

    /** What is still to be returned. */
    ghost function Rest(): seq<nat>
      requires Valid()
      reads this, bits, bits.u64s
    {
      Positions(bits.u64s[..], bits.numBits, b, from)
    }

    constructor (bs: AtomicBits, looking: bool)
      requires bs.Valid() && bs.numBits > 0
      ensures Valid() && bits == bs && b == looking && from == 0
    {
      bits, b, u64Idx, from := bs, looking, 0, 0;
      numGarbage := NumGarbage(bs.numBits);
      u64Val := Filled(!looking);
      new;
      u64Val := GetU64Val(0);
    }

    /** The word with its garbage bits, if any, set to what is not looked for. */
    method GetU64Val(idx: nat) returns (w: Word)
      requires bits.Valid() && idx < bits.u64s.Length && numGarbage == NumGarbage(bits.numBits)
      ensures forall j :: 0 <= j < 64 ==> w[j] == if idx * 64 + j >= bits.numBits then !b else bits.u64s[idx][j]
    {
      w := bits.u64s[idx];
      if idx == bits.u64s.Length - 1 && numGarbage > 0 { w := Masked(w, 64 - numGarbage, !b); }
    }

    /** Goes on to the next word when the current one has no more of the bits looked for. */
    method NextWord()
      requires Valid() && u64Idx < bits.u64s.Length && forall j :: 0 <= j < 64 ==> u64Val[j] != b
      modifies this
      ensures Valid() && u64Idx == old(u64Idx) + 1 && Rest() == old(Rest())
    {
      hide Positions, NumGarbage;
      ghost var ws, end := bits.u64s[..], if (u64Idx + 1) * 64 < bits.numBits then (u64Idx + 1) * 64 else bits.numBits;
      Exhausted(ws, bits.numBits, b, u64Idx, u64Val, from, end);
      from := end;
      u64Idx := u64Idx + 1;
      if u64Idx < bits.u64s.Length { u64Val := GetU64Val(u64Idx); }
      Arrived(ws, bits.numBits, b, u64Idx, u64Val);
    }

    /** Returns the least position not yet passed whose bit is the one looked for. */
    method Next() returns (r: Option<nat>)
      requires Valid()
      modifies this
      ensures Valid()
      ensures r.None? ==> |old(Rest())| == 0
      ensures r.Some? ==> old(Rest()) == [r.value] + Rest()
    {
      hide Positions, Standing, FirstAt, NumGarbage;
      while u64Idx < bits.u64s.Length
        invariant Valid() && Rest() == old(Rest())
        decreases bits.u64s.Length - u64Idx
      {
        var first := FirstAt(u64Val, b, 0);
        if first < 64 {
          Found(bits.u64s[..], bits.numBits, b, u64Idx, u64Val, from, first);
          u64Val := u64Val[first := !b];
          from := u64Idx * 64 + first + 1;
          return Some(u64Idx * 64 + first);
        }
        NextWord();
      }
      AtEnd(bits.u64s[..], bits.numBits, b, u64Idx, u64Val, from);
      r := None;
    }
  }

  /** Running an iterator to its end gives exactly the positions where the bit is `b`, in
      increasing order. */
  method Collect(bits: AtomicBits, b: bool) returns (s: seq<nat>)
    requires bits.Valid() && bits.numBits > 0
    ensures s == Positions(bits.u64s[..], bits.numBits, b, 0)
  {
    hide Positions, Standing, NumGarbage;
    var iter := new BitsIter(bits, b);
    s := [];
    ghost var rest := iter.Rest();
    var next := iter.Next();
    while next.Some?
      invariant fresh(iter) && iter.Valid() && iter.bits == bits && iter.b == b
      invariant Positions(bits.u64s[..], bits.numBits, b, 0) == s + rest
      invariant next.Some? ==> rest == [next.value] + iter.Rest()
      invariant next.None? ==> |rest| == 0
      decreases |rest|
    {
      s := s + [next.value];
      rest := iter.Rest();
      next := iter.Next();
    }
    assert s + rest == s;
  }
}
