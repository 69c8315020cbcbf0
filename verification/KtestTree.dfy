/** The tree of kernel tests by module path, the iterator over a crate's modules with its explicit
stack, and the counts the runner asserts.
 */
module KtestTree {
  import opened SuffixTrie
  import opened Wrappers

  /** A test; `path` is its module path split at the double colons. */
  datatype Item = Item(package: string, path: Path, name: string)

  datatype Module = Module(nrTotTests: nat, name: string, children: seq<Module>, tests: seq<Item>)

  // The children of a module are kept in the order of their names.

  predicate Less(a: string, b: string)
    decreases |a|
  {
    |b| > 0 && (|a| == 0 || a[0] < b[0] || (a[0] == b[0] && Less(a[1..], b[1..])))
  }

  lemma {:induction false} LessIsTotal(a: string, b: string)
    ensures Less(a, b) || Less(b, a) || a == b
    ensures !(Less(a, b) && Less(b, a)) && !Less(a, a)
    decreases |a|
  {
    if |a| > 0 && |b| > 0 {
      LessIsTotal(a[1..], b[1..]);
      LessIsTotal(a[1..], a[1..]);
      assert a == [a[0]] + a[1..] && b == [b[0]] + b[1..];
    } else if |a| > 0 {
      LessIsTotal(a[1..], a[1..]);
    }
  }

  /** The order of strings: at their first difference, or a prefix before what it begins. */
  lemma {:induction false} LessIs(a: string, b: string, k: nat)
    requires k <= |a| && k <= |b| && a[..k] == b[..k] && (k < |a| && k < |b| ==> a[k] != b[k])
    ensures Less(a, b) <==> k < |b| && (k == |a| || a[k] < b[k])
    decreases k
  {
    if k > 0 {
      assert a[0] == a[..k][0] == b[..k][0] == b[0];
      assert a[1..][..k - 1] == a[..k][1..] && b[1..][..k - 1] == b[..k][1..];
      LessIs(a[1..], b[1..], k - 1);
    }
  }

  lemma {:induction false} LessTransitive(a: string, b: string, c: string)
    requires Less(a, b) && Less(b, c)
    ensures Less(a, c)
    decreases |a|
  {
    if |a| > 0 && a[0] == b[0] == c[0] { LessTransitive(a[1..], b[1..], c[1..]); }
  }

  predicate Ordered(ms: seq<Module>) { forall i, j :: 0 <= i < j < |ms| ==> Less(ms[i].name, ms[j].name) }

  /** Where a child of this name is, or belongs. */
  function Position(ms: seq<Module>, name: string): (i: nat)
    ensures i <= |ms| && (forall k :: 0 <= k < i ==> Less(ms[k].name, name)) && (i < |ms| ==> !Less(ms[i].name, name))
    decreases |ms|
  {
    if |ms| == 0 || !Less(ms[0].name, name) then 0 else 1 + Position(ms[1..], name)
  }

  /** The child of this name is found if there is one. */
  lemma {:induction false} PositionFinds(ms: seq<Module>, name: string, k: nat)
    requires Ordered(ms) && k < |ms| && ms[k].name == name
    ensures Position(ms, name) == k
  {
    LessIsTotal(name, name);
    assert forall i :: 0 <= i < k ==> Less(ms[i].name, name);
  }

  // Inserting a test.

  predicate Exists(ms: seq<Module>, i: nat, name: string) { i < |ms| && ms[i].name == name }

  function Replaced(ms: seq<Module>, i: nat, m: Module): seq<Module>
    requires i <= |ms|
  {
    ms[..i] + [m] + (if Exists(ms, i, m.name) then ms[i + 1..] else ms[i..])
  }

  function NewModule(name: string): Module { Module(0, name, [], []) }

  function ChildOf(ms: seq<Module>, i: nat, name: string): Module {
    if Exists(ms, i, name) then ms[i] else NewModule(name)
  }

  function Insert(m: Module, path: Path, test: Item): (r: Module)
    ensures r.name == m.name && r.nrTotTests == m.nrTotTests + 1
    decreases |path|
  {
    if |path| == 0 then m.(nrTotTests := m.nrTotTests + 1, tests := m.tests + [test])
    else
      var i := Position(m.children, path[0]);
      var child := ChildOf(m.children, i, path[0]);
      var child' := Insert(child.(nrTotTests := child.nrTotTests + 1), path[1..], test);
      m.(nrTotTests := m.nrTotTests + 1, children := Replaced(m.children, i, child'))
  }

  /** All tests of the modules and of the modules below them. */
  function TestsOf(ms: seq<Module>): multiset<Item>
    decreases ms
  {
    if |ms| == 0 then multiset{} else Tests(ms[0]) + TestsOf(ms[1..])
  }

  function Tests(m: Module): multiset<Item> { multiset(m.tests) + TestsOf(m.children) }

  /** Names are in order at every level. */
  predicate Tidy(ms: seq<Module>)
    decreases ms
  {
    Ordered(ms) && forall i :: 0 <= i < |ms| ==> Tidy(ms[i].children)
  }

  predicate CountsTwice(m: Module)
    decreases m
  {
    m.nrTotTests == 2 * |Tests(m)| && forall i :: 0 <= i < |m.children| ==> CountsTwice(m.children[i])
  }

  lemma {:induction false} TestsOfAppend(a: seq<Module>, b: seq<Module>)
    ensures TestsOf(a + b) == TestsOf(a) + TestsOf(b)
    decreases |a|
  {
    if |a| == 0 {
      assert a + b == b;
    } else {
      assert (a + b)[1..] == a[1..] + b;
      TestsOfAppend(a[1..], b);
    }
  }

  lemma {:induction false} TestsAround(before: seq<Module>, m: Module, after: seq<Module>)
    ensures TestsOf(before + [m] + after) == TestsOf(before) + Tests(m) + TestsOf(after)
  {
    assert before + [m] + after == before + ([m] + after);
    TestsOfAppend(before, [m] + after);
    assert ([m] + after)[1..] == after;
  }

  lemma {:induction false} SwapOne(before: seq<Module>, m: Module, x: Module, after: seq<Module>, test: Item)
    requires Tests(m) == Tests(x) + multiset{test}
    ensures TestsOf(before + [m] + after) == TestsOf(before + [x] + after) + multiset{test}
  {
    TestsAround(before, m, after);
    TestsAround(before, x, after);
  }

  lemma {:induction false} AddOne(before: seq<Module>, m: Module, after: seq<Module>, test: Item)
    requires Tests(m) == multiset{test}
    ensures TestsOf(before + [m] + after) == TestsOf(before + after) + multiset{test}
  {
    TestsAround(before, m, after);
    TestsOfAppend(before, after);
  }

  /** Replacing a child adds what the new child has more than the old one, if there was one. */
  lemma {:induction false} ReplacedTests(ms: seq<Module>, i: nat, m: Module, had: multiset<Item>, test: Item)
    requires i <= |ms| && Tests(m) == had + multiset{test}
    requires had == if Exists(ms, i, m.name) then Tests(ms[i]) else multiset{}
    ensures TestsOf(Replaced(ms, i, m)) == TestsOf(ms) + multiset{test}
  {
    if Exists(ms, i, m.name) {
      SwapOne(ms[..i], m, ms[i], ms[i + 1..], test);
      CutAround(ms, i);
    } else {
      AddOne(ms[..i], m, ms[i..], test);
      CutAt(ms, i);
    }
  }

  lemma CutAround(ms: seq<Module>, i: nat)
    requires i < |ms|
    ensures ms[..i] + [ms[i]] + ms[i + 1..] == ms
  {
  }

  lemma CutAt(ms: seq<Module>, i: nat)
    requires i <= |ms|
    ensures ms[..i] + ms[i..] == ms
  {
  }

  lemma NewModuleIsEmpty(name: string)
    ensures Tests(NewModule(name)) == multiset{} && CountsTwice(NewModule(name)) && Tidy(NewModule(name).children)
  {
  }

  /** The child an insertion goes on to, with its counter raised. */
  function NextChild(m: Module, path: Path): Module
    requires |path| > 0
  {
    var child := ChildOf(m.children, Position(m.children, path[0]), path[0]);
    child.(nrTotTests := child.nrTotTests + 1)
  }

  lemma NextChildTests(m: Module, path: Path)
    requires |path| > 0
    ensures var i, c := Position(m.children, path[0]), NextChild(m, path);
            && c.name == path[0]
            && Tests(c) == if Exists(m.children, i, path[0]) then Tests(m.children[i]) else multiset{}
  {
    NewModuleIsEmpty(path[0]);
  }

  /** An insertion adds the test to the tree and loses none. */
  lemma {:induction false} InsertAddsTest(m: Module, path: Path, test: Item)
    ensures Tests(Insert(m, path, test)) == Tests(m) + multiset{test}
    decreases |path|
  {
    if |path| > 0 {
      var c := NextChild(m, path);
      NextChildTests(m, path);
      InsertAddsTest(c, path[1..], test);
      ReplacedTests(m.children, Position(m.children, path[0]), Insert(c, path[1..], test), Tests(c), test);
    }
  }

  predicate AllCountTwice(ms: seq<Module>) { forall i :: 0 <= i < |ms| ==> CountsTwice(ms[i]) }

  lemma NextChildCounts(m: Module, path: Path)
    requires |path| > 0 && AllCountTwice(m.children)
    ensures var c := NextChild(m, path);
            c.nrTotTests == 2 * |Tests(c)| + 1 && AllCountTwice(c.children)
  {
    NewModuleIsEmpty(path[0]);
    var child := ChildOf(m.children, Position(m.children, path[0]), path[0]);
    assert CountsTwice(child);
  }

  lemma {:induction false} ReplacedCounts(ms: seq<Module>, i: nat, m: Module)
    requires i <= |ms| && AllCountTwice(ms) && CountsTwice(m)
    ensures AllCountTwice(Replaced(ms, i, m))
  {
  }

  /** Below the root, a module is counted by its parent and by itself, so that its counter is
      twice the number of its tests. */
  lemma {:induction false} InsertCounts(m: Module, path: Path, test: Item)
    requires AllCountTwice(m.children)
    ensures AllCountTwice(Insert(m, path, test).children)
    decreases |path|
  {
    if |path| > 0 {
      var c := NextChild(m, path);
      NextChildCounts(m, path);
      InsertCounts(c, path[1..], test);
      InsertAddsTest(c, path[1..], test);
      ReplacedCounts(m.children, Position(m.children, path[0]), Insert(c, path[1..], test));
    }
  }

  lemma {:induction false} AfterPosition(ms: seq<Module>, name: string, k: nat)
    requires Ordered(ms) && Position(ms, name) <= k < |ms| && ms[k].name != name
    ensures Less(name, ms[k].name)
  {
    var i := Position(ms, name);
    LessIsTotal(ms[i].name, name);
    LessIsTotal(ms[k].name, name);
    if i < k && ms[i].name != name { LessTransitive(name, ms[i].name, ms[k].name); }
  }

  lemma ReplacedAt(ms: seq<Module>, i: nat, m: Module, k: nat)
    requires i <= |ms| && k < |Replaced(ms, i, m)|
    ensures var r, from := Replaced(ms, i, m)[k], if Exists(ms, i, m.name) then k else k - 1;
            && (k < i ==> r == ms[k]) && (k == i ==> r == m) && (k > i ==> i <= from < |ms| && r == ms[from])
  {
  }

  lemma {:induction false} ReplacedPair(ms: seq<Module>, m: Module, a: nat, b: nat)
    requires Ordered(ms) && a < b < |Replaced(ms, Position(ms, m.name), m)|
    ensures var r := Replaced(ms, Position(ms, m.name), m); Less(r[a].name, r[b].name)
  {
    var i := Position(ms, m.name);
    ReplacedAt(ms, i, m, a);
    ReplacedAt(ms, i, m, b);
    if a == i {
      var from := if Exists(ms, i, m.name) then b else b - 1;
      LessIsTotal(m.name, m.name);
      AfterPosition(ms, m.name, from);
    }
  }

  lemma {:induction false} ReplacedOrder(ms: seq<Module>, m: Module)
    requires Ordered(ms)
    ensures Ordered(Replaced(ms, Position(ms, m.name), m))
  {
    var r := Replaced(ms, Position(ms, m.name), m);
    forall a, b | 0 <= a < b < |r| ensures Less(r[a].name, r[b].name) { ReplacedPair(ms, m, a, b); }
  }

  /** Names stay in order, so that no module has two children of one name. */
  lemma {:induction false} InsertKeepsOrder(m: Module, path: Path, test: Item)
    requires Tidy(m.children)
    ensures Tidy(Insert(m, path, test).children)
    decreases |path|
  {
    if |path| > 0 {
      var c := NextChild(m, path);
      NewModuleIsEmpty(path[0]);
      assert Tidy(c.children);
      InsertKeepsOrder(c, path[1..], test);
      ReplacedOrder(m.children, Insert(c, path[1..], test));
    }
  }

  // Looking up by path.

  /** What the map of children gives for a name, or a new module. */
  function ChildNamed(ms: seq<Module>, name: string): Module { ChildOf(ms, Position(ms, name), name) }

  lemma ChildFound(ms: seq<Module>, k: nat)
    requires Ordered(ms) && k < |ms|
    ensures ChildNamed(ms, ms[k].name) == ms[k]
  {
    PositionFinds(ms, ms[k].name, k);
  }

  /** Replacing a child changes the lookup of its own name and of no other. */
  lemma {:induction false} ReplacedLookup(ms: seq<Module>, m: Module, name: string)
    requires Ordered(ms)
    ensures ChildNamed(Replaced(ms, Position(ms, m.name), m), name) ==
            if name == m.name then m else ChildNamed(ms, name)
  {
    hide Position, Ordered;
    var i := Position(ms, m.name);
    var r := Replaced(ms, i, m);
    ReplacedOrder(ms, m);
    var j := Position(r, name);
    if name == m.name {
      ReplacedAt(ms, i, m, i);
      ChildFound(r, i);
    } else if Exists(r, j, name) {
      ReplacedAt(ms, i, m, j);
      ChildFound(ms, if j < i || Exists(ms, i, m.name) then j else j - 1);
    } else if Exists(ms, Position(ms, name), name) {
      var k := Position(ms, name);
      var k' := if k < i || Exists(ms, i, m.name) then k else k + 1;
      ReplacedAt(ms, i, m, k');
      ChildFound(r, k');
    }
  }

  /** The tests of the module at a path below `m`. */
  function TestsAt(m: Module, path: Path): seq<Item>
    decreases |path|
  {
    if |path| == 0 then m.tests else TestsAt(ChildNamed(m.children, path[0]), path[1..])
  }

  /** An insertion appends the test at its own path and changes the tests at no other path. */
  lemma {:induction false} InsertAtPath(m: Module, path: Path, test: Item, q: Path)
    requires Tidy(m.children)
    ensures TestsAt(Insert(m, path, test), q) == TestsAt(m, q) + if q == path then [test] else []
    decreases |path|
  {
    if |path| > 0 && |q| > 0 {
      var c := NextChild(m, path);
      ReplacedLookup(m.children, Insert(c, path[1..], test), q[0]);
      if q[0] == path[0] {
        NewModuleIsEmpty(path[0]);
        InsertAtPath(c, path[1..], test, q[1..]);
        SameFirst(q, path);
      }
    }
  }

  lemma SameFirst(q: Path, path: Path)
    requires |q| > 0 && |path| > 0 && q[0] == path[0]
    ensures q == path <==> q[1..] == path[1..]
  {
    assert q == [q[0]] + q[1..] && path == [path[0]] + path[1..];
  }

  // The iterator.

  /** The modules and those below them, each before its children. */
  function Preorder(ms: seq<Module>): seq<Module>
    decreases ms
  {
    if |ms| == 0 then ms else [ms[0]] + Preorder(ms[0].children) + Preorder(ms[1..])
  }

  /** What a stack of partly iterated child lists has still to yield. */
  function Rest(stack: seq<seq<Module>>): seq<Module>
    decreases |stack|
  {
    if |stack| == 0 then [] else Preorder(stack[|stack| - 1]) + Rest(stack[..|stack| - 1])
  }

  lemma {:induction false} RestPush(stack: seq<seq<Module>>, ms: seq<Module>)
    ensures Rest(stack + [ms]) == Preorder(ms) + Rest(stack)
  {
    assert (stack + [ms])[..|stack|] == stack;
  }

  lemma {:induction false} RestTake(below: seq<seq<Module>>, ms: seq<Module>)
    requires |ms| > 0
    ensures Rest(below + [ms]) == [ms[0]] + Rest(below + [ms[1..]] + [ms[0].children])
  {
    RestPush(below, ms);
    RestPush(below + [ms[1..]], ms[0].children);
    RestPush(below, ms[1..]);
    Regroup(ms[0], Preorder(ms[0].children), Preorder(ms[1..]), Rest(below));
  }

  lemma Regroup(m: Module, a: seq<Module>, b: seq<Module>, c: seq<Module>)
    ensures [m] + a + b + c == [m] + (a + (b + c))
  {
  }

  class KtestCrateIter {
    var stack: seq<seq<Module>>

    constructor (root: Module)
      ensures Rest(stack) == Preorder(root.children)
    {
      stack := [root.children];
      new;
      assert stack == [] + [root.children];
      RestPush([], root.children);
    }

    /** Yields the next module of the preorder. */
    method Next() returns (r: Option<Module>)
      modifies this
      ensures |old(Rest(stack))| == 0 ==> r == None && |Rest(stack)| == 0
      ensures |old(Rest(stack))| > 0 ==> r == Some(old(Rest(stack))[0]) && Rest(stack) == old(Rest(stack))[1..]
    {
      while |stack| > 0
        invariant Rest(stack) == old(Rest(stack))
        decreases |stack|
      {
        var below, top := stack[..|stack| - 1], stack[|stack| - 1];
        assert stack == below + [top];
        RestPush(below, top);
        if |top| > 0 {
          RestTake(below, top);
          stack := below + [top[1..]] + [top[0].children];
          return Some(top[0]);
        }
        stack := below;
      }
      r := None;
    }
  }

  // The runner.

  /** The tests of the listed modules themselves. */
  function Flat(ms: seq<Module>): seq<Item> {
    if |ms| == 0 then [] else ms[0].tests + Flat(ms[1..])
  }

  lemma {:induction false} FlatAppend(a: seq<Module>, b: seq<Module>)
    ensures Flat(a + b) == Flat(a) + Flat(b)
    decreases |a|
  {
    if |a| == 0 {
      assert a + b == b;
    } else {
      assert (a + b)[1..] == a[1..] + b;
      FlatAppend(a[1..], b);
    }
  }

  lemma {:induction false} FlatCons(m: Module, a: seq<Module>, b: seq<Module>)
    ensures Flat([m] + a + b) == m.tests + (Flat(a) + Flat(b))
  {
    assert [m] + a + b == [m] + (a + b) && ([m] + (a + b))[1..] == a + b;
    FlatAppend(a, b);
  }

  /** The iterator meets every test below the root. */
  lemma {:induction false} PreorderTests(ms: seq<Module>)
    ensures multiset(Flat(Preorder(ms))) == TestsOf(ms)
    decreases ms
  {
    if |ms| > 0 {
      PreorderTests(ms[0].children);
      PreorderTests(ms[1..]);
      FlatCons(ms[0], Preorder(ms[0].children), Preorder(ms[1..]));
    }
  }

  /** What a run is given: all tests, or those listed by the end of their path; and how each ends. */
  datatype Selection = Selection(all: bool, listed: seq<Path>, passes: Item -> bool)

  datatype Ending = Passing | Failing | Filtered

  ghost predicate Listed(paths: seq<Path>, path: Path) { exists p :: p in paths && IsSuffix(p, path) }

  function TestPath(test: Item): Path { test.path + [test.name] }

  ghost function EndingOf(sel: Selection, test: Item): Ending {
    if !sel.all && !Listed(sel.listed, TestPath(test)) then Filtered
    else if sel.passes(test) then Passing else Failing
  }

  ghost function Number(items: seq<Item>, sel: Selection, o: Ending): nat {
    if |items| == 0 then 0
    else Number(items[..|items| - 1], sel, o) + if EndingOf(sel, items[|items| - 1]) == o then 1 else 0
  }

  lemma {:induction false} NumberNext(items: seq<Item>, test: Item, sel: Selection, o: Ending)
    ensures Number(items + [test], sel, o) == Number(items, sel, o) + if EndingOf(sel, test) == o then 1 else 0
  {
    assert (items + [test])[..|items|] == items;
  }

  lemma {:induction false} NumberAppend(a: seq<Item>, b: seq<Item>, sel: Selection, o: Ending)
    ensures Number(a + b, sel, o) == Number(a, sel, o) + Number(b, sel, o)
    decreases |b|
  {
    if |b| == 0 {
      assert a + b == a;
    } else {
      var front, last := b[..|b| - 1], b[|b| - 1];
      assert a + b == (a + front) + [last];
      NumberAppend(a, front, sel, o);
      NumberNext(a + front, last, sel, o);
    }
  }

  /** Each test ends in one way. */
  lemma {:induction false} NumbersAddUp(items: seq<Item>, sel: Selection)
    ensures Number(items, sel, Passing) + Number(items, sel, Failing) + Number(items, sel, Filtered) == |items|
  {
    if |items| > 0 { NumbersAddUp(items[..|items| - 1], sel); }
  }

  lemma TakenOut(items: seq<Item>, k: nat, sel: Selection, o: Ending)
    requires k < |items|
    ensures var rest := items[..k] + items[k + 1..];
            && multiset(rest) == multiset(items) - multiset{items[k]}
            && Number(items, sel, o) == Number(rest, sel, o) + if EndingOf(sel, items[k]) == o then 1 else 0
  {
    var a, b := items[..k], items[k + 1..];
    assert items == (a + [items[k]]) + b;
    NumberAppend(a + [items[k]], b, sel, o);
    NumberNext(a, items[k], sel, o);
    NumberAppend(a, b, sel, o);
  }

  lemma {:induction false} NoneToCount(items: seq<Item>, sel: Selection, o: Ending)
    requires |items| == 0
    ensures Number(items, sel, o) == 0
  {
  }

  /** The order of the tests does not matter. */
  lemma {:induction false} NumberOfPermutation(a: seq<Item>, b: seq<Item>, sel: Selection, o: Ending)
    requires multiset(a) == multiset(b)
    ensures Number(a, sel, o) == Number(b, sel, o)
    decreases |a|
  {
    hide Number, EndingOf;
    assert |a| == |multiset(a)| == |multiset(b)| == |b|;
    if |a| == 0 {
      NoneToCount(a, sel, o);
      NoneToCount(b, sel, o);
    } else {
      assert a[0] in multiset(b);
      var k :| 0 <= k < |b| && b[k] == a[0];
      TakenOut(a, 0, sel, o);
      TakenOut(b, k, sel, o);
      NumberOfPermutation(a[..0] + a[1..], b[..k] + b[k + 1..], sel, o);
    }
  }

  /** The trie, if there is one, holds the listed paths. */
  ghost predicate Admits(whitelist: Option<Trie>, sel: Selection) {
    sel.all == whitelist.None? && (whitelist.Some? ==> Holds(whitelist.value, sel.listed))
  }

  ghost predicate Counted(items: seq<Item>, sel: Selection, passed: nat, failed: nat, filtered: nat) {
    && passed == Number(items, sel, Passing) && failed == Number(items, sel, Failing)
    && filtered == Number(items, sel, Filtered)
  }

  lemma CountedAppend(a: seq<Item>, b: seq<Item>, sel: Selection, p: nat, f: nat, x: nat, p': nat, f': nat, x': nat)
    requires Counted(a, sel, p, f, x) && Counted(b, sel, p', f', x')
    ensures Counted(a + b, sel, p + p', f + f', x + x')
  {
    NumberAppend(a, b, sel, Passing);
    NumberAppend(a, b, sel, Failing);
    NumberAppend(a, b, sel, Filtered);
  }

  lemma {:induction false} NumberZeroIff(items: seq<Item>, sel: Selection, o: Ending)
    ensures Number(items, sel, o) == 0 <==> forall t :: t in items ==> EndingOf(sel, t) != o
  {
    if |items| > 0 {
      var front, last := items[..|items| - 1], items[|items| - 1];
      NumberZeroIff(front, sel, o);
      assert items == front + [last];
      assert forall t :: t in items <==> t in front || t == last;
    }
  }

  /** What it means that a count is zero. */
  lemma ZeroCounts(items: seq<Item>, sel: Selection, passed: nat, failed: nat, filtered: nat)
    requires Counted(items, sel, passed, failed, filtered)
    ensures filtered == 0 <==> forall t :: t in items ==> sel.all || Listed(sel.listed, t.path + [t.name])
    ensures failed == 0 <==> forall t :: t in items && (sel.all || Listed(sel.listed, t.path + [t.name])) ==> sel.passes(t)
    ensures passed == 0 <==> forall t :: t in items && (sel.all || Listed(sel.listed, t.path + [t.name])) ==> !sel.passes(t)
  {
    NumberZeroIff(items, sel, Passing);
    NumberZeroIff(items, sel, Failing);
    NumberZeroIff(items, sel, Filtered);
  }

  lemma CountedPermutation(a: seq<Item>, b: seq<Item>, sel: Selection, p: nat, f: nat, x: nat)
    requires Counted(a, sel, p, f, x) && multiset(a) == multiset(b)
    ensures Counted(b, sel, p, f, x)
  {
    NumberOfPermutation(a, b, sel, Passing);
    NumberOfPermutation(a, b, sel, Failing);
    NumberOfPermutation(a, b, sel, Filtered);
  }

  method RunTests(tests: seq<Item>, whitelist: Option<Trie>, passes: Item -> bool, ghost sel: Selection)
    returns (passed: nat, failed: nat, filtered: nat)
    requires Admits(whitelist, sel) && sel.passes == passes
    ensures Counted(tests, sel, passed, failed, filtered)
  {
    passed, failed, filtered := 0, 0, 0;
    for i := 0 to |tests|
      invariant Counted(tests[..i], sel, passed, failed, filtered)
    {
      var test := tests[i];
      var selected := true;
      if whitelist.Some? {
        selected := Contains(whitelist.value, TestPath(test));
        ContainsMeansSuffix(whitelist.value, sel.listed, TestPath(test));
      }
      assert tests[..i + 1] == tests[..i] + [test];
      forall o: Ending { NumberNext(tests[..i], test, sel, o); }
      if !selected {
        filtered := filtered + 1;
      } else if passes(test) {
        passed := passed + 1;
      } else {
        failed := failed + 1;
      }
    }
    assert tests[..|tests|] == tests;
  }

  /** Runs a crate's tests: exactly the tests below the root are counted, each as it ends. */
  method RunCrate(root: Module, whitelist: Option<Trie>, passes: Item -> bool, ghost sel: Selection)
    returns (passed: nat, failed: nat, filtered: nat)
    requires Admits(whitelist, sel) && sel.passes == passes
    ensures Counted(Flat(Preorder(root.children)), sel, passed, failed, filtered)
    ensures passed + failed + filtered == |TestsOf(root.children)|
  {
    var iter := new KtestCrateIter(root);
    passed, failed, filtered := 0, 0, 0;
    ghost var done, rest := [], Rest(iter.stack);
    var module_ := iter.Next();
    while module_.Some?
      invariant fresh(iter)
      invariant module_.None? <==> |rest| == 0
      invariant module_.Some? ==> module_.value == rest[0] && Rest(iter.stack) == rest[1..]
      invariant Preorder(root.children) == done + rest
      invariant Counted(Flat(done), sel, passed, failed, filtered)
      decreases |rest|
    {
      var tests := module_.value.tests;
      var p, f, x := RunTests(tests, whitelist, passes, sel);
      CountedAppend(Flat(done), tests, sel, passed, failed, filtered, p, f, x);
      NextDone(done, rest);
      passed, failed, filtered := passed + p, failed + f, filtered + x;
      done, rest := done + [rest[0]], rest[1..];
      module_ := iter.Next();
    }
    assert done == Preorder(root.children);
    PreorderTests(root.children);
    NumbersAddUp(Flat(done), sel);
    assert |multiset(Flat(done))| == |Flat(done)|;
  }

  lemma {:induction false} NextDone(done: seq<Module>, rest: seq<Module>)
    requires |rest| > 0
    ensures done + rest == (done + [rest[0]]) + rest[1..] && Flat(done + [rest[0]]) == Flat(done) + rest[0].tests
  {
    FlatAppend(done, [rest[0]]);
  }

  // The whole tree.

  /** A crate's root module: it has no tests of its own and its counter is exact. */
  predicate CrateOk(root: Module) {
    |root.tests| == 0 && root.nrTotTests == |Tests(root)| && AllCountTwice(root.children) && Tidy(root.children)
  }

  /** The runner's assertion: passed, failed and filtered tests add up to the crate's counter. */
  lemma CrateCounterIsExact(root: Module)
    requires CrateOk(root)
    ensures root.nrTotTests == |TestsOf(root.children)|
  {
    assert Tests(root) == TestsOf(root.children);
  }

  lemma {:induction false} AddKeepsCrate(root: Module, path: Path, test: Item)
    requires CrateOk(root) && |path| > 0
    ensures CrateOk(Insert(root, path, test)) && Tests(Insert(root, path, test)) == Tests(root) + multiset{test}
  {
    InsertAddsTest(root, path, test);
    InsertCounts(root, path, test);
    InsertKeepsOrder(root, path, test);
  }

  /** The tests registered for a package. */
  function OfPackage(items: seq<Item>, package: string): seq<Item> {
    if |items| == 0 then []
    else
      var last := items[|items| - 1];
      OfPackage(items[..|items| - 1], package) + if last.package == package then [last] else []
  }

  lemma {:induction false} OfPackageNext(items: seq<Item>, test: Item, package: string)
    ensures OfPackage(items + [test], package)
         == OfPackage(items, package) + if test.package == package then [test] else []
  {
    assert (items + [test])[..|items|] == items;
  }

  lemma {:induction false} InPackage(items: seq<Item>, package: string, test: Item)
    ensures test in OfPackage(items, package) <==> test in items && test.package == package
  {
    if |items| > 0 {
      var front, last := items[..|items| - 1], items[|items| - 1];
      InPackage(front, package, test);
      assert items == front + [last];
    }
  }

  /** The tests registered for a package at a module path, in the order of their registration. */
  function AtPath(items: seq<Item>, package: string, path: Path): seq<Item> {
    if |items| == 0 then []
    else
      var last := items[|items| - 1];
      AtPath(items[..|items| - 1], package, path) + if last.package == package && last.path == path then [last] else []
  }

  lemma {:induction false} AtPathNext(items: seq<Item>, test: Item, package: string, path: Path)
    ensures AtPath(items + [test], package, path)
         == AtPath(items, package, path) + if test.package == package && test.path == path then [test] else []
  {
    assert (items + [test])[..|items|] == items;
  }

  lemma {:induction false} NothingInNew(name: string, path: Path)
    ensures |TestsAt(NewModule(name), path)| == 0
    decreases |path|
  {
    if |path| > 0 { NothingInNew(path[0], path[1..]); }
  }

  predicate PathHolds(crates: map<string, Module>, added: seq<Item>, c: string, path: Path) {
    if c in crates then TestsAt(crates[c], path) == AtPath(added, c, path) else |AtPath(added, c, path)| == 0
  }

  predicate CrateHolds(crates: map<string, Module>, added: seq<Item>, c: string) {
    if c in crates then CrateOk(crates[c]) && Tests(crates[c]) == multiset(OfPackage(added, c)) else |OfPackage(added, c)| == 0
  }

  function RootFor(crates: map<string, Module>, package: string): Module {
    if package in crates then crates[package] else NewModule(package)
  }

  lemma {:induction false} RootForHolds(crates: map<string, Module>, added: seq<Item>, package: string)
    requires CrateHolds(crates, added, package)
    ensures CrateOk(RootFor(crates, package)) && Tests(RootFor(crates, package)) == multiset(OfPackage(added, package))
  {
    NewModuleIsEmpty(package);
  }

  ghost predicate AllHold(crates: map<string, Module>, added: seq<Item>) {
    (forall c: string :: CrateHolds(crates, added, c)) && (forall c: string, path: Path :: PathHolds(crates, added, c, path))
  }

  lemma {:induction false} AddPathHolds(crates: map<string, Module>, added: seq<Item>, test: Item, c: string,
                                        path: Path)
    requires CrateHolds(crates, added, test.package) && PathHolds(crates, added, c, path)
    ensures PathHolds(crates[test.package := Insert(RootFor(crates, test.package), test.path, test)], added + [test], c, path)
  {
    AtPathNext(added, test, c, path);
    if c == test.package {
      RootForHolds(crates, added, c);
      InsertAtPath(RootFor(crates, c), test.path, test, path);
      NothingInNew(c, path);
    }
  }

  lemma {:induction false} AddToCrate(root: Module, added: seq<Item>, test: Item)
    requires |test.path| > 0 && CrateOk(root) && Tests(root) == multiset(OfPackage(added, test.package))
    ensures var root' := Insert(root, test.path, test);
            CrateOk(root') && Tests(root') == multiset(OfPackage(added + [test], test.package))
  {
    OfPackageNext(added, test, test.package);
    AddKeepsCrate(root, test.path, test);
  }

  lemma {:induction false} AddHolds(crates: map<string, Module>, added: seq<Item>, test: Item)
    requires |test.path| > 0 && AllHold(crates, added)
    ensures AllHold(crates[test.package := Insert(RootFor(crates, test.package), test.path, test)], added + [test])
  {
    hide PathHolds, Insert, RootFor, CrateOk, Tests, OfPackage;
    assert CrateHolds(crates, added, test.package);
    RootForHolds(crates, added, test.package);
    AddToCrate(RootFor(crates, test.package), added, test);
    var crates', added' := crates[test.package := Insert(RootFor(crates, test.package), test.path, test)], added + [test];
    forall c: string ensures CrateHolds(crates', added', c) {
      assert CrateHolds(crates, added, c);
      OfPackageNext(added, test, c);
    }
    forall c: string, path: Path ensures PathHolds(crates', added', c, path) {
      assert PathHolds(crates, added, c, path);
      AddPathHolds(crates, added, test, c, path);
    }
  }

  /** No test of a package fails: every selected one passes. */
  lemma {:induction false} PackagePasses(added: seq<Item>, package: string, sel: Selection)
    ensures Number(OfPackage(added, package), sel, Failing) == 0 <==>
            forall t :: t in added && t.package == package && (sel.all || Listed(sel.listed, t.path + [t.name])) ==> sel.passes(t)
  {
    hide Number, OfPackage, Listed;
    NumberZeroIff(OfPackage(added, package), sel, Failing);
    forall t ensures t in OfPackage(added, package) <==> t in added && t.package == package { InPackage(added, package, t); }
  }

  class KtestTree {
    var nrTotTests: nat
    var crates: map<string, Module>
    ghost var added: seq<Item>

    /** Each crate holds exactly the tests registered for its package, each at its own path. */
    ghost predicate Valid()
      reads this
    {
      nrTotTests == |added| && AllHold(crates, added)
    }

    constructor ()
      ensures Valid() && added == []
    {
      nrTotTests, crates, added := 0, map[], [];
    }

    /** Registers a test. Splitting its module path at the double colons gives at least one name. */
    method AddKtest(test: Item)
      requires Valid() && |test.path| > 0
      modifies this
      ensures Valid() && added == old(added) + [test]
      ensures test.package in crates && test in TestsAt(crates[test.package], test.path)
    {
      var package := test.package;
      AddHolds(crates, added, test);
      nrTotTests := nrTotTests + 1;
      var root := RootFor(crates, package);
      crates := crates[package := Insert(root, test.path, test)];
      added := added + [test];
      AtPathNext(old(added), test, package, test.path);
      assert PathHolds(crates, added, package, test.path);
    }

    /** Runs the tests of one crate. The source's assertion, that passed, failed and filtered tests
        add up to the crate's counter, holds, and each counts the tests registered for the package
        that end in this way. */
    method RunPackage(package: string, whitelist: Option<Trie>, passes: Item -> bool, ghost sel: Selection)
      returns (passed: nat, failed: nat, filtered: nat)
      requires Valid() && package in crates && Admits(whitelist, sel) && sel.passes == passes
      ensures passed + failed + filtered == crates[package].nrTotTests
      ensures Counted(OfPackage(added, package), sel, passed, failed, filtered)
      ensures var tests := OfPackage(added, package);
              && (filtered == 0 <==> forall t :: t in tests ==> sel.all || Listed(sel.listed, t.path + [t.name]))
              && (failed == 0 <==> forall t :: t in tests && (sel.all || Listed(sel.listed, t.path + [t.name])) ==> passes(t))
              && (passed == 0 <==> forall t :: t in tests && (sel.all || Listed(sel.listed, t.path + [t.name])) ==> !passes(t))
    {
      assert CrateHolds(crates, added, package);
      var root := crates[package];
      passed, failed, filtered := RunCrate(root, whitelist, passes, sel);
      CrateCounterIsExact(root);
      assert passed + failed + filtered == root.nrTotTests;
      PreorderTests(root.children);
      CountedPermutation(Flat(Preorder(root.children)), OfPackage(added, package), sel, passed, failed, filtered);
      ZeroCounts(OfPackage(added, package), sel, passed, failed, filtered);
    }

    /** No test of the crates that are not skipped fails: every selected one passes. */
    lemma {:induction false} AllPass(crateSet: Option<set<string>>, sel: Selection)
      requires Valid()
      ensures (forall c :: c in crates && (crateSet.Some? ==> c in crateSet.value) ==>
                 Number(OfPackage(added, c), sel, Failing) == 0) <==>
              (forall t ::
                 (&& t in added && (crateSet.Some? ==> t.package in crateSet.value)
                  && (sel.all || Listed(sel.listed, t.path + [t.name]))) ==> sel.passes(t))
    {
      hide Number, OfPackage, Listed, CrateOk, Tests, PathHolds;
      forall c
        ensures Number(OfPackage(added, c), sel, Failing) == 0 <==>
                forall t :: t in added && t.package == c && (sel.all || Listed(sel.listed, t.path + [t.name])) ==> sel.passes(t)
      {
        PackagePasses(added, c, sel);
      }
      forall t | t in added ensures t.package in crates {
        assert CrateHolds(crates, added, t.package);
        InPackage(added, t.package, t);
      }
    }

    /** Runs the crates that are not skipped, one after the other, until one fails: it reports
        success exactly when no selected test of these crates fails. */
    method RunKtests(paths: Option<seq<Path>>, crateSet: Option<set<string>>, passes: Item -> bool) returns (ok: bool)
      requires Valid()
      ensures var sel := Selection(paths.None?, if paths.Some? then paths.value else [], passes);
              ok <==> forall c :: c in crates && (crateSet.Some? ==> c in crateSet.value) ==>
                        Number(OfPackage(added, c), sel, Failing) == 0
      ensures ok <==> forall t ::
                        (&& t in added && (crateSet.Some? ==> t.package in crateSet.value)
                         && (paths.Some? ==> Listed(paths.value, t.path + [t.name]))) ==> passes(t)
    {
      ghost var sel := Selection(paths.None?, if paths.Some? then paths.value else [], passes);
      var whitelist := None;
      if paths.Some? {
        var trie := FromPaths(paths.value);
        whitelist := Some(trie);
      }
      AllPass(crateSet, sel);
      var left := crates.Keys;
      while |left| > 0
        invariant left <= crates.Keys
        invariant forall c :: c in crates && c !in left && (crateSet.Some? ==> c in crateSet.value) ==>
                    Number(OfPackage(added, c), sel, Failing) == 0
        decreases |left|
      {
        var c :| c in left;
        left := left - {c};
        if crateSet.Some? && c !in crateSet.value { continue; }
        var passed, failed, filtered := RunPackage(c, whitelist, passes, sel);
        if failed > 0 { return false; }
      }
      ok := true;
    }
  }
}
