/**
 * The memory offset allocator of the memory escalator: a depth-first walk over the call graph,
 * memoised per function, that gives the variables a function cannot keep on the stack
 * consecutive memory slots above the slots its callees need.
 *
 * The walk is specified by three mutually recursive functions that thread the allocator's two
 * maps (`RunSpec`, `Alloc`, `AllocChildren`); the class at the end is proved to compute them.
 * A `None` result is the stack-too-deep exception thrown for a function on a call cycle.
 */
module MemoryOffsetAllocator {
  import opened Wrappers
  import opened Yul
  import opened NameDispenser

  /** Each function's callees, as its set of callees is iterated; `""` is the top-level code. */
  type CallGraph = map<Name, seq<Name>>
  /** For each function, the variables that cannot be reached on the stack, as the set is iterated. */
  type StackErrorInfo = map<Name, seq<Name>>

  /** What the allocator is constructed with. */
  datatype Inputs = Inputs(functionStackErrorInfo: StackErrorInfo, functionsInCycle: set<Name>, callGraph: CallGraph)

  /** The allocator's state: `m_slotAllocations` and `m_nextAvailableSlot`. */
  datatype State = State(slotAllocations: map<Name, map<Name, nat>>, nextAvailableSlot: map<Name, nat>)

  function Callees(g: CallGraph, f: Name): seq<Name>
  {
    if f in g then g[f] else []
  }

  /** A call stack: each function on it calls the next one. */
  ghost predicate CallPath(g: CallGraph, w: seq<Name>)
  {
    forall i :: 0 <= i < |w| - 1 ==> w[i + 1] in Callees(g, w[i])
  }

  /** The functions the walk can reach: the root, the callers, and every callee. */
  ghost function Nodes(g: CallGraph): set<Name>
  {
    {""} + g.Keys + (set f, c | f in g && c in g[f] :: c)
  }

  lemma CalleesAreNodes(g: CallGraph, f: Name)
    ensures forall c :: c in Callees(g, f) ==> c in Nodes(g)
  {
  }

  /** The functions not yet entered: the measure that makes the walk terminate on a cyclic graph. */
  ghost function Unvisited(inp: Inputs, st: State): nat
  {
    |Nodes(inp.callGraph) - st.nextAvailableSlot.Keys|
  }

  lemma UnvisitedShrinks(inp: Inputs, st: State, f: Name)
    requires f in Nodes(inp.callGraph) && f !in st.nextAvailableSlot
    ensures Unvisited(inp, st.(nextAvailableSlot := st.nextAvailableSlot[f := 0])) < Unvisited(inp, st)
  {
    KeysOfUpdate(st.nextAvailableSlot, f, 0);
    DifferenceShrinks(Nodes(inp.callGraph), st.nextAvailableSlot.Keys, st.nextAvailableSlot[f := 0].Keys, f);
  }

  lemma KeysOfUpdate(m: map<Name, nat>, f: Name, v: nat)
    ensures m[f := v].Keys == m.Keys + {f}
  {
  }

  lemma DifferenceShrinks(u: set<Name>, k: set<Name>, k': set<Name>, f: Name)
    requires f in u && f !in k && k' == k + {f}
    ensures |u - k'| < |u - k|
  {
    assert u - k == (u - k') + {f};
  }

  lemma UnvisitedMonotone(inp: Inputs, st: State, st': State)
    requires st.nextAvailableSlot.Keys <= st'.nextAvailableSlot.Keys
    ensures Unvisited(inp, st') <= Unvisited(inp, st)
  {
    SubsetCardinality(Nodes(inp.callGraph) - st'.nextAvailableSlot.Keys, Nodes(inp.callGraph) - st.nextAvailableSlot.Keys);
  }

  function Max(a: nat, b: nat): (m: nat)
    ensures m >= a && m >= b && (m == a || m == b)
  {
    if a < b then b else a
  }

  /** The variables that get a slot: all but those with an empty name, in order. */
  function Named(vars: seq<Name>): (r: seq<Name>)
    ensures |r| <= |vars|
    ensures forall x :: x in r <==> x in vars && x != ""
    decreases |vars|
  {
    if vars == [] then []
    else
      var n := |vars| - 1;
      assert forall x :: x in vars <==> x in vars[..n] || x == vars[n] by {
        assert vars == vars[..n] + [vars[n]];
      }
      Named(vars[..n]) + (if vars[n] == "" then [] else [vars[n]])
  }

  /**
   * The slot loop: starting at `next`, every variable with a name gets the next slot; the
   * second component is the next slot afterwards.
   */
  function AssignSlots(vars: seq<Name>, next: nat): (r: (map<Name, nat>, nat))
    ensures r.1 == next + |Named(vars)|
    ensures r.0.Keys == Elements(Named(vars))
    ensures forall x :: x in r.0 ==> next <= r.0[x] < r.1
    ensures forall x, y :: x in r.0 && y in r.0 && x != y ==> r.0[x] != r.0[y]
    decreases |vars|
  {
    if vars == [] then (map[], next)
    else
      var n := |vars| - 1;
      var (slots, k) := AssignSlots(vars[..n], next);
      if vars[n] == "" then (slots, k) else (slots[vars[n] := k], k + 1)
  }

  /** With distinct variables, the i-th variable with a name gets slot `next + i`. */
  lemma {:induction false} AssignSlotsConsecutive(vars: seq<Name>, next: nat)
    requires Distinct(vars)
    ensures forall i :: 0 <= i < |Named(vars)| ==> AssignSlots(vars, next).0[Named(vars)[i]] == next + i
    decreases |vars|
  {
    if vars != [] {
      var n := |vars| - 1;
      DistinctPrefix(vars);
      AssignSlotsConsecutive(vars[..n], next);
      var named := Named(vars[..n]);
      var (slots, k) := AssignSlots(vars[..n], next);
      if vars[n] != "" {
        LastNotNamedBefore(vars);
        assert Named(vars) == named + [vars[n]];
        assert AssignSlots(vars, next).0 == slots[vars[n] := k];
        forall i | 0 <= i < |Named(vars)|
          ensures AssignSlots(vars, next).0[Named(vars)[i]] == next + i
        {
          if i < |named| {
            assert Named(vars)[i] == named[i] && named[i] in named;
          }
        }
      } else {
        assert Named(vars) == named;
      }
    }
  }

  lemma DistinctPrefix(vars: seq<Name>)
    requires vars != [] && Distinct(vars)
    ensures Distinct(vars[..|vars| - 1])
  {
    assert forall a :: 0 <= a < |vars| - 1 ==> vars[..|vars| - 1][a] == vars[a];
  }

  /** With distinct variables, the last one is not among the earlier variables with a name. */
  lemma LastNotNamedBefore(vars: seq<Name>)
    requires vars != [] && Distinct(vars)
    ensures vars[|vars| - 1] !in Named(vars[..|vars| - 1])
  {
    var n := |vars| - 1;
    forall a | 0 <= a < n
      ensures vars[..n][a] != vars[n]
    {
      assert vars[..n][a] == vars[a];
    }
  }

  // ----- the walk -----

  /** Every function with slots has also been entered. */
  predicate Consistent(st: State)
  {
    st.slotAllocations.Keys <= st.nextAvailableSlot.Keys
  }

  /**
   * `st'` is `st` with more functions entered: nothing stored is changed, and only functions
   * entered since `st` can have received slots.
   */
  predicate Extends(st: State, st': State)
  {
    && st.nextAvailableSlot.Keys <= st'.nextAvailableSlot.Keys
    && (forall k :: k in st.nextAvailableSlot ==> st'.nextAvailableSlot[k] == st.nextAvailableSlot[k])
    && (forall k :: k in st.slotAllocations ==> k in st'.slotAllocations && st'.slotAllocations[k] == st.slotAllocations[k])
    && st'.slotAllocations.Keys <= st.slotAllocations.Keys + (st'.nextAvailableSlot.Keys - st.nextAvailableSlot.Keys)
  }

  lemma ExtendsTrans(a: State, b: State, c: State)
    requires Extends(a, b) && Extends(b, c)
    ensures Extends(a, c)
  {
  }

  /** `st'` is `st` with only the value of `f` changed and perhaps slots given to `f`. */
  predicate Updates(st: State, st': State, f: Name)
  {
    && st'.nextAvailableSlot.Keys == st.nextAvailableSlot.Keys
    && (forall k :: k in st.nextAvailableSlot && k != f ==> st'.nextAvailableSlot[k] == st.nextAvailableSlot[k])
    && (forall k :: k in st.slotAllocations ==> k in st'.slotAllocations && st'.slotAllocations[k] == st.slotAllocations[k])
    && st'.slotAllocations.Keys <= st.slotAllocations.Keys + {f}
  }

  lemma ExtendsUpdates(a: State, b: State, c: State, f: Name)
    requires f !in a.nextAvailableSlot && f in b.nextAvailableSlot
    requires Extends(a, b) && Updates(b, c, f)
    ensures Extends(a, c)
  {
  }

  lemma ExtendsConsistent(st: State, st': State)
    requires Consistent(st) && Extends(st, st')
    ensures Consistent(st')
  {
  }

  /** `run(f)`: the stored value when `f` was entered before, otherwise the allocation of `f`. */
  function RunSpec(inp: Inputs, f: Name, st: State): (r: (Option<nat>, State))
    requires f in Nodes(inp.callGraph) && Consistent(st)
    ensures Extends(st, r.1)
    ensures r.0.Some? ==> f in r.1.nextAvailableSlot && r.1.nextAvailableSlot[f] == r.0.value
    decreases Unvisited(inp, st), 1, 0
  {
    if f in st.nextAvailableSlot then (Some(st.nextAvailableSlot[f]), st) else Alloc(inp, f, st)
  }

  /** The state with the placeholder 0 stored for `f`. */
  function Enter(f: Name, st: State): (st1: State)
    requires Consistent(st) && f !in st.nextAvailableSlot
    ensures Consistent(st1) && Extends(st, st1)
    ensures f in st1.nextAvailableSlot && f !in st1.slotAllocations
  {
    st.(nextAvailableSlot := st.nextAvailableSlot[f := 0])
  }

  /**
   * The allocation of a function entered for the first time: a placeholder 0 guards against
   * recursive calls, the callees are walked in order, then the function's variables get the
   * slots from the callees' maximum up, unless it lies on a cycle.
   */
  function Alloc(inp: Inputs, f: Name, st: State): (r: (Option<nat>, State))
    requires f in Nodes(inp.callGraph) && f !in st.nextAvailableSlot && Consistent(st)
    ensures Extends(st, r.1) && f in r.1.nextAvailableSlot
    ensures r.0.Some? ==> r.1.nextAvailableSlot[f] == r.0.value
    decreases Unvisited(inp, st), 0, 0
  {
    var st1 := Enter(f, st);
    UnvisitedShrinks(inp, st, f);
    CalleesAreNodes(inp.callGraph, f);
    var r2 := AllocChildren(inp, Callees(inp.callGraph, f), 0, st1);
    ExtendsTrans(st, st1, r2.1);
    if r2.0.None? then r2
    else
      assert f !in r2.1.slotAllocations;
      var r := Finish(inp, f, r2.0.value, r2.1);
      ExtendsUpdates(st, r2.1, r.1, f);
      r
  }

  /** After the callees: the function's own slots from `next` up, and its value stored. */
  function Finish(inp: Inputs, f: Name, next: nat, st: State): (r: (Option<nat>, State))
    requires f in st.nextAvailableSlot && f !in st.slotAllocations
    ensures Updates(st, r.1, f)
    ensures r.0.Some? ==> r.1.nextAvailableSlot[f] == r.0.value
  {
    if f in inp.functionStackErrorInfo then
      if f in inp.functionsInCycle then (None, st)
      else
        var (slots, n) := AssignSlots(inp.functionStackErrorInfo[f], next);
        (Some(n), State(st.slotAllocations[f := slots], st.nextAvailableSlot[f := n]))
    else (Some(next), st.(nextAvailableSlot := st.nextAvailableSlot[f := next]))
  }

  /** The loop over the callees: the maximum of `acc` and every callee's value. */
  function AllocChildren(inp: Inputs, cs: seq<Name>, acc: nat, st: State): (r: (Option<nat>, State))
    requires forall c :: c in cs ==> c in Nodes(inp.callGraph)
    requires Consistent(st)
    ensures Extends(st, r.1)
    decreases Unvisited(inp, st), 2, |cs|
  {
    if cs == [] then (Some(acc), st)
    else
      var (res, st') := RunSpec(inp, cs[0], st);
      if res.None? then (None, st')
      else
        UnvisitedMonotone(inp, st, st');
        ExtendsConsistent(st, st');
        var r := AllocChildren(inp, cs[1..], Max(res.value, acc), st');
        ExtendsTrans(st, st', r.1);
        r
  }

  /** The state `run()` starts from. */
  function Initial(): State
  {
    State(map[], map[])
  }

  // ----- what the walk guarantees -----

  /** A function's value is stored: asking for it again returns the same value and changes nothing. */
  lemma RunTwice(inp: Inputs, f: Name, st: State)
    requires f in Nodes(inp.callGraph) && Consistent(st) && RunSpec(inp, f, st).0.Some?
    ensures RunSpec(inp, f, RunSpec(inp, f, st).1) == (RunSpec(inp, f, st).0, RunSpec(inp, f, st).1)
  {
  }

  /**
   * The allocation invariant: every function with slots has stack error info and is not on a
   * cycle, and its variables with a name occupy the consecutive slots just below its value.
   */
  ghost predicate Good(inp: Inputs, st: State)
  {
    && Consistent(st)
    && forall f :: f in st.slotAllocations ==> GoodEntry(inp, f, st.slotAllocations[f], st.nextAvailableSlot[f])
  }

  /** The slots of `f` are its variables' consecutive slots just below `next`. */
  ghost predicate GoodEntry(inp: Inputs, f: Name, slots: map<Name, nat>, next: nat)
  {
    && f in inp.functionStackErrorInfo && f !in inp.functionsInCycle
    && next >= |Named(inp.functionStackErrorInfo[f])|
    && slots == AssignSlots(inp.functionStackErrorInfo[f], next - |Named(inp.functionStackErrorInfo[f])|).0
  }

  lemma {:induction false} RunSpecGood(inp: Inputs, f: Name, st: State)
    requires f in Nodes(inp.callGraph) && Good(inp, st)
    ensures Good(inp, RunSpec(inp, f, st).1)
    decreases Unvisited(inp, st), 1, 0
  {
    if f !in st.nextAvailableSlot {
      AllocGood(inp, f, st);
    }
  }

  lemma {:induction false} AllocGood(inp: Inputs, f: Name, st: State)
    requires f in Nodes(inp.callGraph) && f !in st.nextAvailableSlot && Good(inp, st)
    ensures Good(inp, Alloc(inp, f, st).1)
    decreases Unvisited(inp, st), 0, 0
  {
    var st1 := Enter(f, st);
    EnterGood(inp, f, st);
    UnvisitedShrinks(inp, st, f);
    CalleesAreNodes(inp.callGraph, f);
    AllocChildrenGood(inp, Callees(inp.callGraph, f), 0, st1);
    var r2 := AllocChildren(inp, Callees(inp.callGraph, f), 0, st1);
    if r2.0.Some? {
      assert f !in r2.1.slotAllocations;
      FinishGood(inp, f, r2.0.value, r2.1);
    }
  }

  lemma EnterGood(inp: Inputs, f: Name, st: State)
    requires f !in st.nextAvailableSlot && Good(inp, st)
    ensures Good(inp, Enter(f, st))
  {
    var st1 := Enter(f, st);
    forall g | g in st1.slotAllocations
      ensures st1.nextAvailableSlot[g] == st.nextAvailableSlot[g]
    {
    }
  }

  lemma FinishGood(inp: Inputs, f: Name, next: nat, st: State)
    requires f in st.nextAvailableSlot && f !in st.slotAllocations && Good(inp, st)
    ensures Good(inp, Finish(inp, f, next, st).1)
  {
    if f in inp.functionStackErrorInfo && f !in inp.functionsInCycle {
      var vars := inp.functionStackErrorInfo[f];
      var a := AssignSlots(vars, next);
      assert a.1 - |Named(vars)| == next;
      assert GoodEntry(inp, f, a.0, a.1);
      GoodInsert(inp, st, f, a.0, a.1);
    } else if f !in inp.functionStackErrorInfo {
      GoodStore(inp, st, f, next);
    }
  }

  /** Storing a value for a function without slots keeps the invariant. */
  lemma GoodStore(inp: Inputs, st: State, f: Name, n: nat)
    requires f in st.nextAvailableSlot && f !in st.slotAllocations && Good(inp, st)
    ensures Good(inp, st.(nextAvailableSlot := st.nextAvailableSlot[f := n]))
  {
    var st' := st.(nextAvailableSlot := st.nextAvailableSlot[f := n]);
    forall g | g in st'.slotAllocations
      ensures st'.nextAvailableSlot[g] == st.nextAvailableSlot[g]
    {
    }
  }

  /** Giving `f` slots that satisfy its entry keeps the invariant. */
  lemma GoodInsert(inp: Inputs, st: State, f: Name, slots: map<Name, nat>, n: nat)
    requires f in st.nextAvailableSlot && f !in st.slotAllocations && Good(inp, st)
    requires GoodEntry(inp, f, slots, n)
    ensures Good(inp, State(st.slotAllocations[f := slots], st.nextAvailableSlot[f := n]))
  {
    var st' := State(st.slotAllocations[f := slots], st.nextAvailableSlot[f := n]);
    forall g | g in st'.slotAllocations
      ensures GoodEntry(inp, g, st'.slotAllocations[g], st'.nextAvailableSlot[g])
    {
      if g != f {
        assert st'.slotAllocations[g] == st.slotAllocations[g];
        assert st'.nextAvailableSlot[g] == st.nextAvailableSlot[g];
      }
    }
  }

  lemma {:induction false} AllocChildrenGood(inp: Inputs, cs: seq<Name>, acc: nat, st: State)
    requires forall c :: c in cs ==> c in Nodes(inp.callGraph)
    requires Good(inp, st)
    ensures Good(inp, AllocChildren(inp, cs, acc, st).1)
    decreases Unvisited(inp, st), 2, |cs|
  {
    if cs != [] {
      RunSpecGood(inp, cs[0], st);
      var (res, st') := RunSpec(inp, cs[0], st);
      if res.Some? {
        UnvisitedMonotone(inp, st, st');
        AllocChildrenGood(inp, cs[1..], Max(res.value, acc), st');
      }
    }
  }

  /** The allocator throws for `f`: it has stack error info and lies on a cycle. */
  predicate Throws(inp: Inputs, f: Name)
  {
    f in inp.functionStackErrorInfo && f in inp.functionsInCycle
  }

  /** Some call path from `f` ends in a function for which the allocator throws. */
  ghost predicate ReachesThrow(inp: Inputs, f: Name)
  {
    exists w :: CallPath(inp.callGraph, w) && w != [] && w[0] == f && Throws(inp, w[|w| - 1])
  }

  /** A call path from a callee of `f`, with `f` in front, is a call path from `f`. */
  lemma ReachesThrowFromCallee(inp: Inputs, f: Name, c: Name)
    requires c in Callees(inp.callGraph, f) && ReachesThrow(inp, c)
    ensures ReachesThrow(inp, f)
  {
    var w :| CallPath(inp.callGraph, w) && w != [] && w[0] == c && Throws(inp, w[|w| - 1]);
    var w' := [f] + w;
    assert w'[1] == c && w'[|w'| - 1] == w[|w| - 1];
    assert forall i :: 1 <= i < |w'| - 1 ==> w'[i] == w[i - 1] && w'[i + 1] == w[i];
    assert CallPath(inp.callGraph, w');
  }

  /** The walk throws only when a call path from `f` reaches a function with stack error info on a cycle. */
  lemma {:induction false} RunSpecAborts(inp: Inputs, f: Name, st: State)
    requires f in Nodes(inp.callGraph) && Consistent(st)
    ensures RunSpec(inp, f, st).0.None? ==> ReachesThrow(inp, f)
    decreases Unvisited(inp, st), 1, 0
  {
    if f !in st.nextAvailableSlot {
      AllocAborts(inp, f, st);
    }
  }

  lemma {:induction false} AllocAborts(inp: Inputs, f: Name, st: State)
    requires f in Nodes(inp.callGraph) && f !in st.nextAvailableSlot && Consistent(st)
    ensures Alloc(inp, f, st).0.None? ==> ReachesThrow(inp, f)
    decreases Unvisited(inp, st), 0, 0
  {
    var st1 := Enter(f, st);
    var cs := Callees(inp.callGraph, f);
    UnvisitedShrinks(inp, st, f);
    CalleesAreNodes(inp.callGraph, f);
    AllocChildrenAborts(inp, cs, 0, st1);
    var r2 := AllocChildren(inp, cs, 0, st1);
    AllocAfterChildren(inp, f, st, r2);
    FinishAborts(inp, f, cs, r2);
  }

  /** How a first visit of `f` can throw: in the callee loop, or for `f` itself. */
  lemma FinishAborts(inp: Inputs, f: Name, cs: seq<Name>, r2: (Option<nat>, State))
    requires cs == Callees(inp.callGraph, f)
    requires r2.0.None? ==> exists c :: c in cs && ReachesThrow(inp, c)
    requires r2.0.Some? ==> f in r2.1.nextAvailableSlot && f !in r2.1.slotAllocations
    ensures (if r2.0.None? then r2 else Finish(inp, f, r2.0.value, r2.1)).0.None? ==> ReachesThrow(inp, f)
  {
    if r2.0.None? {
      var c :| c in cs && ReachesThrow(inp, c);
      ReachesThrowFromCallee(inp, f, c);
    } else if Finish(inp, f, r2.0.value, r2.1).0.None? {
      assert CallPath(inp.callGraph, [f]);
    }
  }

  lemma {:induction false} AllocChildrenAborts(inp: Inputs, cs: seq<Name>, acc: nat, st: State)
    requires forall c :: c in cs ==> c in Nodes(inp.callGraph)
    requires Consistent(st)
    ensures AllocChildren(inp, cs, acc, st).0.None? ==> exists c :: c in cs && ReachesThrow(inp, c)
    decreases Unvisited(inp, st), 2, |cs|
  {
    if cs != [] {
      RunSpecAborts(inp, cs[0], st);
      var (res, st') := RunSpec(inp, cs[0], st);
      if res.Some? {
        UnvisitedMonotone(inp, st, st');
        ExtendsConsistent(st, st');
        AllocChildrenAborts(inp, cs[1..], Max(res.value, acc), st');
        if AllocChildren(inp, cs[1..], Max(res.value, acc), st').0.None? {
          var c :| c in cs[1..] && ReachesThrow(inp, c);
          assert c in cs;
        }
      } else {
        assert cs[0] in cs;
      }
    }
  }

  /** The converse for a first visit: a function with stack error info on a cycle throws. */
  lemma AllocThrowsOnCycle(inp: Inputs, f: Name, st: State)
    requires f in Nodes(inp.callGraph) && f !in st.nextAvailableSlot && Consistent(st)
    requires Throws(inp, f)
    ensures Alloc(inp, f, st).0.None?
  {
    AllocAfterChildren(inp, f, st, AllocChildren(inp, Callees(inp.callGraph, f), 0, Enter(f, st)));
  }

  /**
   * What a successful walk leaves behind for every function it entered: the function does not
   * throw, all its callees are entered, its value is at most the result, and it has slots
   * exactly when it has stack error info.
   */
  ghost predicate Closed(inp: Inputs, before: State, after: State, result: nat)
  {
    forall k :: k in after.nextAvailableSlot && k !in before.nextAvailableSlot ==>
      && !Throws(inp, k)
      && (forall c :: c in Callees(inp.callGraph, k) ==> c in after.nextAvailableSlot)
      && after.nextAvailableSlot[k] <= result
      && (k in after.slotAllocations <==> k in inp.functionStackErrorInfo)
  }

  lemma {:induction false} RunSpecCloses(inp: Inputs, f: Name, st: State)
    requires f in Nodes(inp.callGraph) && Consistent(st) && RunSpec(inp, f, st).0.Some?
    ensures Closed(inp, st, RunSpec(inp, f, st).1, RunSpec(inp, f, st).0.value)
    decreases Unvisited(inp, st), 1, 0
  {
    if f !in st.nextAvailableSlot {
      AllocCloses(inp, f, st);
    }
  }

  lemma {:induction false} AllocCloses(inp: Inputs, f: Name, st: State)
    requires f in Nodes(inp.callGraph) && f !in st.nextAvailableSlot && Consistent(st)
    requires Alloc(inp, f, st).0.Some?
    ensures Closed(inp, st, Alloc(inp, f, st).1, Alloc(inp, f, st).0.value)
    decreases Unvisited(inp, st), 0, 0
  {
    var st1 := Enter(f, st);
    var cs := Callees(inp.callGraph, f);
    UnvisitedShrinks(inp, st, f);
    CalleesAreNodes(inp.callGraph, f);
    var r2 := AllocChildren(inp, cs, 0, st1);
    AllocAfterChildren(inp, f, st, r2);
    var r := Finish(inp, f, r2.0.value, r2.1);
    assert Alloc(inp, f, st) == r;
    assert Closed(inp, st, r.1, r.0.value) by {
      KeysOfUpdate(st.nextAvailableSlot, f, 0);
      AllocChildrenCloses(inp, cs, 0, st1);
      ChildrenBound(inp, cs, 0, st1);
      FinishCloses(inp, f, st, st1, r2.1, r2.0.value);
    }
  }

  /** Finishing `f` after its callees closes `f` and keeps every other entered function closed. */
  lemma FinishCloses(inp: Inputs, f: Name, st: State, st1: State, st2: State, next: nat)
    requires st1.nextAvailableSlot.Keys == st.nextAvailableSlot.Keys + {f} && f !in st.nextAvailableSlot
    requires f in st2.nextAvailableSlot && f !in st2.slotAllocations
    requires Finish(inp, f, next, st2).0.Some?
    requires Closed(inp, st1, st2, next)
    requires forall c :: c in Callees(inp.callGraph, f) ==> c in st2.nextAvailableSlot
    ensures Closed(inp, st, Finish(inp, f, next, st2).1, Finish(inp, f, next, st2).0.value)
  {
    FinishBound(inp, f, next, st2);
  }

  /** Two successive successful walks: what each entered is closed after both. */
  lemma ClosedTrans(inp: Inputs, a: State, b: State, c: State, rb: nat, rc: nat)
    requires Closed(inp, a, b, rb) && Closed(inp, b, c, rc) && Extends(b, c) && rb <= rc
    requires a.nextAvailableSlot.Keys <= b.nextAvailableSlot.Keys
    ensures Closed(inp, a, c, rc)
  {
  }

  lemma {:induction false} AllocChildrenCloses(inp: Inputs, cs: seq<Name>, acc: nat, st: State)
    requires forall c :: c in cs ==> c in Nodes(inp.callGraph)
    requires Consistent(st) && AllocChildren(inp, cs, acc, st).0.Some?
    ensures Closed(inp, st, AllocChildren(inp, cs, acc, st).1, AllocChildren(inp, cs, acc, st).0.value)
    decreases Unvisited(inp, st), 2, |cs|
  {
    if cs != [] {
      var (res, st') := RunSpec(inp, cs[0], st);
      RunSpecCloses(inp, cs[0], st);
      UnvisitedMonotone(inp, st, st');
      ExtendsConsistent(st, st');
      var m := Max(res.value, acc);
      var (r, st'') := AllocChildren(inp, cs[1..], m, st');
      assert (r, st'') == AllocChildren(inp, cs, acc, st);
      AllocChildrenCloses(inp, cs[1..], m, st');
      ChildrenBound(inp, cs[1..], m, st');
      ClosedTrans(inp, st, st', st'', res.value, r.value);
    }
  }

  /** Some call path leads from `f` to `k`. */
  ghost predicate Reaches(g: CallGraph, f: Name, k: Name)
  {
    exists w :: CallPath(g, w) && w != [] && w[0] == f && w[|w| - 1] == k
  }

  lemma ReachesFromCallee(g: CallGraph, f: Name, c: Name, k: Name)
    requires c in Callees(g, f) && Reaches(g, c, k)
    ensures Reaches(g, f, k)
  {
    var w :| CallPath(g, w) && w != [] && w[0] == c && w[|w| - 1] == k;
    var w' := [f] + w;
    assert w'[1] == c && w'[|w'| - 1] == k;
    assert forall i :: 1 <= i < |w'| - 1 ==> w'[i] == w[i - 1] && w'[i + 1] == w[i];
    assert CallPath(g, w');
  }

  /** The walk from `f` enters only functions that `f` reaches. */
  lemma {:induction false} RunSpecReaches(inp: Inputs, f: Name, st: State)
    requires f in Nodes(inp.callGraph) && Consistent(st)
    ensures forall k :: k in RunSpec(inp, f, st).1.nextAvailableSlot && k !in st.nextAvailableSlot ==>
      Reaches(inp.callGraph, f, k)
    decreases Unvisited(inp, st), 1, 0
  {
    if f !in st.nextAvailableSlot {
      AllocReaches(inp, f, st);
    }
  }

  lemma {:induction false} AllocReaches(inp: Inputs, f: Name, st: State)
    requires f in Nodes(inp.callGraph) && f !in st.nextAvailableSlot && Consistent(st)
    ensures forall k :: k in Alloc(inp, f, st).1.nextAvailableSlot && k !in st.nextAvailableSlot ==>
      Reaches(inp.callGraph, f, k)
    decreases Unvisited(inp, st), 0, 0
  {
    var st1 := Enter(f, st);
    var cs := Callees(inp.callGraph, f);
    UnvisitedShrinks(inp, st, f);
    CalleesAreNodes(inp.callGraph, f);
    KeysOfUpdate(st.nextAvailableSlot, f, 0);
    var r2 := AllocChildren(inp, cs, 0, st1);
    AllocAfterChildren(inp, f, st, r2);
    AllocChildrenReaches(inp, cs, 0, st1);
    FinishReaches(inp, f, st, st1, cs, r2);
  }

  /** What a first visit of `f` enters: `f` and what the callee loop entered. */
  lemma FinishReaches(inp: Inputs, f: Name, st: State, st1: State, cs: seq<Name>, r2: (Option<nat>, State))
    requires cs == Callees(inp.callGraph, f) && st1.nextAvailableSlot.Keys == st.nextAvailableSlot.Keys + {f}
    requires forall k :: k in r2.1.nextAvailableSlot && k !in st1.nextAvailableSlot ==>
      exists c :: c in cs && Reaches(inp.callGraph, c, k)
    requires r2.0.Some? ==> f in r2.1.nextAvailableSlot && f !in r2.1.slotAllocations
    ensures var r := if r2.0.None? then r2 else Finish(inp, f, r2.0.value, r2.1);
      forall k :: k in r.1.nextAvailableSlot && k !in st.nextAvailableSlot ==> Reaches(inp.callGraph, f, k)
  {
    var r := if r2.0.None? then r2 else Finish(inp, f, r2.0.value, r2.1);
    assert r.1.nextAvailableSlot.Keys == r2.1.nextAvailableSlot.Keys;
    forall k | k in r.1.nextAvailableSlot && k !in st.nextAvailableSlot
      ensures Reaches(inp.callGraph, f, k)
    {
      if k == f {
        assert CallPath(inp.callGraph, [f]);
      } else {
        var c :| c in cs && Reaches(inp.callGraph, c, k);
        ReachesFromCallee(inp.callGraph, f, c, k);
      }
    }
  }

  lemma {:induction false} AllocChildrenReaches(inp: Inputs, cs: seq<Name>, acc: nat, st: State)
    requires forall c :: c in cs ==> c in Nodes(inp.callGraph)
    requires Consistent(st)
    ensures forall k :: k in AllocChildren(inp, cs, acc, st).1.nextAvailableSlot && k !in st.nextAvailableSlot ==>
      exists c :: c in cs && Reaches(inp.callGraph, c, k)
    decreases Unvisited(inp, st), 2, |cs|
  {
    if cs != [] {
      RunSpecReaches(inp, cs[0], st);
      var (res, st') := RunSpec(inp, cs[0], st);
      assert cs[0] in cs;
      if res.Some? {
        UnvisitedMonotone(inp, st, st');
        ExtendsConsistent(st, st');
        AllocChildrenReaches(inp, cs[1..], Max(res.value, acc), st');
        forall k | k in AllocChildren(inp, cs, acc, st).1.nextAvailableSlot && k !in st'.nextAvailableSlot
          ensures exists c :: c in cs && Reaches(inp.callGraph, c, k)
        {
          var c :| c in cs[1..] && Reaches(inp.callGraph, c, k);
          assert c in cs;
        }
      }
    }
  }

  /** Every function `f` reaches is entered once a walk from `f` that entered nothing before succeeds. */
  lemma {:induction false} ReachedEntered(inp: Inputs, f: Name, w: seq<Name>, i: nat)
    requires f in Nodes(inp.callGraph) && RunSpec(inp, f, Initial()).0.Some?
    requires CallPath(inp.callGraph, w) && w != [] && w[0] == f && i < |w|
    ensures w[i] in RunSpec(inp, f, Initial()).1.nextAvailableSlot
    decreases i
  {
    if i > 0 {
      ReachedEntered(inp, f, w, i - 1);
      RunSpecCloses(inp, f, Initial());
      assert w[i] in Callees(inp.callGraph, w[i - 1]);
    }
  }

  /**
   * `run()` from the top-level code throws exactly when a call path from it reaches a function
   * with stack error info on a cycle.
   */
  lemma RootThrowsIff(inp: Inputs)
    ensures RunSpec(inp, "", Initial()).0.None? <==> ReachesThrow(inp, "")
  {
    RunSpecAborts(inp, "", Initial());
    if RunSpec(inp, "", Initial()).0.Some? && ReachesThrow(inp, "") {
      var w :| CallPath(inp.callGraph, w) && w != [] && w[0] == "" && Throws(inp, w[|w| - 1]);
      ReachedEntered(inp, "", w, |w| - 1);
      RunSpecCloses(inp, "", Initial());
      assert false;
    }
  }

  /**
   * After a successful `run()`, exactly the functions the top-level code reaches that have
   * stack error info have slots, and every slot lies below the memory `run()` reports.
   */
  lemma RootWalkSlots(inp: Inputs)
    requires RunSpec(inp, "", Initial()).0.Some?
    ensures var (r, st) := RunSpec(inp, "", Initial());
      && (forall k :: k in st.slotAllocations <==> k in inp.functionStackErrorInfo && Reaches(inp.callGraph, "", k))
      && (forall k, x :: k in st.slotAllocations && x in st.slotAllocations[k] ==> st.slotAllocations[k][x] < r.value)
  {
    var (r, st) := RunSpec(inp, "", Initial());
    RunSpecCloses(inp, "", Initial());
    RunSpecReaches(inp, "", Initial());
    RunSpecGood(inp, "", Initial());
    forall k | k in inp.functionStackErrorInfo && Reaches(inp.callGraph, "", k)
      ensures k in st.slotAllocations
    {
      var w :| CallPath(inp.callGraph, w) && w != [] && w[0] == "" && w[|w| - 1] == k;
      ReachedEntered(inp, "", w, |w| - 1);
    }
    forall k, x | k in st.slotAllocations && x in st.slotAllocations[k]
      ensures st.slotAllocations[k][x] < r.value
    {
      assert GoodEntry(inp, k, st.slotAllocations[k], st.nextAvailableSlot[k]);
    }
  }

  /**
   * The walk reads the call graph only through `Callees`: entries without callees (the cycle
   * search inserts some) do not change it.
   */
  lemma {:induction false} RunSpecSameCallees(inp: Inputs, g: CallGraph, f: Name, st: State)
    requires forall h :: Callees(g, h) == Callees(inp.callGraph, h)
    requires f in Nodes(inp.callGraph) && f in Nodes(g) && Consistent(st)
    ensures RunSpec(inp.(callGraph := g), f, st) == RunSpec(inp, f, st)
    decreases Unvisited(inp, st), 1, 0
  {
    if f !in st.nextAvailableSlot {
      AllocSameCallees(inp, g, f, st);
    }
  }

  lemma {:induction false} AllocSameCallees(inp: Inputs, g: CallGraph, f: Name, st: State)
    requires forall h :: Callees(g, h) == Callees(inp.callGraph, h)
    requires f in Nodes(inp.callGraph) && f in Nodes(g) && f !in st.nextAvailableSlot && Consistent(st)
    ensures Alloc(inp.(callGraph := g), f, st) == Alloc(inp, f, st)
    decreases Unvisited(inp, st), 0, 0
  {
    var inp' := inp.(callGraph := g);
    var cs := Callees(inp.callGraph, f);
    assert Callees(g, f) == cs;
    UnvisitedShrinks(inp, st, f);
    CalleesAreNodes(inp.callGraph, f);
    CalleesAreNodes(g, f);
    var r2 := AllocChildren(inp, cs, 0, Enter(f, st));
    AllocChildrenSameCallees(inp, g, cs, 0, Enter(f, st));
    AllocAfterChildren(inp, f, st, r2);
    AllocAfterChildren(inp', f, st, r2);
    if r2.0.Some? {
      FinishIgnoresGraph(inp, g, f, r2.0.value, r2.1);
    }
  }

  lemma FinishIgnoresGraph(inp: Inputs, g: CallGraph, f: Name, next: nat, st: State)
    requires f in st.nextAvailableSlot && f !in st.slotAllocations
    ensures Finish(inp.(callGraph := g), f, next, st) == Finish(inp, f, next, st)
  {
  }

  lemma {:induction false} AllocChildrenSameCallees(inp: Inputs, g: CallGraph, cs: seq<Name>, acc: nat, st: State)
    requires forall h :: Callees(g, h) == Callees(inp.callGraph, h)
    requires (forall c :: c in cs ==> c in Nodes(inp.callGraph) && c in Nodes(g)) && Consistent(st)
    ensures AllocChildren(inp.(callGraph := g), cs, acc, st) == AllocChildren(inp, cs, acc, st)
    decreases Unvisited(inp, st), 2, |cs|
  {
    if cs != [] {
      RunSpecSameCallees(inp, g, cs[0], st);
      var (res, st') := RunSpec(inp, cs[0], st);
      if res.Some? {
        UnvisitedMonotone(inp, st, st');
        ExtendsConsistent(st, st');
        AllocChildrenSameCallees(inp, g, cs[1..], Max(res.value, acc), st');
      }
    }
  }

  /** One step of the callee loop: the head's value joins the maximum, or its exception ends the loop. */
  lemma CalleeLoopStep(inp: Inputs, cs: seq<Name>, i: nat, acc: nat, before: State, res: Option<nat>, after: State)
    requires i < |cs| && (forall c :: c in cs ==> c in Nodes(inp.callGraph)) && Consistent(before)
    requires (res, after) == RunSpec(inp, cs[i], before)
    ensures AllocChildren(inp, cs[i..], acc, before) ==
      if res.None? then (None, after) else AllocChildren(inp, cs[i + 1..], Max(res.value, acc), after)
  {
    assert cs[i..][0] == cs[i] && cs[i..][1..] == cs[i + 1..];
  }

  /** The callee loop after its last callee. */
  lemma ChildrenDone(inp: Inputs, cs: seq<Name>, acc: nat, st: State)
    requires (forall c :: c in cs ==> c in Nodes(inp.callGraph)) && Consistent(st)
    ensures AllocChildren(inp, cs[|cs|..], acc, st) == (Some(acc), st)
  {
    assert cs[|cs|..] == [];
  }

  /** How `Alloc` ends once the callee loop has produced `r2`. */
  lemma AllocAfterChildren(inp: Inputs, f: Name, st: State, r2: (Option<nat>, State))
    requires f in Nodes(inp.callGraph) && f !in st.nextAvailableSlot && Consistent(st)
    requires r2 == AllocChildren(inp, Callees(inp.callGraph, f), 0, Enter(f, st))
    ensures r2.0.Some? ==> f in r2.1.nextAvailableSlot && f !in r2.1.slotAllocations
    ensures Alloc(inp, f, st) == if r2.0.None? then r2 else Finish(inp, f, r2.0.value, r2.1)
  {
    UnvisitedShrinks(inp, st, f);
    CalleesAreNodes(inp.callGraph, f);
  }

  /**
   * The callee loop's result is the largest of `acc` and the values returned for the callees,
   * and each callee's value stays stored afterwards.
   */
  lemma {:induction false} ChildrenBound(inp: Inputs, cs: seq<Name>, acc: nat, st: State)
    requires (forall c :: c in cs ==> c in Nodes(inp.callGraph)) && Consistent(st)
    requires AllocChildren(inp, cs, acc, st).0.Some?
    ensures var (r, st') := AllocChildren(inp, cs, acc, st);
      && acc <= r.value
      && (forall c :: c in cs ==> c in st'.nextAvailableSlot && st'.nextAvailableSlot[c] <= r.value)
      && (r.value == acc || exists c :: c in cs && c in st'.nextAvailableSlot && r.value == st'.nextAvailableSlot[c])
    decreases |cs|
  {
    if cs != [] {
      var (res, st1) := RunSpec(inp, cs[0], st);
      ExtendsConsistent(st, st1);
      var m := Max(res.value, acc);
      var (r, st') := AllocChildren(inp, cs[1..], m, st1);
      assert (r, st') == AllocChildren(inp, cs, acc, st);
      ChildrenBound(inp, cs[1..], m, st1);
      assert st'.nextAvailableSlot[cs[0]] == res.value;
      forall c | c in cs
        ensures c in st'.nextAvailableSlot && st'.nextAvailableSlot[c] <= r.value
      {
        if c != cs[0] {
          assert c in cs[1..];
        }
      }
      if r.value != m {
        var c :| c in cs[1..] && c in st'.nextAvailableSlot && r.value == st'.nextAvailableSlot[c];
        assert c in cs;
      } else if m == res.value {
        assert cs[0] in cs;
      }
    }
  }

  /** The number of slots the variables of `f` take; none when `f` has no stack error info. */
  function Own(info: StackErrorInfo, f: Name): nat
  {
    if f in info then |Named(info[f])| else 0
  }

  /** A successful `Finish` from `next` returns `next` plus the slotted variables, placed from `next` up. */
  lemma FinishBound(inp: Inputs, f: Name, next: nat, st: State)
    requires f in st.nextAvailableSlot && f !in st.slotAllocations
    requires Finish(inp, f, next, st).0.Some?
    ensures var (r, st') := Finish(inp, f, next, st);
      && r.value == next + Own(inp.functionStackErrorInfo, f)
      && (f in inp.functionStackErrorInfo ==> f in st'.slotAllocations)
      && (f in st'.slotAllocations ==>
           forall x :: x in st'.slotAllocations[f] ==> next <= st'.slotAllocations[f][x] < r.value)
  {
  }

  /**
   * A successful `run(f)` for a function entered for the first time returns the callees'
   * maximum plus the number of its variables with a name: at least the value of every callee
   * but `f` itself, and equal to one of them (or 0) plus that number. Its variables are placed
   * at or above that maximum and below the result.
   */
  lemma AllocAboveCallees(inp: Inputs, f: Name, st: State)
    requires f in Nodes(inp.callGraph) && f !in st.nextAvailableSlot && Consistent(st)
    requires Alloc(inp, f, st).0.Some?
    ensures var (r, st') := Alloc(inp, f, st);
      && Own(inp.functionStackErrorInfo, f) <= r.value
      && (forall c :: c in Callees(inp.callGraph, f) && c != f ==>
           c in st'.nextAvailableSlot && st'.nextAvailableSlot[c] + Own(inp.functionStackErrorInfo, f) <= r.value)
      && (r.value == Own(inp.functionStackErrorInfo, f) ||
           exists c :: c in Callees(inp.callGraph, f) && c != f && c in st'.nextAvailableSlot &&
             r.value == st'.nextAvailableSlot[c] + Own(inp.functionStackErrorInfo, f))
      && (f in inp.functionStackErrorInfo ==> f in st'.slotAllocations)
      && (f in st'.slotAllocations ==> forall x :: x in st'.slotAllocations[f] ==>
           r.value - Own(inp.functionStackErrorInfo, f) <= st'.slotAllocations[f][x] < r.value)
  {
    var st1 := Enter(f, st);
    var cs := Callees(inp.callGraph, f);
    CalleesAreNodes(inp.callGraph, f);
    var r2 := AllocChildren(inp, cs, 0, st1);
    AllocAfterChildren(inp, f, st, r2);
    ChildrenBound(inp, cs, 0, st1);
    var m := r2.0.value;
    var r := Finish(inp, f, m, r2.1);
    assert r == Alloc(inp, f, st);
    FinishBound(inp, f, m, r2.1);
    assert r2.1.nextAvailableSlot[f] == 0;
    if m != 0 {
      var c :| c in cs && c in r2.1.nextAvailableSlot && m == r2.1.nextAvailableSlot[c];
      assert c != f && r.1.nextAvailableSlot[c] == m;
    }
  }

  /**
   * The allocator object: the three inputs it is constructed with, and the two maps that
   * `run(f)` fills in place.
   */
  class MemoryOffsetAllocator {
    const functionStackErrorInfo: StackErrorInfo
    const functionsInCycle: set<Name>
    const callGraph: CallGraph
    var slotAllocations: map<Name, map<Name, nat>>
    var nextAvailableSlot: map<Name, nat>

    function In(): Inputs
    {
      Inputs(functionStackErrorInfo, functionsInCycle, callGraph)
    }

    function Current(): State
      reads this
    {
      State(slotAllocations, nextAvailableSlot)
    }

    constructor (functionStackErrorInfo: StackErrorInfo, functionsInCycle: set<Name>, callGraph: CallGraph)
      ensures In() == Inputs(functionStackErrorInfo, functionsInCycle, callGraph)
      ensures Current() == Initial()
    {
      this.functionStackErrorInfo := functionStackErrorInfo;
      this.functionsInCycle := functionsInCycle;
      this.callGraph := callGraph;
      slotAllocations := map[];
      nextAvailableSlot := map[];
    }

    /** `slotAllocations()`: the slots given so far, per function and variable. */
    function SlotAllocations(): map<Name, map<Name, nat>>
      reads this
    {
      slotAllocations
    }

    /** `run()`: the walk from the top-level code; `None` is the stack-too-deep exception. */
    method Run() returns (r: Option<nat>)
      requires Consistent(Current())
      modifies this
      ensures (r, Current()) == RunSpec(In(), "", old(Current()))
    {
      r := RunFunction("");
    }

    /** `run(f)`. */
    method RunFunction(f: Name) returns (r: Option<nat>)
      requires f in Nodes(callGraph) && Consistent(Current())
      modifies this
      ensures (r, Current()) == RunSpec(In(), f, old(Current()))
      decreases Unvisited(In(), Current()), 1
    {
      if f in nextAvailableSlot {
        return Some(nextAvailableSlot[f]);
      }
      ghost var st0 := Current();
      nextAvailableSlot := nextAvailableSlot[f := 0];
      assert Current() == Enter(f, st0);
      UnvisitedShrinks(In(), st0, f);
      CalleesAreNodes(callGraph, f);
      AllocAfterChildren(In(), f, st0, AllocChildren(In(), Callees(callGraph, f), 0, Current()));
      var next := RunCallees(Callees(callGraph, f));
      if next.None? {
        return None;
      }
      r := FinishFunction(f, next.value);
    }

    /** The loop of `run(f)` over the callees: the maximum of their values, or the first exception. */
    method RunCallees(children: seq<Name>) returns (r: Option<nat>)
      requires (forall c :: c in children ==> c in Nodes(callGraph)) && Consistent(Current())
      modifies this
      ensures (r, Current()) == AllocChildren(In(), children, 0, old(Current()))
      decreases Unvisited(In(), Current()), 2
    {
      ghost var st1 := Current();
      var next: nat := 0;
      for i := 0 to |children|
        invariant Consistent(Current()) && st1.nextAvailableSlot.Keys <= nextAvailableSlot.Keys
        invariant AllocChildren(In(), children[i..], next, Current()) == AllocChildren(In(), children, 0, st1)
      {
        ghost var before := Current();
        UnvisitedMonotone(In(), st1, before);
        var res := RunFunction(children[i]);
        CalleeLoopStep(In(), children, i, next, before, res, Current());
        if res.None? {
          return None;
        }
        ExtendsConsistent(before, Current());
        next := Max(res.value, next);
      }
      ChildrenDone(In(), children, next, Current());
      return Some(next);
    }

    /** The end of `run(f)`: the function's own slots, then its value stored. */
    method FinishFunction(f: Name, next: nat) returns (r: Option<nat>)
      requires f in nextAvailableSlot && f !in slotAllocations
      modifies this
      ensures (r, Current()) == Finish(In(), f, next, old(Current()))
    {
      var n := next;
      if f in functionStackErrorInfo {
        if f in functionsInCycle {
          return None;
        }
        var variables := functionStackErrorInfo[f];
        var assignedSlots: map<Name, nat> := map[];
        for j := 0 to |variables|
          invariant (assignedSlots, n) == AssignSlots(variables[..j], next)
        {
          assert variables[..j + 1][..j] == variables[..j];
          if variables[j] != "" {
            assignedSlots := assignedSlots[variables[j] := n];
            n := n + 1;
          }
        }
        assert variables[..|variables|] == variables;
        slotAllocations := slotAllocations[f := assignedSlots];
      }
      nextAvailableSlot := nextAvailableSlot[f := n];
      return Some(n);
    }
  }
}
