/**
 * The property the memory escalator promises for its slot assignment: on every path through
 * the call graph, the variables of different functions get different slots. The memoised walk
 * of `MemoryOffsetAllocator` does not keep it when a function is entered while a caller on a
 * call cycle is still being walked (see `AsWrittenOverlap`). `Allocation` is a corrected
 * allocation with the same slot layout per function (consecutive slots from the function's
 * value up, callees below callers) that does keep it: the values are the stable solution of
 * the walk's own equation, found by repeating the equation until nothing changes.
 */
module PathDisjointAllocation {
  import opened Wrappers
  import opened Yul
  import opened MemoryOffsetAllocator

  /** On every call path, a variable of one function and a variable of a later one have different slots. */
  ghost predicate PathDisjoint(g: CallGraph, slots: map<Name, map<Name, nat>>)
  {
    forall w, i, j, x, y ::
      (CallPath(g, w) && 0 <= i < j < |w| && w[i] in slots && w[j] in slots
       && x in slots[w[i]] && y in slots[w[j]]) ==> slots[w[i]][x] != slots[w[j]][y]
  }

  // ----- the walk as written breaks it -----

  /**
   * The top-level code calls `e` and `c`, and its callee set is iterated with `e` first;
   * `e` and `o` call each other, `e` also calls `i`, and `c` calls `o`. Of `i` and `c`, one
   * variable each must go to memory; neither lies on the cycle `{e, o}`.
   */
  function ExampleOf(e: Name, o: Name, i: Name, c: Name): Inputs
  {
    Inputs(map[i := ["v"], c := ["w"]], {e, o}, map["" := [e, c], e := [o, i], o := [e], c := [o]])
  }

  /** Four different function names, none of them the top-level code's. */
  predicate Apart(e: Name, o: Name, i: Name, c: Name)
  {
    "" != e && "" != o && "" != i && "" != c && e != o && e != i && e != c && o != i && o != c && i != c
  }

  function Example(): Inputs
  {
    ExampleOf("even", "odd", "inner", "caller")
  }

  /**
   * `odd` is finished while its caller `even` still holds the placeholder 0, so `odd` keeps
   * the value 0 although `even` later needs slot 0 for `inner`. `caller`, which calls `odd`,
   * then uses slot 0 too, and `caller` calls `odd`, which calls `even`, which calls `inner`:
   * both variables are live on that path.
   */
  lemma AsWrittenOverlap()
    ensures !(exists f :: f in Example().functionStackErrorInfo && f in Example().functionsInCycle)
    ensures "" in Nodes(Example().callGraph)
    ensures RunSpec(Example(), "", Initial()).0 == Some(1)
    ensures !PathDisjoint(Example().callGraph, RunSpec(Example(), "", Initial()).1.slotAllocations)
  {
    assert Apart("even", "odd", "inner", "caller");
    Overlap("even", "odd", "inner", "caller");
  }

  lemma Overlap(e: Name, o: Name, i: Name, c: Name)
    requires Apart(e, o, i, c)
    ensures !(exists f :: f in ExampleOf(e, o, i, c).functionStackErrorInfo && f in ExampleOf(e, o, i, c).functionsInCycle)
    ensures "" in Nodes(ExampleOf(e, o, i, c).callGraph)
    ensures RunSpec(ExampleOf(e, o, i, c), "", Initial()).0 == Some(1)
    ensures !PathDisjoint(ExampleOf(e, o, i, c).callGraph, RunSpec(ExampleOf(e, o, i, c), "", Initial()).1.slotAllocations)
  {
    var g := ExampleOf(e, o, i, c).callGraph;
    InfoOffCycle(e, o, i, c);
    KeyIsNode(g, "");
    RootSlots(e, o, i, c);
    ExamplePath(e, o, i, c);
    var w := ["", c, o, e, i];
    assert w[1] == c && w[4] == i;
    Shared(g, map[i := map["v" := 0], c := map["w" := 0]], w, 1, 4, "w", "v");
  }

  /** Neither function with stack error info lies on the cycle. */
  lemma InfoOffCycle(e: Name, o: Name, i: Name, c: Name)
    requires Apart(e, o, i, c)
    ensures !(exists f :: f in ExampleOf(e, o, i, c).functionStackErrorInfo && f in ExampleOf(e, o, i, c).functionsInCycle)
  {
    var inp := ExampleOf(e, o, i, c);
    assert inp.functionStackErrorInfo.Keys == {i, c};
  }

  /** The walk's result on the example: `inner` and `caller` both get slot 0. */
  lemma RootSlots(e: Name, o: Name, i: Name, c: Name)
    requires Apart(e, o, i, c)
    ensures RunSpec(ExampleOf(e, o, i, c), "", Initial()).0 == Some(1)
    ensures RunSpec(ExampleOf(e, o, i, c), "", Initial()).1.slotAllocations == map[i := map["v" := 0], c := map["w" := 0]]
  {
    RootStep(e, o, i, c);
  }

  /** Two variables of different functions on one call path with the same slot break the property. */
  lemma Shared(g: CallGraph, slots: map<Name, map<Name, nat>>, w: seq<Name>, a: nat, b: nat, x: Name, y: Name)
    requires CallPath(g, w) && a < b < |w| && w[a] in slots && w[b] in slots
    requires x in slots[w[a]] && y in slots[w[b]] && slots[w[a]][x] == slots[w[b]][y]
    ensures !PathDisjoint(g, slots)
  {
  }

  // One step of the walk at a time, for evaluating it on the example.

  lemma ChildStep(inp: Inputs, cs: seq<Name>, acc: nat, st: State, v: nat, st': State)
    requires cs != [] && (forall c :: c in cs ==> c in Nodes(inp.callGraph)) && Consistent(st)
    requires RunSpec(inp, cs[0], st) == (Some(v), st')
    ensures Consistent(st') && forall c :: c in cs[1..] ==> c in Nodes(inp.callGraph)
    ensures AllocChildren(inp, cs, acc, st) == AllocChildren(inp, cs[1..], Max(v, acc), st')
  {
    ExtendsConsistent(st, st');
  }

  /** Two callees, each run to a result: the larger of the results, and the state after the second. */
  lemma TwoChildren(inp: Inputs, a: Name, b: Name, st: State, va: nat, sa: State, vb: nat, sb: State)
    requires a in Nodes(inp.callGraph) && b in Nodes(inp.callGraph) && Consistent(st)
    requires RunSpec(inp, a, st) == (Some(va), sa)
    requires Consistent(sa) ==> RunSpec(inp, b, sa) == (Some(vb), sb)
    ensures AllocChildren(inp, [a, b], 0, st) == (Some(Max(vb, va)), sb)
  {
    ChildStep(inp, [a, b], 0, st, va, sa);
    assert [a, b][1..] == [b];
    ChildStep(inp, [b], va, sa, vb, sb);
    assert [b][1..] == [];
  }

  lemma AllocStep(inp: Inputs, f: Name, st: State, v: nat, st2: State)
    requires f in Nodes(inp.callGraph) && f !in st.nextAvailableSlot && Consistent(st)
    requires AllocChildren(inp, Callees(inp.callGraph, f), 0, Enter(f, st)) == (Some(v), st2)
    ensures f in st2.nextAvailableSlot && f !in st2.slotAllocations
    ensures Alloc(inp, f, st) == Finish(inp, f, v, st2)
  {
    CalleesAreNodes(inp.callGraph, f);
    assert Extends(Enter(f, st), st2);
  }

  lemma KeyIsNode(g: CallGraph, f: Name)
    requires f in g
    ensures f in Nodes(g)
  {
  }

  lemma CalleeIsNode(g: CallGraph, f: Name, c: Name)
    requires f in g && c in g[f]
    ensures c in Nodes(g)
  {
  }

  // The states the walk of the example passes through, one lemma per function entered.

  lemma OddStep(e: Name, o: Name, i: Name, c: Name)
    requires Apart(e, o, i, c)
    ensures o in Nodes(ExampleOf(e, o, i, c).callGraph)
    ensures Alloc(ExampleOf(e, o, i, c), o, State(map[], map["" := 0, e := 0]))
      == (Some(0), State(map[], map["" := 0, e := 0, o := 0]))
  {
    var inp := ExampleOf(e, o, i, c);
    var g := inp.callGraph;
    var sa := State(map[], map["" := 0, e := 0, o := 0]);
    assert sa.nextAvailableSlot[o := 0] == sa.nextAvailableSlot;
    KeyIsNode(g, o);
    KeyIsNode(g, e);
    assert Enter(o, State(map[], map["" := 0, e := 0])) == sa;
    assert Callees(g, o) == [e];
    ChildStep(inp, [e], 0, sa, 0, sa);
    AllocStep(inp, o, State(map[], map["" := 0, e := 0]), 0, sa);
  }

  lemma InnerStep(e: Name, o: Name, i: Name, c: Name)
    requires Apart(e, o, i, c)
    ensures i in Nodes(ExampleOf(e, o, i, c).callGraph)
    ensures Alloc(ExampleOf(e, o, i, c), i, State(map[], map["" := 0, e := 0, o := 0]))
      == (Some(1), State(map[i := map["v" := 0]], map["" := 0, e := 0, o := 0, i := 1]))
  {
    var inp := ExampleOf(e, o, i, c);
    var g := inp.callGraph;
    CalleeIsNode(g, e, i);
    var sc := State(map[], map["" := 0, e := 0, o := 0, i := 0]);
    assert sc.nextAvailableSlot[i := 1] == map["" := 0, e := 0, o := 0, i := 1];
    assert Enter(i, State(map[], map["" := 0, e := 0, o := 0])) == sc;
    assert Callees(g, i) == [];
    AllocStep(inp, i, State(map[], map["" := 0, e := 0, o := 0]), 0, sc);
    assert inp.functionStackErrorInfo[i] == ["v"];
    assert AssignSlots(["v"], 0) == (map["v" := 0], 1) by {
      assert ["v"][..0] == [];
    }
  }

  lemma EvenStep(e: Name, o: Name, i: Name, c: Name)
    requires Apart(e, o, i, c)
    ensures e in Nodes(ExampleOf(e, o, i, c).callGraph)
    ensures Alloc(ExampleOf(e, o, i, c), e, State(map[], map["" := 0]))
      == (Some(1), State(map[i := map["v" := 0]], map["" := 0, e := 1, o := 0, i := 1]))
  {
    var inp := ExampleOf(e, o, i, c);
    var g := inp.callGraph;
    KeyIsNode(g, e);
    var sc := State(map[i := map["v" := 0]], map["" := 0, e := 0, o := 0, i := 1]);
    assert sc.nextAvailableSlot[e := 1] == map["" := 0, e := 1, o := 0, i := 1];
    EvenChildren(e, o, i, c);
    AllocStep(inp, e, State(map[], map["" := 0]), 1, sc);
  }

  /** The callees of `even`: `odd` keeps the placeholder, `inner` gets slot 0. */
  lemma EvenChildren(e: Name, o: Name, i: Name, c: Name)
    requires Apart(e, o, i, c)
    ensures e in Nodes(ExampleOf(e, o, i, c).callGraph)
    ensures AllocChildren(ExampleOf(e, o, i, c), Callees(ExampleOf(e, o, i, c).callGraph, e), 0,
        Enter(e, State(map[], map["" := 0])))
      == (Some(1), State(map[i := map["v" := 0]], map["" := 0, e := 0, o := 0, i := 1]))
  {
    var inp := ExampleOf(e, o, i, c);
    var g := inp.callGraph;
    KeyIsNode(g, e);
    var sb := State(map[], map["" := 0, e := 0]);
    var sa := State(map[], map["" := 0, e := 0, o := 0]);
    var sc := State(map[i := map["v" := 0]], map["" := 0, e := 0, o := 0, i := 1]);
    assert Enter(e, State(map[], map["" := 0])) == sb;
    assert Callees(g, e) == [o, i];
    OddRun(e, o, i, c);
    InnerRun(e, o, i, c);
    TwoChildren(inp, o, i, sb, 0, sa, 1, sc);
  }

  lemma OddRun(e: Name, o: Name, i: Name, c: Name)
    requires Apart(e, o, i, c)
    ensures o in Nodes(ExampleOf(e, o, i, c).callGraph)
    ensures RunSpec(ExampleOf(e, o, i, c), o, State(map[], map["" := 0, e := 0]))
      == (Some(0), State(map[], map["" := 0, e := 0, o := 0]))
  {
    OddStep(e, o, i, c);
  }

  lemma InnerRun(e: Name, o: Name, i: Name, c: Name)
    requires Apart(e, o, i, c)
    ensures i in Nodes(ExampleOf(e, o, i, c).callGraph)
    ensures RunSpec(ExampleOf(e, o, i, c), i, State(map[], map["" := 0, e := 0, o := 0]))
      == (Some(1), State(map[i := map["v" := 0]], map["" := 0, e := 0, o := 0, i := 1]))
  {
    InnerStep(e, o, i, c);
  }

  lemma CallerStep(e: Name, o: Name, i: Name, c: Name)
    requires Apart(e, o, i, c)
    ensures c in Nodes(ExampleOf(e, o, i, c).callGraph)
    ensures Alloc(ExampleOf(e, o, i, c), c, State(map[i := map["v" := 0]], map["" := 0, e := 1, o := 0, i := 1]))
      == (Some(1), State(map[i := map["v" := 0], c := map["w" := 0]], map["" := 0, e := 1, o := 0, i := 1, c := 1]))
  {
    var inp := ExampleOf(e, o, i, c);
    var g := inp.callGraph;
    KeyIsNode(g, c);
    KeyIsNode(g, o);
    var sb := State(map[i := map["v" := 0]], map["" := 0, e := 1, o := 0, i := 1]);
    var sx := State(map[i := map["v" := 0]], map["" := 0, e := 1, o := 0, i := 1, c := 0]);
    assert sx.slotAllocations[c := map["w" := 0]] == map[i := map["v" := 0], c := map["w" := 0]];
    assert sx.nextAvailableSlot[c := 1] == map["" := 0, e := 1, o := 0, i := 1, c := 1];
    assert Enter(c, sb) == sx;
    assert Callees(g, c) == [o];
    ChildStep(inp, [o], 0, sx, 0, sx);
    assert [o][1..] == [];
    AllocStep(inp, c, sb, 0, sx);
    assert inp.functionStackErrorInfo[c] == ["w"];
    assert AssignSlots(["w"], 0) == (map["w" := 0], 1) by {
      assert ["w"][..0] == [];
    }
  }

  lemma RootChildren(e: Name, o: Name, i: Name, c: Name)
    requires Apart(e, o, i, c)
    ensures "" in Nodes(ExampleOf(e, o, i, c).callGraph)
    ensures AllocChildren(ExampleOf(e, o, i, c), [e, c], 0, State(map[], map["" := 0]))
      == (Some(1), State(map[i := map["v" := 0], c := map["w" := 0]], map["" := 0, e := 1, o := 0, i := 1, c := 1]))
  {
    var inp := ExampleOf(e, o, i, c);
    var g := inp.callGraph;
    KeyIsNode(g, "");
    KeyIsNode(g, e);
    KeyIsNode(g, c);
    var s1 := State(map[], map["" := 0]);
    var sb := State(map[i := map["v" := 0]], map["" := 0, e := 1, o := 0, i := 1]);
    var sx := State(map[i := map["v" := 0], c := map["w" := 0]], map["" := 0, e := 1, o := 0, i := 1, c := 1]);
    EvenRun(e, o, i, c);
    CallerRun(e, o, i, c);
    TwoChildren(inp, e, c, s1, 1, sb, 1, sx);
  }

  lemma EvenRun(e: Name, o: Name, i: Name, c: Name)
    requires Apart(e, o, i, c)
    ensures e in Nodes(ExampleOf(e, o, i, c).callGraph)
    ensures RunSpec(ExampleOf(e, o, i, c), e, State(map[], map["" := 0]))
      == (Some(1), State(map[i := map["v" := 0]], map["" := 0, e := 1, o := 0, i := 1]))
  {
    EvenStep(e, o, i, c);
  }

  lemma CallerRun(e: Name, o: Name, i: Name, c: Name)
    requires Apart(e, o, i, c)
    ensures c in Nodes(ExampleOf(e, o, i, c).callGraph)
    ensures RunSpec(ExampleOf(e, o, i, c), c, State(map[i := map["v" := 0]], map["" := 0, e := 1, o := 0, i := 1]))
      == (Some(1), State(map[i := map["v" := 0], c := map["w" := 0]], map["" := 0, e := 1, o := 0, i := 1, c := 1]))
  {
    CallerStep(e, o, i, c);
  }

  lemma RootStep(e: Name, o: Name, i: Name, c: Name)
    requires Apart(e, o, i, c)
    ensures RunSpec(ExampleOf(e, o, i, c), "", Initial())
      == (Some(1), State(map[i := map["v" := 0], c := map["w" := 0]], map["" := 1, e := 1, o := 0, i := 1, c := 1]))
  {
    var inp := ExampleOf(e, o, i, c);
    var sx := State(map[i := map["v" := 0], c := map["w" := 0]], map["" := 0, e := 1, o := 0, i := 1, c := 1]);
    assert sx.nextAvailableSlot["" := 1] == map["" := 1, e := 1, o := 0, i := 1, c := 1];
    assert Enter("", Initial()) == State(map[], map["" := 0]);
    assert Callees(inp.callGraph, "") == [e, c];
    RootChildren(e, o, i, c);
    AllocStep(inp, "", Initial(), 1, sx);
  }

  /** The call path on which the two variables share a slot. */
  lemma ExamplePath(e: Name, o: Name, i: Name, c: Name)
    requires Apart(e, o, i, c)
    ensures CallPath(ExampleOf(e, o, i, c).callGraph, ["", c, o, e, i])
  {
    var g := ExampleOf(e, o, i, c).callGraph;
    var w := ["", c, o, e, i];
    assert w[1] in Callees(g, w[0]) && w[2] in Callees(g, w[1]);
    assert w[3] in Callees(g, w[2]) && w[4] in Callees(g, w[3]);
  }

  // ----- the corrected allocation -----

  /** A function's value: the first slot of its own variables; 0 for a function without an entry. */
  function Base(vals: map<Name, nat>, f: Name): nat
  {
    if f in vals then vals[f] else 0
  }

  /** The slot after a function's own variables: what its callers must stay above. */
  function Top(info: StackErrorInfo, vals: map<Name, nat>, f: Name): nat
  {
    Base(vals, f) + Own(info, f)
  }

  /** The largest `Top` among the callees, 0 for none. */
  function MaxTop(info: StackErrorInfo, vals: map<Name, nat>, cs: seq<Name>): (m: nat)
    ensures forall c :: c in cs ==> Top(info, vals, c) <= m
    ensures m == 0 || exists c :: c in cs && m == Top(info, vals, c)
    decreases |cs|
  {
    if cs == [] then 0
    else
      var n := |cs| - 1;
      assert forall c :: c in cs <==> c in cs[..n] || c == cs[n] by {
        assert cs == cs[..n] + [cs[n]];
      }
      Max(MaxTop(info, vals, cs[..n]), Top(info, vals, cs[n]))
  }

  /** The functions that call something. */
  function Callers(g: CallGraph): set<Name>
  {
    set f | f in g && g[f] != []
  }

  /** One round of the walk's equation: every caller's value becomes the largest `Top` of its callees. */
  function Relax(inp: Inputs, vals: map<Name, nat>): (r: map<Name, nat>)
    ensures r.Keys == Callers(inp.callGraph)
  {
    map f | f in Callers(inp.callGraph) :: MaxTop(inp.functionStackErrorInfo, vals, inp.callGraph[f])
  }

  /** The values are a solution of the equation: repeating it changes nothing. */
  predicate Stable(inp: Inputs, vals: map<Name, nat>)
  {
    Relax(inp, vals) == vals
  }

  /** Rounds of `Relax` until the values are stable, at most `fuel` of them. */
  function Iterate(inp: Inputs, vals: map<Name, nat>, fuel: nat): (r: Option<map<Name, nat>>)
    ensures r.Some? ==> Stable(inp, r.value)
    decreases fuel
  {
    if Stable(inp, vals) then Some(vals)
    else if fuel == 0 then None
    else Iterate(inp, Relax(inp, vals), fuel - 1)
  }

  /**
   * The corrected allocation: the memory the top-level code needs and every function's slots,
   * or `None` where the walk throws (a function with stack error info on a cycle) or the
   * equation has no stable solution within one round per caller and one more.
   */
  function Allocation(inp: Inputs): (r: Option<(nat, map<Name, map<Name, nat>>)>)
    ensures r.Some? ==> forall f :: f in inp.functionStackErrorInfo ==> f !in inp.functionsInCycle
    ensures r.Some? ==> r.value.1.Keys == inp.functionStackErrorInfo.Keys
  {
    if exists f :: f in inp.functionStackErrorInfo && f in inp.functionsInCycle then None
    else
      match Solve(inp)
      case None => None
      case Some(vals) =>
        Some((Top(inp.functionStackErrorInfo, vals, ""), map f | f in inp.functionStackErrorInfo :: AssignSlots(inp.functionStackErrorInfo[f], Base(vals, f)).0))
  }

  /** The values from all zeros, with one round per caller and one more. */
  function Solve(inp: Inputs): (r: Option<map<Name, nat>>)
    ensures r.Some? ==> Stable(inp, r.value)
  {
    Iterate(inp, map f | f in Callers(inp.callGraph) :: 0, |Callers(inp.callGraph)| + 1)
  }

  /** The stable values of `Allocation`, for reasoning about it. */
  ghost function Values(inp: Inputs): (vals: map<Name, nat>)
    requires Allocation(inp).Some?
    ensures Stable(inp, vals)
    ensures forall f :: f in inp.functionStackErrorInfo ==>
      Allocation(inp).value.1[f] == AssignSlots(inp.functionStackErrorInfo[f], Base(vals, f)).0
    ensures Allocation(inp).value.0 == Top(inp.functionStackErrorInfo, vals, "")
  {
    Solve(inp).value
  }

  lemma StableEdge(inp: Inputs, vals: map<Name, nat>, u: Name, v: Name)
    requires Stable(inp, vals) && v in Callees(inp.callGraph, u)
    ensures Top(inp.functionStackErrorInfo, vals, v) <= Base(vals, u)
  {
    assert u in Callers(inp.callGraph);
    assert vals[u] == Relax(inp, vals)[u];
  }

  /** With stable values, every function further down a call path ends below where an earlier one starts. */
  lemma {:induction false} StablePath(inp: Inputs, vals: map<Name, nat>, w: seq<Name>, i: nat, j: nat)
    requires Stable(inp, vals) && CallPath(inp.callGraph, w) && i < j < |w|
    ensures Top(inp.functionStackErrorInfo, vals, w[j]) <= Base(vals, w[i])
    decreases j - i
  {
    StableEdge(inp, vals, w[i], w[i + 1]);
    if i + 1 < j {
      StablePath(inp, vals, w, i + 1, j);
    }
  }

  /** A function's slots lie between its value and its `Top`. */
  lemma SlotsBetween(inp: Inputs, f: Name, x: Name)
    requires Allocation(inp).Some? && f in Allocation(inp).value.1 && x in Allocation(inp).value.1[f]
    ensures Base(Values(inp), f) <= Allocation(inp).value.1[f][x] < Top(inp.functionStackErrorInfo, Values(inp), f)
  {
  }

  /** The promise of the escalator, kept: on every call path, different functions' variables get different slots. */
  lemma AllocationPathDisjoint(inp: Inputs)
    requires Allocation(inp).Some?
    ensures PathDisjoint(inp.callGraph, Allocation(inp).value.1)
  {
    var slots := Allocation(inp).value.1;
    var vals := Values(inp);
    forall w, i, j, x, y |
      CallPath(inp.callGraph, w) && 0 <= i < j < |w| && w[i] in slots && w[j] in slots
      && x in slots[w[i]] && y in slots[w[j]]
      ensures slots[w[i]][x] != slots[w[j]][y]
    {
      SlotsBetween(inp, w[i], x);
      SlotsBetween(inp, w[j], y);
      StablePath(inp, vals, w, i, j);
    }
  }

  /** The memory the top-level code needs covers every slot of every function it can reach. */
  lemma AllocationCoversReachable(inp: Inputs, w: seq<Name>, y: Name)
    requires Allocation(inp).Some? && CallPath(inp.callGraph, w) && |w| >= 1 && w[0] == ""
    requires w[|w| - 1] in Allocation(inp).value.1 && y in Allocation(inp).value.1[w[|w| - 1]]
    ensures Allocation(inp).value.1[w[|w| - 1]][y] < Allocation(inp).value.0
  {
    var vals := Values(inp);
    SlotsBetween(inp, w[|w| - 1], y);
    if |w| > 1 {
      StablePath(inp, vals, w, 0, |w| - 1);
    }
  }

  /** Entries without callees (the cycle search adds some) do not change the allocation. */
  lemma AllocationIgnoresEmpty(inp: Inputs, g: CallGraph)
    requires forall f :: Callees(g, f) == Callees(inp.callGraph, f)
    ensures Allocation(inp.(callGraph := g)) == Allocation(inp)
  {
    SolveIgnoresEmpty(inp, g);
    AllocationOfSolve(inp, inp.(callGraph := g));
  }

  lemma SolveIgnoresEmpty(inp: Inputs, g: CallGraph)
    requires forall f :: Callees(g, f) == Callees(inp.callGraph, f)
    ensures Solve(inp.(callGraph := g)) == Solve(inp)
  {
    CallersIgnoreEmpty(inp.callGraph, g);
    RelaxIgnoresEmpty(inp, g);
    var zeros := map f | f in Callers(g) :: 0;
    assert zeros == map f | f in Callers(inp.callGraph) :: 0;
    IterateIgnoresEmpty(inp, g, zeros, |Callers(g)| + 1);
  }

  /** The allocation depends on the call graph only through the solution of the equation. */
  lemma AllocationOfSolve(inp: Inputs, inp': Inputs)
    requires inp'.functionStackErrorInfo == inp.functionStackErrorInfo
    requires inp'.functionsInCycle == inp.functionsInCycle
    requires Solve(inp') == Solve(inp)
    ensures Allocation(inp') == Allocation(inp)
  {
  }

  lemma CallersIgnoreEmpty(g: CallGraph, g': CallGraph)
    requires forall f :: Callees(g', f) == Callees(g, f)
    ensures Callers(g') == Callers(g)
    ensures forall f :: f in Callers(g) ==> g'[f] == g[f]
  {
    forall f
      ensures f in Callers(g') <==> f in Callers(g)
    {
      assert Callees(g', f) == Callees(g, f);
    }
    forall f | f in Callers(g)
      ensures g'[f] == g[f]
    {
      assert Callees(g', f) == Callees(g, f);
    }
  }

  lemma RelaxIgnoresEmpty(inp: Inputs, g: CallGraph)
    requires Callers(g) == Callers(inp.callGraph)
    requires forall f :: f in Callers(inp.callGraph) ==> g[f] == inp.callGraph[f]
    ensures forall vals: map<Name, nat> :: Relax(inp.(callGraph := g), vals) == Relax(inp, vals)
  {
    forall vals: map<Name, nat>
      ensures Relax(inp.(callGraph := g), vals) == Relax(inp, vals)
    {
    }
  }

  lemma {:induction false} IterateIgnoresEmpty(inp: Inputs, g: CallGraph, vals: map<Name, nat>, fuel: nat)
    requires forall vs: map<Name, nat> :: Relax(inp.(callGraph := g), vs) == Relax(inp, vs)
    ensures Iterate(inp.(callGraph := g), vals, fuel) == Iterate(inp, vals, fuel)
    decreases fuel
  {
    assert Relax(inp.(callGraph := g), vals) == Relax(inp, vals);
    if fuel > 0 {
      IterateIgnoresEmpty(inp, g, Relax(inp, vals), fuel - 1);
    }
  }
}
