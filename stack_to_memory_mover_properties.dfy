/**
 * What the stack-to-memory mover guarantees, stated about its specification functions.
 */
module StackToMemoryMoverProperties {
  import opened Wrappers
  import opened Yul
  import opened NameDispenser
  import opened StackToMemoryMover

  // ----- reads -----

  /** A load replaces exactly the reads of escalated variables: no other read is lost or added. */
  lemma {:induction false} LoadReads(base: nat, c: Slots, e: Expression)
    ensures IdentifierReads(Load(base, Some(c), e)) == IdentifierReads(e) - c.Keys
    decreases e, 1
  {
    match e
    case Identifier(x) =>
      if x in c {
        assert IdentifierListReads([Literal(MemoryOffset(base, c, x))]) == {} by {
          assert [Literal(MemoryOffset(base, c, x))][..0] == [];
        }
      }
    case Literal(_) =>
    case FunctionCall(f, args) =>
      LoadListReads(base, c, args);
  }

  lemma {:induction false} LoadListReads(base: nat, c: Slots, es: seq<Expression>)
    ensures IdentifierListReads(LoadList(base, Some(c), es)) == IdentifierListReads(es) - c.Keys
    decreases es, 0
  {
    if es != [] {
      var n := |es| - 1;
      var r := LoadList(base, Some(c), es);
      assert r[..n] == LoadList(base, Some(c), es[..n]) && r[n] == Load(base, Some(c), es[n]);
      LoadListReads(base, c, es[..n]);
      LoadReads(base, c, es[n]);
    }
  }

  /** An expression that reads no escalated variable keeps its shape; so does every expression with no active context. */
  lemma {:induction false} LoadUnchanged(base: nat, cur: Option<Slots>, e: Expression)
    requires forall x :: x in IdentifierReads(e) ==> !Escalated(cur, x)
    ensures Load(base, cur, e) == e
    decreases e, 1
  {
    match e
    case Identifier(_) =>
    case Literal(_) =>
    case FunctionCall(f, args) =>
      LoadListUnchanged(base, cur, args);
  }

  lemma {:induction false} LoadListUnchanged(base: nat, cur: Option<Slots>, es: seq<Expression>)
    requires forall x :: x in IdentifierListReads(es) ==> !Escalated(cur, x)
    ensures LoadList(base, cur, es) == es
    decreases es, 0
  {
    if es != [] {
      var n := |es| - 1;
      LoadListUnchanged(base, cur, es[..n]);
      LoadUnchanged(base, cur, es[n]);
      assert es[..n] + [es[n]] == es;
    }
  }

  /** The reads of a two-argument call are the reads of its arguments. */
  lemma PairReads(a: Expression, b: Expression)
    ensures IdentifierListReads([a, b]) == IdentifierReads(a) + IdentifierReads(b)
  {
    assert [a, b][..1] == [a];
    assert [a][..0] == [];
    assert IdentifierListReads([a]) == IdentifierReads(a);
    assert IdentifierListReads([a, b]) == IdentifierListReads([a]) + IdentifierReads(b);
  }

  // ----- the split -----

  /** The positions of the escalated targets, in target order. */
  function EscalatedIndices(cur: Slots, vars: seq<Name>): (r: seq<nat>)
    ensures forall k :: 0 <= k < |r| ==> r[k] < |vars| && vars[r[k]] in cur
    ensures forall k, l :: 0 <= k < l < |r| ==> r[k] < r[l]
    decreases |vars|
  {
    if vars == [] then []
    else
      var n := |vars| - 1;
      EscalatedIndices(cur, vars[..n]) + (if vars[n] in cur then [n] else [])
  }

  /** The positions of the other targets, in target order. */
  function OtherIndices(cur: Slots, vars: seq<Name>): (r: seq<nat>)
    ensures forall k :: 0 <= k < |r| ==> r[k] < |vars| && vars[r[k]] !in cur
    ensures forall k, l :: 0 <= k < l < |r| ==> r[k] < r[l]
    decreases |vars|
  {
    if vars == [] then []
    else
      var n := |vars| - 1;
      OtherIndices(cur, vars[..n]) + (if vars[n] !in cur then [n] else [])
  }

  /** Every escalated target has its position in the list. */
  lemma {:induction false} EscalatedIndicesComplete(cur: Slots, vars: seq<Name>, i: nat)
    requires i < |vars| && vars[i] in cur
    ensures i in EscalatedIndices(cur, vars)
    decreases |vars|
  {
    var n := |vars| - 1;
    if i < n {
      assert vars[..n][i] == vars[i];
      EscalatedIndicesComplete(cur, vars[..n], i);
    } else {
      assert EscalatedIndices(cur, vars) == EscalatedIndices(cur, vars[..n]) + [n];
    }
  }

  /** Every other target has its position in the list. */
  lemma {:induction false} OtherIndicesComplete(cur: Slots, vars: seq<Name>, i: nat)
    requires i < |vars| && vars[i] !in cur
    ensures i in OtherIndices(cur, vars)
    decreases |vars|
  {
    var n := |vars| - 1;
    if i < n {
      assert vars[..n][i] == vars[i];
      OtherIndicesComplete(cur, vars[..n], i);
    } else {
      assert OtherIndices(cur, vars) == OtherIndices(cur, vars[..n]) + [n];
    }
  }

  /** Every target is escalated or not, so the two index lists together have one entry per target. */
  lemma {:induction false} IndicesPartition(cur: Slots, vars: seq<Name>)
    ensures |EscalatedIndices(cur, vars)| + |OtherIndices(cur, vars)| == |vars|
    decreases |vars|
  {
    if vars != [] {
      IndicesPartition(cur, vars[..|vars| - 1]);
    }
  }

  /** The k-th store writes the temporary of the k-th escalated target to that target's slot. */
  lemma {:induction false} StoresOfContents(base: nat, cur: Slots, vars: seq<Name>, temps: seq<Name>)
    requires |vars| == |temps|
    ensures var idx := EscalatedIndices(cur, vars); var st := StoresOf(base, cur, vars, temps);
      |st| == |idx| &&
      forall k :: 0 <= k < |idx| ==> st[k] == MemoryStore(MemoryOffset(base, cur, vars[idx[k]]), Identifier(temps[idx[k]]))
    decreases |vars|
  {
    if vars != [] {
      var n := |vars| - 1;
      StoresOfContents(base, cur, vars[..n], temps[..n]);
      var idx0 := EscalatedIndices(cur, vars[..n]);
      forall k | 0 <= k < |idx0|
        ensures vars[..n][idx0[k]] == vars[idx0[k]] && temps[..n][idx0[k]] == temps[idx0[k]]
      {
      }
    }
  }

  /** The k-th rebinding binds the k-th other target to its temporary. */
  lemma {:induction false} RebindingsOfContents(cur: Slots, vars: seq<Name>, temps: seq<Name>, isAssignment: bool)
    requires |vars| == |temps|
    ensures var idx := OtherIndices(cur, vars); var rb := RebindingsOf(cur, vars, temps, isAssignment);
      |rb| == |idx| &&
      forall k :: 0 <= k < |idx| ==> rb[k] == Rebinding(isAssignment, vars[idx[k]], temps[idx[k]])
    decreases |vars|
  {
    if vars != [] {
      var n := |vars| - 1;
      RebindingsOfContents(cur, vars[..n], temps[..n], isAssignment);
      var idx0 := OtherIndices(cur, vars[..n]);
      forall k | 0 <= k < |idx0|
        ensures vars[..n][idx0[k]] == vars[idx0[k]] && temps[..n][idx0[k]] == temps[idx0[k]]
      {
      }
    }
  }

  /** One element, then `a` reversed, then `b` reversed: where each element of `a` lands. */
  lemma FrontPartOf<T>(x: T, a: seq<T>, b: seq<T>)
    ensures var r := [x] + Reverse(a) + Reverse(b);
      |r| == 1 + |a| + |b| && forall j :: 0 <= j < |a| ==> r[|a| - j] == a[j]
  {
    var r := [x] + Reverse(a) + Reverse(b);
    ReverseIndex(a);
    forall j | 0 <= j < |a|
      ensures r[|a| - j] == a[j]
    {
      assert r[|a| - j] == Reverse(a)[|a| - 1 - j];
    }
  }

  /** The same, for a sequence known to have that form. */
  lemma FrontPart<T>(r: seq<T>, x: T, a: seq<T>, b: seq<T>)
    requires r == [x] + Reverse(a) + Reverse(b)
    ensures |r| == 1 + |a| + |b| && forall j :: 0 <= j < |a| ==> r[|a| - j] == a[j]
  {
    FrontPartOf(x, a, b);
  }

  /** What follows the first element and `a` in `[x] + a + b` is `b`. */
  lemma Suffix<T>(r: seq<T>, x: T, a: seq<T>, b: seq<T>)
    requires r == [x] + a + b
    ensures |r| == 1 + |a| + |b| && r[1 + |a|..] == b
  {
    var p := [x] + a;
    assert r == p + b;
    assert forall i :: 0 <= i < |b| ==> r[|p|..][i] == (p + b)[|p| + i] == b[i];
  }

  /** The `j`-th position from the end of `r` holds `b[j]` when `r` ends in `b` reversed. */
  lemma FromEnd<T>(r: seq<T>, n: nat, b: seq<T>, j: nat)
    requires |r| == n + |b| && r[n..] == Reverse(b) && j < |b|
    ensures r[|r| - 1 - j] == b[j]
  {
    var k := |b| - 1 - j;
    assert r[|r| - 1 - j] == r[n..][k];
    ReverseAt(b, k);
    assert |b| - 1 - k == j;
  }

  /** The stores, reversed, follow the declaration of the split. */
  lemma SplitFront(base: nat, cur: Slots, vars: seq<Name>, temps: seq<Name>, value: Option<Expression>, isAssignment: bool)
    requires |vars| == |temps|
    ensures var r := SplitStatements(base, cur, vars, temps, value, isAssignment);
      var st := StoresOf(base, cur, vars, temps);
      |st| < |r| && forall j :: 0 <= j < |st| ==> r[|st| - j] == st[j]
  {
    FrontPart(SplitStatements(base, cur, vars, temps, value, isAssignment),
      VariableDeclaration(temps, value), StoresOf(base, cur, vars, temps), RebindingsOf(cur, vars, temps, isAssignment));
  }

  /** After the declaration come the stores of the escalated targets, the last target's first. */
  lemma SplitStores(base: nat, cur: Slots, vars: seq<Name>, temps: seq<Name>, value: Option<Expression>, isAssignment: bool)
    requires |vars| == |temps|
    ensures var r := SplitStatements(base, cur, vars, temps, value, isAssignment);
      var esc := EscalatedIndices(cur, vars);
      |esc| < |r| &&
      forall j :: 0 <= j < |esc| ==>
        r[|esc| - j] == MemoryStore(MemoryOffset(base, cur, vars[esc[j]]), Identifier(temps[esc[j]]))
  {
    SplitFront(base, cur, vars, temps, value, isAssignment);
    StoresOfContents(base, cur, vars, temps);
  }

  /** The rebindings, reversed, are the last statements of the split. */
  lemma SplitTail(base: nat, cur: Slots, vars: seq<Name>, temps: seq<Name>, value: Option<Expression>, isAssignment: bool)
    requires |vars| == |temps|
    ensures var r := SplitStatements(base, cur, vars, temps, value, isAssignment);
      var st := StoresOf(base, cur, vars, temps); var rb := RebindingsOf(cur, vars, temps, isAssignment);
      |r| == 1 + |st| + |rb| && r[1 + |st|..] == Reverse(rb)
  {
    var st := StoresOf(base, cur, vars, temps);
    Suffix(SplitStatements(base, cur, vars, temps, value, isAssignment),
      VariableDeclaration(temps, value), Reverse(st), Reverse(RebindingsOf(cur, vars, temps, isAssignment)));
  }

  /** The rebindings of the other targets close the split, the last target's first. */
  lemma SplitRebindings(base: nat, cur: Slots, vars: seq<Name>, temps: seq<Name>, value: Option<Expression>, isAssignment: bool)
    requires |vars| == |temps|
    ensures var r := SplitStatements(base, cur, vars, temps, value, isAssignment);
      var other := OtherIndices(cur, vars);
      |other| < |r| &&
      forall j :: 0 <= j < |other| ==>
        r[|r| - 1 - j] == Rebinding(isAssignment, vars[other[j]], temps[other[j]])
  {
    var r := SplitStatements(base, cur, vars, temps, value, isAssignment);
    var st := StoresOf(base, cur, vars, temps);
    var rb := RebindingsOf(cur, vars, temps, isAssignment);
    var other := OtherIndices(cur, vars);
    SplitTail(base, cur, vars, temps, value, isAssignment);
    RebindingsOfContents(cur, vars, temps, isAssignment);
    forall j | 0 <= j < |other|
      ensures r[|r| - 1 - j] == Rebinding(isAssignment, vars[other[j]], temps[other[j]])
    {
      FromEnd(r, 1 + |st|, rb, j);
    }
  }

  /** A split has one statement more than it has targets. */
  lemma SplitLength(base: nat, cur: Slots, vars: seq<Name>, temps: seq<Name>, value: Option<Expression>, isAssignment: bool)
    requires |vars| == |temps|
    ensures var r := SplitStatements(base, cur, vars, temps, value, isAssignment);
      |r| == 1 + |vars| && |r| == 1 + |EscalatedIndices(cur, vars)| + |OtherIndices(cur, vars)|
  {
    StoresOfContents(base, cur, vars, temps);
    RebindingsOfContents(cur, vars, temps, isAssignment);
    IndicesPartition(cur, vars);
  }

  /**
   * A split statement becomes exactly 1 + n statements: the declaration of the temporaries
   * bound to the value, then the stores of the escalated targets in reverse target order,
   * then the rebindings of the others in reverse target order.
   */
  lemma SplitShape(base: nat, cur: Slots, vars: seq<Name>, temps: seq<Name>, value: Option<Expression>, isAssignment: bool)
    requires |vars| == |temps|
    ensures var r := SplitStatements(base, cur, vars, temps, value, isAssignment);
      var esc := EscalatedIndices(cur, vars); var other := OtherIndices(cur, vars);
      && |r| == 1 + |vars|
      && |r| == 1 + |esc| + |other|
      && r[0] == VariableDeclaration(temps, value)
      && (forall j :: 0 <= j < |esc| ==>
            r[|esc| - j] == MemoryStore(MemoryOffset(base, cur, vars[esc[j]]), Identifier(temps[esc[j]])))
      && (forall j :: 0 <= j < |other| ==>
            r[|r| - 1 - j] == Rebinding(isAssignment, vars[other[j]], temps[other[j]]))
  {
    SplitLength(base, cur, vars, temps, value, isAssignment);
    SplitStores(base, cur, vars, temps, value, isAssignment);
    SplitRebindings(base, cur, vars, temps, value, isAssignment);
  }

  /** The value a statement derived from a split writes or binds. */
  function DerivedValue(s: Statement): Option<Expression>
  {
    match s
    case ExpressionStatement(FunctionCall(f, args)) => if f == MStore && |args| == 2 then Some(args[1]) else None
    case Assignment(xs, v) => Some(v)
    case VariableDeclaration(xs, v) => v
    case _ => None
  }

  /** Every statement after the declaration stores or rebinds one target, from that target's temporary. */
  lemma SplitElement(base: nat, cur: Slots, vars: seq<Name>, temps: seq<Name>, value: Option<Expression>, isAssignment: bool, k: nat)
    returns (i: nat)
    requires |vars| == |temps|
    requires 1 <= k < 1 + |vars|
    ensures i < |vars|
    ensures var r := SplitStatements(base, cur, vars, temps, value, isAssignment);
      |r| == 1 + |vars| &&
      ((vars[i] in cur && r[k] == MemoryStore(MemoryOffset(base, cur, vars[i]), Identifier(temps[i])))
       || (vars[i] !in cur && r[k] == Rebinding(isAssignment, vars[i], temps[i])))
  {
    SplitLength(base, cur, vars, temps, value, isAssignment);
    if k <= |EscalatedIndices(cur, vars)| {
      i := SplitStoreAt(base, cur, vars, temps, value, isAssignment, k);
    } else {
      i := SplitRebindingAt(base, cur, vars, temps, value, isAssignment, k);
    }
  }

  lemma SplitStoreAt(base: nat, cur: Slots, vars: seq<Name>, temps: seq<Name>, value: Option<Expression>, isAssignment: bool, k: nat)
    returns (i: nat)
    requires |vars| == |temps|
    requires 1 <= k <= |EscalatedIndices(cur, vars)| && k < 1 + |vars|
    ensures i < |vars| && vars[i] in cur
    ensures var r := SplitStatements(base, cur, vars, temps, value, isAssignment);
      |r| == 1 + |vars| && r[k] == MemoryStore(MemoryOffset(base, cur, vars[i]), Identifier(temps[i]))
  {
    var esc := EscalatedIndices(cur, vars);
    SplitLength(base, cur, vars, temps, value, isAssignment);
    SplitStores(base, cur, vars, temps, value, isAssignment);
    var j := |esc| - k;
    assert |esc| - j == k;
    i := esc[j];
  }

  lemma SplitRebindingAt(base: nat, cur: Slots, vars: seq<Name>, temps: seq<Name>, value: Option<Expression>, isAssignment: bool, k: nat)
    returns (i: nat)
    requires |vars| == |temps|
    requires |EscalatedIndices(cur, vars)| < k < 1 + |vars|
    ensures i < |vars| && vars[i] !in cur
    ensures var r := SplitStatements(base, cur, vars, temps, value, isAssignment);
      |r| == 1 + |vars| && r[k] == Rebinding(isAssignment, vars[i], temps[i])
  {
    var other := OtherIndices(cur, vars);
    SplitLength(base, cur, vars, temps, value, isAssignment);
    SplitRebindings(base, cur, vars, temps, value, isAssignment);
    var j := |vars| - k;
    assert 1 + |vars| - 1 - j == k;
    i := other[j];
  }

  /** The statement at position `k` of a split writes or binds a temporary. */
  lemma SplitDerivesTemporary(base: nat, cur: Slots, vars: seq<Name>, temps: seq<Name>, value: Option<Expression>, isAssignment: bool, k: nat)
    requires |vars| == |temps|
    requires 1 <= k < 1 + |vars|
    ensures var r := SplitStatements(base, cur, vars, temps, value, isAssignment);
      |r| == 1 + |vars| && exists i :: 0 <= i < |temps| && DerivedValue(r[k]) == Some(Identifier(temps[i]))
  {
    var r := SplitStatements(base, cur, vars, temps, value, isAssignment);
    var i := SplitElement(base, cur, vars, temps, value, isAssignment, k);
    assert DerivedValue(r[k]) == Some(Identifier(temps[i]));
  }

  /**
   * The original value is evaluated once: only the declaration of the temporaries holds it;
   * every statement after it writes or binds one of the temporaries.
   */
  lemma SplitEvaluatesValueOnce(base: nat, cur: Slots, vars: seq<Name>, temps: seq<Name>, value: Option<Expression>, isAssignment: bool)
    requires |vars| == |temps|
    ensures var r := SplitStatements(base, cur, vars, temps, value, isAssignment);
      |r| == 1 + |vars| && r[0] == VariableDeclaration(temps, value) &&
      forall k :: 1 <= k < |r| ==> exists i :: 0 <= i < |temps| && DerivedValue(r[k]) == Some(Identifier(temps[i]))
  {
    var r := SplitStatements(base, cur, vars, temps, value, isAssignment);
    SplitLength(base, cur, vars, temps, value, isAssignment);
    forall k | 1 <= k < |r|
      ensures exists i :: 0 <= i < |temps| && DerivedValue(r[k]) == Some(Identifier(temps[i]))
    {
      SplitDerivesTemporary(base, cur, vars, temps, value, isAssignment, k);
    }
  }

  /** A single escalated target becomes one store of the read-rewritten value, or of literal 0 when there is no value. */
  lemma SingleTargetBecomesStore(base: nat, memorySlots: SlotMap, c: Slots, s: Statement, used: set<Name>)
    requires s.Assignment? || s.VariableDeclaration?
    requires var xs := if s.Assignment? then s.variableNames else s.variables; |xs| == 1 && xs[0] in c
    ensures var x := if s.Assignment? then s.variableNames[0] else s.variables[0];
      var v := if s.Assignment? then Load(base, Some(c), s.value)
               else LoadOption(base, Some(c), s.initialValue).GetOr(Literal(0));
      MoveStatement(base, memorySlots, Some(c), s, used) == ([MemoryStore(MemoryOffset(base, c, x), v)], used)
  {
    var xs := if s.Assignment? then s.variableNames else s.variables;
    assert xs[0] in xs;
  }

  /**
   * A statement with no escalated target stays one statement of the same kind: its expressions
   * are loaded and its nested blocks moved in the same context, one after the other; a
   * function's body is moved in the function's own context.
   */
  lemma UnescalatedTargetsKeepShape(base: nat, memorySlots: SlotMap, cur: Option<Slots>, s: Statement, used: set<Name>)
    requires s.Assignment? ==> !ContainsEscalated(cur, s.variableNames)
    requires s.VariableDeclaration? ==> !ContainsEscalated(cur, s.variables)
    ensures var r := MoveStatement(base, memorySlots, cur, s, used).0;
      |r| == 1 &&
      (s.Assignment? ==> r[0] == Assignment(s.variableNames, Load(base, cur, s.value))) &&
      (s.VariableDeclaration? ==> r[0] == VariableDeclaration(s.variables, LoadOption(base, cur, s.initialValue))) &&
      (s.ExpressionStatement? ==> r[0] == ExpressionStatement(Load(base, cur, s.expression))) &&
      (s.FunctionDefinition? ==> r[0] == FunctionDefinition(s.name, s.parameters, s.returnVariables,
         MoveBlock(base, memorySlots, FunctionContext(memorySlots, s.name, s.parameters, s.returnVariables), s.body, used).0)) &&
      (s.If? ==> r[0] == If(Load(base, cur, s.condition), MoveBlock(base, memorySlots, cur, s.body, used).0)) &&
      (s.Switch? ==> r[0] == Switch(Load(base, cur, s.expression), MoveCases(base, memorySlots, cur, s.cases, used).0)) &&
      (s.BlockStatement? ==> r[0] == BlockStatement(MoveBlock(base, memorySlots, cur, s.block, used).0)) &&
      (s.ForLoop? ==>
         var (pre', used1) := MoveBlock(base, memorySlots, cur, s.pre, used);
         var (post', used2) := MoveBlock(base, memorySlots, cur, s.post, used1);
         r[0] == ForLoop(pre', Load(base, cur, s.condition), post', MoveBlock(base, memorySlots, cur, s.body, used2).0)) &&
      (s.Break? || s.Continue? || s.Leave? ==> r[0] == s)
  {
  }

  // ----- blocks -----

  /** A per-statement rewrite applied left to right, each step seeing the names the earlier ones left. */
  function Thread(step: (Statement, set<Name>) -> (seq<Statement>, set<Name>), ss: seq<Statement>, used: set<Name>): (seq<Statement>, set<Name>)
  {
    if ss == [] then ([], used)
    else
      var init := Thread(step, ss[..|ss| - 1], used);
      var last := step(ss[|ss| - 1], init.1);
      (init.0 + last.0, last.1)
  }

  lemma {:induction false} ThreadAppend(step: (Statement, set<Name>) -> (seq<Statement>, set<Name>), a: seq<Statement>, b: seq<Statement>, used: set<Name>)
    ensures var ra := Thread(step, a, used);
      var rb := Thread(step, b, ra.1);
      Thread(step, a + b, used) == (ra.0 + rb.0, rb.1)
    decreases |b|
  {
    var ra := Thread(step, a, used);
    if b == [] {
      assert a + b == a;
      assert ra.0 + [] == ra.0;
    } else {
      var n := |b| - 1;
      assert (a + b)[..|a + b| - 1] == a + b[..n];
      assert (a + b)[|a + b| - 1] == b[n];
      ThreadAppend(step, a, b[..n], used);
      var rb0 := Thread(step, b[..n], ra.1);
      var rl := step(b[n], rb0.1);
      assert ra.0 + (rb0.0 + rl.0) == (ra.0 + rb0.0) + rl.0;
    }
  }

  /** The list rewrite is the statement rewrite threaded through the list. */
  lemma {:induction false} MoveStatementsIsThread(base: nat, memorySlots: SlotMap, cur: Option<Slots>, ss: seq<Statement>, used: set<Name>)
    ensures MoveStatements(base, memorySlots, cur, ss, used) == Thread((s, u) => MoveStatement(base, memorySlots, cur, s, u), ss, used)
    decreases |ss|
  {
    if ss != [] {
      MoveStatementsIsThread(base, memorySlots, cur, ss[..|ss| - 1], used);
    }
  }

  /** Rewriting a statement list is rewriting its parts one after the other: every statement keeps its position. */
  lemma MoveStatementsAppend(base: nat, memorySlots: SlotMap, cur: Option<Slots>, a: seq<Statement>, b: seq<Statement>, used: set<Name>)
    ensures var ra := MoveStatements(base, memorySlots, cur, a, used);
      var rb := MoveStatements(base, memorySlots, cur, b, ra.1);
      MoveStatements(base, memorySlots, cur, a + b, used) == (ra.0 + rb.0, rb.1)
  {
    var step := (s, u) => MoveStatement(base, memorySlots, cur, s, u);
    MoveStatementsIsThread(base, memorySlots, cur, a, used);
    MoveStatementsIsThread(base, memorySlots, cur, b, MoveStatements(base, memorySlots, cur, a, used).1);
    MoveStatementsIsThread(base, memorySlots, cur, a + b, used);
    ThreadAppend(step, a, b, used);
  }

  /** No function definition in the list, at any depth, gets a context of its own. */
  predicate NoContextIn(memorySlots: SlotMap, ss: seq<Statement>)
    decreases ss
  {
    forall i :: 0 <= i < |ss| ==> NoContextInStatement(memorySlots, ss[i])
  }

  predicate NoContextInStatement(memorySlots: SlotMap, s: Statement)
    decreases s
  {
    match s
    case FunctionDefinition(f, ps, rs, body) =>
      FunctionContext(memorySlots, f, ps, rs).None? && NoContextIn(memorySlots, body.statements)
    case If(_, body) => NoContextIn(memorySlots, body.statements)
    case Switch(_, cs) => forall i :: 0 <= i < |cs| ==> NoContextIn(memorySlots, cs[i].body.statements)
    case ForLoop(pre, _, post, body) =>
      NoContextIn(memorySlots, pre.statements) && NoContextIn(memorySlots, post.statements)
      && NoContextIn(memorySlots, body.statements)
    case BlockStatement(b) => NoContextIn(memorySlots, b.statements)
    case _ => true
  }

  /**
   * Outside any function (a null context), the mover rewrites nothing but the bodies of the
   * functions that get a context: when none does, at any depth, the code and the used names
   * stay as they are, whatever the slots.
   */
  lemma {:induction false} NoContextNoChange(base: nat, memorySlots: SlotMap, ss: seq<Statement>, used: set<Name>)
    requires NoContextIn(memorySlots, ss)
    ensures MoveStatements(base, memorySlots, None, ss, used) == (ss, used)
    decreases ss
  {
    if ss != [] {
      var n := |ss| - 1;
      assert forall i :: 0 <= i < n ==> ss[..n][i] == ss[i];
      NoContextNoChange(base, memorySlots, ss[..n], used);
      assert ss[n] == ss[|ss| - 1];
      NoContextStatementNoChange(base, memorySlots, ss[n], used);
      assert ss[..n] + [ss[n]] == ss;
    }
  }

  lemma {:induction false} NoContextStatementNoChange(base: nat, memorySlots: SlotMap, s: Statement, used: set<Name>)
    requires NoContextInStatement(memorySlots, s)
    ensures MoveDefault(base, memorySlots, None, s, used) == (s, used)
    ensures MoveStatement(base, memorySlots, None, s, used) == ([s], used)
    decreases s
  {
    match s
    case ExpressionStatement(e) => LoadUnchanged(base, None, e);
    case Assignment(xs, v) => LoadUnchanged(base, None, v);
    case VariableDeclaration(xs, v) => if v.Some? { LoadUnchanged(base, None, v.value); }
    case FunctionDefinition(f, ps, rs, body) => NoContextNoChange(base, memorySlots, body.statements, used);
    case If(c, body) => LoadUnchanged(base, None, c); NoContextNoChange(base, memorySlots, body.statements, used);
    case Switch(e, cs) => LoadUnchanged(base, None, e); NoContextCasesNoChange(base, memorySlots, cs, used);
    case ForLoop(pre, c, post, body) =>
      LoadUnchanged(base, None, c);
      NoContextNoChange(base, memorySlots, pre.statements, used);
      NoContextNoChange(base, memorySlots, post.statements, used);
      NoContextNoChange(base, memorySlots, body.statements, used);
    case BlockStatement(b) => NoContextNoChange(base, memorySlots, b.statements, used);
    case Break =>
    case Continue =>
    case Leave =>
  }

  lemma {:induction false} NoContextCasesNoChange(base: nat, memorySlots: SlotMap, cs: seq<Case>, used: set<Name>)
    requires forall i :: 0 <= i < |cs| ==> NoContextIn(memorySlots, cs[i].body.statements)
    ensures MoveCases(base, memorySlots, None, cs, used) == (cs, used)
    decreases cs
  {
    if cs != [] {
      var n := |cs| - 1;
      assert forall i :: 0 <= i < n ==> cs[..n][i] == cs[i];
      NoContextCasesNoChange(base, memorySlots, cs[..n], used);
      NoContextCaseNoChange(base, memorySlots, cs[n], used);
      assert cs[..n] + [cs[n]] == cs;
    }
  }

  lemma {:induction false} NoContextCaseNoChange(base: nat, memorySlots: SlotMap, c: Case, used: set<Name>)
    requires NoContextIn(memorySlots, c.body.statements)
    ensures MoveCase(base, memorySlots, None, c, used) == (c, used)
    decreases c
  {
    NoContextNoChange(base, memorySlots, c.body.statements, used);
  }

  // ----- the read/write invariant -----

  /** A statement reads and writes none of `vars` directly, outside nested function definitions. */
  ghost predicate FreeOf(vars: set<Name>, s: Statement)
    decreases s
  {
    match s
    case ExpressionStatement(e) => IdentifierReads(e) !! vars
    case Assignment(xs, v) => Elements(xs) !! vars && IdentifierReads(v) !! vars
    case VariableDeclaration(xs, v) => Elements(xs) !! vars && (v.Some? ==> IdentifierReads(v.value) !! vars)
    case FunctionDefinition(_, _, _, _) => true
    case If(c, body) => IdentifierReads(c) !! vars && ListFreeOf(vars, body.statements)
    case Switch(e, cs) => IdentifierReads(e) !! vars && forall i :: 0 <= i < |cs| ==> CaseFreeOf(vars, cs[i])
    case ForLoop(pre, c, post, body) =>
      ListFreeOf(vars, pre.statements) && IdentifierReads(c) !! vars
      && ListFreeOf(vars, post.statements) && ListFreeOf(vars, body.statements)
    case BlockStatement(b) => ListFreeOf(vars, b.statements)
    case Break => true
    case Continue => true
    case Leave => true
  }

  ghost predicate CaseFreeOf(vars: set<Name>, c: Case)
    decreases c
  {
    ListFreeOf(vars, c.body.statements)
  }

  ghost predicate ListFreeOf(vars: set<Name>, ss: seq<Statement>)
    decreases ss
  {
    forall i :: 0 <= i < |ss| ==> FreeOf(vars, ss[i])
  }

  /**
   * In an active context, after the move no statement reads or writes an escalated variable
   * any more (outside nested functions, which have their own context): every read became a
   * load and every write a store. The dispenser must know the escalated names, so that no
   * temporary is named like one.
   */
  lemma {:induction false} MovedStatementsFreeOfEscalated(base: nat, memorySlots: SlotMap, c: Slots, ss: seq<Statement>, used: set<Name>)
    requires c.Keys <= used
    ensures ListFreeOf(c.Keys, MoveStatements(base, memorySlots, Some(c), ss, used).0)
    decreases ss
  {
    if ss != [] {
      var n := |ss| - 1;
      var (init, used1) := MoveStatements(base, memorySlots, Some(c), ss[..n], used);
      var (last, used2) := MoveStatement(base, memorySlots, Some(c), ss[n], used1);
      MovedStatementsFreeOfEscalated(base, memorySlots, c, ss[..n], used);
      MovedStatementFreeOfEscalated(base, memorySlots, c, ss[n], used1);
      assert forall i :: 0 <= i < |init + last| ==> (init + last)[i] == if i < |init| then init[i] else last[i - |init|];
    }
  }

  lemma {:induction false} MovedStatementFreeOfEscalated(base: nat, memorySlots: SlotMap, c: Slots, s: Statement, used: set<Name>)
    requires c.Keys <= used
    ensures ListFreeOf(c.Keys, MoveStatement(base, memorySlots, Some(c), s, used).0)
    decreases s, 1
  {
    if s.Assignment? && ContainsEscalated(Some(c), s.variableNames) {
      LoadReads(base, c, s.value);
      RewriteFreeOfEscalated(base, c, s.variableNames, Some(Load(base, Some(c), s.value)), true, used);
    } else if s.VariableDeclaration? && ContainsEscalated(Some(c), s.variables) {
      if s.initialValue.Some? { LoadReads(base, c, s.initialValue.value); }
      RewriteFreeOfEscalated(base, c, s.variables, LoadOption(base, Some(c), s.initialValue), false, used);
    } else {
      MovedDefaultFreeOfEscalated(base, memorySlots, c, s, used);
    }
  }

  lemma {:induction false} MovedDefaultFreeOfEscalated(base: nat, memorySlots: SlotMap, c: Slots, s: Statement, used: set<Name>)
    requires c.Keys <= used
    requires s.Assignment? ==> !ContainsEscalated(Some(c), s.variableNames)
    requires s.VariableDeclaration? ==> !ContainsEscalated(Some(c), s.variables)
    ensures FreeOf(c.Keys, MoveDefault(base, memorySlots, Some(c), s, used).0)
    decreases s, 0
  {
    var cur := Some(c);
    match s
    case ExpressionStatement(e) => LoadReads(base, c, e);
    case Assignment(xs, v) => LoadReads(base, c, v);
    case VariableDeclaration(xs, v) => if v.Some? { LoadReads(base, c, v.value); }
    case FunctionDefinition(f, ps, rs, body) =>
    case If(cond, body) =>
      LoadReads(base, c, cond);
      MovedStatementsFreeOfEscalated(base, memorySlots, c, body.statements, used);
    case Switch(e, cs) =>
      LoadReads(base, c, e);
      MovedCasesFreeOfEscalated(base, memorySlots, c, cs, used);
      var cs' := MoveCases(base, memorySlots, Some(c), cs, used).0;
      assert MoveDefault(base, memorySlots, Some(c), s, used).0 == Switch(Load(base, Some(c), e), cs');
    case ForLoop(pre, cond, post, body) =>
      LoadReads(base, c, cond);
      var (pre', used1) := MoveBlock(base, memorySlots, cur, pre, used);
      var (post', used2) := MoveBlock(base, memorySlots, cur, post, used1);
      MovedStatementsFreeOfEscalated(base, memorySlots, c, pre.statements, used);
      MovedStatementsFreeOfEscalated(base, memorySlots, c, post.statements, used1);
      MovedStatementsFreeOfEscalated(base, memorySlots, c, body.statements, used2);
    case BlockStatement(b) =>
      MovedStatementsFreeOfEscalated(base, memorySlots, c, b.statements, used);
    case Break =>
    case Continue =>
    case Leave =>
  }

  lemma {:induction false} MovedCasesFreeOfEscalated(base: nat, memorySlots: SlotMap, c: Slots, cs: seq<Case>, used: set<Name>)
    requires c.Keys <= used
    ensures forall i :: 0 <= i < |cs| ==> CaseFreeOf(c.Keys, MoveCases(base, memorySlots, Some(c), cs, used).0[i])
    decreases cs
  {
    if cs != [] {
      var n := |cs| - 1;
      var init := MoveCases(base, memorySlots, Some(c), cs[..n], used);
      var last := MoveCase(base, memorySlots, Some(c), cs[n], init.1);
      MovedCasesFreeOfEscalated(base, memorySlots, c, cs[..n], used);
      MovedCaseFreeOfEscalated(base, memorySlots, c, cs[n], init.1);
      var r := MoveCases(base, memorySlots, Some(c), cs, used).0;
      assert r == init.0 + [last.0];
      forall i | 0 <= i < |r|
        ensures CaseFreeOf(c.Keys, r[i])
      {
        if i < |init.0| {
          assert r[i] == init.0[i];
        } else {
          assert r[i] == last.0;
        }
      }
    }
  }

  lemma {:induction false} MovedCaseFreeOfEscalated(base: nat, memorySlots: SlotMap, c: Slots, cs: Case, used: set<Name>)
    requires c.Keys <= used
    ensures CaseFreeOf(c.Keys, MoveCase(base, memorySlots, Some(c), cs, used).0)
    decreases cs
  {
    MovedStatementsFreeOfEscalated(base, memorySlots, c, cs.body.statements, used);
  }

  /** The replacement of a statement with an escalated target touches no escalated variable. */
  lemma RewriteFreeOfEscalated(base: nat, c: Slots, vars: seq<Name>, value: Option<Expression>, isAssignment: bool, used: set<Name>)
    requires c.Keys <= used
    requires exists x :: x in vars && x in c
    requires value.Some? ==> IdentifierReads(value.value) !! c.Keys
    ensures ListFreeOf(c.Keys, RewriteTargets(base, c, vars, value, isAssignment, used).0)
  {
    if |vars| == 1 {
      PairReads(Literal(MemoryOffset(base, c, vars[0])), value.GetOr(Literal(0)));
    } else {
      var names := FreshNames(vars, used);
      SplitFreeOfEscalated(base, c, vars, names.0, value, isAssignment, used);
    }
  }

  lemma SplitFreeOfEscalated(base: nat, c: Slots, vars: seq<Name>, temps: seq<Name>, value: Option<Expression>, isAssignment: bool, used: set<Name>)
    requires c.Keys <= used
    requires |vars| == |temps| && forall i :: 0 <= i < |temps| ==> temps[i] !in used
    requires value.Some? ==> IdentifierReads(value.value) !! c.Keys
    ensures ListFreeOf(c.Keys, SplitStatements(base, c, vars, temps, value, isAssignment))
  {
    var r := SplitStatements(base, c, vars, temps, value, isAssignment);
    SplitShape(base, c, vars, temps, value, isAssignment);
    forall k | 0 <= k < |r|
      ensures FreeOf(c.Keys, r[k])
    {
      if k == 0 {
        assert Elements(temps) !! c.Keys;
      } else {
        var i := SplitElement(base, c, vars, temps, value, isAssignment, k);
        assert temps[i] !in c.Keys;
        if vars[i] in c {
          StoreFreeOf(c.Keys, MemoryOffset(base, c, vars[i]), temps[i]);
        } else {
          RebindingFreeOf(c.Keys, isAssignment, vars[i], temps[i]);
        }
      }
    }
  }

  lemma StoreFreeOf(vars: set<Name>, offset: nat, t: Name)
    requires t !in vars
    ensures FreeOf(vars, MemoryStore(offset, Identifier(t)))
  {
    PairReads(Literal(offset), Identifier(t));
  }

  lemma RebindingFreeOf(vars: set<Name>, isAssignment: bool, x: Name, t: Name)
    requires x !in vars && t !in vars
    ensures FreeOf(vars, Rebinding(isAssignment, x, t))
  {
    assert Elements([x]) == {x};
  }
}
