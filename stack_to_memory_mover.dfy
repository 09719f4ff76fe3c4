/**
 * The stack-to-memory mover: given, per function, the memory slot of each variable that has to
 * leave the stack, it turns every read of such a variable into `mload(offset)` and every write
 * into `mstore(offset, value)`, at `offset = reservedMemory + 32 * slot`.
 *
 * The first half of the module specifies the rewrite as pure functions that thread the set of
 * names the dispenser has handed out; the class at the end is the traversal itself, whose
 * methods are proved to compute exactly these functions.
 */
module StackToMemoryMover {
  import opened Wrappers
  import opened Yul
  import opened NameDispenser

  /** One function's escalated variables and their slots. */
  type Slots = map<Name, nat>
  /** For each function, its escalated variables and their slots. */
  type SlotMap = map<Name, Slots>

  const MStore: Name := "mstore"
  const MLoad: Name := "mload"

  /** What the mover needs to know about the step context's dialect. */
  datatype Dialect = Dialect(isEVMDialect: bool, providesObjectAccess: bool)

  function MemoryOffset(base: nat, slots: Slots, x: Name): nat
    requires x in slots
  {
    base + 32 * slots[x]
  }

  /** `mstore(Literal(offset), value)`, as `appendMemoryStore` builds it. */
  function MemoryStore(offset: nat, value: Expression): Statement
  {
    ExpressionStatement(FunctionCall(MStore, [Literal(offset), value]))
  }

  function MemoryLoad(offset: nat): Expression
  {
    FunctionCall(MLoad, [Literal(offset)])
  }

  /**
   * The context a function body is rewritten in: the function's slots, unless it has none or
   * one of its parameters or return variables is itself escalated.
   */
  function FunctionContext(memorySlots: SlotMap, f: Name, params: seq<Name>, rets: seq<Name>): Option<Slots>
  {
    if f in memorySlots && forall x :: x in params + rets ==> x !in memorySlots[f] then Some(memorySlots[f]) else None
  }

  predicate Escalated(cur: Option<Slots>, x: Name)
  {
    cur.Some? && x in cur.value
  }

  /** `containsVariableNeedingEscalation`: some target has a slot in the active context. */
  predicate ContainsEscalated(cur: Option<Slots>, xs: seq<Name>)
  {
    exists x :: x in xs && Escalated(cur, x)
  }

  // ----- read rewriting (`visit(Expression&)`) -----

  function Load(base: nat, cur: Option<Slots>, e: Expression): Expression
  {
    match e
    case Identifier(x) => if Escalated(cur, x) then MemoryLoad(MemoryOffset(base, cur.value, x)) else e
    case Literal(_) => e
    case FunctionCall(f, args) => FunctionCall(f, LoadList(base, cur, args))
  }

  function LoadList(base: nat, cur: Option<Slots>, es: seq<Expression>): (r: seq<Expression>)
    ensures |r| == |es|
  {
    if es == [] then [] else LoadList(base, cur, es[..|es| - 1]) + [Load(base, cur, es[|es| - 1])]
  }

  function LoadOption(base: nat, cur: Option<Slots>, e: Option<Expression>): Option<Expression>
  {
    if e.Some? then Some(Load(base, cur, e.value)) else None
  }

  /** The variables an expression reads: its identifiers, not the names of called functions. */
  function IdentifierReads(e: Expression): set<Name>
  {
    match e
    case Identifier(x) => {x}
    case Literal(_) => {}
    case FunctionCall(_, args) => IdentifierListReads(args)
  }

  function IdentifierListReads(es: seq<Expression>): set<Name>
  {
    if es == [] then {} else IdentifierListReads(es[..|es| - 1]) + IdentifierReads(es[|es| - 1])
  }

  // ----- write rewriting (`rewriteAssignmentOrVariableDeclaration`) -----

  /** What a non-escalated target `x` is bound to its temporary `t` by. */
  function Rebinding(isAssignment: bool, x: Name, t: Name): Statement
  {
    if isAssignment then Assignment([x], Identifier(t)) else VariableDeclaration([x], Some(Identifier(t)))
  }

  /** The stores for the escalated targets, in target order. */
  function StoresOf(base: nat, cur: Slots, vars: seq<Name>, temps: seq<Name>): seq<Statement>
    requires |vars| == |temps|
    decreases |vars|
  {
    if vars == [] then []
    else
      var n := |vars| - 1;
      StoresOf(base, cur, vars[..n], temps[..n])
        + (if vars[n] in cur then [MemoryStore(MemoryOffset(base, cur, vars[n]), Identifier(temps[n]))] else [])
  }

  /** The rebindings of the other targets, in target order. */
  function RebindingsOf(cur: Slots, vars: seq<Name>, temps: seq<Name>, isAssignment: bool): seq<Statement>
    requires |vars| == |temps|
    decreases |vars|
  {
    if vars == [] then []
    else
      var n := |vars| - 1;
      RebindingsOf(cur, vars[..n], temps[..n], isAssignment)
        + (if vars[n] !in cur then [Rebinding(isAssignment, vars[n], temps[n])] else [])
  }

  function Reverse<T>(s: seq<T>): (r: seq<T>)
    ensures |r| == |s|
  {
    if s == [] then [] else [s[|s| - 1]] + Reverse(s[..|s| - 1])
  }

  /** The i-th element of the reverse is the i-th from the end. */
  lemma {:induction false} ReverseAt<T>(s: seq<T>, i: nat)
    requires i < |s|
    ensures Reverse(s)[i] == s[|s| - 1 - i]
    decreases |s|
  {
    var n := |s| - 1;
    if i > 0 {
      ReverseAt(s[..n], i - 1);
      assert Reverse(s)[i] == Reverse(s[..n])[i - 1];
      assert s[..n][n - i] == s[n - i];
    }
  }

  lemma ReverseIndex<T>(s: seq<T>)
    ensures forall i :: 0 <= i < |s| ==> Reverse(s)[i] == s[|s| - 1 - i]
  {
    forall i | 0 <= i < |s|
      ensures Reverse(s)[i] == s[|s| - 1 - i]
    {
      ReverseAt(s, i);
    }
  }

  /**
   * A statement with several targets, split: one declaration of the temporaries bound to the
   * value, the stores in reverse target order, then the rebindings in reverse target order.
   */
  function SplitStatements(base: nat, cur: Slots, vars: seq<Name>, temps: seq<Name>, value: Option<Expression>, isAssignment: bool): seq<Statement>
    requires |vars| == |temps|
  {
    [VariableDeclaration(temps, value)] + Reverse(StoresOf(base, cur, vars, temps)) + Reverse(RebindingsOf(cur, vars, temps, isAssignment))
  }

  /** The replacement for an assignment or declaration with an escalated target; `value` is already read-rewritten. */
  function RewriteTargets(base: nat, cur: Slots, vars: seq<Name>, value: Option<Expression>, isAssignment: bool, used: set<Name>): (r: (seq<Statement>, set<Name>))
    requires exists x :: x in vars && x in cur
    ensures used <= r.1
  {
    if |vars| == 1 then
      ([MemoryStore(MemoryOffset(base, cur, vars[0]), value.GetOr(Literal(0)))], used)
    else
      var (temps, used') := FreshNames(vars, used);
      (SplitStatements(base, cur, vars, temps, value, isAssignment), used')
  }

  // ----- the traversal (`operator()(Block&)`, `operator()(FunctionDefinition&)`, ASTModifier) -----

  /** A statement list rewritten in context `cur`; `used` grows with every temporary. */
  function MoveStatements(base: nat, memorySlots: SlotMap, cur: Option<Slots>, ss: seq<Statement>, used: set<Name>): (r: (seq<Statement>, set<Name>))
    ensures used <= r.1
    decreases ss
  {
    if ss == [] then ([], used)
    else
      var (init, used1) := MoveStatements(base, memorySlots, cur, ss[..|ss| - 1], used);
      var (last, used2) := MoveStatement(base, memorySlots, cur, ss[|ss| - 1], used1);
      (init + last, used2)
  }

  function MoveBlock(base: nat, memorySlots: SlotMap, cur: Option<Slots>, b: Block, used: set<Name>): (r: (Block, set<Name>))
    ensures used <= r.1
    decreases b
  {
    var (ss, used') := MoveStatements(base, memorySlots, cur, b.statements, used);
    (Block(ss), used')
  }

  /** The statements one statement is replaced by, and the used names afterwards. */
  function MoveStatement(base: nat, memorySlots: SlotMap, cur: Option<Slots>, s: Statement, used: set<Name>): (r: (seq<Statement>, set<Name>))
    ensures used <= r.1
    decreases s, 1
  {
    if s.Assignment? && ContainsEscalated(cur, s.variableNames) then
      RewriteTargets(base, cur.value, s.variableNames, Some(Load(base, cur, s.value)), true, used)
    else if s.VariableDeclaration? && ContainsEscalated(cur, s.variables) then
      RewriteTargets(base, cur.value, s.variables, LoadOption(base, cur, s.initialValue), false, used)
    else
      var (s', used') := MoveDefault(base, memorySlots, cur, s, used);
      ([s'], used')
  }

  /** The default traversal of a statement: reads rewritten, nested blocks and functions moved, shape kept. */
  function MoveDefault(base: nat, memorySlots: SlotMap, cur: Option<Slots>, s: Statement, used: set<Name>): (r: (Statement, set<Name>))
    ensures used <= r.1
    decreases s, 0
  {
    match s
    case ExpressionStatement(e) => (ExpressionStatement(Load(base, cur, e)), used)
    case Assignment(xs, v) => (Assignment(xs, Load(base, cur, v)), used)
    case VariableDeclaration(xs, v) => (VariableDeclaration(xs, LoadOption(base, cur, v)), used)
    case FunctionDefinition(f, ps, rs, body) =>
      var (body', used') := MoveBlock(base, memorySlots, FunctionContext(memorySlots, f, ps, rs), body, used);
      (FunctionDefinition(f, ps, rs, body'), used')
    case If(c, body) =>
      var (body', used') := MoveBlock(base, memorySlots, cur, body, used);
      (If(Load(base, cur, c), body'), used')
    case Switch(e, cs) =>
      var (cs', used') := MoveCases(base, memorySlots, cur, cs, used);
      (Switch(Load(base, cur, e), cs'), used')
    case ForLoop(pre, c, post, body) =>
      var (pre', used1) := MoveBlock(base, memorySlots, cur, pre, used);
      var (post', used2) := MoveBlock(base, memorySlots, cur, post, used1);
      var (body', used3) := MoveBlock(base, memorySlots, cur, body, used2);
      (ForLoop(pre', Load(base, cur, c), post', body'), used3)
    case BlockStatement(b) =>
      var (b', used') := MoveBlock(base, memorySlots, cur, b, used);
      (BlockStatement(b'), used')
    case Break => (s, used)
    case Continue => (s, used)
    case Leave => (s, used)
  }

  function MoveCases(base: nat, memorySlots: SlotMap, cur: Option<Slots>, cs: seq<Case>, used: set<Name>): (r: (seq<Case>, set<Name>))
    ensures used <= r.1
    ensures |r.0| == |cs|
    decreases cs
  {
    if cs == [] then ([], used)
    else
      var (init, used1) := MoveCases(base, memorySlots, cur, cs[..|cs| - 1], used);
      var (last, used2) := MoveCase(base, memorySlots, cur, cs[|cs| - 1], used1);
      (init + [last], used2)
  }

  function MoveCase(base: nat, memorySlots: SlotMap, cur: Option<Slots>, c: Case, used: set<Name>): (r: (Case, set<Name>))
    ensures used <= r.1
    decreases c
  {
    var (body', used') := MoveBlock(base, memorySlots, cur, c.body, used);
    (Case(c.value, body'), used')
  }

  // ----- the mover object -----

  lemma SplitPartsSnoc(base: nat, cur: Slots, vars: seq<Name>, temps: seq<Name>, x: Name, t: Name, isAssignment: bool)
    requires |vars| == |temps|
    ensures StoresOf(base, cur, vars + [x], temps + [t])
         == StoresOf(base, cur, vars, temps) + (if x in cur then [MemoryStore(MemoryOffset(base, cur, x), Identifier(t))] else [])
    ensures RebindingsOf(cur, vars + [x], temps + [t], isAssignment)
         == RebindingsOf(cur, vars, temps, isAssignment) + (if x !in cur then [Rebinding(isAssignment, x, t)] else [])
  {
    assert (vars + [x])[..|vars|] == vars;
    assert (temps + [t])[..|temps|] == temps;
  }

  class StackToMemoryMover {
    const reservedMemory: nat
    const memorySlots: SlotMap
    const nameDispenser: NameDispenser
    /** `m_currentFunctionMemorySlots`; `None` is `nullptr`. */
    var currentFunctionMemorySlots: Option<Slots>

    /** The mover may only run on the EVM dialect with object access. */
    constructor (dialect: Dialect, nameDispenser: NameDispenser, reservedMemory: nat, memorySlots: SlotMap)
      requires dialect.isEVMDialect && dialect.providesObjectAccess
      ensures this.reservedMemory == reservedMemory && this.memorySlots == memorySlots
      ensures this.nameDispenser == nameDispenser && currentFunctionMemorySlots == None
    {
      this.reservedMemory := reservedMemory;
      this.memorySlots := memorySlots;
      this.nameDispenser := nameDispenser;
      currentFunctionMemorySlots := None;
    }

    /** `getMemoryOffset`: only defined in an active context, for a variable of that context. */
    function GetMemoryOffset(x: Name): (offset: nat)
      reads this
      requires currentFunctionMemorySlots.Some? && x in currentFunctionMemorySlots.value
      ensures offset >= reservedMemory && offset - reservedMemory == 32 * currentFunctionMemorySlots.value[x]
    {
      MemoryOffset(reservedMemory, currentFunctionMemorySlots.value, x)
    }

    predicate ContainsVariableNeedingEscalation(xs: seq<Name>)
      reads this
    {
      ContainsEscalated(currentFunctionMemorySlots, xs)
    }

    /** `operator()(FunctionDefinition&)`: the body is moved in the function's own context, then the caller's is restored. */
    method VisitFunctionDefinition(f: Name, params: seq<Name>, rets: seq<Name>, body: Block) returns (body': Block)
      modifies this, nameDispenser
      ensures currentFunctionMemorySlots == old(currentFunctionMemorySlots)
      ensures (body', nameDispenser.usedNames)
           == MoveBlock(reservedMemory, memorySlots, FunctionContext(memorySlots, f, params, rets), body, old(nameDispenser.usedNames))
      decreases body, 1
    {
      var saved := currentFunctionMemorySlots;
      if f in memorySlots {
        currentFunctionMemorySlots := Some(memorySlots[f]);
        var all := params + rets;
        var i := 0;
        while i < |all|
          invariant 0 <= i <= |all|
          invariant currentFunctionMemorySlots == Some(memorySlots[f])
          invariant forall j :: 0 <= j < i ==> all[j] !in memorySlots[f]
          modifies this
        {
          if all[i] in memorySlots[f] {
            currentFunctionMemorySlots := None;
            break;
          }
          i := i + 1;
        }
      } else {
        currentFunctionMemorySlots := None;
      }
      assert currentFunctionMemorySlots == FunctionContext(memorySlots, f, params, rets);
      body' := VisitBlock(body);
      currentFunctionMemorySlots := saved;
    }

    /** `operator()(Block&)`: every statement is replaced by what it is rewritten to, in place. */
    method VisitBlock(b: Block) returns (b': Block)
      modifies this, nameDispenser
      ensures currentFunctionMemorySlots == old(currentFunctionMemorySlots)
      ensures (b', nameDispenser.usedNames)
           == MoveBlock(reservedMemory, memorySlots, old(currentFunctionMemorySlots), b, old(nameDispenser.usedNames))
      decreases b, 0
    {
      var ss := b.statements;
      var result: seq<Statement> := [];
      if currentFunctionMemorySlots.None? {
        // without an active context only the default traversal applies
        for i := 0 to |ss|
          invariant currentFunctionMemorySlots == old(currentFunctionMemorySlots)
          invariant (result, nameDispenser.usedNames)
                 == MoveStatements(reservedMemory, memorySlots, old(currentFunctionMemorySlots), ss[..i], old(nameDispenser.usedNames))
        {
          assert ss[..i + 1][..i] == ss[..i];
          var s' := DefaultVisit(ss[i]);
          result := result + [s'];
        }
      } else {
        for i := 0 to |ss|
          invariant currentFunctionMemorySlots == old(currentFunctionMemorySlots)
          invariant (result, nameDispenser.usedNames)
                 == MoveStatements(reservedMemory, memorySlots, old(currentFunctionMemorySlots), ss[..i], old(nameDispenser.usedNames))
        {
          assert ss[..i + 1][..i] == ss[..i];
          var replacement := VisitStatement(ss[i]);
          result := result + replacement;
        }
      }
      assert ss[..|ss|] == ss;
      b' := Block(result);
    }

    /** The statement visitor of `iterateReplacing` in an active context. */
    method VisitStatement(s: Statement) returns (r: seq<Statement>)
      requires currentFunctionMemorySlots.Some?
      modifies this, nameDispenser
      ensures currentFunctionMemorySlots == old(currentFunctionMemorySlots)
      ensures (r, nameDispenser.usedNames)
           == MoveStatement(reservedMemory, memorySlots, old(currentFunctionMemorySlots), s, old(nameDispenser.usedNames))
      decreases s, 1
    {
      if s.Assignment? && ContainsVariableNeedingEscalation(s.variableNames) {
        var value := VisitExpression(s.value);
        r := RewriteAssignmentOrVariableDeclaration(s.variableNames, Some(value), true);
      } else if s.VariableDeclaration? && ContainsVariableNeedingEscalation(s.variables) {
        var value: Option<Expression> := None;
        if s.initialValue.Some? {
          var v := VisitExpression(s.initialValue.value);
          value := Some(v);
        }
        r := RewriteAssignmentOrVariableDeclaration(s.variables, value, false);
      } else {
        var s' := DefaultVisit(s);
        r := [s'];
      }
    }

    /** `rewriteAssignmentOrVariableDeclaration`; `value` has had its reads rewritten. */
    method RewriteAssignmentOrVariableDeclaration(vars: seq<Name>, value: Option<Expression>, isAssignment: bool) returns (r: seq<Statement>)
      requires currentFunctionMemorySlots.Some? && ContainsVariableNeedingEscalation(vars)
      modifies nameDispenser
      ensures (r, nameDispenser.usedNames)
           == RewriteTargets(reservedMemory, currentFunctionMemorySlots.value, vars, value, isAssignment, old(nameDispenser.usedNames))
    {
      var cur := currentFunctionMemorySlots.value;
      if |vars| == 1 {
        r := [MemoryStore(GetMemoryOffset(vars[0]), value.GetOr(Literal(0)))];
        return;
      }
      var temps, memoryAssignments, variableAssignments := SplitTargets(cur, vars, isAssignment);
      r := [VariableDeclaration(temps, value)] + Reverse(memoryAssignments) + Reverse(variableAssignments);
    }

    /**
     * The loop of `rewriteAssignmentOrVariableDeclaration`: one fresh temporary per target, and the
     * stores and rebindings that read them, both in target order.
     */
    method SplitTargets(cur: Slots, vars: seq<Name>, isAssignment: bool)
        returns (temps: seq<Name>, memoryAssignments: seq<Statement>, variableAssignments: seq<Statement>)
      modifies nameDispenser
      ensures (temps, nameDispenser.usedNames) == FreshNames(vars, old(nameDispenser.usedNames))
      ensures memoryAssignments == StoresOf(reservedMemory, cur, vars, temps)
      ensures variableAssignments == RebindingsOf(cur, vars, temps, isAssignment)
    {
      temps, memoryAssignments, variableAssignments := [], [], [];
      for i := 0 to |vars|
        invariant |temps| == i
        invariant (temps, nameDispenser.usedNames) == FreshNames(vars[..i], old(nameDispenser.usedNames))
        invariant memoryAssignments == StoresOf(reservedMemory, cur, vars[..i], temps)
        invariant variableAssignments == RebindingsOf(cur, vars[..i], temps, isAssignment)
      {
        ghost var before := nameDispenser.usedNames;
        var x := vars[i];
        var tempVarName := nameDispenser.NewName(x);
        PrefixSnoc(vars, i);
        FreshNamesSnoc(vars[..i], x, old(nameDispenser.usedNames), temps, before);
        SplitPartsSnoc(reservedMemory, cur, vars[..i], temps, x, tempVarName, isAssignment);
        temps := temps + [tempVarName];
        if x in cur {
          memoryAssignments := memoryAssignments + [MemoryStore(MemoryOffset(reservedMemory, cur, x), Identifier(tempVarName))];
        } else if isAssignment {
          variableAssignments := variableAssignments + [Assignment([x], Identifier(tempVarName))];
        } else {
          variableAssignments := variableAssignments + [VariableDeclaration([x], Some(Identifier(tempVarName)))];
        }
      }
      assert vars[..|vars|] == vars;
    }

    /** ASTModifier's traversal of one statement, dispatching back into this mover. */
    method DefaultVisit(s: Statement) returns (s': Statement)
      modifies this, nameDispenser
      ensures currentFunctionMemorySlots == old(currentFunctionMemorySlots)
      ensures (s', nameDispenser.usedNames)
           == MoveDefault(reservedMemory, memorySlots, old(currentFunctionMemorySlots), s, old(nameDispenser.usedNames))
      decreases s, 0
    {
      match s
      case ExpressionStatement(e) =>
        var e' := VisitExpression(e);
        s' := ExpressionStatement(e');
      case Assignment(xs, v) =>
        var v' := VisitExpression(v);
        s' := Assignment(xs, v');
      case VariableDeclaration(xs, v) =>
        if v.Some? {
          var v' := VisitExpression(v.value);
          s' := VariableDeclaration(xs, Some(v'));
        } else {
          s' := s;
        }
      case FunctionDefinition(f, ps, rs, body) =>
        var body' := VisitFunctionDefinition(f, ps, rs, body);
        s' := FunctionDefinition(f, ps, rs, body');
      case If(c, body) =>
        var c' := VisitExpression(c);
        var body' := VisitBlock(body);
        s' := If(c', body');
      case Switch(e, cs) =>
        var e' := VisitExpression(e);
        var cs' := [];
        for i := 0 to |cs|
          invariant currentFunctionMemorySlots == old(currentFunctionMemorySlots)
          invariant (cs', nameDispenser.usedNames)
                 == MoveCases(reservedMemory, memorySlots, old(currentFunctionMemorySlots), cs[..i], old(nameDispenser.usedNames))
        {
          assert cs[..i + 1][..i] == cs[..i];
          var body' := VisitBlock(cs[i].body);
          cs' := cs' + [Case(cs[i].value, body')];
        }
        assert cs[..|cs|] == cs;
        s' := Switch(e', cs');
      case ForLoop(pre, c, post, body) =>
        var pre' := VisitBlock(pre);
        var c' := VisitExpression(c);
        var post' := VisitBlock(post);
        var body' := VisitBlock(body);
        s' := ForLoop(pre', c', post', body');
      case BlockStatement(b) =>
        var b' := VisitBlock(b);
        s' := BlockStatement(b');
      case Break => s' := s;
      case Continue => s' := s;
      case Leave => s' := s;
    }

    /** `visit(Expression&)`: an escalated identifier becomes a load, everything else is recursed into. */
    method VisitExpression(e: Expression) returns (e': Expression)
      ensures e' == Load(reservedMemory, currentFunctionMemorySlots, e)
    {
      match e
      case Identifier(x) =>
        if currentFunctionMemorySlots.Some? && x in currentFunctionMemorySlots.value {
          e' := FunctionCall(MLoad, [Literal(GetMemoryOffset(x))]);
        } else {
          e' := e;
        }
      case Literal(_) =>
        e' := e;
      case FunctionCall(f, args) =>
        var args' := [];
        for i := 0 to |args|
          invariant args' == LoadList(reservedMemory, currentFunctionMemorySlots, args[..i])
        {
          assert args[..i + 1][..i] == args[..i];
          var a := VisitExpression(args[i]);
          args' := args' + [a];
        }
        assert args[..|args|] == args;
        e' := FunctionCall(f, args');
    }
  }
}
