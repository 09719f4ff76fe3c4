/**
 * The memory escalator: it finds the one `memoryinit` call and the literal memory size it is
 * given, collects the functions on call cycles, allocates memory slots to the variables that
 * cannot stay on the stack, moves those variables to memory with the stack-to-memory mover,
 * and finally raises the `memoryinit` literal past the last slot used.
 *
 * The slots are those of the walk of `MemoryOffsetAllocator`, as the escalator runs it.
 * `CorrectedEscalate` is the same escalation with the slots of
 * `PathDisjointAllocation.Allocation`, which keeps the escalator's per-path promise where the
 * walk does not.
 */
module MemoryEscalator {
  import opened Wrappers
  import opened Yul
  import opened NameDispenser
  import opened MemoryOffsetAllocator
  import opened PathDisjointAllocation
  import Mover = StackToMemoryMover

  const MemoryInit: Name := "memoryinit"

  // ----- the memoryinit calls -----

  /** What a `memoryinit` call has as its last argument. */
  datatype LastArgument = NoArgument | LiteralArgument(value: nat) | OtherArgument

  function LastOf(args: seq<Expression>): LastArgument
  {
    if args == [] then NoArgument
    else if args[|args| - 1].Literal? then LiteralArgument(args[|args| - 1].value)
    else OtherArgument
  }

  /** The `memoryinit` calls in an expression, each by its last argument. */
  function ExpressionInits(e: Expression): seq<LastArgument>
  {
    match e
    case Identifier(_) => []
    case Literal(_) => []
    case FunctionCall(f, args) => (if f == MemoryInit then [LastOf(args)] else []) + ExpressionListInits(args)
  }

  function ExpressionListInits(es: seq<Expression>): seq<LastArgument>
  {
    if es == [] then [] else ExpressionListInits(es[..|es| - 1]) + ExpressionInits(es[|es| - 1])
  }

  function OptionInits(e: Option<Expression>): seq<LastArgument>
  {
    if e.Some? then ExpressionInits(e.value) else []
  }

  function StatementInits(s: Statement): seq<LastArgument>
  {
    match s
    case ExpressionStatement(e) => ExpressionInits(e)
    case Assignment(_, v) => ExpressionInits(v)
    case VariableDeclaration(_, v) => OptionInits(v)
    case FunctionDefinition(_, _, _, body) => BlockInits(body)
    case If(c, body) => ExpressionInits(c) + BlockInits(body)
    case Switch(e, cs) => ExpressionInits(e) + CaseListInits(cs)
    case ForLoop(pre, c, post, body) => BlockInits(pre) + ExpressionInits(c) + BlockInits(post) + BlockInits(body)
    case BlockStatement(b) => BlockInits(b)
    case Break => []
    case Continue => []
    case Leave => []
  }

  function StatementListInits(ss: seq<Statement>): seq<LastArgument>
  {
    if ss == [] then [] else StatementListInits(ss[..|ss| - 1]) + StatementInits(ss[|ss| - 1])
  }

  /** `FunctionCallFinder::run(code, "memoryinit")`, each call by its last argument. */
  function BlockInits(b: Block): seq<LastArgument>
  {
    StatementListInits(b.statements)
  }

  function CaseListInits(cs: seq<Case>): seq<LastArgument>
  {
    if cs == [] then [] else CaseListInits(cs[..|cs| - 1]) + CaseInits(cs[|cs| - 1])
  }

  function CaseInits(c: Case): seq<LastArgument>
  {
    BlockInits(c.body)
  }

  // ----- setting the memoryinit literal -----

  /** Every literal last argument of a `memoryinit` call replaced by `v` in an expression. */
  function SetExpression(e: Expression, v: nat): Expression
  {
    match e
    case Identifier(_) => e
    case Literal(_) => e
    case FunctionCall(f, args) =>
      var args' := SetExpressionList(args, v);
      if f == MemoryInit && LastOf(args).LiteralArgument? then FunctionCall(f, args'[..|args'| - 1] + [Literal(v)])
      else FunctionCall(f, args')
  }

  function SetExpressionList(es: seq<Expression>, v: nat): (r: seq<Expression>)
    ensures |r| == |es|
  {
    if es == [] then [] else SetExpressionList(es[..|es| - 1], v) + [SetExpression(es[|es| - 1], v)]
  }

  function SetOption(e: Option<Expression>, v: nat): Option<Expression>
  {
    if e.Some? then Some(SetExpression(e.value, v)) else None
  }

  function SetStatement(s: Statement, v: nat): Statement
  {
    match s
    case ExpressionStatement(e) => ExpressionStatement(SetExpression(e, v))
    case Assignment(xs, e) => Assignment(xs, SetExpression(e, v))
    case VariableDeclaration(xs, e) => VariableDeclaration(xs, SetOption(e, v))
    case FunctionDefinition(f, ps, rs, body) => FunctionDefinition(f, ps, rs, SetBlock(body, v))
    case If(c, body) => If(SetExpression(c, v), SetBlock(body, v))
    case Switch(e, cs) => Switch(SetExpression(e, v), SetCaseList(cs, v))
    case ForLoop(pre, c, post, body) => ForLoop(SetBlock(pre, v), SetExpression(c, v), SetBlock(post, v), SetBlock(body, v))
    case BlockStatement(b) => BlockStatement(SetBlock(b, v))
    case Break => s
    case Continue => s
    case Leave => s
  }

  function SetStatementList(ss: seq<Statement>, v: nat): (r: seq<Statement>)
    ensures |r| == |ss|
  {
    if ss == [] then [] else SetStatementList(ss[..|ss| - 1], v) + [SetStatement(ss[|ss| - 1], v)]
  }

  /** The assignment to `memoryInitLiteral->value`, wherever that literal is. */
  function SetBlock(b: Block, v: nat): Block
  {
    Block(SetStatementList(b.statements, v))
  }

  function SetCaseList(cs: seq<Case>, v: nat): (r: seq<Case>)
    ensures |r| == |cs|
  {
    if cs == [] then [] else SetCaseList(cs[..|cs| - 1], v) + [SetCase(cs[|cs| - 1], v)]
  }

  function SetCase(c: Case, v: nat): Case
  {
    Case(c.value, SetBlock(c.body, v))
  }

  /** A last argument after the literal is set to `v`. */
  function Relit(v: nat, a: LastArgument): LastArgument
  {
    if a.LiteralArgument? then LiteralArgument(v) else a
  }

  /** The last arguments after the literal is set to `v`. */
  function Relabel(v: nat, xs: seq<LastArgument>): (r: seq<LastArgument>)
    ensures |r| == |xs|
  {
    if xs == [] then [] else Relabel(v, xs[..|xs| - 1]) + [Relit(v, xs[|xs| - 1])]
  }

  /** Every literal last argument of a `memoryinit` call is `v`. */
  predicate AllAre(v: nat, xs: seq<LastArgument>)
  {
    forall a :: a in xs && a.LiteralArgument? ==> a.value == v
  }

  lemma {:induction false} RelabelAppend(v: nat, a: seq<LastArgument>, b: seq<LastArgument>)
    ensures Relabel(v, a + b) == Relabel(v, a) + Relabel(v, b)
    decreases |b|
  {
    if b == [] {
      assert a + b == a;
    } else {
      assert (a + b)[..|a + b| - 1] == a + b[..|b| - 1];
      RelabelAppend(v, a, b[..|b| - 1]);
    }
  }

  lemma {:induction false} RelabelAllAre(v: nat, xs: seq<LastArgument>)
    ensures AllAre(v, Relabel(v, xs))
  {
    if xs != [] {
      RelabelAllAre(v, xs[..|xs| - 1]);
    }
  }

  /** Setting the literal leaves a literal a literal and anything else not a literal. */
  lemma SetKeepsLiteral(e: Expression, v: nat)
    ensures SetExpression(e, v).Literal? == e.Literal?
    ensures e.Literal? ==> SetExpression(e, v) == e
  {
  }

  lemma SetExpressionListLast(es: seq<Expression>, v: nat)
    requires es != []
    ensures SetExpressionList(es, v)[..|es| - 1] == SetExpressionList(es[..|es| - 1], v)
    ensures SetExpressionList(es, v)[|es| - 1] == SetExpression(es[|es| - 1], v)
  {
  }

  // What setting the literal does: the calls stay the same, and each literal argument becomes `v`.

  lemma {:induction false} ExpressionSet(e: Expression, v: nat)
    ensures ExpressionInits(SetExpression(e, v)) == Relabel(v, ExpressionInits(e))
  {
    match e
    case Identifier(_) =>
    case Literal(_) =>
    case FunctionCall(f, args) =>
      ExpressionListSet(args, v);
      CallSet(f, args, v);
  }

  /** The step of `ExpressionSet` for a call, given the property for its arguments. */
  lemma CallSet(f: Name, args: seq<Expression>, v: nat)
    requires ExpressionListInits(SetExpressionList(args, v)) == Relabel(v, ExpressionListInits(args))
    ensures ExpressionInits(SetExpression(FunctionCall(f, args), v)) == Relabel(v, ExpressionInits(FunctionCall(f, args)))
  {
    if f == MemoryInit && LastOf(args).LiteralArgument? {
      LiteralCallSet(args, v);
      InitCallSet(args, v);
    } else {
      OtherCallSet(f, args, v);
    }
  }

  lemma InitCallSet(args: seq<Expression>, v: nat)
    requires ExpressionListInits(SetExpressionList(args, v)) == Relabel(v, ExpressionListInits(args))
    requires args != [] && args[|args| - 1].Literal?
    requires ExpressionListInits(SetExpressionList(args, v)[..|args| - 1] + [Literal(v)]) == ExpressionListInits(SetExpressionList(args, v))
    ensures ExpressionInits(SetExpression(FunctionCall(MemoryInit, args), v)) == Relabel(v, ExpressionInits(FunctionCall(MemoryInit, args)))
  {
    var head := [LastOf(args)];
    RelabelAppend(v, head, ExpressionListInits(args));
    var a := SetExpressionList(args, v)[..|args| - 1] + [Literal(v)];
    assert SetExpression(FunctionCall(MemoryInit, args), v) == FunctionCall(MemoryInit, a);
    assert Relabel(v, head) == [LiteralArgument(v)];
    assert ExpressionInits(FunctionCall(MemoryInit, a)) == [LiteralArgument(v)] + ExpressionListInits(a);
  }

  lemma OtherCallSet(f: Name, args: seq<Expression>, v: nat)
    requires ExpressionListInits(SetExpressionList(args, v)) == Relabel(v, ExpressionListInits(args))
    requires !(f == MemoryInit && LastOf(args).LiteralArgument?)
    ensures ExpressionInits(SetExpression(FunctionCall(f, args), v)) == Relabel(v, ExpressionInits(FunctionCall(f, args)))
  {
    var args' := SetExpressionList(args, v);
    assert SetExpression(FunctionCall(f, args), v) == FunctionCall(f, args');
    if f == MemoryInit {
      LastOfSet(args, v);
      var head := [LastOf(args)];
      RelabelAppend(v, head, ExpressionListInits(args));
      assert Relabel(v, head) == head;
    } else {
      assert ExpressionInits(FunctionCall(f, args)) == ExpressionListInits(args);
    }
  }

  /** The last argument of a call keeps its kind and, when it is a literal, its value. */
  lemma LastOfSet(args: seq<Expression>, v: nat)
    ensures LastOf(SetExpressionList(args, v)) == LastOf(args)
  {
    if args != [] {
      SetExpressionListLast(args, v);
      SetKeepsLiteral(args[|args| - 1], v);
    }
  }

  /** Replacing a literal last argument by another literal changes no `memoryinit` call in the arguments. */
  lemma LiteralCallSet(args: seq<Expression>, v: nat)
    requires args != [] && args[|args| - 1].Literal?
    ensures ExpressionListInits(SetExpressionList(args, v)[..|args| - 1] + [Literal(v)]) == ExpressionListInits(SetExpressionList(args, v))
  {
    var n := |args| - 1;
    var args' := SetExpressionList(args, v);
    SetExpressionListLast(args, v);
    SetKeepsLiteral(args[n], v);
    var a := args'[..n] + [Literal(v)];
    assert a[..n] == args'[..n] && a[n] == Literal(v);
    assert ExpressionListInits(a) == ExpressionListInits(args'[..n]);
    assert ExpressionListInits(args') == ExpressionListInits(args'[..n]) + ExpressionInits(args'[n]);
  }

  lemma {:induction false} ExpressionListSet(es: seq<Expression>, v: nat)
    ensures ExpressionListInits(SetExpressionList(es, v)) == Relabel(v, ExpressionListInits(es))
  {
    if es != [] {
      var n := |es| - 1;
      var r := SetExpressionList(es, v);
      assert r[..n] == SetExpressionList(es[..n], v);
      assert r[n] == SetExpression(es[n], v);
      ExpressionListSet(es[..n], v);
      ExpressionSet(es[n], v);
      RelabelAppend(v, ExpressionListInits(es[..n]), ExpressionInits(es[n]));
    }
  }

  lemma {:induction false} StatementSet(s: Statement, v: nat)
    ensures StatementInits(SetStatement(s, v)) == Relabel(v, StatementInits(s))
  {
    match s
    case ExpressionStatement(e) => ExpressionSet(e, v);
    case Assignment(_, e) => ExpressionSet(e, v);
    case VariableDeclaration(_, e) =>
      if e.Some? {
        ExpressionSet(e.value, v);
      }
    case FunctionDefinition(_, _, _, body) => StatementListSet(body.statements, v);
    case If(c, body) =>
      ExpressionSet(c, v);
      StatementListSet(body.statements, v);
      RelabelAppend(v, ExpressionInits(c), BlockInits(body));
    case Switch(e, cs) =>
      ExpressionSet(e, v);
      CaseListSet(cs, v);
      RelabelAppend(v, ExpressionInits(e), CaseListInits(cs));
    case ForLoop(pre, c, post, body) =>
      StatementListSet(pre.statements, v);
      ExpressionSet(c, v);
      StatementListSet(post.statements, v);
      StatementListSet(body.statements, v);
      RelabelAppend(v, BlockInits(pre), ExpressionInits(c));
      RelabelAppend(v, BlockInits(pre) + ExpressionInits(c), BlockInits(post));
      RelabelAppend(v, BlockInits(pre) + ExpressionInits(c) + BlockInits(post), BlockInits(body));
    case BlockStatement(b) => StatementListSet(b.statements, v);
    case Break =>
    case Continue =>
    case Leave =>
  }

  lemma {:induction false} StatementListSet(ss: seq<Statement>, v: nat)
    ensures StatementListInits(SetStatementList(ss, v)) == Relabel(v, StatementListInits(ss))
  {
    if ss != [] {
      var n := |ss| - 1;
      var r := SetStatementList(ss, v);
      assert r[..n] == SetStatementList(ss[..n], v);
      assert r[n] == SetStatement(ss[n], v);
      StatementListSet(ss[..n], v);
      StatementSet(ss[n], v);
      RelabelAppend(v, StatementListInits(ss[..n]), StatementInits(ss[n]));
    }
  }

  lemma {:induction false} CaseListSet(cs: seq<Case>, v: nat)
    ensures CaseListInits(SetCaseList(cs, v)) == Relabel(v, CaseListInits(cs))
  {
    if cs != [] {
      var n := |cs| - 1;
      var r := SetCaseList(cs, v);
      assert r[..n] == SetCaseList(cs[..n], v);
      assert r[n] == SetCase(cs[n], v);
      CaseListSet(cs[..n], v);
      CaseSet(cs[n], v);
      RelabelAppend(v, CaseListInits(cs[..n]), CaseInits(cs[n]));
    }
  }

  lemma {:induction false} CaseSet(c: Case, v: nat)
    ensures CaseInits(SetCase(c, v)) == Relabel(v, CaseInits(c))
  {
    StatementListSet(c.body.statements, v);
  }

  /** After the literal is set, the code has the same `memoryinit` calls, and each literal argument is `v`. */
  lemma BlockSet(b: Block, v: nat)
    ensures BlockInits(SetBlock(b, v)) == Relabel(v, BlockInits(b))
    ensures |BlockInits(SetBlock(b, v))| == |BlockInits(b)|
    ensures AllAre(v, BlockInits(SetBlock(b, v)))
  {
    StatementListSet(b.statements, v);
    RelabelAllAre(v, BlockInits(b));
  }

  // Setting the literal to the value it already has gives back the code unchanged.

  lemma {:induction false} ExpressionKeep(e: Expression, v: nat)
    requires AllAre(v, ExpressionInits(e))
    ensures SetExpression(e, v) == e
  {
    match e
    case Identifier(_) =>
    case Literal(_) =>
    case FunctionCall(f, args) =>
      ExpressionListKeep(args, v);
      if f == MemoryInit && LastOf(args).LiteralArgument? {
        var n := |args| - 1;
        assert LastOf(args) in ExpressionInits(e);
        assert args[..n] + [Literal(v)] == args;
      }
  }

  lemma {:induction false} ExpressionListKeep(es: seq<Expression>, v: nat)
    requires AllAre(v, ExpressionListInits(es))
    ensures SetExpressionList(es, v) == es
  {
    if es != [] {
      var n := |es| - 1;
      ExpressionListKeep(es[..n], v);
      ExpressionKeep(es[n], v);
      assert es[..n] + [es[n]] == es;
    }
  }

  lemma {:induction false} StatementKeep(s: Statement, v: nat)
    requires AllAre(v, StatementInits(s))
    ensures SetStatement(s, v) == s
  {
    match s
    case ExpressionStatement(e) => ExpressionKeep(e, v);
    case Assignment(_, e) => ExpressionKeep(e, v);
    case VariableDeclaration(_, e) =>
      if e.Some? {
        ExpressionKeep(e.value, v);
      }
    case FunctionDefinition(_, _, _, body) => BlockKeep(body, v);
    case If(c, body) =>
      ExpressionKeep(c, v);
      BlockKeep(body, v);
    case Switch(e, cs) =>
      ExpressionKeep(e, v);
      CaseListKeep(cs, v);
    case ForLoop(pre, c, post, body) =>
      BlockKeep(pre, v);
      ExpressionKeep(c, v);
      BlockKeep(post, v);
      BlockKeep(body, v);
    case BlockStatement(b) => BlockKeep(b, v);
    case Break =>
    case Continue =>
    case Leave =>
  }

  lemma {:induction false} StatementListKeep(ss: seq<Statement>, v: nat)
    requires AllAre(v, StatementListInits(ss))
    ensures SetStatementList(ss, v) == ss
  {
    if ss != [] {
      var n := |ss| - 1;
      StatementListKeep(ss[..n], v);
      StatementKeep(ss[n], v);
      assert ss[..n] + [ss[n]] == ss;
    }
  }

  lemma {:induction false} CaseListKeep(cs: seq<Case>, v: nat)
    requires AllAre(v, CaseListInits(cs))
    ensures SetCaseList(cs, v) == cs
  {
    if cs != [] {
      var n := |cs| - 1;
      CaseListKeep(cs[..n], v);
      CaseKeep(cs[n], v);
      assert cs[..n] + [cs[n]] == cs;
    }
  }

  lemma {:induction false} CaseKeep(c: Case, v: nat)
    requires AllAre(v, CaseInits(c))
    ensures SetCase(c, v) == c
  {
    BlockKeep(c.body, v);
  }

  /** Setting every `memoryinit` literal to the value it already holds changes nothing. */
  lemma {:induction false} BlockKeep(b: Block, v: nat)
    requires AllAre(v, BlockInits(b))
    ensures SetBlock(b, v) == b
  {
    StatementListKeep(b.statements, v);
  }

  /** Reading the literal back after writing: writing the value read from the one call restores the code. */
  lemma SetRoundTrip(b: Block, v: nat)
    requires |BlockInits(b)| == 1 && BlockInits(b)[0].LiteralArgument?
    ensures SetBlock(SetBlock(b, v), BlockInits(b)[0].value) == b
  {
    var n := BlockInits(b)[0].value;
    BlockSet(b, v);
    BlockSet(SetBlock(b, v), n);
    assert BlockInits(SetBlock(SetBlock(b, v), n)) == BlockInits(b);
    assert AllAre(n, BlockInits(b));
    BlockKeep(b, n);
    SetTwice(b, v, n);
  }

  lemma SetTwice(b: Block, v: nat, w: nat)
    ensures SetBlock(SetBlock(b, v), w) == SetBlock(b, w)
  {
    StatementListTwice(b.statements, v, w);
  }

  lemma {:induction false} ExpressionTwice(e: Expression, v: nat, w: nat)
    ensures SetExpression(SetExpression(e, v), w) == SetExpression(e, w)
  {
    match e
    case Identifier(_) =>
    case Literal(_) =>
    case FunctionCall(f, args) =>
      ExpressionListTwice(args, v, w);
      if args != [] {
        CallTwice(f, args, v, w);
      }
  }

  lemma CallTwice(f: Name, args: seq<Expression>, v: nat, w: nat)
    requires args != []
    requires SetExpressionList(SetExpressionList(args, v), w) == SetExpressionList(args, w)
    ensures SetExpression(SetExpression(FunctionCall(f, args), v), w) == SetExpression(FunctionCall(f, args), w)
  {
    var n := |args| - 1;
    SetExpressionListLast(args, v);
    SetKeepsLiteral(args[n], v);
    assert LastOf(SetExpressionList(args, v)).LiteralArgument? == LastOf(args).LiteralArgument?;
    if f == MemoryInit && LastOf(args).LiteralArgument? {
      InitCallTwice(args, v, w);
    }
  }

  /** A `memoryinit` call with a literal last argument keeps its other arguments and takes the second literal. */
  lemma InitCallTwice(args: seq<Expression>, v: nat, w: nat)
    requires args != [] && LastOf(args).LiteralArgument?
    requires SetExpressionList(SetExpressionList(args, v), w) == SetExpressionList(args, w)
    ensures SetExpression(SetExpression(FunctionCall(MemoryInit, args), v), w) == SetExpression(FunctionCall(MemoryInit, args), w)
  {
    var n := |args| - 1;
    var args' := SetExpressionList(args, v);
    var a := args'[..n] + [Literal(v)];
    assert SetExpression(FunctionCall(MemoryInit, args), v) == FunctionCall(MemoryInit, a);
    assert a[..n] == args'[..n];
    SetExpressionListLast(a, w);
    SetExpressionListLast(args', w);
    assert SetExpressionList(a, w)[..n] == SetExpressionList(args', w)[..n];
  }

  lemma {:induction false} ExpressionListTwice(es: seq<Expression>, v: nat, w: nat)
    ensures SetExpressionList(SetExpressionList(es, v), w) == SetExpressionList(es, w)
  {
    if es != [] {
      var n := |es| - 1;
      var r := SetExpressionList(es, v);
      assert r[..n] == SetExpressionList(es[..n], v);
      assert r == r[..n] + [r[n]];
      ExpressionListTwice(es[..n], v, w);
      ExpressionTwice(es[n], v, w);
    }
  }

  lemma {:induction false} StatementTwice(s: Statement, v: nat, w: nat)
    ensures SetStatement(SetStatement(s, v), w) == SetStatement(s, w)
  {
    match s
    case ExpressionStatement(e) => ExpressionTwice(e, v, w);
    case Assignment(_, e) => ExpressionTwice(e, v, w);
    case VariableDeclaration(_, e) =>
      if e.Some? {
        ExpressionTwice(e.value, v, w);
      }
    case FunctionDefinition(_, _, _, body) => StatementListTwice(body.statements, v, w);
    case If(c, body) =>
      ExpressionTwice(c, v, w);
      StatementListTwice(body.statements, v, w);
    case Switch(e, cs) =>
      ExpressionTwice(e, v, w);
      CaseListTwice(cs, v, w);
    case ForLoop(pre, c, post, body) =>
      StatementListTwice(pre.statements, v, w);
      ExpressionTwice(c, v, w);
      StatementListTwice(post.statements, v, w);
      StatementListTwice(body.statements, v, w);
    case BlockStatement(b) => StatementListTwice(b.statements, v, w);
    case Break =>
    case Continue =>
    case Leave =>
  }

  lemma {:induction false} StatementListTwice(ss: seq<Statement>, v: nat, w: nat)
    ensures SetStatementList(SetStatementList(ss, v), w) == SetStatementList(ss, w)
  {
    if ss != [] {
      var n := |ss| - 1;
      var r := SetStatementList(ss, v);
      assert r[..n] == SetStatementList(ss[..n], v);
      assert r == r[..n] + [r[n]];
      StatementListTwice(ss[..n], v, w);
      StatementTwice(ss[n], v, w);
    }
  }

  lemma {:induction false} CaseListTwice(cs: seq<Case>, v: nat, w: nat)
    ensures SetCaseList(SetCaseList(cs, v), w) == SetCaseList(cs, w)
  {
    if cs != [] {
      var n := |cs| - 1;
      var r := SetCaseList(cs, v);
      assert r[..n] == SetCaseList(cs[..n], v);
      assert r == r[..n] + [r[n]];
      CaseListTwice(cs[..n], v, w);
      CaseTwice(cs[n], v, w);
    }
  }

  lemma {:induction false} CaseTwice(c: Case, v: nat, w: nat)
    ensures SetCase(SetCase(c, v), w) == SetCase(c, w)
  {
    StatementListTwice(c.body.statements, v, w);
  }

  // ----- the functions on call cycles -----

  /** The first position of `x` in `xs`: `std::find`. */
  function IndexOf(xs: seq<Name>, x: Name): (i: nat)
    requires x in xs
    ensures i < |xs| && xs[i] == x && x !in xs[..i]
  {
    if xs[0] == x then 0
    else
      var i := 1 + IndexOf(xs[1..], x);
      assert xs[..i] == [xs[0]] + xs[1..][..i - 1];
      i
  }

  lemma PathGrows(g: CallGraph, path: seq<Name>, node: Name)
    requires node in Nodes(g) && node !in path
    ensures |Nodes(g) - Elements(path + [node])| < |Nodes(g) - Elements(path)|
  {
    assert Elements(path + [node]) == Elements(path) + {node};
    DifferenceShrinks(Nodes(g), Elements(path), Elements(path + [node]), node);
  }

  /**
   * What the search adds to `containedInCycle` when it reaches `node` with `path` on the stack:
   * the path from the first occurrence of `node` on, when `node` is on it; otherwise what the
   * callees add with `node` pushed.
   */
  function Cycles(g: CallGraph, node: Name, path: seq<Name>): set<Name>
    decreases |Nodes(g) - Elements(path)|, 0
  {
    if node in path then Elements(path[IndexOf(path, node)..])
    else if node !in g then {}
    else
      PathGrows(g, path, node);
      ChildrenCycles(g, g[node], path + [node])
  }

  /** A node without callees adds nothing. */
  lemma CyclesDescend(g: CallGraph, node: Name, path: seq<Name>)
    requires node !in path
    ensures Cycles(g, node, path) == ChildrenCycles(g, Callees(g, node), path + [node])
  {
  }

  function ChildrenCycles(g: CallGraph, cs: seq<Name>, path: seq<Name>): set<Name>
    decreases |Nodes(g) - Elements(path)|, 1, |cs|
  {
    if cs == [] then {} else ChildrenCycles(g, cs[..|cs| - 1], path) + Cycles(g, cs[|cs| - 1], path)
  }

  /** One step of the loop over the callees: what the search adds for `cs[i]` joins what it added before. */
  lemma CollectStep(g: CallGraph, cs: seq<Name>, i: nat, path: seq<Name>, start: set<Name>, before: set<Name>, after: set<Name>)
    requires i < |cs|
    requires before == start + ChildrenCycles(g, cs[..i], path)
    requires after == before + Cycles(g, cs[i], path)
    ensures after == start + ChildrenCycles(g, cs[..i + 1], path)
  {
    assert cs[..i + 1][..i] == cs[..i];
    assert ChildrenCycles(g, cs[..i + 1], path) == ChildrenCycles(g, cs[..i], path) + Cycles(g, cs[i], path);
  }

  /** Two call graphs that give every function the same callees. */
  ghost predicate SameCalls(g: CallGraph, g': CallGraph)
  {
    forall f :: Callees(g, f) == Callees(g', f)
  }

  /** `callGraph[_node]` on a missing node inserts an empty entry, which changes no callees. */
  lemma InsertEmpty(g: CallGraph, g0: CallGraph, node: Name)
    requires SameCalls(g, g0)
    ensures SameCalls(if node in g then g else g[node := []], g0)
  {
    if node !in g {
      forall f
        ensures Callees(g[node := []], f) == Callees(g, f)
      {
      }
    }
  }

  /** The state of the `findCycles` closure in `MemoryEscalator::run`. */
  class CycleFinder {
    /** The call graph, which `callGraph[_node]` may grow by empty entries. */
    var callGraph: CallGraph
    var currentPath: seq<Name>
    var containedInCycle: set<Name>

    constructor (callGraph: CallGraph)
      ensures this.callGraph == callGraph && currentPath == [] && containedInCycle == {}
    {
      this.callGraph := callGraph;
      currentPath := [];
      containedInCycle := {};
    }

    /** One call of `findCycles`; `g0` is the call graph the search began with. */
    method FindCycles(node: Name, ghost g0: CallGraph)
      requires node in Nodes(g0) && SameCalls(callGraph, g0)
      modifies this
      ensures containedInCycle == old(containedInCycle) + Cycles(g0, node, old(currentPath))
      ensures currentPath == old(currentPath)
      ensures SameCalls(callGraph, g0)
      decreases |Nodes(g0) - Elements(currentPath)|, 1
    {
      if node in currentPath {
        var k := IndexOf(currentPath, node);
        assert Cycles(g0, node, currentPath) == Elements(currentPath[k..]);
        containedInCycle := containedInCycle + Elements(currentPath[k..]);
      } else {
        Descend(node, g0);
      }
    }

    /** `findCycles` on a node not yet on the path: push it, visit its callees, pop it. */
    method Descend(node: Name, ghost g0: CallGraph)
      requires node in Nodes(g0) && node !in currentPath && SameCalls(callGraph, g0)
      modifies this
      ensures containedInCycle == old(containedInCycle) + Cycles(g0, node, old(currentPath))
      ensures currentPath == old(currentPath)
      ensures SameCalls(callGraph, g0)
      decreases |Nodes(g0) - Elements(currentPath)|, 0
    {
      ghost var path := currentPath;
      PathGrows(g0, currentPath, node);
      currentPath := currentPath + [node];
      var children := CallsOf(node);
      InsertEmpty(old(callGraph), g0, node);
      assert children == Callees(g0, node);
      CalleesAreNodes(g0, node);
      VisitCallees(children, g0);
      CyclesDescend(g0, node, path);
      assert currentPath[..|currentPath| - 1] == path;
      currentPath := currentPath[..|currentPath| - 1];
    }

    /** `callGraph[_node]`: a missing node gets an empty entry first. */
    method CallsOf(node: Name) returns (children: seq<Name>)
      modifies this
      ensures children == Callees(old(callGraph), node)
      ensures callGraph == if node in old(callGraph) then old(callGraph) else old(callGraph)[node := []]
      ensures currentPath == old(currentPath) && containedInCycle == old(containedInCycle)
    {
      if node !in callGraph {
        callGraph := callGraph[node := []];
      }
      children := callGraph[node];
    }

    /** The loop over `callGraph[_node]` in `findCycles`, with `_node` already pushed. */
    method VisitCallees(children: seq<Name>, ghost g0: CallGraph)
      requires SameCalls(callGraph, g0) && forall c :: c in children ==> c in Nodes(g0)
      modifies this
      ensures containedInCycle == old(containedInCycle) + ChildrenCycles(g0, children, old(currentPath))
      ensures currentPath == old(currentPath)
      ensures SameCalls(callGraph, g0)
      decreases |Nodes(g0) - Elements(currentPath)|, 2
    {
      ghost var start := containedInCycle;
      ghost var path := currentPath;
      for i := 0 to |children|
        invariant currentPath == path && SameCalls(callGraph, g0)
        invariant containedInCycle == start + ChildrenCycles(g0, children[..i], path)
      {
        ghost var before := containedInCycle;
        FindCycles(children[i], g0);
        CollectStep(g0, children, i, path, start, before, containedInCycle);
      }
      assert children[..|children|] == children;
    }
  }

  /** `f` lies on a cycle of the call graph: some call path leads from it back to it. */
  ghost predicate OnCycle(g: CallGraph, f: Name)
  {
    exists w :: CallPath(g, w) && |w| >= 2 && w[0] == f && w[|w| - 1] == f
  }

  lemma CallPathSlice(g: CallGraph, w: seq<Name>, a: nat, b: nat)
    requires CallPath(g, w) && a <= b <= |w|
    ensures CallPath(g, w[a..b])
  {
    forall i | 0 <= i < b - a - 1
      ensures w[a..b][i + 1] in Callees(g, w[a..b][i])
    {
      assert w[a..b][i] == w[a + i] && w[a..b][i + 1] == w[a + i + 1];
    }
  }

  lemma CallPathJoin(g: CallGraph, u: seq<Name>, v: seq<Name>)
    requires CallPath(g, u) && CallPath(g, v) && u != [] && v != [] && v[0] in Callees(g, u[|u| - 1])
    ensures CallPath(g, u + v)
  {
    var w := u + v;
    forall i | 0 <= i < |w| - 1
      ensures w[i + 1] in Callees(g, w[i])
    {
      if i + 1 < |u| {
        assert w[i] == u[i] && w[i + 1] == u[i + 1];
      } else if i + 1 == |u| {
        assert w[i] == u[|u| - 1] && w[i + 1] == v[0];
      } else {
        assert w[i] == v[i - |u|] && w[i + 1] == v[i - |u| + 1];
      }
    }
  }

  /** On a call stack whose last function calls `path[k]`, every function from `path[k]` on lies on a cycle. */
  lemma ClosedPath(g: CallGraph, path: seq<Name>, k: nat, j: nat)
    requires CallPath(g, path) && k <= j < |path| && path[k] in Callees(g, path[|path| - 1])
    ensures OnCycle(g, path[j])
  {
    var u := path[j..];
    var v := path[k..j + 1];
    CallPathSlice(g, path, j, |path|);
    CallPathSlice(g, path, k, j + 1);
    assert u[|u| - 1] == path[|path| - 1] && v[0] == path[k];
    CallPathJoin(g, u, v);
    var w := u + v;
    assert w[0] == path[j] && w[|w| - 1] == path[j];
    CycleThrough(g, path[j], w);
  }

  lemma CycleThrough(g: CallGraph, f: Name, w: seq<Name>)
    requires CallPath(g, w) && |w| >= 2 && w[0] == f && w[|w| - 1] == f
    ensures OnCycle(g, f)
  {
  }

  /** Every function the search reports lies on a cycle, given that `path` is a call stack ending in a caller of `node`. */
  lemma {:induction false} CyclesSound(g: CallGraph, node: Name, path: seq<Name>)
    requires CallPath(g, path)
    requires path != [] ==> node in Callees(g, path[|path| - 1])
    ensures forall f :: f in Cycles(g, node, path) ==> OnCycle(g, f)
    decreases |Nodes(g) - Elements(path)|, 0
  {
    if node in path {
      StackCyclesSound(g, path, IndexOf(path, node));
    } else if node in g {
      PathGrows(g, path, node);
      if path != [] {
        CallPathJoin(g, path, [node]);
      }
      CyclesDescend(g, node, path);
      ChildrenCyclesSound(g, g[node], path + [node]);
    }
  }

  /** The functions of a call stack from a callee of its last function on lie on cycles. */
  lemma StackCyclesSound(g: CallGraph, path: seq<Name>, k: nat)
    requires CallPath(g, path) && k < |path| && path[k] in Callees(g, path[|path| - 1])
    ensures forall f :: f in Elements(path[k..]) ==> OnCycle(g, f)
  {
    forall f | f in Elements(path[k..])
      ensures OnCycle(g, f)
    {
      var t :| 0 <= t < |path[k..]| && path[k..][t] == f;
      ClosedPath(g, path, k, k + t);
    }
  }

  lemma {:induction false} ChildrenCyclesSound(g: CallGraph, cs: seq<Name>, path: seq<Name>)
    requires path != [] && CallPath(g, path)
    requires forall c :: c in cs ==> c in Callees(g, path[|path| - 1])
    ensures forall f :: f in ChildrenCycles(g, cs, path) ==> OnCycle(g, f)
    decreases |Nodes(g) - Elements(path)|, 1, |cs|
  {
    if cs != [] {
      var init := cs[..|cs| - 1];
      assert forall c :: c in init ==> c in cs;
      ChildrenCyclesSound(g, init, path);
      assert cs[|cs| - 1] in cs;
      CyclesSound(g, cs[|cs| - 1], path);
    }
  }

  /** The functions `findCycles(YulString{})` collects lie on cycles. */
  lemma CycleFunctionsOnCycles(g: CallGraph)
    ensures forall f :: f in Cycles(g, "", []) ==> OnCycle(g, f)
  {
    CyclesSound(g, "", []);
  }

  // ----- the escalation -----

  /** The allocator's inputs: the stack error info, the functions the cycle search collects, the call graph. */
  function EscalationInputs(info: StackErrorInfo, g: CallGraph): Inputs
  {
    Inputs(info, Cycles(g, "", []), g)
  }

  /**
   * `MemoryEscalator::run` given the stack error info: nothing changes unless there is exactly
   * one `memoryinit` call and its last argument is a literal, nor when the walk from the
   * top-level code throws; otherwise the variables are moved to the slots the walk gave them
   * above the reserved memory, and the literal becomes the end of the memory the walk reports.
   */
  function Escalate(code: Block, info: StackErrorInfo, g: CallGraph, used: set<Name>): (r: (Block, set<Name>))
  {
    var inits := BlockInits(code);
    if |inits| != 1 || !inits[0].LiteralArgument? then (code, used)
    else
      var reserved := inits[0].value;
      var (required, st) := RunSpec(EscalationInputs(info, g), "", Initial());
      if required.None? then (code, used) else Relocate(code, reserved, required.value, st.slotAllocations, used)
  }

  /** The variables moved to memory above `reserved`, and the `memoryinit` literal set past the last slot. */
  function Relocate(code: Block, reserved: nat, required: nat, slots: Mover.SlotMap, used: set<Name>): (r: (Block, set<Name>))
  {
    var (moved, used') := Mover.MoveBlock(reserved, slots, None, code, used);
    (SetBlock(moved, reserved + 32 * required), used')
  }

  /**
   * Only a unique `memoryinit` call with a literal argument and a walk that does not throw lead
   * to a change, and the walk throws exactly when the top-level code reaches a function with
   * stack error info that the cycle search collected.
   */
  lemma EscalateChangesOnlyWhenAllocated(code: Block, info: StackErrorInfo, g: CallGraph, used: set<Name>)
    requires Escalate(code, info, g, used) != (code, used)
    ensures |BlockInits(code)| == 1 && BlockInits(code)[0].LiteralArgument?
    ensures RunSpec(EscalationInputs(info, g), "", Initial()).0.Some?
    ensures forall w :: CallPath(g, w) && w != [] && w[0] == "" && w[|w| - 1] in info ==> w[|w| - 1] !in Cycles(g, "", [])
  {
    var inp := EscalationInputs(info, g);
    RootThrowsIff(inp);
  }

  /** The function at the top of a call stack. */
  function Innermost(w: seq<Name>): Name
    requires w != []
  {
    w[|w| - 1]
  }

  /** After an escalation, every `memoryinit` literal holds the new memory start. */
  lemma EscalatedMemoryInit(code: Block, info: StackErrorInfo, g: CallGraph, used: set<Name>)
    requires |BlockInits(code)| == 1 && BlockInits(code)[0].LiteralArgument?
    requires RunSpec(EscalationInputs(info, g), "", Initial()).0.Some?
    ensures AllAre(BlockInits(code)[0].value + 32 * RunSpec(EscalationInputs(info, g), "", Initial()).0.value,
                   BlockInits(Escalate(code, info, g, used).0))
  {
    var reserved := BlockInits(code)[0].value;
    var (required, st) := RunSpec(EscalationInputs(info, g), "", Initial());
    var start := reserved + 32 * required.value;
    var moved := Mover.MoveBlock(reserved, st.slotAllocations, None, code, used).0;
    assert Escalate(code, info, g, used) == Relocate(code, reserved, required.value, st.slotAllocations, used);
    assert Relocate(code, reserved, required.value, st.slotAllocations, used).0 == SetBlock(moved, start);
    BlockSet(moved, start);
  }

  /**
   * The slots the escalation uses: exactly the functions the top-level code reaches that have
   * stack error info get slots, and the new memory start lies past every moved variable.
   */
  lemma EscalatedLayout(reserved: nat, info: StackErrorInfo, g: CallGraph)
    requires RunSpec(EscalationInputs(info, g), "", Initial()).0.Some?
    ensures var (required, st) := RunSpec(EscalationInputs(info, g), "", Initial());
            && (forall f :: f in st.slotAllocations <==> f in info && Reaches(g, "", f))
            && forall f, y :: f in st.slotAllocations && y in st.slotAllocations[f]
                 ==> Mover.MemoryOffset(reserved, st.slotAllocations[f], y) + 32 <= reserved + 32 * required.value
  {
    RootWalkSlots(EscalationInputs(info, g));
  }

  /** The cycle search from the root, then `MemoryOffsetAllocator::run()` and its slots. */
  method AllocateSlots(info: StackErrorInfo, callGraph: CallGraph) returns (required: Option<nat>, slots: Mover.SlotMap)
    ensures required == RunSpec(EscalationInputs(info, callGraph), "", Initial()).0
    ensures slots == RunSpec(EscalationInputs(info, callGraph), "", Initial()).1.slotAllocations
  {
    var finder := new CycleFinder(callGraph);
    finder.FindCycles("", callGraph);
    var containedInCycle := finder.containedInCycle;
    assert containedInCycle == Cycles(callGraph, "", []);
    var allocator := new MemoryOffsetAllocator(info, containedInCycle, finder.callGraph);
    required := allocator.Run();
    slots := allocator.SlotAllocations();
    RunSpecSameCallees(EscalationInputs(info, callGraph), finder.callGraph, "", Initial());
  }

  /** The stack-to-memory mover over the whole code, then the new `memoryinit` literal. */
  method MoveToMemory(dialect: Mover.Dialect, dispenser: NameDispenser, code: Block, reserved: nat, required: nat, slots: Mover.SlotMap)
    returns (code': Block)
    requires dialect.isEVMDialect && dialect.providesObjectAccess
    modifies dispenser
    ensures (code', dispenser.usedNames) == Relocate(code, reserved, required, slots, old(dispenser.usedNames))
  {
    var mover := new Mover.StackToMemoryMover(dialect, dispenser, reserved, slots);
    var moved := mover.VisitBlock(code);
    code' := SetBlock(moved, reserved + 32 * required);
  }

  /** `MemoryEscalator::run(_context, _object, _functionStackErrorInfo)`. */
  method RunWithStackErrorInfo(dialect: Mover.Dialect, dispenser: NameDispenser, code: Block, info: StackErrorInfo, callGraph: CallGraph)
    returns (code': Block)
    requires dialect.isEVMDialect && dialect.providesObjectAccess
    modifies dispenser
    ensures (code', dispenser.usedNames) == Escalate(code, info, callGraph, old(dispenser.usedNames))
  {
    var inits := BlockInits(code);
    if |inits| != 1 || !inits[0].LiteralArgument? {
      return code;
    }
    var reserved := inits[0].value;
    var required, slots := AllocateSlots(info, callGraph);
    if required.None? {
      return code;
    }
    code' := MoveToMemory(dialect, dispenser, code, reserved, required.value, slots);
  }

  /** `MemoryEscalator::run(_context, _object, _optimizeStackAllocation)`: nothing to do without stack errors. */
  method Run(dialect: Mover.Dialect, dispenser: NameDispenser, code: Block, info: StackErrorInfo, callGraph: CallGraph)
    returns (code': Block)
    requires dialect.isEVMDialect && dialect.providesObjectAccess
    modifies dispenser
    ensures info == map[] ==> code' == code && dispenser.usedNames == old(dispenser.usedNames)
    ensures info != map[] ==> (code', dispenser.usedNames) == Escalate(code, info, callGraph, old(dispenser.usedNames))
  {
    if info == map[] {
      return code;
    }
    code' := RunWithStackErrorInfo(dialect, dispenser, code, info, callGraph);
  }

  // ----- the corrected escalation -----

  /**
   * The escalation with the slots of the corrected allocation, which gives up where the walk
   * throws and also where the allocation finds no stable values.
   */
  function CorrectedEscalate(code: Block, info: StackErrorInfo, g: CallGraph, used: set<Name>): (r: (Block, set<Name>))
  {
    var inits := BlockInits(code);
    if |inits| != 1 || !inits[0].LiteralArgument? then (code, used)
    else
      var reserved := inits[0].value;
      var alloc := Allocation(EscalationInputs(info, g));
      if alloc.None? then (code, used) else Relocate(code, reserved, alloc.value.0, alloc.value.1, used)
  }

  /** Only a unique `memoryinit` call with a literal argument and a successful allocation lead to a change. */
  lemma CorrectedChangesOnlyWhenAllocated(code: Block, info: StackErrorInfo, g: CallGraph, used: set<Name>)
    requires CorrectedEscalate(code, info, g, used) != (code, used)
    ensures |BlockInits(code)| == 1 && BlockInits(code)[0].LiteralArgument?
    ensures Allocation(EscalationInputs(info, g)).Some?
    ensures forall f :: f in info ==> f !in Cycles(g, "", [])
  {
  }

  /** After a corrected escalation, every `memoryinit` literal holds the new memory start. */
  lemma CorrectedMemoryInit(code: Block, info: StackErrorInfo, g: CallGraph, used: set<Name>)
    requires |BlockInits(code)| == 1 && BlockInits(code)[0].LiteralArgument?
    requires Allocation(EscalationInputs(info, g)).Some?
    ensures AllAre(BlockInits(code)[0].value + 32 * Allocation(EscalationInputs(info, g)).value.0,
                   BlockInits(CorrectedEscalate(code, info, g, used).0))
  {
    var reserved := BlockInits(code)[0].value;
    var alloc := Allocation(EscalationInputs(info, g)).value;
    var start := reserved + 32 * alloc.0;
    var moved := Mover.MoveBlock(reserved, alloc.1, None, code, used).0;
    assert CorrectedEscalate(code, info, g, used) == Relocate(code, reserved, alloc.0, alloc.1, used);
    assert Relocate(code, reserved, alloc.0, alloc.1, used).0 == SetBlock(moved, start);
    BlockSet(moved, start);
  }

  /**
   * The memory start after a corrected escalation lies above the memory slot of every moved
   * variable of every function a call path from the root reaches, and variables of two
   * functions on one call path never share a slot.
   */
  lemma CorrectedLayout(reserved: nat, info: StackErrorInfo, g: CallGraph)
    requires Allocation(EscalationInputs(info, g)).Some?
    ensures var (required, slots) := Allocation(EscalationInputs(info, g)).value;
            && PathDisjoint(g, slots)
            && forall w, y :: CallPath(g, w) && w != [] && w[0] == "" && Innermost(w) in slots && y in slots[Innermost(w)]
                 ==> Mover.MemoryOffset(reserved, slots[Innermost(w)], y) + 32 <= reserved + 32 * required
  {
    var inp := EscalationInputs(info, g);
    var (required, slots) := Allocation(inp).value;
    AllocationPathDisjoint(inp);
    forall w, y | CallPath(g, w) && w != [] && w[0] == "" && Innermost(w) in slots && y in slots[Innermost(w)]
      ensures Mover.MemoryOffset(reserved, slots[Innermost(w)], y) + 32 <= reserved + 32 * required
    {
      AllocationCoversReachable(inp, w, y);
    }
  }
}
