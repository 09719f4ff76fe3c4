/**
 * The renaming the name displacer performs once its translation table is built: every
 * occurrence of a translated name (a definition's own name, a call target, an identifier,
 * a declared variable, anywhere, nested functions included) is replaced by its translation;
 * every other name is left alone.
 */
module NameDisplacer {
  import opened Wrappers
  import opened Yul

  /** A name in the translation table is replaced by its entry; any other name is kept. */
  function RenameName(tr: map<Name, Name>, n: Name): Name
  {
    if n in tr then tr[n] else n
  }

  function RenameNames(tr: map<Name, Name>, ns: seq<Name>): (r: seq<Name>)
    ensures |r| == |ns|
    ensures forall i :: 0 <= i < |ns| ==> r[i] == RenameName(tr, ns[i])
  {
    if ns == [] then [] else RenameNames(tr, ns[..|ns| - 1]) + [RenameName(tr, ns[|ns| - 1])]
  }

  function RenameExpression(tr: map<Name, Name>, e: Expression): Expression
    decreases e
  {
    match e
    case Identifier(n) => Identifier(RenameName(tr, n))
    case Literal(_) => e
    case FunctionCall(f, args) => FunctionCall(RenameName(tr, f), RenameExpressionList(tr, args))
  }

  function RenameExpressionList(tr: map<Name, Name>, es: seq<Expression>): (r: seq<Expression>)
    ensures |r| == |es|
    decreases es
  {
    if es == [] then [] else RenameExpressionList(tr, es[..|es| - 1]) + [RenameExpression(tr, es[|es| - 1])]
  }

  function RenameOption(tr: map<Name, Name>, e: Option<Expression>): Option<Expression>
  {
    if e.Some? then Some(RenameExpression(tr, e.value)) else None
  }

  function RenameBlock(tr: map<Name, Name>, b: Block): Block
    decreases b
  {
    Block(RenameStatementList(tr, b.statements))
  }

  /** Statement by statement: the list keeps its length and order. */
  function RenameStatementList(tr: map<Name, Name>, ss: seq<Statement>): (r: seq<Statement>)
    ensures |r| == |ss|
    decreases ss
  {
    if ss == [] then [] else RenameStatementList(tr, ss[..|ss| - 1]) + [RenameStatement(tr, ss[|ss| - 1])]
  }

  function RenameCaseList(tr: map<Name, Name>, cs: seq<Case>): (r: seq<Case>)
    ensures |r| == |cs|
    decreases cs
  {
    if cs == [] then [] else RenameCaseList(tr, cs[..|cs| - 1]) + [RenameCase(tr, cs[|cs| - 1])]
  }

  function RenameCase(tr: map<Name, Name>, c: Case): Case
    decreases c
  {
    Case(c.value, RenameBlock(tr, c.body))
  }

  function RenameStatement(tr: map<Name, Name>, s: Statement): Statement
    decreases s
  {
    match s
    case ExpressionStatement(e) => ExpressionStatement(RenameExpression(tr, e))
    case Assignment(xs, v) => Assignment(RenameNames(tr, xs), RenameExpression(tr, v))
    case VariableDeclaration(xs, v) => VariableDeclaration(RenameNames(tr, xs), RenameOption(tr, v))
    case FunctionDefinition(f, ps, rs, body) =>
      FunctionDefinition(RenameName(tr, f), RenameNames(tr, ps), RenameNames(tr, rs), RenameBlock(tr, body))
    case If(c, body) => If(RenameExpression(tr, c), RenameBlock(tr, body))
    case Switch(e, cs) => Switch(RenameExpression(tr, e), RenameCaseList(tr, cs))
    case ForLoop(pre, c, post, body) =>
      ForLoop(RenameBlock(tr, pre), RenameExpression(tr, c), RenameBlock(tr, post), RenameBlock(tr, body))
    case BlockStatement(b) => BlockStatement(RenameBlock(tr, b))
    case Break => s
    case Continue => s
    case Leave => s
  }

  // ----- undoing a renaming -----

  /** `back` undoes `tr` on every name in `names`. */
  ghost predicate Undoes(back: map<Name, Name>, tr: map<Name, Name>, names: set<Name>)
  {
    forall n :: n in names ==> RenameName(back, RenameName(tr, n)) == n
  }

  /**
   * A renaming whose new names are fresh and distinct is undone by its inverse: the inverse
   * sends every new name back, and leaves every untouched name alone because no new name
   * was in use before.
   */
  lemma InverseUndoes(tr: map<Name, Name>, inv: map<Name, Name>, names: set<Name>)
    requires forall a, b :: a in tr && b in tr && a != b ==> tr[a] != tr[b]
    requires forall a :: a in tr ==> tr[a] !in names
    requires inv.Keys == set a | a in tr :: tr[a]
    requires forall k :: k in inv ==> inv[k] in tr && tr[inv[k]] == k
    ensures Undoes(inv, tr, names)
  {
    forall n | n in names
      ensures RenameName(inv, RenameName(tr, n)) == n
    {
      if n in tr {
        assert tr[n] in inv;
        assert tr[inv[tr[n]]] == tr[n];
      } else {
        assert n !in inv;
      }
    }
  }

  lemma UndoesFewer(back: map<Name, Name>, tr: map<Name, Name>, names: set<Name>, fewer: set<Name>)
    requires Undoes(back, tr, names) && fewer <= names
    ensures Undoes(back, tr, fewer)
  {
  }

  /** Renaming and then renaming back gives the original code. */
  lemma {:induction false} RenameRoundTrip(tr: map<Name, Name>, back: map<Name, Name>, ss: seq<Statement>)
    requires Undoes(back, tr, StatementListNames(ss))
    ensures RenameStatementList(back, RenameStatementList(tr, ss)) == ss
    decreases ss
  {
    if ss != [] {
      var n := |ss| - 1;
      var names := StatementListNames(ss);
      UndoesFewer(back, tr, names, StatementListNames(ss[..n]));
      UndoesFewer(back, tr, names, StatementNames(ss[n]));
      RenameRoundTrip(tr, back, ss[..n]);
      StatementRoundTrip(tr, back, ss[n]);
      var r := RenameStatementList(tr, ss);
      assert r[..n] == RenameStatementList(tr, ss[..n]);
      assert RenameStatementList(back, r) == RenameStatementList(back, r[..n]) + [RenameStatement(back, r[n])];
      assert ss[..n] + [ss[n]] == ss;
    }
  }

  lemma {:induction false} StatementRoundTrip(tr: map<Name, Name>, back: map<Name, Name>, s: Statement)
    requires Undoes(back, tr, StatementNames(s))
    ensures RenameStatement(back, RenameStatement(tr, s)) == s
    decreases s, 1
  {
    if s.FunctionDefinition? || s.ForLoop? {
      DefinitionOrLoopRoundTrip(tr, back, s);
    } else {
      var names := StatementNames(s);
      match s
      case ExpressionStatement(e) => ExpressionRoundTrip(tr, back, e);
      case Assignment(xs, v) =>
        UndoesFewer(back, tr, names, Elements(xs));
        UndoesFewer(back, tr, names, ExpressionNames(v));
        NamesRoundTrip(tr, back, xs);
        ExpressionRoundTrip(tr, back, v);
      case VariableDeclaration(xs, v) =>
        UndoesFewer(back, tr, names, Elements(xs));
        NamesRoundTrip(tr, back, xs);
        if v.Some? {
          UndoesFewer(back, tr, names, ExpressionNames(v.value));
          ExpressionRoundTrip(tr, back, v.value);
        }
      case If(c, body) =>
        UndoesFewer(back, tr, names, ExpressionNames(c));
        UndoesFewer(back, tr, names, BlockNames(body));
        ExpressionRoundTrip(tr, back, c);
        RenameRoundTrip(tr, back, body.statements);
      case Switch(e, cs) =>
        UndoesFewer(back, tr, names, ExpressionNames(e));
        UndoesFewer(back, tr, names, CaseListNames(cs));
        ExpressionRoundTrip(tr, back, e);
        CaseListRoundTrip(tr, back, cs);
      case BlockStatement(b) =>
        UndoesFewer(back, tr, names, BlockNames(b));
        RenameRoundTrip(tr, back, b.statements);
      case Break =>
      case Continue =>
      case Leave =>
    }
  }

  lemma {:induction false} DefinitionOrLoopRoundTrip(tr: map<Name, Name>, back: map<Name, Name>, s: Statement)
    requires s.FunctionDefinition? || s.ForLoop?
    requires Undoes(back, tr, StatementNames(s))
    ensures RenameStatement(back, RenameStatement(tr, s)) == s
    decreases s, 0
  {
    var names := StatementNames(s);
    if s.FunctionDefinition? {
      UndoesFewer(back, tr, names, Elements(s.parameters));
      UndoesFewer(back, tr, names, Elements(s.returnVariables));
      UndoesFewer(back, tr, names, BlockNames(s.body));
      NamesRoundTrip(tr, back, s.parameters);
      NamesRoundTrip(tr, back, s.returnVariables);
      RenameRoundTrip(tr, back, s.body.statements);
    } else {
      UndoesFewer(back, tr, names, BlockNames(s.pre));
      UndoesFewer(back, tr, names, ExpressionNames(s.condition));
      UndoesFewer(back, tr, names, BlockNames(s.post));
      UndoesFewer(back, tr, names, BlockNames(s.body));
      RenameRoundTrip(tr, back, s.pre.statements);
      ExpressionRoundTrip(tr, back, s.condition);
      RenameRoundTrip(tr, back, s.post.statements);
      RenameRoundTrip(tr, back, s.body.statements);
    }
  }

  lemma {:induction false} CaseListRoundTrip(tr: map<Name, Name>, back: map<Name, Name>, cs: seq<Case>)
    requires Undoes(back, tr, CaseListNames(cs))
    ensures RenameCaseList(back, RenameCaseList(tr, cs)) == cs
    decreases cs
  {
    if cs != [] {
      var n := |cs| - 1;
      var names := CaseListNames(cs);
      UndoesFewer(back, tr, names, CaseListNames(cs[..n]));
      UndoesFewer(back, tr, names, CaseNames(cs[n]));
      CaseListRoundTrip(tr, back, cs[..n]);
      CaseRoundTrip(tr, back, cs[n]);
      var r := RenameCaseList(tr, cs);
      assert r[..n] == RenameCaseList(tr, cs[..n]);
      assert RenameCaseList(back, r) == RenameCaseList(back, r[..n]) + [RenameCase(back, r[n])];
      assert cs[..n] + [cs[n]] == cs;
    }
  }

  lemma {:induction false} CaseRoundTrip(tr: map<Name, Name>, back: map<Name, Name>, c: Case)
    requires Undoes(back, tr, CaseNames(c))
    ensures RenameCase(back, RenameCase(tr, c)) == c
    decreases c
  {
    assert CaseNames(c) == StatementListNames(c.body.statements);
    RenameRoundTrip(tr, back, c.body.statements);
  }

  lemma {:induction false} ExpressionRoundTrip(tr: map<Name, Name>, back: map<Name, Name>, e: Expression)
    requires Undoes(back, tr, ExpressionNames(e))
    ensures RenameExpression(back, RenameExpression(tr, e)) == e
    decreases e
  {
    match e
    case Identifier(_) =>
    case Literal(_) =>
    case FunctionCall(f, args) => ExpressionListRoundTrip(tr, back, args);
  }

  lemma {:induction false} ExpressionListRoundTrip(tr: map<Name, Name>, back: map<Name, Name>, es: seq<Expression>)
    requires Undoes(back, tr, ExpressionListNames(es))
    ensures RenameExpressionList(back, RenameExpressionList(tr, es)) == es
    decreases es
  {
    if es != [] {
      var n := |es| - 1;
      ExpressionListRoundTrip(tr, back, es[..n]);
      ExpressionRoundTrip(tr, back, es[n]);
      assert es[..n] + [es[n]] == es;
    }
  }

  lemma NamesRoundTrip(tr: map<Name, Name>, back: map<Name, Name>, ns: seq<Name>)
    requires Undoes(back, tr, Elements(ns))
    ensures RenameNames(back, RenameNames(tr, ns)) == ns
  {
    var r := RenameNames(back, RenameNames(tr, ns));
    forall i | 0 <= i < |ns|
      ensures r[i] == ns[i]
    {
      assert ns[i] in Elements(ns);
    }
  }
}
