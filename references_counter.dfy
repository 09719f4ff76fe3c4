/**
 * The reference counter the argument pruner consults: the names a subtree refers to, that is
 * the names whose reference count is nonzero. An `Identifier` node counts (reads and the
 * targets of assignments are both identifiers), and so does the name of every called
 * function; the names a declaration introduces (variables, a function's own name, its
 * parameters and return variables) do not. Nested function bodies are searched too.
 */
module ReferencesCounter {
  import opened Wrappers
  import opened Yul

  /** The names with a nonzero count in `countReferences(block)`. */
  function References(b: Block): set<Name>
    decreases b
  {
    StatementListReferences(b.statements)
  }

  function StatementListReferences(ss: seq<Statement>): set<Name>
    decreases ss
  {
    if ss == [] then {} else StatementListReferences(ss[..|ss| - 1]) + StatementReferences(ss[|ss| - 1])
  }

  function CaseListReferences(cs: seq<Case>): set<Name>
    decreases cs
  {
    if cs == [] then {} else CaseListReferences(cs[..|cs| - 1]) + CaseReferences(cs[|cs| - 1])
  }

  function CaseReferences(c: Case): set<Name>
    decreases c
  {
    References(c.body)
  }

  function StatementReferences(s: Statement): set<Name>
    decreases s
  {
    match s
    case ExpressionStatement(e) => ExpressionNames(e)
    case Assignment(xs, v) => Elements(xs) + ExpressionNames(v)
    case VariableDeclaration(_, v) => OptionNames(v)
    case FunctionDefinition(_, _, _, body) => References(body)
    case If(c, body) => ExpressionNames(c) + References(body)
    case Switch(e, cs) => ExpressionNames(e) + CaseListReferences(cs)
    case ForLoop(pre, c, post, body) => References(pre) + ExpressionNames(c) + References(post) + References(body)
    case BlockStatement(b) => References(b)
    case Break => {}
    case Continue => {}
    case Leave => {}
  }

  /** Every name referred to occurs in the block: the counter counts occurrences, it invents no names. */
  lemma {:induction false} ReferencesOccur(ss: seq<Statement>)
    ensures StatementListReferences(ss) <= StatementListNames(ss)
    decreases ss
  {
    if ss != [] {
      ReferencesOccur(ss[..|ss| - 1]);
      StatementReferencesOccur(ss[|ss| - 1]);
    }
  }

  lemma {:induction false} StatementReferencesOccur(s: Statement)
    ensures StatementReferences(s) <= StatementNames(s)
    decreases s
  {
    match s
    case ExpressionStatement(_) =>
    case Assignment(_, _) =>
    case VariableDeclaration(_, _) =>
    case FunctionDefinition(_, _, _, body) => ReferencesOccur(body.statements);
    case If(_, body) => ReferencesOccur(body.statements);
    case Switch(_, cs) => CaseReferencesOccur(cs);
    case ForLoop(pre, _, post, body) =>
      ReferencesOccur(pre.statements);
      ReferencesOccur(post.statements);
      ReferencesOccur(body.statements);
    case BlockStatement(b) => ReferencesOccur(b.statements);
    case Break =>
    case Continue =>
    case Leave =>
  }

  lemma {:induction false} CaseReferencesOccur(cs: seq<Case>)
    ensures CaseListReferences(cs) <= CaseListNames(cs)
    decreases cs
  {
    if cs != [] {
      CaseReferencesOccur(cs[..|cs| - 1]);
      OneCaseReferencesOccur(cs[|cs| - 1]);
    }
  }

  lemma {:induction false} OneCaseReferencesOccur(c: Case)
    ensures CaseReferences(c) <= CaseNames(c)
    decreases c
  {
    ReferencesOccur(c.body.statements);
  }
}
