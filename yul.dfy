/**
 * The part of the Yul abstract syntax tree that the three optimiser steps work on.
 *
 * Yul on the EVM is untyped, so a typed name is just its name. Source locations are dropped.
 * `Break`, `Continue` and `Leave` are carried through unchanged by every step.
 */
module Yul {
  import opened Wrappers

  type Name = string

  datatype Expression =
    | Identifier(name: Name)
    | Literal(value: nat)
    | FunctionCall(functionName: Name, arguments: seq<Expression>)

  /** A `case` of a `switch`; a `None` value is the `default` case. */
  datatype Case = Case(value: Option<nat>, body: Block)

  datatype Block = Block(statements: seq<Statement>)

  datatype Statement =
    | ExpressionStatement(expression: Expression)
    | Assignment(variableNames: seq<Name>, value: Expression)
    | VariableDeclaration(variables: seq<Name>, initialValue: Option<Expression>)
    | FunctionDefinition(name: Name, parameters: seq<Name>, returnVariables: seq<Name>, body: Block)
    | If(condition: Expression, body: Block)
    | Switch(expression: Expression, cases: seq<Case>)
    | ForLoop(pre: Block, condition: Expression, post: Block, body: Block)
    | BlockStatement(block: Block)
    | Break
    | Continue
    | Leave

  /** `Identifier` expressions for a list of names, in order. */
  function Identifiers(names: seq<Name>): (r: seq<Expression>)
    ensures |r| == |names|
    ensures forall i :: 0 <= i < |names| ==> r[i] == Identifier(names[i])
  {
    if names == [] then [] else Identifiers(names[..|names| - 1]) + [Identifier(names[|names| - 1])]
  }

  /** The names in a list, as a set. */
  function Elements(xs: seq<Name>): (r: set<Name>)
    ensures forall x :: x in r <==> x in xs
  {
    set x | x in xs
  }

  /** No name occurs twice. */
  predicate Distinct(xs: seq<Name>)
  {
    forall i, j :: 0 <= i < j < |xs| ==> xs[i] != xs[j]
  }

  /**
   * The grammar's demand on the statements the optimiser steps build: an assignment has at
   * least one target and a declaration at least one variable.
   */
  predicate WellFormedStatement(s: Statement)
  {
    (s.Assignment? ==> |s.variableNames| >= 1) && (s.VariableDeclaration? ==> |s.variables| >= 1)
  }

  /** Every name that occurs anywhere in an expression. */
  function ExpressionNames(e: Expression): set<Name>
  {
    match e
    case Identifier(n) => {n}
    case Literal(_) => {}
    case FunctionCall(f, args) => {f} + ExpressionListNames(args)
  }

  function ExpressionListNames(es: seq<Expression>): set<Name>
  {
    if es == [] then {} else ExpressionListNames(es[..|es| - 1]) + ExpressionNames(es[|es| - 1])
  }

  function OptionNames(e: Option<Expression>): set<Name>
  {
    if e.Some? then ExpressionNames(e.value) else {}
  }

  /** Every name that occurs anywhere in a statement list: declared, assigned, read or called. */
  function StatementListNames(ss: seq<Statement>): set<Name>
  {
    if ss == [] then {} else StatementListNames(ss[..|ss| - 1]) + StatementNames(ss[|ss| - 1])
  }

  function BlockNames(b: Block): set<Name>
  {
    StatementListNames(b.statements)
  }

  function CaseListNames(cs: seq<Case>): set<Name>
  {
    if cs == [] then {} else CaseListNames(cs[..|cs| - 1]) + CaseNames(cs[|cs| - 1])
  }

  function CaseNames(c: Case): set<Name>
  {
    BlockNames(c.body)
  }

  function StatementNames(s: Statement): set<Name>
  {
    match s
    case ExpressionStatement(e) => ExpressionNames(e)
    case Assignment(xs, v) => Elements(xs) + ExpressionNames(v)
    case VariableDeclaration(xs, v) => Elements(xs) + OptionNames(v)
    case FunctionDefinition(f, ps, rs, body) => {f} + Elements(ps) + Elements(rs) + BlockNames(body)
    case If(c, body) => ExpressionNames(c) + BlockNames(body)
    case Switch(e, cs) => ExpressionNames(e) + CaseListNames(cs)
    case ForLoop(pre, c, post, body) => BlockNames(pre) + ExpressionNames(c) + BlockNames(post) + BlockNames(body)
    case BlockStatement(b) => BlockNames(b)
    case Break => {}
    case Continue => {}
    case Leave => {}
  }

  lemma {:induction false} StatementListNamesAppend(a: seq<Statement>, b: seq<Statement>)
    ensures StatementListNames(a + b) == StatementListNames(a) + StatementListNames(b)
    decreases |b|
  {
    if b == [] {
      assert a + b == a;
    } else {
      assert (a + b)[..|a + b| - 1] == a + b[..|b| - 1];
      assert (a + b)[|a + b| - 1] == b[|b| - 1];
      StatementListNamesAppend(a, b[..|b| - 1]);
    }
  }

  lemma {:induction false} StatementListNamesMember(ss: seq<Statement>, i: nat)
    requires i < |ss|
    ensures StatementNames(ss[i]) <= StatementListNames(ss)
    decreases |ss|
  {
    if i < |ss| - 1 {
      assert ss[..|ss| - 1][i] == ss[i];
      StatementListNamesMember(ss[..|ss| - 1], i);
    }
  }
}
