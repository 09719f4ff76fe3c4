/**
 * The name dispenser of an optimiser step context: it hands out names that are not yet used
 * and remembers them, so every name it returns is distinct from every name used before it,
 * including the names it returned earlier.
 *
 * A fresh name is derived from its hint by appending `_` until it is unused; the exact
 * spelling the compiler chooses (a numeric suffix) is not part of this model.
 */
module NameDispenser {
  import opened Yul

  /** The used names that are at least `len` characters long: the candidates a suffixed hint can still hit. */
  ghost function LongNames(used: set<Name>, len: nat): set<Name>
  {
    set m | m in used && |m| >= len
  }

  lemma SubsetCardinality(a: set<Name>, b: set<Name>)
    requires a <= b
    ensures |a| <= |b|
  {
    if a != {} {
      var x :| x in a;
      SubsetCardinality(a - {x}, b - {x});
    }
  }

  lemma LongNamesShrink(used: set<Name>, n: Name)
    requires n in used
    ensures |LongNames(used, |n| + 1)| < |LongNames(used, |n|)|
  {
    assert n in LongNames(used, |n|);
    SubsetCardinality(LongNames(used, |n| + 1), LongNames(used, |n|) - {n});
  }

  /** The name `newName(hint)` returns when `used` are the names already taken. */
  function FreshName(hint: Name, used: set<Name>): (n: Name)
    ensures n !in used
    ensures |hint| <= |n| && n[..|hint|] == hint
    decreases |LongNames(used, |hint|)|
  {
    if hint !in used then hint
    else
      LongNamesShrink(used, hint);
      var n := FreshName(hint + "_", used);
      assert n[..|hint|] == (hint + "_")[..|hint|];
      n
  }

  /**
   * The names handed out for the hints, one after the other, and the used set afterwards.
   */
  function FreshNames(hints: seq<Name>, used: set<Name>): (r: (seq<Name>, set<Name>))
    ensures |r.0| == |hints|
    ensures r.1 == used + Elements(r.0)
    ensures forall i :: 0 <= i < |hints| ==> r.0[i] !in used
    ensures forall i, j :: 0 <= i < j < |hints| ==> r.0[i] != r.0[j]
    decreases |hints|
  {
    if hints == [] then ([], used)
    else
      var (names, used') := FreshNames(hints[..|hints| - 1], used);
      var n := FreshName(hints[|hints| - 1], used');
      (names + [n], used' + {n})
  }

  lemma PrefixSnoc<T>(s: seq<T>, i: nat)
    requires i < |s|
    ensures s[..i + 1] == s[..i] + [s[i]]
  {
  }

  lemma FreshNamesSnoc(hints: seq<Name>, h: Name, used: set<Name>, names: seq<Name>, used': set<Name>)
    requires FreshNames(hints, used) == (names, used')
    ensures FreshNames(hints + [h], used) == (names + [FreshName(h, used')], used' + {FreshName(h, used')})
  {
    assert (hints + [h])[..|hints|] == hints;
  }

  class NameDispenser {
    var usedNames: set<Name>

    /** A dispenser that treats `usedNames` (all names of the code at hand) as taken. */
    constructor (usedNames: set<Name>)
      ensures this.usedNames == usedNames
    {
      this.usedNames := usedNames;
    }

    method NewName(hint: Name) returns (n: Name)
      modifies this
      ensures n == FreshName(hint, old(usedNames))
      ensures usedNames == old(usedNames) + {n}
    {
      n := hint;
      while n in usedNames
        invariant usedNames == old(usedNames)
        invariant FreshName(n, usedNames) == FreshName(hint, usedNames)
        decreases |LongNames(usedNames, |n|)|
      {
        LongNamesShrink(usedNames, n);
        n := n + "_";
      }
      usedNames := usedNames + {n};
    }

    method MarkUsed(names: set<Name>)
      modifies this
      ensures usedNames == old(usedNames) + names
    {
      usedNames := usedNames + names;
    }
  }
}
