/**
 * The unused-function-argument pruner: every function defined directly in the top-level block
 * that does not refer to all of its parameters is split in two. The trimmed function keeps the
 * original name, takes only the parameters its body refers to and gets the body; the wrapper
 * gets a fresh name and the full parameter list, and only calls the trimmed function. Every
 * existing call, recursive calls included, is redirected to the wrapper by renaming.
 *
 * The three steps (discovery, renaming, splitting) are specified by pure functions first; the
 * classes and `Run` are proved to compute exactly these functions.
 */
module UnusedFunctionArgumentPruner {
  import opened Wrappers
  import opened Yul
  import opened NameDispenser
  import opened ReferencesCounter
  import opened NameDisplacer

  // ----- discovery (`FindFunctionsWithUnusedParameters`) -----

  /** The parameters the body refers to, in their original order. */
  function ReducedParameters(params: seq<Name>, refs: set<Name>): (r: seq<Name>)
    ensures |r| <= |params|
    ensures forall p :: p in r <==> p in params && p in refs
    decreases |params|
  {
    if params == [] then []
    else
      var n := |params| - 1;
      assert forall p :: p in params <==> p in params[..n] || p == params[n] by {
        assert params == params[..n] + [params[n]];
      }
      ReducedParameters(params[..n], refs) + (if params[n] in refs then [params[n]] else [])
  }

  /** The reduced parameter list of a definition. */
  function Reduced(f: Statement): seq<Name>
    requires f.FunctionDefinition?
  {
    ReducedParameters(f.parameters, References(f.body))
  }

  /** A definition is prunable when its reduced list is strictly shorter. */
  predicate HasUnusedParameter(f: Statement)
    requires f.FunctionDefinition?
  {
    |Reduced(f)| < |f.parameters|
  }

  /** `r` is `s` with some elements left out and the others in their order. */
  ghost predicate Subsequence(r: seq<Name>, s: seq<Name>)
    decreases |s|
  {
    if r == [] then true
    else if s == [] then false
    else (r[|r| - 1] == s[|s| - 1] && Subsequence(r[..|r| - 1], s[..|s| - 1])) || Subsequence(r, s[..|s| - 1])
  }

  /** The reduced list keeps the relative order of the parameters. */
  lemma {:induction false} ReducedParametersKeepOrder(params: seq<Name>, refs: set<Name>)
    ensures Subsequence(ReducedParameters(params, refs), params)
    decreases |params|
  {
    if params != [] {
      var n := |params| - 1;
      ReducedParametersKeepOrder(params[..n], refs);
      var r0 := ReducedParameters(params[..n], refs);
      assert params[..|params| - 1] == params[..n];
      if params[n] in refs {
        var r := r0 + [params[n]];
        assert r[..|r| - 1] == r0 && r[|r| - 1] == params[|params| - 1];
      } else {
        assert ReducedParameters(params, refs) == r0;
        assert r0 != [] ==> Subsequence(r0, params[..|params| - 1]);
      }
    }
  }

  /** A parameter list loses an element exactly when some parameter is not referred to. */
  lemma {:induction false} ReducedShorterIffUnused(params: seq<Name>, refs: set<Name>)
    ensures |ReducedParameters(params, refs)| < |params| <==> exists p :: p in params && p !in refs
    decreases |params|
  {
    if params != [] {
      var n := |params| - 1;
      ReducedShorterIffUnused(params[..n], refs);
      assert params == params[..n] + [params[n]];
      if params[n] !in refs {
        assert params[n] in params;
      }
      if exists p :: p in params[..n] && p !in refs {
        var p :| p in params[..n] && p !in refs;
        assert p in params;
      }
    }
  }

  /** `functions` with `prunedTypeNames`: the prunable top-level definitions and their reduced lists. */
  function Prunable(ss: seq<Statement>): map<Name, seq<Name>>
    decreases |ss|
  {
    if ss == [] then map[]
    else
      var m := Prunable(ss[..|ss| - 1]);
      var s := ss[|ss| - 1];
      if s.FunctionDefinition? && HasUnusedParameter(s) then m[s.name := Reduced(s)] else m
  }

  lemma PrunableStep(ss: seq<Statement>, i: nat)
    requires i < |ss|
    ensures Prunable(ss[..i + 1]) == if ss[i].FunctionDefinition? && HasUnusedParameter(ss[i])
      then Prunable(ss[..i])[ss[i].name := Reduced(ss[i])] else Prunable(ss[..i])
  {
    assert ss[..i + 1][..i] == ss[..i];
  }

  /**
   * Exactly the top-level definitions with an unused parameter are recorded, each with its
   * reduced parameter list; nested definitions and other statements are never looked at.
   */
  lemma {:induction false} PrunableCharacterisation(ss: seq<Statement>)
    ensures forall i :: 0 <= i < |ss| && ss[i].FunctionDefinition? && HasUnusedParameter(ss[i]) ==> ss[i].name in Prunable(ss)
    ensures forall f :: f in Prunable(ss) ==>
      exists i :: 0 <= i < |ss| && ss[i].FunctionDefinition? && ss[i].name == f
        && HasUnusedParameter(ss[i]) && Prunable(ss)[f] == Reduced(ss[i])
    decreases |ss|
  {
    if ss != [] {
      var n := |ss| - 1;
      PrunableCharacterisation(ss[..n]);
      var m := Prunable(ss);
      forall i | 0 <= i < |ss| && ss[i].FunctionDefinition? && HasUnusedParameter(ss[i])
        ensures ss[i].name in m
      {
        if i < n {
          assert ss[..n][i] == ss[i];
        }
      }
      forall f | f in m
        ensures exists i :: (0 <= i < |ss| && ss[i].FunctionDefinition? && ss[i].name == f
          && HasUnusedParameter(ss[i]) && m[f] == Reduced(ss[i]))
      {
        if ss[n].FunctionDefinition? && HasUnusedParameter(ss[n]) && f == ss[n].name {
          assert m[f] == Reduced(ss[n]);
        } else {
          var p := Prunable(ss[..n]);
          assert f in p && m[f] == p[f];
          var i :| 0 <= i < n && ss[..n][i].FunctionDefinition? && ss[..n][i].name == f
            && HasUnusedParameter(ss[..n][i]) && Prunable(ss[..n])[f] == Reduced(ss[..n][i]);
          assert ss[..n][i] == ss[i];
        }
      }
    }
  }

  /** When every top-level function refers to all of its parameters, nothing is prunable. */
  lemma NothingPrunable(ss: seq<Statement>)
    requires forall i :: 0 <= i < |ss| && ss[i].FunctionDefinition? ==>
      forall p :: p in ss[i].parameters ==> p in References(ss[i].body)
    ensures Prunable(ss) == map[]
  {
    PrunableCharacterisation(ss);
    if Prunable(ss) != map[] {
      var f :| f in Prunable(ss);
      var i :| 0 <= i < |ss| && ss[i].FunctionDefinition? && ss[i].name == f && HasUnusedParameter(ss[i]);
      ReducedShorterIffUnused(ss[i].parameters, References(ss[i].body));
      assert false;
    }
  }

  class FindFunctionsWithUnusedParameters {
    var functions: set<Name>
    var prunedTypeNames: map<Name, seq<Name>>

    constructor ()
      ensures functions == {} && prunedTypeNames == map[]
    {
      functions := {};
      prunedTypeNames := map[];
    }

    /** `operator()(FunctionDefinition const&)`: records `f` when its reduced list is shorter. */
    method Visit(f: Statement)
      requires f.FunctionDefinition?
      modifies this
      ensures HasUnusedParameter(f) ==>
        functions == old(functions) + {f.name} && prunedTypeNames == old(prunedTypeNames)[f.name := Reduced(f)]
      ensures !HasUnusedParameter(f) ==>
        functions == old(functions) && prunedTypeNames == old(prunedTypeNames)
    {
      var namesFound := References(f.body);
      var reducedParameters: seq<Name> := [];
      for i := 0 to |f.parameters|
        invariant reducedParameters == ReducedParameters(f.parameters[..i], namesFound)
        invariant functions == old(functions) && prunedTypeNames == old(prunedTypeNames)
      {
        PrefixSnoc(f.parameters, i);
        if f.parameters[i] in namesFound {
          reducedParameters := reducedParameters + [f.parameters[i]];
        }
      }
      assert f.parameters[..|f.parameters|] == f.parameters;
      if |reducedParameters| < |f.parameters| {
        functions := functions + {f.name};
        prunedTypeNames := prunedTypeNames[f.name := reducedParameters];
      }
    }
  }

  // ----- renaming (`ReplaceFunctionName`) -----

  /** No two top-level definitions of a name in `names` share that name (the displacer asserts this). */
  predicate DefinedOnce(ss: seq<Statement>, names: set<Name>)
  {
    forall i, j :: 0 <= i < j < |ss| && ss[i].FunctionDefinition? && ss[j].FunctionDefinition? && ss[i].name in names
      ==> ss[i].name != ss[j].name
  }

  /** The top-level definitions named in `names`, in statement order: the names fresh ones are dispensed for. */
  function DisplacedNames(ss: seq<Statement>, names: set<Name>): (r: seq<Name>)
    ensures forall n :: n in r ==> n in names
    decreases |ss|
  {
    if ss == [] then []
    else
      var n := |ss| - 1;
      DisplacedNames(ss[..n], names) + (if ss[n].FunctionDefinition? && ss[n].name in names then [ss[n].name] else [])
  }

  /** The displaced names are exactly the names in `names` of the top-level definitions. */
  lemma {:induction false} DisplacedNamesMembers(ss: seq<Statement>, names: set<Name>)
    ensures var r := DisplacedNames(ss, names);
      && (forall n :: n in r ==> exists i :: 0 <= i < |ss| && ss[i].FunctionDefinition? && ss[i].name == n)
      && (forall i :: 0 <= i < |ss| && ss[i].FunctionDefinition? && ss[i].name in names ==> ss[i].name in r)
    decreases |ss|
  {
    if ss != [] {
      var n := |ss| - 1;
      DisplacedNamesMembers(ss[..n], names);
      var r0 := DisplacedNames(ss[..n], names);
      var r := DisplacedNames(ss, names);
      assert forall i :: 0 <= i < n ==> ss[..n][i] == ss[i];
      forall x | x in r
        ensures exists i :: 0 <= i < |ss| && ss[i].FunctionDefinition? && ss[i].name == x
      {
        if x !in r0 {
          assert ss[n].FunctionDefinition? && ss[n].name == x;
        }
      }
    }
  }

  lemma DisplacedNamesStep(ss: seq<Statement>, i: nat, names: set<Name>)
    requires i < |ss|
    ensures DisplacedNames(ss[..i + 1], names)
      == DisplacedNames(ss[..i], names) + (if ss[i].FunctionDefinition? && ss[i].name in names then [ss[i].name] else [])
  {
    assert ss[..i + 1][..i] == ss[..i];
  }

  /** A definition to displace has not been displaced by an earlier statement (the displacer asserts this). */
  lemma NotYetDisplaced(ss: seq<Statement>, i: nat, names: set<Name>)
    requires DefinedOnce(ss, names) && i < |ss| && ss[i].FunctionDefinition? && ss[i].name in names
    ensures ss[i].name !in DisplacedNames(ss[..i], names)
  {
    var r := DisplacedNames(ss[..i], names);
    DisplacedNamesMembers(ss[..i], names);
    forall k | 0 <= k < |r|
      ensures r[k] != ss[i].name
    {
      assert r[k] in r;
      var j :| 0 <= j < i && ss[..i][j].FunctionDefinition? && ss[..i][j].name == r[k];
      assert ss[..i][j] == ss[j];
    }
  }

  lemma {:induction false} DisplacedNamesDistinct(ss: seq<Statement>, names: set<Name>)
    requires DefinedOnce(ss, names)
    ensures Distinct(DisplacedNames(ss, names))
    decreases |ss|
  {
    if ss != [] {
      var n := |ss| - 1;
      assert DefinedOnce(ss[..n], names) by {
        assert forall i :: 0 <= i < n ==> ss[..n][i] == ss[i];
      }
      DisplacedNamesDistinct(ss[..n], names);
      var r0 := DisplacedNames(ss[..n], names);
      DisplacedNamesMembers(ss[..n], names);
      if ss[n].FunctionDefinition? && ss[n].name in names {
        forall k | 0 <= k < |r0|
          ensures r0[k] != ss[n].name
        {
          assert r0[k] in r0;
          var i :| 0 <= i < n && ss[..n][i].FunctionDefinition? && ss[..n][i].name == r0[k];
          assert ss[..n][i] == ss[i];
        }
      }
    }
  }

  /** The map sending `keys[i]` to `values[i]`; a later key wins. */
  function ZipMap(keys: seq<Name>, values: seq<Name>): (m: map<Name, Name>)
    requires |keys| == |values|
    ensures m.Keys == Elements(keys)
    decreases |keys|
  {
    if keys == [] then map[]
    else
      var n := |keys| - 1;
      ZipMap(keys[..n], values[..n])[keys[n] := values[n]]
  }

  lemma ZipMapSnoc(keys: seq<Name>, values: seq<Name>, k: Name, v: Name)
    requires |keys| == |values|
    ensures ZipMap(keys + [k], values + [v]) == ZipMap(keys, values)[k := v]
  {
    assert (keys + [k])[..|keys|] == keys && (values + [v])[..|values|] == values;
  }

  lemma {:induction false} ZipMapAt(keys: seq<Name>, values: seq<Name>, i: nat)
    requires |keys| == |values| && Distinct(keys) && i < |keys|
    ensures ZipMap(keys, values)[keys[i]] == values[i]
    decreases |keys|
  {
    var n := |keys| - 1;
    var m0 := ZipMap(keys[..n], values[..n]);
    assert ZipMap(keys, values) == m0[keys[n] := values[n]];
    if i < n {
      DistinctPrefix(keys, n);
      ZipMapAt(keys[..n], values[..n], i);
      assert keys[..n][i] == keys[i] && values[..n][i] == values[i];
      assert keys[i] != keys[n];
    }
  }

  lemma DistinctPrefix(xs: seq<Name>, n: nat)
    requires Distinct(xs) && n <= |xs|
    ensures Distinct(xs[..n])
  {
    assert forall a :: 0 <= a < n ==> xs[..n][a] == xs[a];
  }

  lemma {:induction false} ZipMapValues(keys: seq<Name>, values: seq<Name>)
    requires |keys| == |values|
    ensures forall k :: k in ZipMap(keys, values) ==> ZipMap(keys, values)[k] in values
    decreases |keys|
  {
    if keys != [] {
      var n := |keys| - 1;
      ZipMapValues(keys[..n], values[..n]);
      assert forall v :: v in values[..n] ==> v in values;
    }
  }

  /** The translation table: one fresh name per displaced definition, and the used names afterwards. */
  function Translations(ss: seq<Statement>, names: set<Name>, used: set<Name>): (r: (map<Name, Name>, set<Name>))
  {
    var ds := DisplacedNames(ss, names);
    var fr := FreshNames(ds, used);
    (ZipMap(ds, fr.0), fr.1)
  }

  /** One more displaced name: its fresh name joins the list, the used names and the table. */
  lemma DisplaceStep(ds: seq<Name>, names: seq<Name>, h: Name, used: set<Name>, before: set<Name>, t: Name)
    requires (names, before) == FreshNames(ds, used) && t == FreshName(h, before)
    ensures (names + [t], before + {t}) == FreshNames(ds + [h], used)
    ensures ZipMap(ds + [h], names + [t]) == ZipMap(ds, names)[h := t]
  {
    FreshNamesSnoc(ds, h, used, names, before);
    ZipMapSnoc(ds, names, h, t);
  }

  /** One more top-level statement: a definition to free gets the next fresh name, anything else changes nothing. */
  lemma TranslationsStep(ss: seq<Statement>, i: nat, names: set<Name>, used: set<Name>)
    requires i < |ss|
    ensures var r := Translations(ss[..i], names, used);
      Translations(ss[..i + 1], names, used) ==
        if ss[i].FunctionDefinition? && ss[i].name in names
        then (r.0[ss[i].name := FreshName(ss[i].name, r.1)], r.1 + {FreshName(ss[i].name, r.1)})
        else r
  {
    DisplacedNamesStep(ss, i, names);
    var ds := DisplacedNames(ss[..i], names);
    var fr := FreshNames(ds, used);
    if ss[i].FunctionDefinition? && ss[i].name in names {
      var h := ss[i].name;
      var t := FreshName(h, fr.1);
      DisplaceStep(ds, fr.0, h, used, fr.1, t);
      assert DisplacedNames(ss[..i + 1], names) == ds + [h];
      assert Translations(ss[..i + 1], names, used) == (ZipMap(ds + [h], fr.0 + [t]), fr.1 + {t});
    } else {
      assert ds + [] == ds;
    }
  }

  /** A definition to free has no translation yet when it is reached (the displacer asserts this). */
  lemma NotYetTranslated(ss: seq<Statement>, i: nat, names: set<Name>, used: set<Name>)
    requires DefinedOnce(ss, names) && i < |ss| && ss[i].FunctionDefinition? && ss[i].name in names
    ensures ss[i].name !in Translations(ss[..i], names, used).0
  {
    NotYetDisplaced(ss, i, names);
  }

  class ReplaceFunctionName {
    const dispenser: NameDispenser
    const namesToFree: set<Name>
    var translations: map<Name, Name>

    /** The displacer first marks the names to free as used. */
    constructor (dispenser: NameDispenser, namesToFree: set<Name>)
      modifies dispenser
      ensures this.dispenser == dispenser && this.namesToFree == namesToFree && translations == map[]
      ensures dispenser.usedNames == old(dispenser.usedNames) + namesToFree
    {
      this.dispenser := dispenser;
      this.namesToFree := namesToFree;
      translations := map[];
      new;
      dispenser.MarkUsed(namesToFree);
    }

    /**
     * Applied to the top-level block: a fresh name for each top-level definition to free, in
     * statement order, then every occurrence of a freed name replaced by its translation.
     */
    method Apply(b: Block) returns (b': Block)
      requires translations == map[]
      requires DefinedOnce(b.statements, namesToFree)
      modifies this, dispenser
      ensures (translations, dispenser.usedNames) == Translations(b.statements, namesToFree, old(dispenser.usedNames))
      ensures b' == RenameBlock(translations, b)
    {
      var ss := b.statements;
      for i := 0 to |ss|
        invariant (translations, dispenser.usedNames) == Translations(ss[..i], namesToFree, old(dispenser.usedNames))
      {
        TranslationsStep(ss, i, namesToFree, old(dispenser.usedNames));
        if ss[i].FunctionDefinition? && ss[i].name in namesToFree {
          NotYetTranslated(ss, i, namesToFree, old(dispenser.usedNames));
          assert ss[i].name !in translations;
          var t := dispenser.NewName(ss[i].name);
          translations := translations[ss[i].name := t];
        }
      }
      assert ss[..|ss|] == ss;
      b' := RenameBlock(translations, b);
    }
  }

  // ----- splitting (`AddPrunedFunction`) -----

  /** `inv` sends the translation of every name in `names` back to a name of `names` with that translation. */
  ghost predicate IsInverseOn(inv: map<Name, Name>, tr: map<Name, Name>, names: set<Name>)
  {
    && inv.Keys == (set f | f in names && f in tr :: tr[f])
    && forall k :: k in inv ==> inv[k] in names && inv[k] in tr && tr[inv[k]] == k
  }

  lemma InverseOfZipAt(ds: seq<Name>, fr: seq<Name>, inv: map<Name, Name>, i: nat)
    requires |ds| == |fr| && Distinct(ds) && Distinct(fr) && i < |ds|
    requires IsInverseOn(inv, ZipMap(ds, fr), Elements(ds))
    ensures fr[i] in inv && inv[fr[i]] == ds[i]
  {
    var tr := ZipMap(ds, fr);
    ZipMapAt(ds, fr, i);
    assert ds[i] in Elements(ds) && ds[i] in tr;
    var f := inv[fr[i]];
    var j :| 0 <= j < |ds| && ds[j] == f;
    ZipMapAt(ds, fr, j);
  }

  /** The inverse is defined on exactly the new names. */
  lemma InverseKeys(ds: seq<Name>, fr: seq<Name>, inv: map<Name, Name>)
    requires |ds| == |fr| && Distinct(ds) && Distinct(fr)
    requires IsInverseOn(inv, ZipMap(ds, fr), Elements(ds))
    ensures inv.Keys == Elements(fr)
  {
    forall k | k in inv
      ensures k in fr
    {
      var j :| 0 <= j < |ds| && ds[j] == inv[k];
      ZipMapAt(ds, fr, j);
    }
    forall i | 0 <= i < |fr|
      ensures fr[i] in inv
    {
      InverseOfZipAt(ds, fr, inv, i);
    }
  }

  /** With distinct keys and distinct new names, the inverse is the zip the other way round. */
  lemma InverseOfZip(ds: seq<Name>, fr: seq<Name>, inv: map<Name, Name>)
    requires |ds| == |fr| && Distinct(ds) && Distinct(fr)
    requires IsInverseOn(inv, ZipMap(ds, fr), Elements(ds))
    ensures inv == ZipMap(fr, ds)
  {
    var back := ZipMap(fr, ds);
    InverseKeys(ds, fr, inv);
    forall k | k in inv
      ensures inv[k] == back[k]
    {
      var i :| 0 <= i < |fr| && fr[i] == k;
      InverseOfZipAt(ds, fr, inv, i);
      ZipMapAt(fr, ds, i);
    }
    assert inv.Keys == back.Keys;
  }

  /**
   * `addFunction`: the trimmed definition (original name, reduced parameters, same return
   * variables, the old body), then the wrapper (the renamed name, all parameters, same return
   * variables, a body that only calls the trimmed function with the reduced parameters).
   */
  function SplitFunction(origName: Name, reduced: seq<Name>, f: Statement): (r: seq<Statement>)
    requires f.FunctionDefinition?
  {
    [ FunctionDefinition(origName, reduced, f.returnVariables, f.body),
      FunctionDefinition(f.name, f.parameters, f.returnVariables,
        Block([Assignment(f.returnVariables, FunctionCall(origName, Identifiers(reduced)))])) ]
  }

  /**
   * The wrapper's one statement is a well-formed assignment exactly when the function has
   * return variables: without them it is an assignment with no target, kept as the source
   * builds it.
   */
  lemma WrapperWellFormedIffReturns(origName: Name, reduced: seq<Name>, f: Statement)
    requires f.FunctionDefinition?
    ensures var w := SplitFunction(origName, reduced, f)[1];
      && |w.body.statements| == 1 && w.body.statements[0].Assignment?
      && w.body.statements[0].variableNames == f.returnVariables
      && (WellFormedStatement(w.body.statements[0]) <==> |f.returnVariables| >= 1)
  {
  }

  /** What one top-level statement becomes: a renamed definition is split, anything else stays. */
  function SplitOne(inv: map<Name, Name>, pruned: map<Name, seq<Name>>, s: Statement): seq<Statement>
    requires forall k :: k in inv ==> inv[k] in pruned
  {
    if s.FunctionDefinition? && s.name in inv then SplitFunction(inv[s.name], pruned[inv[s.name]], s) else [s]
  }

  /** `operator()(Block&)` of the splitter, via `iterateReplacing` over the top-level statements. */
  function SplitDefinitions(inv: map<Name, Name>, pruned: map<Name, seq<Name>>, ss: seq<Statement>): seq<Statement>
    requires forall k :: k in inv ==> inv[k] in pruned
    decreases |ss|
  {
    if ss == [] then [] else SplitDefinitions(inv, pruned, ss[..|ss| - 1]) + SplitOne(inv, pruned, ss[|ss| - 1])
  }

  lemma SplitDefinitionsSnoc(inv: map<Name, Name>, pruned: map<Name, seq<Name>>, ss: seq<Statement>, s: Statement)
    requires forall k :: k in inv ==> inv[k] in pruned
    ensures SplitDefinitions(inv, pruned, ss + [s]) == SplitDefinitions(inv, pruned, ss) + SplitOne(inv, pruned, s)
  {
    assert (ss + [s])[..|ss|] == ss;
  }

  class AddPrunedFunction {
    const functions: set<Name>
    const prunedTypeNames: map<Name, seq<Name>>
    const translations: map<Name, Name>
    var inverseTranslations: map<Name, Name>

    /** Builds the inverse of the translations of the prunable functions (`at` demands that each has one). */
    constructor (functions: set<Name>, prunedTypeNames: map<Name, seq<Name>>, translations: map<Name, Name>)
      requires functions <= translations.Keys
      ensures this.functions == functions && this.prunedTypeNames == prunedTypeNames
      ensures this.translations == translations
      ensures IsInverseOn(inverseTranslations, translations, functions)
    {
      this.functions := functions;
      this.prunedTypeNames := prunedTypeNames;
      this.translations := translations;
      var inverse: map<Name, Name> := map[];
      var remaining := functions;
      while remaining != {}
        invariant remaining <= functions
        invariant IsInverseOn(inverse, translations, functions - remaining)
        decreases |remaining|
      {
        var f :| f in remaining;
        inverse := inverse[translations[f] := f];
        remaining := remaining - {f};
      }
      inverseTranslations := inverse;
    }

    method AddFunction(f: Statement) returns (r: seq<Statement>)
      requires f.FunctionDefinition? && f.name in inverseTranslations
      requires inverseTranslations[f.name] in prunedTypeNames
      ensures var origName := inverseTranslations[f.name];
        r == SplitFunction(origName, prunedTypeNames[origName], f)
    {
      var newName := inverseTranslations[f.name];
      var reduced := prunedTypeNames[newName];
      // the new definition takes over the old body (`swap`)
      var newDefinition := FunctionDefinition(newName, reduced, f.returnVariables, f.body);
      var variableNames: seq<Name> := [];
      for i := 0 to |f.returnVariables|
        invariant variableNames == f.returnVariables[..i]
      {
        PrefixSnoc(f.returnVariables, i);
        variableNames := variableNames + [f.returnVariables[i]];
      }
      assert f.returnVariables[..|f.returnVariables|] == f.returnVariables;
      var arguments: seq<Expression> := [];
      for i := 0 to |reduced|
        invariant arguments == Identifiers(reduced[..i])
      {
        PrefixSnoc(reduced, i);
        arguments := arguments + [Identifier(reduced[i])];
      }
      assert reduced[..|reduced|] == reduced;
      var call := FunctionCall(newName, arguments);
      var body := Block([Assignment(variableNames, call)]);
      r := [newDefinition, FunctionDefinition(f.name, f.parameters, f.returnVariables, body)];
    }

    method Apply(b: Block) returns (b': Block)
      requires forall k :: k in inverseTranslations ==> inverseTranslations[k] in prunedTypeNames
      ensures b' == Block(SplitDefinitions(inverseTranslations, prunedTypeNames, b.statements))
    {
      var ss := b.statements;
      var statements: seq<Statement> := [];
      for i := 0 to |ss|
        invariant statements == SplitDefinitions(inverseTranslations, prunedTypeNames, ss[..i])
      {
        PrefixSnoc(ss, i);
        SplitDefinitionsSnoc(inverseTranslations, prunedTypeNames, ss[..i], ss[i]);
        if ss[i].FunctionDefinition? && ss[i].name in inverseTranslations {
          var replacement := AddFunction(ss[i]);
          statements := statements + replacement;
        } else {
          statements := statements + [ss[i]];
        }
      }
      assert ss[..|ss|] == ss;
      b' := Block(statements);
    }
  }

  // ----- the step (`UnusedFunctionArgumentPruner::run`) -----

  /** The translation the renaming step builds for block `b` when the dispenser has used `used`. */
  function Translation(b: Block, used: set<Name>): map<Name, Name>
  {
    var pruned := Prunable(b.statements);
    Translations(b.statements, pruned.Keys, used + pruned.Keys).0
  }

  /** The whole step, and the dispenser's used names afterwards. */
  function Prune(b: Block, used: set<Name>): (Block, set<Name>)
  {
    var pruned := Prunable(b.statements);
    if pruned == map[] then (b, used)
    else
      var ds := DisplacedNames(b.statements, pruned.Keys);
      var fr := FreshNames(ds, used + pruned.Keys);
      var tr := ZipMap(ds, fr.0);
      ZipMapValues(fr.0, ds);
      (Block(SplitDefinitions(ZipMap(fr.0, ds), pruned, RenameStatementList(tr, b.statements))), fr.1)
  }

  method Run(dispenser: NameDispenser, b: Block) returns (b': Block)
    requires DefinedOnce(b.statements, Prunable(b.statements).Keys)
    modifies dispenser
    ensures (b', dispenser.usedNames) == Prune(b, old(dispenser.usedNames))
  {
    var ss := b.statements;
    var find := new FindFunctionsWithUnusedParameters();
    for i := 0 to |ss|
      invariant find.prunedTypeNames == Prunable(ss[..i]) && find.functions == find.prunedTypeNames.Keys
      invariant dispenser.usedNames == old(dispenser.usedNames)
    {
      PrunableStep(ss, i);
      if ss[i].FunctionDefinition? {
        find.Visit(ss[i]);
      }
    }
    assert ss[..|ss|] == ss;
    if find.functions == {} {
      return b;
    }
    var pruned := find.prunedTypeNames;
    var replace := new ReplaceFunctionName(dispenser, find.functions);
    b' := replace.Apply(b);

    ghost var ds := DisplacedNames(ss, pruned.Keys);
    ghost var fr := FreshNames(ds, old(dispenser.usedNames) + pruned.Keys);
    PrunedAllDisplaced(ss);

    var add := new AddPrunedFunction(find.functions, pruned, replace.translations);
    InverseOfZip(ds, fr.0, add.inverseTranslations);
    b' := add.Apply(b');
  }

  // ----- what the step achieves -----

  /** What a top-level statement ends up as: a prunable definition split into trimmed and wrapper, anything else renamed. */
  function Expected(tr: map<Name, Name>, pruned: map<Name, seq<Name>>, s: Statement): seq<Statement>
  {
    if s.FunctionDefinition? && s.name in pruned then SplitFunction(s.name, pruned[s.name], RenameStatement(tr, s))
    else [RenameStatement(tr, s)]
  }

  function ExpectedStatements(tr: map<Name, Name>, pruned: map<Name, seq<Name>>, ss: seq<Statement>): seq<Statement>
    decreases |ss|
  {
    if ss == [] then [] else ExpectedStatements(tr, pruned, ss[..|ss| - 1]) + Expected(tr, pruned, ss[|ss| - 1])
  }

  /** The inverse finds a definition after renaming exactly when it was prunable, and gives back its original name. */
  ghost predicate FindsRenamed(inv: map<Name, Name>, tr: map<Name, Name>, pruned: map<Name, seq<Name>>, s: Statement)
  {
    s.FunctionDefinition? ==>
      && (s.name in pruned <==> RenameName(tr, s.name) in inv)
      && (s.name in pruned ==> inv[RenameName(tr, s.name)] == s.name)
  }

  /** A renamed definition's fields, as the splitter sees them. */
  lemma RenamedDefinition(tr: map<Name, Name>, s: Statement)
    ensures RenameStatement(tr, s).FunctionDefinition? <==> s.FunctionDefinition?
    ensures s.FunctionDefinition? ==> RenameStatement(tr, s).name == RenameName(tr, s.name)
  {
  }

  lemma SplitOneRenamed(inv: map<Name, Name>, tr: map<Name, Name>, pruned: map<Name, seq<Name>>, s: Statement)
    requires forall k :: k in inv ==> inv[k] in pruned
    requires FindsRenamed(inv, tr, pruned, s)
    ensures SplitOne(inv, pruned, RenameStatement(tr, s)) == Expected(tr, pruned, s)
  {
    RenamedDefinition(tr, s);
  }

  lemma {:induction false} SplitAfterRename(inv: map<Name, Name>, tr: map<Name, Name>, pruned: map<Name, seq<Name>>, ss: seq<Statement>)
    requires forall k :: k in inv ==> inv[k] in pruned
    requires forall i :: 0 <= i < |ss| ==> FindsRenamed(inv, tr, pruned, ss[i])
    ensures SplitDefinitions(inv, pruned, RenameStatementList(tr, ss)) == ExpectedStatements(tr, pruned, ss)
    decreases |ss|
  {
    if ss != [] {
      var n := |ss| - 1;
      forall i | 0 <= i < n
        ensures FindsRenamed(inv, tr, pruned, ss[..n][i])
      {
        assert ss[..n][i] == ss[i];
      }
      SplitAfterRename(inv, tr, pruned, ss[..n]);
      assert RenameStatementList(tr, ss) == RenameStatementList(tr, ss[..n]) + [RenameStatement(tr, ss[n])];
      assert ExpectedStatements(tr, pruned, ss) == ExpectedStatements(tr, pruned, ss[..n]) + Expected(tr, pruned, ss[n]);
      SplitDefinitionsSnoc(inv, pruned, RenameStatementList(tr, ss[..n]), RenameStatement(tr, ss[n]));
      SplitOneRenamed(inv, tr, pruned, ss[n]);
    }
  }

  /**
   * The net effect of the step: every top-level definition with an unused parameter is
   * replaced, in place, by its trimmed version (original name, reduced parameters, the body
   * renamed) followed by its wrapper (fresh name, all parameters); every other statement stays
   * where it is, renamed. Needs a dispenser that knows every name of the block.
   */
  lemma PruneShape(b: Block, used: set<Name>)
    requires StatementListNames(b.statements) <= used
    requires DefinedOnce(b.statements, Prunable(b.statements).Keys)
    requires Prunable(b.statements) != map[]
    ensures Prune(b, used).0.statements == ExpectedStatements(Translation(b, used), Prunable(b.statements), b.statements)
  {
    var ss := b.statements;
    var pruned := Prunable(ss);
    var ds := DisplacedNames(ss, pruned.Keys);
    var fr := FreshNames(ds, used + pruned.Keys);
    PrunedAllDisplaced(ss);
    forall i | 0 <= i < |ss|
      ensures FindsRenamed(ZipMap(fr.0, ds), ZipMap(ds, fr.0), pruned, ss[i])
    {
      StatementListNamesMember(ss, i);
      FindsRenamedOne(ds, fr.0, pruned, used, ss[i]);
    }
    ZipMapValues(fr.0, ds);
    SplitAfterRename(ZipMap(fr.0, ds), ZipMap(ds, fr.0), pruned, ss);
  }

  /** The names to displace are exactly the prunable functions, each once. */
  lemma PrunedAllDisplaced(ss: seq<Statement>)
    requires DefinedOnce(ss, Prunable(ss).Keys)
    ensures Distinct(DisplacedNames(ss, Prunable(ss).Keys))
    ensures Elements(DisplacedNames(ss, Prunable(ss).Keys)) == Prunable(ss).Keys
  {
    var pruned := Prunable(ss);
    DisplacedNamesDistinct(ss, pruned.Keys);
    DisplacedNamesMembers(ss, pruned.Keys);
    PrunableCharacterisation(ss);
    forall f | f in pruned.Keys
      ensures f in DisplacedNames(ss, pruned.Keys)
    {
      var i :| 0 <= i < |ss| && ss[i].FunctionDefinition? && ss[i].name == f;
    }
  }

  /** A statement whose names were all used before finds its way back through the inverse exactly when it is prunable. */
  lemma FindsRenamedOne(ds: seq<Name>, fr: seq<Name>, pruned: map<Name, seq<Name>>, used: set<Name>, s: Statement)
    requires |ds| == |fr| && Distinct(ds) && Distinct(fr) && Elements(ds) == pruned.Keys
    requires forall j :: 0 <= j < |fr| ==> fr[j] !in used
    requires StatementNames(s) <= used
    ensures FindsRenamed(ZipMap(fr, ds), ZipMap(ds, fr), pruned, s)
  {
    if s.FunctionDefinition? {
      assert s.name in used;
      if s.name in pruned {
        var j :| 0 <= j < |ds| && ds[j] == s.name;
        ZipMapAt(ds, fr, j);
        ZipMapAt(fr, ds, j);
        assert fr[j] in Elements(fr);
      } else {
        forall j | 0 <= j < |fr|
          ensures fr[j] != s.name
        {
        }
        assert s.name !in Elements(fr);
      }
    }
  }

  /** A block whose top-level functions all refer to all of their parameters is left as it is, and no name is dispensed. */
  lemma NoUnusedParameterNoChange(b: Block, used: set<Name>)
    requires forall i :: 0 <= i < |b.statements| && b.statements[i].FunctionDefinition? ==>
      forall p :: p in b.statements[i].parameters ==> p in References(b.statements[i].body)
    ensures Prune(b, used) == (b, used)
  {
    NothingPrunable(b.statements);
  }

  /**
   * The arity of the two halves: the trimmed function takes exactly the parameters its body
   * refers to, fewer than before; the wrapper keeps every parameter and the return variables.
   */
  lemma SplitArity(tr: map<Name, Name>, f: Statement)
    requires f.FunctionDefinition? && HasUnusedParameter(f)
    ensures var r := SplitFunction(f.name, Reduced(f), RenameStatement(tr, f));
      && r[0].name == f.name && r[0].parameters == Reduced(f)
      && |r[0].parameters| < |f.parameters|
      && (forall p :: p in r[0].parameters <==> p in f.parameters && p in References(f.body))
      && r[1].name == RenameName(tr, f.name) && |r[1].parameters| == |f.parameters|
      && r[0].returnVariables == r[1].returnVariables && |r[1].returnVariables| == |f.returnVariables|
  {
  }
}
