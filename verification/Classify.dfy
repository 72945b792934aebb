/** Role specs of a target law, and its classification against two source closures. */
module Classify {
  import opened Results
  import opened Orders
  import opened Terms
  import opened Syntax
  import opened Magma
  import opened Universe
  import opened Congruence
  import opened UnionFinds
  import opened Closure
  import opened SourceClosure
  import opened Soundness
  import opened GroundRule
  import opened TraceClosure
  import opened TraceRounds

  const ESCAPE_ROLES := ["x", "y"]
  const WIDE_ROLES := ["x", "y", "z"]
  const ESCAPE_DEPTH: nat := 4
  const MAX_SPECS: nat := 12

  type Spec = map<string, string>

  datatype NamedSpec = NamedSpec(name: string, spec: Spec)

  datatype Classification = Classification(
    inDiagClosure: bool,
    forced: bool,
    nearDiagClosure: bool,
    diagDistance: int,
    partitionName: string,
    lhsKey: string,
    rhsKey: string,
    conflict: string)

  // -------------------------------------------------------------------- specs

  function AllSame(vs: seq<string>): Spec
  {
    map v | v in vs :: "x"
  }

  function FirstSplit(vs: seq<string>): Spec
  {
    map v | v in vs :: if IndexOf(vs, v) == 0 then "x" else "y"
  }

  function LastSplit(vs: seq<string>): Spec
  {
    map v | v in vs :: if IndexOf(vs, v) == |vs| - 1 then "y" else "x"
  }

  function Alternating(vs: seq<string>): Spec
  {
    map v | v in vs :: if IndexOf(vs, v) % 2 == 0 then "x" else "y"
  }

  function Wide(vs: seq<string>): Spec
  {
    map v | v in vs :: WIDE_ROLES[IndexOf(vs, v) % 3]
  }

  ghost predicate NamesSpec(vs: seq<string>, s: NamedSpec)
  {
    || s == NamedSpec("all_same", AllSame(vs))
    || (|vs| >= 2 && s == NamedSpec("first_split", FirstSplit(vs)))
    || (|vs| >= 2 && s == NamedSpec("last_split", LastSplit(vs)))
    || (|vs| >= 2 && s == NamedSpec("alternating_xy", Alternating(vs)))
    || (|vs| >= 3 && s == NamedSpec("xyz_roles", Wide(vs)))
  }

  function SpecList(vs: seq<string>): (specs: seq<NamedSpec>)
    ensures specs != [] && |specs| <= 5 && specs[0] == NamedSpec("all_same", AllSame(vs))
  {
    [NamedSpec("all_same", AllSame(vs))]
    + (if |vs| < 2 then []
       else [NamedSpec("first_split", FirstSplit(vs)), NamedSpec("last_split", LastSplit(vs)),
             NamedSpec("alternating_xy", Alternating(vs))])
    + (if |vs| < 3 then [] else [NamedSpec("xyz_roles", Wide(vs))])
  }

  lemma SpecListExact(vs: seq<string>, s: NamedSpec)
    ensures s in SpecList(vs) <==> NamesSpec(vs, s)
  {
    var specs := SpecList(vs);
    if |vs| >= 2 {
      assert specs[1].name == "first_split" && specs[2].name == "last_split" && specs[3].name == "alternating_xy";
    }
    if |vs| >= 3 {
      assert specs[4].name == "xyz_roles";
    }
  }

  // ------------------------------------------- the specs by the order of the names

  ghost function VarsOf(eq: Equation): set<string>
  {
    set v | v in VarsIn(eq.lhs) + VarsIn(eq.rhs)
  }

  ghost function VarsBelow(eq: Equation, v: string): set<string>
  {
    set u | u in VarsOf(eq) && StrLess(u, v)
  }

  ghost predicate VarAbove(eq: Equation, v: string)
  {
    exists u :: u in VarsOf(eq) && StrLess(v, u)
  }

  /** All variables are sent to "x". */
  ghost predicate SendsAllToX(eq: Equation, spec: Spec)
  {
    spec.Keys == VarsOf(eq) && forall v :: v in spec ==> spec[v] == "x"
  }

  /** The variable with none below it is sent to "x", the others to "y". */
  ghost predicate SplitsFirst(eq: Equation, spec: Spec)
  {
    spec.Keys == VarsOf(eq) && forall v :: v in spec ==> spec[v] == if VarsBelow(eq, v) == {} then "x" else "y"
  }

  /** The variable with none above it is sent to "y", the others to "x". */
  ghost predicate SplitsLast(eq: Equation, spec: Spec)
  {
    && spec.Keys == VarsOf(eq)
    && forall v :: v in spec ==> spec[v] == if VarAbove(eq, v) then "x" else "y"
  }

  /** Roles by the number of smaller variables: even "x", odd "y". */
  ghost predicate Alternates(eq: Equation, spec: Spec)
  {
    && spec.Keys == VarsOf(eq)
    && forall v :: v in spec ==> spec[v] == if |VarsBelow(eq, v)| % 2 == 0 then "x" else "y"
  }

  /** The same with three roles in turn. */
  ghost predicate TakesTurns(eq: Equation, spec: Spec)
  {
    && spec.Keys == VarsOf(eq)
    && forall v :: v in spec ==>
         spec[v] == if |VarsBelow(eq, v)| % 3 == 0 then "x" else if |VarsBelow(eq, v)| % 3 == 1 then "y" else "z"
  }

  ghost predicate MeansSpec(eq: Equation, s: NamedSpec)
  {
    || (s.name == "all_same" && SendsAllToX(eq, s.spec))
    || (s.name == "first_split" && SplitsFirst(eq, s.spec))
    || (s.name == "last_split" && SplitsLast(eq, s.spec))
    || (s.name == "alternating_xy" && Alternates(eq, s.spec))
    || (s.name == "xyz_roles" && TakesTurns(eq, s.spec))
  }

  /** The specs of a target by the number of its variables: one variable has only the all-same spec,
      two have one more, and three or more have all five. */
  ghost predicate SpecsAre(eq: Equation, specs: seq<NamedSpec>)
  {
    && (forall i :: 0 <= i < |specs| ==> MeansSpec(eq, specs[i]))
    && |specs| == (if |VarsOf(eq)| == 1 then 1 else if |VarsOf(eq)| == 2 then 2 else 5)
    && specs[0].name == "all_same"
    && (|specs| > 1 ==> specs[1].name == "first_split")
    && (|specs| > 2 ==> specs[2].name == "last_split" && specs[3].name == "alternating_xy" && specs[4].name == "xyz_roles")
  }

  lemma VarsAreListed(eq: Equation)
    ensures forall v :: v in VarsOf(eq) <==> v in EqVars(eq)
    ensures |VarsOf(eq)| == |EqVars(eq)|
  {
    DistinctSize(EqVars(eq), VarsOf(eq));
  }

  lemma PositionIsCount(eq: Equation, v: string)
    requires v in EqVars(eq)
    ensures IndexOf(EqVars(eq), v) == |VarsBelow(eq, v)|
  {
    VarsAreListed(eq);
    EqVarsAscending(eq);
    StrLessIsStrictTotal();
    SortedPosition(EqVars(eq), v, StrLess, VarsBelow(eq, v));
  }

  lemma LastHasNoneAbove(eq: Equation, v: string)
    requires v in EqVars(eq)
    ensures IndexOf(EqVars(eq), v) == |EqVars(eq)| - 1 <==> !VarAbove(eq, v)
  {
    var vs := EqVars(eq);
    var i := IndexOf(vs, v);
    VarsAreListed(eq);
    EqVarsAscending(eq);
    StrLessIsStrictTotal();
    if i < |vs| - 1 {
      assert StrLess(vs[i], vs[i + 1]) && vs[i + 1] in vs;
    } else {
      forall u | u in VarsOf(eq) ensures !StrLess(v, u) {
        var j: nat :| j < |vs| && vs[j] == u;
        if StrLess(v, u) {
          NotAfter(vs, j, i, StrLess);
        }
      }
    }
  }

  lemma FirstSplitMeans(eq: Equation)
    ensures SplitsFirst(eq, FirstSplit(EqVars(eq))) && MeansSpec(eq, NamedSpec("first_split", FirstSplit(EqVars(eq))))
  {
    VarsAreListed(eq);
    var spec := FirstSplit(EqVars(eq));
    forall v | v in spec ensures spec[v] == if VarsBelow(eq, v) == {} then "x" else "y" {
      PositionIsCount(eq, v);
    }
  }

  lemma LastSplitMeans(eq: Equation)
    ensures SplitsLast(eq, LastSplit(EqVars(eq))) && MeansSpec(eq, NamedSpec("last_split", LastSplit(EqVars(eq))))
  {
    VarsAreListed(eq);
    var spec := LastSplit(EqVars(eq));
    forall v | v in spec ensures spec[v] == if VarAbove(eq, v) then "x" else "y" {
      LastHasNoneAbove(eq, v);
    }
  }

  lemma AlternatingMeans(eq: Equation)
    ensures Alternates(eq, Alternating(EqVars(eq))) && MeansSpec(eq, NamedSpec("alternating_xy", Alternating(EqVars(eq))))
  {
    VarsAreListed(eq);
    var spec := Alternating(EqVars(eq));
    forall v | v in spec ensures spec[v] == if |VarsBelow(eq, v)| % 2 == 0 then "x" else "y" {
      PositionIsCount(eq, v);
    }
  }

  lemma ThirdRole(k: nat)
    requires k < 3
    ensures WIDE_ROLES[k] == if k == 0 then "x" else if k == 1 then "y" else "z"
  {
  }

  lemma WideMeans(eq: Equation)
    ensures TakesTurns(eq, Wide(EqVars(eq))) && MeansSpec(eq, NamedSpec("xyz_roles", Wide(EqVars(eq))))
  {
    VarsAreListed(eq);
    var spec := Wide(EqVars(eq));
    forall v | v in spec
      ensures spec[v] == if |VarsBelow(eq, v)| % 3 == 0 then "x" else if |VarsBelow(eq, v)| % 3 == 1 then "y" else "z"
    {
      PositionIsCount(eq, v);
      ThirdRole(IndexOf(EqVars(eq), v) % 3);
    }
  }

  lemma AllSameMeans(eq: Equation)
    ensures MeansSpec(eq, NamedSpec("all_same", AllSame(EqVars(eq))))
  {
    VarsAreListed(eq);
  }

  /** Every spec does what its name says. */
  lemma NamesMean(eq: Equation, s: NamedSpec)
    requires s in SpecList(EqVars(eq))
    ensures MeansSpec(eq, s)
  {
    var vs := EqVars(eq);
    SpecListExact(vs, s);
    if s == NamedSpec("all_same", AllSame(vs)) {
      AllSameMeans(eq);
    } else if s == NamedSpec("first_split", FirstSplit(vs)) {
      FirstSplitMeans(eq);
    } else if s == NamedSpec("last_split", LastSplit(vs)) {
      LastSplitMeans(eq);
    } else if s == NamedSpec("alternating_xy", Alternating(vs)) {
      AlternatingMeans(eq);
    } else {
      WideMeans(eq);
    }
  }

  ghost predicate HasShape(specs: seq<NamedSpec>, spec: Spec)
  {
    exists k :: 0 <= k < |specs| && specs[k].spec == spec
  }

  ghost predicate DistinctShapes(specs: seq<NamedSpec>)
  {
    forall i, j :: 0 <= i < j < |specs| ==> specs[i].spec != specs[j].spec
  }

  lemma ShapeKept(clean: seq<NamedSpec>, s: NamedSpec, spec: Spec)
    requires HasShape(clean, spec) || s.spec == spec
    ensures HasShape(clean + [s], spec)
  {
    var longer := clean + [s];
    if HasShape(clean, spec) {
      var k :| 0 <= k < |clean| && clean[k].spec == spec;
      assert longer[k].spec == spec;
    } else {
      assert longer[|clean|].spec == spec;
    }
  }

  /** The first spec of every shape, in order. */
  ghost function FirstShapes(specs: seq<NamedSpec>): (clean: seq<NamedSpec>)
    ensures |clean| <= |specs|
  {
    if specs == [] then []
    else
      var n := |specs| - 1;
      var clean := FirstShapes(specs[..n]);
      if HasShape(clean, specs[n].spec) then clean else clean + [specs[n]]
  }

  /** `s` is the first of `specs` with its shape. */
  ghost predicate FirstOfShape(specs: seq<NamedSpec>, s: NamedSpec)
  {
    exists m :: 0 <= m < |specs| && specs[m] == s && forall l :: 0 <= l < m ==> specs[l].spec != s.spec
  }

  ghost predicate KeepsFirsts(specs: seq<NamedSpec>, clean: seq<NamedSpec>)
  {
    && DistinctShapes(clean)
    && (forall k :: 0 <= k < |clean| ==> FirstOfShape(specs, clean[k]))
    && forall m :: 0 <= m < |specs| ==> HasShape(clean, specs[m].spec)
  }

  lemma FirstStays(specs: seq<NamedSpec>, s: NamedSpec, t: NamedSpec)
    requires FirstOfShape(specs, s)
    ensures FirstOfShape(specs + [t], s)
  {
    var m :| 0 <= m < |specs| && specs[m] == s && forall l :: 0 <= l < m ==> specs[l].spec != s.spec;
    assert (specs + [t])[m] == s;
  }

  lemma KeepsFirstsSnoc(specs: seq<NamedSpec>, clean: seq<NamedSpec>, t: NamedSpec)
    requires KeepsFirsts(specs, clean)
    ensures KeepsFirsts(specs + [t], if HasShape(clean, t.spec) then clean else clean + [t])
  {
    var more, next := specs + [t], if HasShape(clean, t.spec) then clean else clean + [t];
    forall k | 0 <= k < |next| ensures FirstOfShape(more, next[k]) {
      if k < |clean| {
        FirstStays(specs, clean[k], t);
      } else {
        assert more[|specs|] == t;
        forall l | 0 <= l < |specs| ensures specs[l].spec != t.spec {
          assert HasShape(clean, specs[l].spec);
        }
      }
    }
    forall m | 0 <= m < |more| ensures HasShape(next, more[m].spec) {
      if m < |specs| {
        assert HasShape(clean, specs[m].spec);
      }
      if HasShape(clean, more[m].spec) || more[m] == t {
        if !HasShape(clean, t.spec) { ShapeKept(clean, t, more[m].spec); }
      }
    }
  }

  lemma KeepsOneMore(specs: seq<NamedSpec>, s: NamedSpec)
    requires KeepsFirsts(specs, FirstShapes(specs))
    ensures KeepsFirsts(specs + [s], FirstShapes(specs + [s]))
  {
    var more := specs + [s];
    KeepsFirstsSnoc(specs, FirstShapes(specs), s);
    assert more != [] && more[..|more| - 1] == specs && more[|more| - 1] == s;
  }

  lemma {:induction false} FirstShapesExact(specs: seq<NamedSpec>)
    ensures KeepsFirsts(specs, FirstShapes(specs))
  {
    if specs == [] {
    } else {
      var init, last := specs[..|specs| - 1], specs[|specs| - 1];
      FirstShapesExact(init);
      KeepsOneMore(init, last);
      assert init + [last] == specs;
    }
  }

  /** Keeps the first spec of every shape. */
  method DropRepeatedShapes(specs: seq<NamedSpec>) returns (clean: seq<NamedSpec>)
    ensures clean == FirstShapes(specs)
  {
    clean := [];
    for i := 0 to |specs|
      invariant clean == FirstShapes(specs[..i])
    {
      assert specs[..i + 1][..i] == specs[..i];
      if forall k :: 0 <= k < |clean| ==> clean[k].spec != specs[i].spec {
        clean := clean + [specs[i]];
      }
    }
    assert specs[..|specs|] == specs;
  }

  /** The specs a target is classified under. */
  ghost function SpecsOf(eq2: Equation): seq<NamedSpec>
  {
    FirstShapes(SpecList(EqVars(eq2)))
  }

  lemma {:induction false} FirstStaysFirst(specs: seq<NamedSpec>)
    requires specs != []
    ensures FirstShapes(specs) != [] && FirstShapes(specs)[0] == specs[0]
  {
    if |specs| == 1 {
      assert FirstShapes(specs[..0]) == [];
    } else {
      FirstStaysFirst(specs[..|specs| - 1]);
    }
  }

  lemma {:induction false} DistinctIsKept(specs: seq<NamedSpec>)
    requires DistinctShapes(specs)
    ensures FirstShapes(specs) == specs
  {
    if specs == [] {
    } else {
      var n := |specs| - 1;
      DistinctIsKept(specs[..n]);
      assert specs == specs[..n] + [specs[n]];
    }
  }

  lemma RepeatIsDropped(specs: seq<NamedSpec>, s: NamedSpec)
    requires HasShape(FirstShapes(specs), s.spec)
    ensures FirstShapes(specs + [s]) == FirstShapes(specs)
  {
    assert (specs + [s])[..|specs|] == specs;
  }

  lemma VariableAt(vs: seq<string>, i: nat)
    requires NoDuplicates(vs) && i < |vs|
    ensures vs[i] in vs && IndexOf(vs, vs[i]) == i
  {
    FirstIndex(vs, i);
  }

  lemma AllButSameDiffer(vs: seq<string>)
    requires NoDuplicates(vs) && |vs| >= 2
    ensures AllSame(vs) != FirstSplit(vs) && AllSame(vs) != LastSplit(vs) && AllSame(vs) != Alternating(vs)
    ensures AllSame(vs) != Wide(vs)
  {
    VariableAt(vs, 1);
    VariableAt(vs, |vs| - 1);
    assert WIDE_ROLES[1] == "y";
    assert FirstSplit(vs)[vs[1]] == "y" && LastSplit(vs)[vs[|vs| - 1]] == "y" && Alternating(vs)[vs[1]] == "y" && Wide(vs)[vs[1]] == "y";
  }

  lemma SplitsDiffer(vs: seq<string>)
    requires NoDuplicates(vs) && |vs| >= 3
    ensures FirstSplit(vs) != LastSplit(vs) && FirstSplit(vs) != Alternating(vs) && LastSplit(vs) != Alternating(vs)
    ensures FirstSplit(vs) != Wide(vs) && LastSplit(vs) != Wide(vs) && Alternating(vs) != Wide(vs)
  {
    VariableAt(vs, 1);
    VariableAt(vs, 2);
    assert WIDE_ROLES[1] == "y" && WIDE_ROLES[2] == "z";
    assert FirstSplit(vs)[vs[1]] == "y" && LastSplit(vs)[vs[1]] == "x" && Alternating(vs)[vs[1]] == "y" && Wide(vs)[vs[1]] == "y";
    assert FirstSplit(vs)[vs[2]] == "y" && Alternating(vs)[vs[2]] == "x" && Wide(vs)[vs[2]] == "z";
  }

  lemma TwoSplitsAgree(vs: seq<string>)
    requires NoDuplicates(vs) && |vs| == 2
    ensures FirstSplit(vs) == LastSplit(vs) == Alternating(vs)
  {
    VariableAt(vs, 0);
    VariableAt(vs, 1);
    forall v | v in vs ensures v == vs[0] || v == vs[1] {
    }
  }

  lemma TwoAreKept(l: seq<NamedSpec>)
    requires |l| == 4 && l[0].spec != l[1].spec && l[2].spec == l[1].spec && l[3].spec == l[1].spec
    ensures FirstShapes(l) == l[..2]
  {
    DistinctIsKept(l[..2]);
    assert l[..2][1].spec == l[1].spec;
    assert l[..3] == l[..2] + [l[2]] && l == l[..3] + [l[3]];
    RepeatIsDropped(l[..2], l[2]);
    RepeatIsDropped(l[..3], l[3]);
  }

  lemma ListSpecsOfTwo(vs: seq<string>)
    requires |vs| == 2
    ensures var l := SpecList(vs);
            && |l| == 4 && l[0].spec == AllSame(vs) && l[1].spec == FirstSplit(vs) && l[2].spec == LastSplit(vs)
            && l[3].spec == Alternating(vs)
  {
  }

  lemma TwoVariableShapes(vs: seq<string>)
    requires NoDuplicates(vs) && |vs| == 2
    ensures FirstShapes(SpecList(vs)) == SpecList(vs)[..2]
  {
    AllButSameDiffer(vs);
    TwoSplitsAgree(vs);
    ListSpecsOfTwo(vs);
    TwoAreKept(SpecList(vs));
  }

  lemma FiveDiffer(l: seq<NamedSpec>, a: Spec, b: Spec, c: Spec, d: Spec, e: Spec)
    requires |l| == 5 && l[0].spec == a && l[1].spec == b && l[2].spec == c && l[3].spec == d && l[4].spec == e
    requires a != b && a != c && a != d && a != e && b != c && b != d && b != e && c != d && c != e && d != e
    ensures DistinctShapes(l)
  {
  }

  lemma ListSpecs(vs: seq<string>)
    requires |vs| >= 3
    ensures var l := SpecList(vs);
            && |l| == 5 && l[0].spec == AllSame(vs) && l[1].spec == FirstSplit(vs) && l[2].spec == LastSplit(vs)
            && l[3].spec == Alternating(vs) && l[4].spec == Wide(vs)
  {
  }

  lemma ManyVariableShapes(vs: seq<string>)
    requires NoDuplicates(vs) && |vs| >= 3
    ensures FirstShapes(SpecList(vs)) == SpecList(vs)
  {
    AllButSameDiffer(vs);
    SplitsDiffer(vs);
    ListSpecs(vs);
    FiveDiffer(SpecList(vs), AllSame(vs), FirstSplit(vs), LastSplit(vs), Alternating(vs), Wide(vs));
    DistinctIsKept(SpecList(vs));
  }

  lemma ShapesByCount(vs: seq<string>)
    requires NoDuplicates(vs) && vs != []
    ensures var specs := FirstShapes(SpecList(vs));
            && (forall i :: 0 <= i < |specs| ==> specs[i] in SpecList(vs))
            && specs == if |vs| == 1 then SpecList(vs) else if |vs| == 2 then SpecList(vs)[..2] else SpecList(vs)
  {
    if |vs| == 1 {
      DistinctIsKept(SpecList(vs));
    } else if |vs| == 2 {
      TwoVariableShapes(vs);
    } else {
      ManyVariableShapes(vs);
    }
  }

  lemma ListNames(vs: seq<string>)
    ensures var specs := SpecList(vs);
            && specs[0].name == "all_same" && |specs| == (if |vs| < 2 then 1 else if |vs| < 3 then 4 else 5)
            && (|vs| >= 2 ==> specs[1].name == "first_split" && specs[2].name == "last_split" && specs[3].name == "alternating_xy")
            && (|vs| >= 3 ==> specs[4].name == "xyz_roles")
  {
  }

  /** What the list of specs is, said without the functions that build it. */
  lemma SpecsByNames(eq2: Equation)
    ensures SpecsAre(eq2, SpecsOf(eq2))
  {
    var vs, specs := EqVars(eq2), SpecsOf(eq2);
    VarsAreListed(eq2);
    ShapesByCount(vs);
    ListNames(vs);
    forall i | 0 <= i < |specs| ensures MeansSpec(eq2, specs[i]) {
      NamesMean(eq2, specs[i]);
    }
  }

  lemma SpecsOfExact(eq2: Equation)
    ensures var specs := SpecsOf(eq2);
            && |specs| <= MAX_SPECS && specs != [] && specs[0] == NamedSpec("all_same", AllSame(EqVars(eq2)))
            && DistinctShapes(specs)
            && (forall i :: 0 <= i < |specs| ==> NamesSpec(EqVars(eq2), specs[i]))
            && forall s :: NamesSpec(EqVars(eq2), s) ==> HasShape(specs, s.spec)
  {
    var vs := EqVars(eq2);
    var list, specs := SpecList(vs), SpecsOf(eq2);
    FirstShapesExact(list);
    FirstStaysFirst(list);
    forall i | 0 <= i < |specs| ensures NamesSpec(vs, specs[i]) {
      assert FirstOfShape(list, specs[i]);
      SpecListExact(vs, specs[i]);
    }
    forall s | NamesSpec(vs, s) ensures HasShape(specs, s.spec) {
      SpecListExact(vs, s);
      var m :| 0 <= m < |list| && list[m] == s;
      assert HasShape(specs, list[m].spec);
    }
  }

  /** `target_partition_specs`: the listed shapes, a repeated shape only under its first name. */
  method TargetPartitionSpecs(eq2: Equation) returns (clean: seq<NamedSpec>)
    ensures clean == SpecsOf(eq2) && KeepsFirsts(SpecList(EqVars(eq2)), clean)
    ensures clean != [] && clean[0] == NamedSpec("all_same", AllSame(EqVars(eq2)))
    ensures forall s :: NamesSpec(EqVars(eq2), s) ==> HasShape(clean, s.spec)
    ensures SpecsAre(eq2, clean)
  {
    SpecsByNames(eq2);
    clean := DropRepeatedShapes(SpecList(EqVars(eq2)));
    FirstShapesExact(SpecList(EqVars(eq2)));
    SpecsOfExact(eq2);
    clean := clean[..if |clean| < MAX_SPECS then |clean| else MAX_SPECS];
  }

  lemma SpecRoles(vs: seq<string>, s: NamedSpec)
    requires NamesSpec(vs, s)
    ensures SpecInto(vs, s.spec, WIDE_ROLES)
  {
    assert WIDE_ROLES[0] == "x" && WIDE_ROLES[1] == "y" && WIDE_ROLES[2] == "z";
  }

  // ----------------------------------------------------------- classification

  predicate OnlyX(spec: Spec)
  {
    forall v :: v in spec ==> spec[v] == "x"
  }

  /** Both sides of the target's instance are in the universe and in one class. */
  ghost predicate Identified(eq2: Equation, spec: Spec, terms: map<string, Term>, r: Roots)
    requires r.Keys == terms.Keys
  {
    var l, rt := Canonical(Subst(eq2.lhs, spec)), Canonical(Subst(eq2.rhs, spec));
    l in terms && rt in terms && r[l] == r[rt]
  }

  lemma OnlyXIsAllSame(vs: seq<string>, s: NamedSpec)
    requires NamesSpec(vs, s) && OnlyX(s.spec)
    ensures s.spec == AllSame(vs) && SpecInto(vs, s.spec, WIDE_ROLES)
  {
    SpecRoles(vs, s);
  }

  /** A trace closure and an escape closure of the same source law. */
  ghost predicate ClosurePair(eq1: Equation, dTerms: seq<Term>, dRoots: Roots, diag: Summary,
                              eTerms: seq<Term>, eRoots: Roots, escape: Summary)
  {
    && ClosureResult(eq1, TRACE_ROLES, TRACE_DEPTH, dTerms, dRoots, diag)
    && ClosureResult(eq1, ESCAPE_ROLES, ESCAPE_DEPTH, eTerms, eRoots, escape)
  }

  /** The spec is identified in the closure that the program looks it up in. */
  ghost predicate Hit(eq2: Equation, spec: Spec, dRoots: Roots, diag: Summary, eRoots: Roots, escape: Summary)
    requires dRoots.Keys == diag.terms.Keys && eRoots.Keys == escape.terms.Keys
  {
    if OnlyX(spec) then Identified(eq2, spec, diag.terms, dRoots) else Identified(eq2, spec, escape.terms, eRoots)
  }

  /** Some spec of the target is a hit. */
  ghost predicate AnyHit(eq2: Equation, dRoots: Roots, diag: Summary, eRoots: Roots, escape: Summary)
    requires dRoots.Keys == diag.terms.Keys && eRoots.Keys == escape.terms.Keys
  {
    exists s :: NamesSpec(EqVars(eq2), s) && Hit(eq2, s.spec, dRoots, diag, eRoots, escape)
  }

  function ClassSize(classes: map<string, seq<string>>, root: string): nat
  {
    if root in classes then |classes[root]| else 0
  }

  function ConflictType(forced: bool, sameRole: bool, lhs: string, rhs: string): string
  {
    if forced then "closure_forced_theorem_shadow"
    else if sameRole then "closure_same_role_near"
    else if 'x' in lhs && 'x' in rhs then "closure_near_escape_candidate"
    else "closure_unclassified_escape"
  }

  /** The keys of the two sides of the target under a spec. */
  function KeysUnder(eq2: Equation, spec: Spec): (string, string)
  {
    (Canonical(Subst(eq2.lhs, spec)), Canonical(Subst(eq2.rhs, spec)))
  }

  /** What looking two keys up in a closure tells: whether they share a class, and the sizes of
      their classes added; nothing when one of them is outside the universe. */
  ghost function Found(r: Roots, c: Summary, keys: (string, string)): Option<(bool, nat)>
    requires r.Keys == c.terms.Keys
  {
    var (l, rt) := keys;
    if l in c.terms && rt in c.terms
    then Some((r[l] == r[rt], ClassSize(c.classes, r[l]) + ClassSize(c.classes, r[rt])))
    else None
  }

  /** What the program finds for a spec, in the closure it looks it up in. */
  ghost function FoundFor(eq2: Equation, spec: Spec, dRoots: Roots, diag: Summary, eRoots: Roots, escape: Summary): Option<(bool, nat)>
    requires dRoots.Keys == diag.terms.Keys && eRoots.Keys == escape.terms.Keys
  {
    if OnlyX(spec) then Found(dRoots, diag, KeysUnder(eq2, spec)) else Found(eRoots, escape, KeysUnder(eq2, spec))
  }

  method CompareIn(uf: UnionFind, c: Summary, lhs: string, rhs: string) returns (r: Option<(bool, nat)>)
    requires uf.Valid() && uf.Classes().Keys == c.terms.Keys
    modifies uf
    ensures uf.Valid() && uf.Classes() == old(uf.Classes())
    ensures r == Found(uf.Classes(), c, (lhs, rhs))
  {
    if lhs !in c.terms || rhs !in c.terms { return None; }
    var lRoot := uf.Find(lhs);
    var rRoot := uf.Find(rhs);
    r := Some((lRoot == rRoot, ClassSize(c.classes, lRoot) + ClassSize(c.classes, rRoot)));
  }

  /** The spec with the smallest classes so far, the first of them on a tie. */
  datatype Report = Report(size: nat, same: bool, lhs: string, rhs: string, name: string)

  const NO_REPORT := Report(1_000_000_000, false, "", "", "")

  ghost predicate ReportedAt(eq2: Equation, specs: seq<NamedSpec>, found: seq<Option<(bool, nat)>>, best: Report, b: nat)
    requires |found| == |specs| && b < |specs|
  {
    && found[b] == Some((best.same, best.size)) && best.size < NO_REPORT.size
    && best.lhs == Canonical(Subst(eq2.lhs, specs[b].spec)) && best.rhs == Canonical(Subst(eq2.rhs, specs[b].spec))
    && specs[b].name == best.name
    && (forall i :: 0 <= i < |specs| && found[i].Some? ==> best.size <= found[i].value.1)
    && (forall i :: 0 <= i < b && found[i].Some? ==> best.size < found[i].value.1)
  }

  ghost predicate Reported(eq2: Equation, specs: seq<NamedSpec>, found: seq<Option<(bool, nat)>>, best: Report)
    requires |found| == |specs|
  {
    || (best == NO_REPORT && forall i :: 0 <= i < |specs| && found[i].Some? ==> found[i].value.1 >= NO_REPORT.size)
    || exists b :: 0 <= b < |specs| && ReportedAt(eq2, specs, found, best, b)
  }

  /** The comparison of one spec with the best so far. */
  function Better(eq2: Equation, best: Report, s: NamedSpec, f: Option<(bool, nat)>): Report
  {
    if f.Some? && f.value.1 < best.size then
      var (lhs, rhs) := KeysUnder(eq2, s.spec);
      Report(f.value.1, f.value.0, lhs, rhs, s.name)
    else best
  }

  lemma ReportedSnoc(eq2: Equation, specs: seq<NamedSpec>, found: seq<Option<(bool, nat)>>, best: Report, s: NamedSpec, f: Option<(bool, nat)>)
    requires |found| == |specs| && Reported(eq2, specs, found, best)
    ensures Reported(eq2, specs + [s], found + [f], Better(eq2, best, s, f))
  {
    var n, next := |specs|, Better(eq2, best, s, f);
    if next == best {
      if exists b :: 0 <= b < n && ReportedAt(eq2, specs, found, best, b) {
        var b :| 0 <= b < n && ReportedAt(eq2, specs, found, best, b);
        assert ReportedAt(eq2, specs + [s], found + [f], next, b);
      }
    } else {
      assert ReportedAt(eq2, specs + [s], found + [f], next, n);
    }
  }

  ghost function AllFound(eq2: Equation, specs: seq<NamedSpec>, dRoots: Roots, diag: Summary, eRoots: Roots, escape: Summary): (found: seq<Option<(bool, nat)>>)
    requires dRoots.Keys == diag.terms.Keys && eRoots.Keys == escape.terms.Keys
    ensures |found| == |specs|
  {
    seq(|specs|, i requires 0 <= i < |specs| => FoundFor(eq2, specs[i].spec, dRoots, diag, eRoots, escape))
  }

  /** The outcome as the program reports it. */
  function Verdict(forced: bool, best: Report): Classification
  {
    Classification(forced && best.name == "all_same", forced, best.same,
                   if forced then 0 else if best.same then 1 else 2,
                   best.name, best.lhs, best.rhs, ConflictType(forced, best.same, best.lhs, best.rhs))
  }

  /** Looks a spec up in the closure that belongs to it. */
  method LookUp(eq2: Equation, spec: Spec, dUf: UnionFind, diag: Summary, eUf: UnionFind, escape: Summary)
    returns (f: Option<(bool, nat)>)
    requires dUf != eUf && dUf.Valid() && eUf.Valid()
    requires dUf.Classes().Keys == diag.terms.Keys && eUf.Classes().Keys == escape.terms.Keys
    modifies dUf, eUf
    ensures dUf.Valid() && dUf.Classes() == old(dUf.Classes())
    ensures eUf.Valid() && eUf.Classes() == old(eUf.Classes())
    ensures f == FoundFor(eq2, spec, dUf.Classes(), diag, eUf.Classes(), escape)
  {
    var (lhs, rhs) := KeysUnder(eq2, spec);
    if OnlyX(spec) {
      f := CompareIn(dUf, diag, lhs, rhs);
    } else {
      f := CompareIn(eUf, escape, lhs, rhs);
    }
  }

  /** After the first specs: forced if one of them is identified, and the best report so far. */
  ghost predicate Compared(eq2: Equation, specs: seq<NamedSpec>, found: seq<Option<(bool, nat)>>, forced: bool, best: Report)
    requires |found| == |specs|
  {
    && (forced <==> exists j :: 0 <= j < |found| && found[j].Some? && found[j].value.0)
    && Reported(eq2, specs, found, best)
    && (best.same ==> forced)
  }

  /** The same for the first `i` of them. */
  ghost predicate ComparedUpTo(eq2: Equation, specs: seq<NamedSpec>, found: seq<Option<(bool, nat)>>, i: nat, forced: bool, best: Report)
    requires i <= |found| == |specs|
  {
    Compared(eq2, specs[..i], found[..i], forced, best)
  }

  lemma ComparedNext(eq2: Equation, specs: seq<NamedSpec>, found: seq<Option<(bool, nat)>>, i: nat, forced: bool, best: Report)
    requires i < |specs| == |found| && ComparedUpTo(eq2, specs, found, i, forced, best)
    ensures var f := found[i];
            ComparedUpTo(eq2, specs, found, i + 1, forced || (f.Some? && f.value.0), Better(eq2, best, specs[i], f))
  {
    var s, f := specs[i], found[i];
    ReportedSnoc(eq2, specs[..i], found[..i], best, s, f);
    assert specs[..i + 1] == specs[..i] + [s] && found[..i + 1] == found[..i] + [f];
    if forced {
      var j :| 0 <= j < i && found[..i][j].Some? && found[..i][j].value.0;
      assert found[..i + 1][j].Some? && found[..i + 1][j].value.0;
    }
    assert found[..i + 1][i] == f;
    assert forall j :: 0 <= j < i ==> found[..i + 1][j] == found[..i][j];
  }

  lemma ComparedAll(eq2: Equation, specs: seq<NamedSpec>, found: seq<Option<(bool, nat)>>, forced: bool, best: Report)
    requires |found| == |specs| && ComparedUpTo(eq2, specs, found, |specs|, forced, best)
    ensures Compared(eq2, specs, found, forced, best)
  {
    assert specs[..|specs|] == specs && found[..|specs|] == found;
  }

  lemma FoundIsHit(eq2: Equation, spec: Spec, dRoots: Roots, diag: Summary, eRoots: Roots, escape: Summary)
    requires dRoots.Keys == diag.terms.Keys && eRoots.Keys == escape.terms.Keys
    ensures var f := FoundFor(eq2, spec, dRoots, diag, eRoots, escape);
            f.Some? && f.value.0 <==> Hit(eq2, spec, dRoots, diag, eRoots, escape)
  {
  }

  /** Some spec is identified exactly when one of the listed specs is. */
  lemma AnyHitIsListed(eq2: Equation, dRoots: Roots, diag: Summary, eRoots: Roots, escape: Summary)
    requires dRoots.Keys == diag.terms.Keys && eRoots.Keys == escape.terms.Keys
    ensures var found := AllFound(eq2, SpecsOf(eq2), dRoots, diag, eRoots, escape);
            AnyHit(eq2, dRoots, diag, eRoots, escape) <==> exists j :: 0 <= j < |found| && found[j].Some? && found[j].value.0
  {
    var specs := SpecsOf(eq2);
    var found := AllFound(eq2, specs, dRoots, diag, eRoots, escape);
    SpecsOfExact(eq2);
    if AnyHit(eq2, dRoots, diag, eRoots, escape) {
      var s :| NamesSpec(EqVars(eq2), s) && Hit(eq2, s.spec, dRoots, diag, eRoots, escape);
      assert HasShape(specs, s.spec);
      var j :| 0 <= j < |specs| && specs[j].spec == s.spec;
      FoundIsHit(eq2, specs[j].spec, dRoots, diag, eRoots, escape);
      assert found[j].Some? && found[j].value.0;
    }
    if exists j :: 0 <= j < |found| && found[j].Some? && found[j].value.0 {
      var j :| 0 <= j < |found| && found[j].Some? && found[j].value.0;
      FoundIsHit(eq2, specs[j].spec, dRoots, diag, eRoots, escape);
      assert NamesSpec(EqVars(eq2), specs[j]);
    }
  }

  /** The loop over the specs of a target. */
  method CompareSpecs(eq2: Equation, specs: seq<NamedSpec>, dUf: UnionFind, diag: Summary, eUf: UnionFind, escape: Summary)
    returns (forced: bool, best: Report)
    requires dUf != eUf && dUf.Valid() && eUf.Valid()
    requires dUf.Classes().Keys == diag.terms.Keys && eUf.Classes().Keys == escape.terms.Keys
    modifies dUf, eUf
    ensures dUf.Valid() && dUf.Classes() == old(dUf.Classes())
    ensures eUf.Valid() && eUf.Classes() == old(eUf.Classes())
    ensures Compared(eq2, specs, AllFound(eq2, specs, dUf.Classes(), diag, eUf.Classes(), escape), forced, best)
  {
    forced, best := false, NO_REPORT;
    ghost var dR, eR := dUf.Classes(), eUf.Classes();
    ghost var found := AllFound(eq2, specs, dR, diag, eR, escape);
    for i := 0 to |specs|
      invariant dUf.Valid() && dUf.Classes() == dR && eUf.Valid() && eUf.Classes() == eR
      invariant ComparedUpTo(eq2, specs, found, i, forced, best)
    {
      var f := LookUp(eq2, specs[i].spec, dUf, diag, eUf, escape);
      ComparedNext(eq2, specs, found, i, forced, best);
      best := Better(eq2, best, specs[i], f);
      if f.Some? && f.value.0 {
        forced := true;
      }
    }
    ComparedAll(eq2, specs, found, forced, best);
  }

  /** `classify_pair_by_source_closure`: forced when some spec is identified; the reported spec
      is the first one with the smallest classes. */
  method ClassifyPair(eq2: Equation, dUf: UnionFind, diag: Summary, eUf: UnionFind, escape: Summary)
    returns (c: Classification, ghost best: Report)
    requires dUf != eUf && dUf.Valid() && eUf.Valid()
    requires dUf.Classes().Keys == diag.terms.Keys && eUf.Classes().Keys == escape.terms.Keys
    modifies dUf, eUf
    ensures dUf.Valid() && dUf.Classes() == old(dUf.Classes())
    ensures eUf.Valid() && eUf.Classes() == old(eUf.Classes())
    ensures c.forced <==> AnyHit(eq2, dUf.Classes(), diag, eUf.Classes(), escape)
    ensures Reported(eq2, SpecsOf(eq2), AllFound(eq2, SpecsOf(eq2), dUf.Classes(), diag, eUf.Classes(), escape), best)
    ensures c == Verdict(c.forced, best) && (best.same ==> c.forced)
  {
    var specs := TargetPartitionSpecs(eq2);
    var forced, now := CompareSpecs(eq2, specs, dUf, diag, eUf, escape);
    AnyHitIsListed(eq2, dUf.Classes(), diag, eUf.Classes(), escape);
    c, best := Verdict(forced, now), now;
  }

  /** Distance 1 and the same-role conflict are never reported: they would need a reported spec
      that is identified while nothing is forced. */
  lemma NoNearMiss(forced: bool, best: Report)
    requires best.same ==> forced
    ensures var c := Verdict(forced, best);
            && c.diagDistance != 1 && c.conflict != "closure_same_role_near"
            && (c.nearDiagClosure ==> c.forced)
            && (c.inDiagClosure <==> c.forced && c.partitionName == "all_same")
  {
  }

  // ------------------------------------------------- what the verdict is worth

  lemma PlainLetters()
    ensures PlainRoles(TRACE_ROLES) && PlainRoles(ESCAPE_ROLES) && PlainRoles(WIDE_ROLES)
  {
    assert PlainChar('x') && PlainChar('y') && PlainChar('z');
    assert PlainName("x") && PlainName("y") && PlainName("z");
  }

  /** A key found in a closure's universe is the key of an instance inside that universe. */
  lemma FoundIsInside(eq2: Equation, spec: Spec, t: Term, roles: seq<string>, d: nat, terms: seq<Term>)
    requires SpecInto(EqVars(eq2), spec, WIDE_ROLES) && (t == eq2.lhs || t == eq2.rhs)
    requires UniverseList(terms, roles, d) && Canonical(Subst(t, spec)) in KeySet(terms)
    ensures InUniverse(Subst(t, spec), roles, d)
  {
    PlainLetters();
    SubstOverRoles(t, spec, WIDE_ROLES);
    OverPlainRoles(Subst(t, spec), WIDE_ROLES);
    var s :| s in terms && Canonical(s) == Canonical(Subst(t, spec));
    OverPlainRoles(s, roles);
    CanonicalInjective(s, Subst(t, spec));
  }

  /** A hit is an equality the source law forces, in the universe it was found in. */
  lemma IdentifiedIsForced(eq1: Equation, eq2: Equation, spec: Spec, roles: seq<string>, d: nat, terms: seq<Term>, r: Roots, c: Summary)
    requires ClosureResult(eq1, roles, d, terms, r, c)
    requires SpecInto(EqVars(eq2), spec, WIDE_ROLES) && Identified(eq2, spec, c.terms, r)
    ensures InUniverse(Subst(eq2.lhs, spec), roles, d) && InUniverse(Subst(eq2.rhs, spec), roles, d)
    ensures Forced(eq1, roles, d, Subst(eq2.lhs, spec), Subst(eq2.rhs, spec))
  {
    FoundIsInside(eq2, spec, eq2.lhs, roles, d, terms);
    FoundIsInside(eq2, spec, eq2.rhs, roles, d, terms);
  }

  lemma {:induction false} OverRolesImage(t: Term, spec: Spec, roles: seq<string>, v: string)
    requires v in VarsIn(t) && v in spec && OverRoles(Subst(t, spec), roles)
    ensures spec[v] in roles
  {
    match t
    case Var(_) =>
    case Op(l, r) => if v in VarsIn(l) { OverRolesImage(l, spec, roles, v); } else { OverRolesImage(r, spec, roles, v); }
  }

  lemma RolesOfInside(eq2: Equation, spec: Spec, roles: seq<string>, d: nat)
    requires spec.Keys == (set v | v in EqVars(eq2))
    requires InUniverse(Subst(eq2.lhs, spec), roles, d) && InUniverse(Subst(eq2.rhs, spec), roles, d)
    ensures SpecInto(EqVars(eq2), spec, roles)
  {
    forall v | v in spec ensures spec[v] in roles {
      if v in VarsIn(eq2.lhs) {
        OverRolesImage(eq2.lhs, spec, roles, v);
      } else {
        OverRolesImage(eq2.rhs, spec, roles, v);
      }
    }
  }

  /** If a spec that keeps variables apart is hit, the pair has no countermodel of any size. */
  lemma InjectiveHitIsTheorem(eq1: Equation, eq2: Equation, s: NamedSpec, roles: seq<string>, d: nat, terms: seq<Term>,
                              r: Roots, c: Summary, table: Table)
    requires ClosureResult(eq1, roles, d, terms, r, c)
    requires NamesSpec(EqVars(eq2), s) && Injective(EqVars(eq2), s.spec) && Identified(eq2, s.spec, c.terms, r)
    requires FullRows(table)
    ensures !Countermodel(eq1, eq2, table)
  {
    SpecRoles(EqVars(eq2), s);
    IdentifiedIsForced(eq1, eq2, s.spec, roles, d, terms, r, c);
    RolesOfInside(eq2, s.spec, roles, d);
    IdentifiedHasNoCountermodel(eq1, eq2, roles, d, s.spec, table);
  }

  const TO_X: map<string, string> := map["x" := "x", "y" := "x"]

  /** A hit in the escape closure is, with the roles merged, a forced all-same instance. */
  lemma EscapeHitCollapses(eq1: Equation, eq2: Equation, s: NamedSpec, terms: seq<Term>, r: Roots, c: Summary)
    requires ClosureResult(eq1, ESCAPE_ROLES, ESCAPE_DEPTH, terms, r, c)
    requires NamesSpec(EqVars(eq2), s) && Identified(eq2, s.spec, c.terms, r)
    ensures var a := AllSame(EqVars(eq2));
            && InUniverse(Subst(eq2.lhs, a), TRACE_ROLES, TRACE_DEPTH)
            && InUniverse(Subst(eq2.rhs, a), TRACE_ROLES, TRACE_DEPTH)
            && Forced(eq1, TRACE_ROLES, TRACE_DEPTH, Subst(eq2.lhs, a), Subst(eq2.rhs, a))
  {
    SpecRoles(EqVars(eq2), s);
    IdentifiedIsForced(eq1, eq2, s.spec, ESCAPE_ROLES, ESCAPE_DEPTH, terms, r, c);
    RolesOfInside(eq2, s.spec, ESCAPE_ROLES, ESCAPE_DEPTH);
    DiagonalCollapses(eq1, ESCAPE_ROLES, "x", TO_X);
    var l, rt := Subst(eq2.lhs, s.spec), Subst(eq2.rhs, s.spec);
    CollapseKeepsForced(eq1, ESCAPE_ROLES, ESCAPE_DEPTH, TRACE_ROLES, TRACE_DEPTH, TO_X, l, rt);
    CollapseStaysInside(l, ESCAPE_ROLES, ESCAPE_DEPTH, TRACE_ROLES, TRACE_DEPTH, TO_X);
    CollapseStaysInside(rt, ESCAPE_ROLES, ESCAPE_DEPTH, TRACE_ROLES, TRACE_DEPTH, TO_X);
    SubstCompose(eq2.lhs, s.spec, TO_X, AllSame(EqVars(eq2)));
    SubstCompose(eq2.rhs, s.spec, TO_X, AllSame(EqVars(eq2)));
  }

  lemma ForcedIsIdentified(eq1: Equation, eq2: Equation, a: Spec, terms: seq<Term>, r: Roots, c: Summary)
    requires ClosureResult(eq1, TRACE_ROLES, TRACE_DEPTH, terms, r, c) && c.saturated
    requires InUniverse(Subst(eq2.lhs, a), TRACE_ROLES, TRACE_DEPTH) && InUniverse(Subst(eq2.rhs, a), TRACE_ROLES, TRACE_DEPTH)
    requires Forced(eq1, TRACE_ROLES, TRACE_DEPTH, Subst(eq2.lhs, a), Subst(eq2.rhs, a))
    ensures Identified(eq2, a, c.terms, r)
  {
    assert Subst(eq2.lhs, a) in terms && Subst(eq2.rhs, a) in terms;
  }

  lemma HitIsAllSame(eq1: Equation, eq2: Equation, s: NamedSpec, dTerms: seq<Term>, dRoots: Roots, diag: Summary,
                     eTerms: seq<Term>, eRoots: Roots, escape: Summary)
    requires ClosurePair(eq1, dTerms, dRoots, diag, eTerms, eRoots, escape)
    requires diag.saturated
    requires NamesSpec(EqVars(eq2), s) && Hit(eq2, s.spec, dRoots, diag, eRoots, escape)
    ensures Identified(eq2, AllSame(EqVars(eq2)), diag.terms, dRoots)
  {
    var a := AllSame(EqVars(eq2));
    if OnlyX(s.spec) {
      OnlyXIsAllSame(EqVars(eq2), s);
    } else {
      EscapeHitCollapses(eq1, eq2, s, eTerms, eRoots, escape);
      ForcedIsIdentified(eq1, eq2, a, dTerms, dRoots, diag);
    }
  }

  lemma AllSameHit(eq2: Equation, dRoots: Roots, diag: Summary, eRoots: Roots, escape: Summary)
    requires dRoots.Keys == diag.terms.Keys && eRoots.Keys == escape.terms.Keys
    requires Identified(eq2, AllSame(EqVars(eq2)), diag.terms, dRoots)
    ensures AnyHit(eq2, dRoots, diag, eRoots, escape)
  {
    var a := NamedSpec("all_same", AllSame(EqVars(eq2)));
    assert NamesSpec(EqVars(eq2), a) && Hit(eq2, a.spec, dRoots, diag, eRoots, escape);
  }

  /** Once the trace closure is saturated, the verdict "forced" is exactly: the all-same
      instance is identified there. The escape closure never decides it. */
  lemma ForcedIsAllSame(eq1: Equation, eq2: Equation, dTerms: seq<Term>, dRoots: Roots, diag: Summary,
                        eTerms: seq<Term>, eRoots: Roots, escape: Summary)
    requires ClosurePair(eq1, dTerms, dRoots, diag, eTerms, eRoots, escape)
    requires diag.saturated
    ensures AnyHit(eq2, dRoots, diag, eRoots, escape) <==> Identified(eq2, AllSame(EqVars(eq2)), diag.terms, dRoots)
  {
    if AnyHit(eq2, dRoots, diag, eRoots, escape) {
      var s :| NamesSpec(EqVars(eq2), s) && Hit(eq2, s.spec, dRoots, diag, eRoots, escape);
      HitIsAllSame(eq1, eq2, s, dTerms, dRoots, diag, eTerms, eRoots, escape);
    }
    if Identified(eq2, AllSame(EqVars(eq2)), diag.terms, dRoots) {
      AllSameHit(eq2, dRoots, diag, eRoots, escape);
    }
  }

  /** The all-same instance of the target, as the trace universe and the law decide it. */
  ghost predicate DiagonalForced(eq1: Equation, eq2: Equation)
  {
    var a := AllSame(EqVars(eq2));
    && InUniverse(Subst(eq2.lhs, a), TRACE_ROLES, TRACE_DEPTH)
    && InUniverse(Subst(eq2.rhs, a), TRACE_ROLES, TRACE_DEPTH)
    && Forced(eq1, TRACE_ROLES, TRACE_DEPTH, Subst(eq2.lhs, a), Subst(eq2.rhs, a))
  }

  /** Which a single pass of rewriting decides, without any closure. */
  lemma DiagonalByRewriting(eq1: Equation, eq2: Equation)
    ensures var s, t := Subst(eq2.lhs, AllSame(EqVars(eq2))), Subst(eq2.rhs, AllSame(EqVars(eq2)));
            DiagonalForced(eq1, eq2) <==> InTrace(s) && InTrace(t) && Nf(s, RuleOf(eq1)) == Nf(t, RuleOf(eq1))
  {
    var s, t := Subst(eq2.lhs, AllSame(EqVars(eq2))), Subst(eq2.rhs, AllSame(EqVars(eq2)));
    if InTrace(s) && InTrace(t) {
      ForcedByRewriting(eq1, s, t);
    }
  }

  lemma HitIsDiagonalForced(eq1: Equation, eq2: Equation, s: NamedSpec, dTerms: seq<Term>, dRoots: Roots, diag: Summary,
                            eTerms: seq<Term>, eRoots: Roots, escape: Summary)
    requires ClosurePair(eq1, dTerms, dRoots, diag, eTerms, eRoots, escape)
    requires NamesSpec(EqVars(eq2), s) && Hit(eq2, s.spec, dRoots, diag, eRoots, escape)
    ensures DiagonalForced(eq1, eq2)
  {
    if OnlyX(s.spec) {
      OnlyXIsAllSame(EqVars(eq2), s);
      IdentifiedIsForced(eq1, eq2, s.spec, TRACE_ROLES, TRACE_DEPTH, dTerms, dRoots, diag);
    } else {
      EscapeHitCollapses(eq1, eq2, s, eTerms, eRoots, escape);
    }
  }

  lemma VerdictIsDiagonal(eq1: Equation, eq2: Equation, dTerms: seq<Term>, dRoots: Roots, diag: Summary,
                          eTerms: seq<Term>, eRoots: Roots, escape: Summary)
    requires ClosurePair(eq1, dTerms, dRoots, diag, eTerms, eRoots, escape) && diag.saturated
    ensures dRoots.Keys == diag.terms.Keys && eRoots.Keys == escape.terms.Keys
    ensures AnyHit(eq2, dRoots, diag, eRoots, escape) <==> DiagonalForced(eq1, eq2)
  {
    if AnyHit(eq2, dRoots, diag, eRoots, escape) {
      var s :| NamesSpec(EqVars(eq2), s) && Hit(eq2, s.spec, dRoots, diag, eRoots, escape);
      HitIsDiagonalForced(eq1, eq2, s, dTerms, dRoots, diag, eTerms, eRoots, escape);
    }
    if DiagonalForced(eq1, eq2) {
      ForcedIsIdentified(eq1, eq2, AllSame(EqVars(eq2)), dTerms, dRoots, diag);
      ForcedIsAllSame(eq1, eq2, dTerms, dRoots, diag, eTerms, eRoots, escape);
    }
  }

  // ------------------------------------------- the whole record, by what the law forces

  /** The universe terms the law forces equal to `t`. */
  ghost function ForcedWith(eq: Equation, roles: seq<string>, d: nat, t: Term): iset<Term>
  {
    iset u | InUniverse(u, roles, d) && Forced(eq, roles, d, u, t)
  }

  ghost predicate ListedBy(P: iset<Term>, s: set<Term>)
  {
    forall u :: u in s <==> u in P
  }

  ghost predicate HasSize(P: iset<Term>, n: nat)
  {
    exists s: set<Term> :: ListedBy(P, s) && |s| == n
  }

  lemma SizeIsUnique(P: iset<Term>, m: nat, n: nat)
    requires HasSize(P, m) && HasSize(P, n)
    ensures m == n
  {
    var s: set<Term> :| ListedBy(P, s) && |s| == m;
    var t: set<Term> :| ListedBy(P, t) && |t| == n;
    assert s == t;
  }

  /** What looking a spec up tells, in terms of the law alone: nothing unless both sides are in the
      universe; then whether they are forced equal, and how many universe terms are forced equal to
      the one side and to the other. `exact` says that the closure was not cut short. */
  ghost predicate FoundMeansIn(eq1: Equation, l: Term, rt: Term, f: Option<(bool, nat)>, roles: seq<string>, d: nat, exact: bool)
  {
    && (f.Some? <==> InUniverse(l, roles, d) && InUniverse(rt, roles, d))
    && (f.Some? && f.value.0 ==> Forced(eq1, roles, d, l, rt))
    && (f.Some? && exact ==>
          && (Forced(eq1, roles, d, l, rt) ==> f.value.0)
          && exists a: nat, b: nat :: HasSize(ForcedWith(eq1, roles, d, l), a) && HasSize(ForcedWith(eq1, roles, d, rt), b)
                                      && f.value.1 == a + b)
  }

  /** A spec with the one role "x" is looked up in the universe over "x" with at most five operations,
      any other in the one over "x" and "y" with at most four. */
  ghost predicate FoundMeans(eq1: Equation, eq2: Equation, spec: Spec, f: Option<(bool, nat)>, escapeExact: bool)
  {
    var l, rt := Subst(eq2.lhs, spec), Subst(eq2.rhs, spec);
    if forall v :: v in spec ==> spec[v] == "x" then FoundMeansIn(eq1, l, rt, f, ["x"], 5, true)
    else FoundMeansIn(eq1, l, rt, f, ["x", "y"], 4, escapeExact)
  }

  ghost predicate AllFoundMean(eq1: Equation, eq2: Equation, specs: seq<NamedSpec>, found: seq<Option<(bool, nat)>>, escapeExact: bool)
  {
    |found| == |specs| && forall i :: 0 <= i < |specs| ==> FoundMeans(eq1, eq2, specs[i].spec, found[i], escapeExact)
  }

  lemma KeyInside(eq2: Equation, spec: Spec, t: Term, eq1: Equation, roles: seq<string>, d: nat, terms: seq<Term>, r: Roots, c: Summary)
    requires ClosureResult(eq1, roles, d, terms, r, c)
    requires SpecInto(EqVars(eq2), spec, WIDE_ROLES) && (t == eq2.lhs || t == eq2.rhs)
    ensures Canonical(Subst(t, spec)) in c.terms <==> InUniverse(Subst(t, spec), roles, d)
  {
    if Canonical(Subst(t, spec)) in c.terms {
      FoundIsInside(eq2, spec, t, roles, d, terms);
    }
    if InUniverse(Subst(t, spec), roles, d) {
      assert Subst(t, spec) in terms;
    }
  }

  /** In a closure that was not cut short, the class of a term holds what the law forces equal to it. */
  lemma ClassCounts(eq: Equation, roles: seq<string>, d: nat, terms: seq<Term>, r: Roots, c: Summary, t: Term)
    requires ClosureResult(eq, roles, d, terms, r, c) && c.saturated && InUniverse(t, roles, d)
    ensures Canonical(t) in r && r[Canonical(t)] in c.classes
    ensures HasSize(ForcedWith(eq, roles, d, t), |c.classes[r[Canonical(t)]]|)
  {
    assert t in terms;
    var root := r[Canonical(t)];
    assert Rooted(r, Canonical(t));
    assert ClassListed(c, terms, r, root);
    var pos :| Picked(c.classes[root], terms, r, root, pos);
    var members := set u | u in terms && Canonical(u) in r && r[Canonical(u)] == root;
    PickedSize(c.classes[root], terms, r, root, pos, members);
    assert ListedBy(ForcedWith(eq, roles, d, t), members);
  }

  lemma FoundHasMeaning(eq1: Equation, eq2: Equation, spec: Spec, roles: seq<string>, d: nat, terms: seq<Term>, r: Roots, c: Summary)
    requires ClosureResult(eq1, roles, d, terms, r, c) && SpecInto(EqVars(eq2), spec, WIDE_ROLES)
    ensures r.Keys == c.terms.Keys
    ensures FoundMeansIn(eq1, Subst(eq2.lhs, spec), Subst(eq2.rhs, spec), Found(r, c, KeysUnder(eq2, spec)), roles, d, c.saturated)
  {
    var l, rt := Subst(eq2.lhs, spec), Subst(eq2.rhs, spec);
    KeyInside(eq2, spec, eq2.lhs, eq1, roles, d, terms, r, c);
    KeyInside(eq2, spec, eq2.rhs, eq1, roles, d, terms, r, c);
    if InUniverse(l, roles, d) && InUniverse(rt, roles, d) && c.saturated {
      ClassCounts(eq1, roles, d, terms, r, c, l);
      ClassCounts(eq1, roles, d, terms, r, c, rt);
    }
  }

  lemma FoundForMeans(eq1: Equation, eq2: Equation, spec: Spec, dTerms: seq<Term>, dRoots: Roots, diag: Summary,
                      eTerms: seq<Term>, eRoots: Roots, escape: Summary)
    requires ClosurePair(eq1, dTerms, dRoots, diag, eTerms, eRoots, escape) && diag.saturated
    requires SpecInto(EqVars(eq2), spec, WIDE_ROLES)
    ensures dRoots.Keys == diag.terms.Keys && eRoots.Keys == escape.terms.Keys
    ensures FoundMeans(eq1, eq2, spec, FoundFor(eq2, spec, dRoots, diag, eRoots, escape), escape.saturated)
  {
    FoundHasMeaning(eq1, eq2, spec, TRACE_ROLES, TRACE_DEPTH, dTerms, dRoots, diag);
    FoundHasMeaning(eq1, eq2, spec, ESCAPE_ROLES, ESCAPE_DEPTH, eTerms, eRoots, escape);
  }

  lemma AllFoundHaveMeaning(eq1: Equation, eq2: Equation, specs: seq<NamedSpec>, dTerms: seq<Term>, dRoots: Roots, diag: Summary,
                            eTerms: seq<Term>, eRoots: Roots, escape: Summary)
    requires ClosurePair(eq1, dTerms, dRoots, diag, eTerms, eRoots, escape) && diag.saturated
    requires specs == SpecsOf(eq2)
    ensures dRoots.Keys == diag.terms.Keys && eRoots.Keys == escape.terms.Keys
    ensures AllFoundMean(eq1, eq2, specs, AllFound(eq2, specs, dRoots, diag, eRoots, escape), escape.saturated)
  {
    SpecsOfExact(eq2);
    forall i | 0 <= i < |specs|
      ensures FoundMeans(eq1, eq2, specs[i].spec, AllFound(eq2, specs, dRoots, diag, eRoots, escape)[i], escape.saturated)
    {
      SpecRoles(EqVars(eq2), specs[i]);
      FoundForMeans(eq1, eq2, specs[i].spec, dTerms, dRoots, diag, eTerms, eRoots, escape);
    }
  }

  /** Over the roles, a key has the letter x exactly when its term has the role. */
  lemma {:induction false} KeyHasX(t: Term)
    requires OverRoles(t, WIDE_ROLES)
    ensures 'x' in Canonical(t) <==> "x" in VarsIn(t)
  {
    match t
    case Var(name) =>
      assert WIDE_ROLES[0] == "x" && WIDE_ROLES[1] == "y" && WIDE_ROLES[2] == "z";
      assert name == "x" || name == "y" || name == "z";
    case Op(l, r) =>
      KeyHasX(l);
      KeyHasX(r);
  }

  /** Both sides of the target get the role "x" under a spec. */
  ghost predicate BothUseX(eq2: Equation, spec: Spec)
  {
    "x" in VarsIn(Subst(eq2.lhs, spec)) && "x" in VarsIn(Subst(eq2.rhs, spec))
  }

  lemma ReportIsUnique(eq2: Equation, specs: seq<NamedSpec>, found: seq<Option<(bool, nat)>>, a: Report, b: Report)
    requires |found| == |specs| && Reported(eq2, specs, found, a) && Reported(eq2, specs, found, b)
    ensures a == b
  {
    if a != NO_REPORT {
      var i :| 0 <= i < |specs| && ReportedAt(eq2, specs, found, a, i);
      if b != NO_REPORT {
        var j :| 0 <= j < |specs| && ReportedAt(eq2, specs, found, b, j);
        assert i == j;
      }
    }
  }

  lemma FoundIsUnique(eq1: Equation, l: Term, rt: Term, f: Option<(bool, nat)>, g: Option<(bool, nat)>, roles: seq<string>, d: nat)
    requires FoundMeansIn(eq1, l, rt, f, roles, d, true) && FoundMeansIn(eq1, l, rt, g, roles, d, true)
    ensures f == g
  {
    if f.Some? {
      var a: nat, b: nat :| HasSize(ForcedWith(eq1, roles, d, l), a) && HasSize(ForcedWith(eq1, roles, d, rt), b) && f.value.1 == a + b;
      var a': nat, b': nat :| HasSize(ForcedWith(eq1, roles, d, l), a') && HasSize(ForcedWith(eq1, roles, d, rt), b') && g.value.1 == a' + b';
      SizeIsUnique(ForcedWith(eq1, roles, d, l), a, a');
      SizeIsUnique(ForcedWith(eq1, roles, d, rt), b, b');
    }
  }

  /** So, when the two-role closure is not cut short, the reported spec is determined by the two laws. */
  lemma ReportIsDetermined(eq1: Equation, eq2: Equation, specs: seq<NamedSpec>, found: seq<Option<(bool, nat)>>, best: Report,
                           found': seq<Option<(bool, nat)>>, best': Report)
    requires AllFoundMean(eq1, eq2, specs, found, true) && AllFoundMean(eq1, eq2, specs, found', true)
    requires Reported(eq2, specs, found, best) && Reported(eq2, specs, found', best')
    ensures best == best'
  {
    forall i | 0 <= i < |specs| ensures found[i] == found'[i] {
      var spec := specs[i].spec;
      assert FoundMeans(eq1, eq2, spec, found[i], true) && FoundMeans(eq1, eq2, spec, found'[i], true);
      if forall v :: v in spec ==> spec[v] == "x" {
        FoundIsUnique(eq1, Subst(eq2.lhs, spec), Subst(eq2.rhs, spec), found[i], found'[i], ["x"], 5);
      } else {
        FoundIsUnique(eq1, Subst(eq2.lhs, spec), Subst(eq2.rhs, spec), found[i], found'[i], ["x", "y"], 4);
      }
    }
    assert found == found';
    ReportIsUnique(eq2, specs, found, best, best');
  }

  /** What the record says, field by field. */
  ghost predicate RecordMeans(eq2: Equation, specs: seq<NamedSpec>, found: seq<Option<(bool, nat)>>, best: Report, c: Classification)
    requires |found| == |specs|
  {
    && c.partitionName == best.name && c.lhsKey == best.lhs && c.rhsKey == best.rhs && (c.nearDiagClosure <==> best.same)
    && (c.inDiagClosure <==> c.forced && c.partitionName == "all_same")
    && c.diagDistance == (if c.forced then 0 else 2) && (c.nearDiagClosure ==> c.forced)
    && (c.conflict == "closure_forced_theorem_shadow" <==> c.forced)
    && (c.conflict == "closure_near_escape_candidate" <==>
          !c.forced && exists b :: 0 <= b < |specs| && ReportedAt(eq2, specs, found, best, b) && BothUseX(eq2, specs[b].spec))
    && (c.conflict == "closure_unclassified_escape" || c.conflict == "closure_forced_theorem_shadow"
        || c.conflict == "closure_near_escape_candidate")
  }

  lemma ReportHasX(eq2: Equation, specs: seq<NamedSpec>, found: seq<Option<(bool, nat)>>, best: Report, b: nat)
    requires specs == SpecsOf(eq2) && |found| == |specs| && b < |specs| && ReportedAt(eq2, specs, found, best, b)
    ensures 'x' in best.lhs && 'x' in best.rhs <==> BothUseX(eq2, specs[b].spec)
  {
    SpecsOfExact(eq2);
    var spec := specs[b].spec;
    SpecRoles(EqVars(eq2), specs[b]);
    SubstOverRoles(eq2.lhs, spec, WIDE_ROLES);
    SubstOverRoles(eq2.rhs, spec, WIDE_ROLES);
    KeyHasX(Subst(eq2.lhs, spec));
    KeyHasX(Subst(eq2.rhs, spec));
  }

  lemma VerdictMeans(eq2: Equation, specs: seq<NamedSpec>, found: seq<Option<(bool, nat)>>, best: Report, forced: bool)
    requires specs == SpecsOf(eq2) && |found| == |specs| && Reported(eq2, specs, found, best) && (best.same ==> forced)
    ensures RecordMeans(eq2, specs, found, best, Verdict(forced, best))
  {
    forall b | 0 <= b < |specs| && ReportedAt(eq2, specs, found, best, b)
      ensures 'x' in best.lhs && 'x' in best.rhs <==> BothUseX(eq2, specs[b].spec)
    {
      ReportHasX(eq2, specs, found, best, b);
    }
  }

  ghost predicate EscapeCutAt(eq1: Equation, terms: seq<Term>, sys: System, history: seq<Roots>, e: Summary)
  {
    ClosureRun(eq1, ["x", "y"], 4, terms, sys, history, e) && !e.saturated && e.rounds == 12
  }

  /** The two-role closure was cut short: it was still changing after all twelve rounds. */
  ghost predicate EscapeCut(eq1: Equation)
  {
    exists terms, sys, history, e :: EscapeCutAt(eq1, terms, sys, history, e)
  }

  /** One row of the atlas: both closures with the program's bounds, then the verdict. "Forced" is
      exactly: the law forces the target's all-same instance in the trace universe. The cap on the
      rounds does not matter: it never ends the trace closure, and when it ends the escape closure
      a hit lost there has its all-same instance in the trace closure. The other fields report the
      first listed spec with the fewest terms forced equal to its two sides. */
  method ClassifySourceAndTarget(eq1: Equation, eq2: Equation)
    returns (c: Classification, ghost specs: seq<NamedSpec>, ghost found: seq<Option<(bool, nat)>>, ghost best: Report, ghost exact: bool)
    ensures c.forced <==> DiagonalForced(eq1, eq2)
    ensures SpecsAre(eq2, specs) && AllFoundMean(eq1, eq2, specs, found, exact)
    ensures Reported(eq2, specs, found, best) && RecordMeans(eq2, specs, found, best, c)
    ensures exact || EscapeCut(eq1)
  {
    PlainLetters();
    var dUf, dTerms, diag, dSys, dHistory := BoundedSourceClosure(eq1, TRACE_ROLES, TRACE_DEPTH, ROUND_CAP);
    var eUf, eTerms, escape, eSys, eHistory := BoundedSourceClosure(eq1, ESCAPE_ROLES, ESCAPE_DEPTH, ROUND_CAP);
    c, best := ClassifyPair(eq2, dUf, diag, eUf, escape);
    TraceNeverCut(eq1, dTerms, dSys, dHistory, diag);
    assert diag.saturated;
    ghost var dR, eR := dUf.Classes(), eUf.Classes();
    specs, exact := SpecsOf(eq2), escape.saturated;
    found := AllFound(eq2, specs, dR, diag, eR, escape);
    SpecsByNames(eq2);
    AllFoundHaveMeaning(eq1, eq2, specs, dTerms, dR, diag, eTerms, eR, escape);
    VerdictMeans(eq2, specs, found, best, c.forced);
    VerdictIsDiagonal(eq1, eq2, dTerms, dR, diag, eTerms, eR, escape);
    if !exact {
      assert EscapeCutAt(eq1, eTerms, eSys, eHistory, escape);
    }
  }

  /** On a target with one variable the verdict is a theorem: forced means no countermodel. */
  lemma OneVariableForcedIsTheorem(eq1: Equation, eq2: Equation, table: Table)
    requires |EqVars(eq2)| == 1 && DiagonalForced(eq1, eq2) && FullRows(table)
    ensures !Countermodel(eq1, eq2, table)
  {
    var a := AllSame(EqVars(eq2));
    assert SpecInto(EqVars(eq2), a, TRACE_ROLES) by { assert TRACE_ROLES[0] == "x"; }
    assert Injective(EqVars(eq2), a);
    IdentifiedHasNoCountermodel(eq1, eq2, TRACE_ROLES, TRACE_DEPTH, a, table);
  }

  /** A forced verdict through a spec that merges variables is no theorem: the trivial law
      "forces" every target whose all-same instance is trivial, yet x = y has a countermodel. */
  lemma ShadowIsNoTheorem(terms: seq<Term>, r: Roots, c: Summary)
    requires ClosureResult(Equation(Var("x"), Var("x")), TRACE_ROLES, TRACE_DEPTH, terms, r, c)
    ensures var eq1, eq2 := Equation(Var("x"), Var("x")), Equation(Var("x"), Var("y"));
            && Identified(eq2, AllSame(EqVars(eq2)), c.terms, r)
            && Countermodel(eq1, eq2, [[0, 0], [0, 0]])
  {
    var eq1, eq2 := Equation(Var("x"), Var("x")), Equation(Var("x"), Var("y"));
    var table: Table := [[0, 0], [0, 0]];
    var a := AllSame(EqVars(eq2));
    assert VarsIn(Var("x")) == ["x"] && VarsIn(Var("y")) == ["y"];
    assert "x" in EqVars(eq2) && "y" in EqVars(eq2);
    assert Subst(eq2.lhs, a) == Var("x") && Subst(eq2.rhs, a) == Var("x");
    assert InUniverse(Var("x"), TRACE_ROLES, TRACE_DEPTH);
    assert Var("x") in terms;
    var env: Env := map["x" := 0, "y" := 1];
    assert Assignment(eq2, table, env) && Separates(eq2, table, env);
  }
}
