/**
 * PairPotentialType: a pairwise potential between two AtomTypes that does
 * not follow the topology's combining rule. Building one fills in the
 * defaults for the name, expression, parameters and independent variables,
 * checks the member types, and tags the record with the topology table it
 * belongs to.
 */
module PairPotentialTypes {
  import opened Results
  import opened Potentials

  const DefaultName := "PairPotentialType"

  /** The pieces of the default 12-6 Lennard-Jones expression. */
  const Coefficient := "4 * eps * "
  const Ratio := "sigma / r"
  const RatioTerm := Enclose(Ratio)
  const RepulsivePower := "**12 - "
  const AttractivePower := "**6"

  /** The difference of the two powers, `(sigma / r)**12 - (sigma / r)**6`. */
  const PowerDifference := RatioTerm + RepulsivePower + RatioTerm + AttractivePower

  /**
   * The default expression text exactly as the constructor's signature
   * spells it, "4 * eps * (sigma / r)**12 - (sigma / r)**6)": the
   * parenthesis that should open before the difference is missing.
   */
  const DefaultExpressionAsWritten := Coefficient + PowerDifference + ")"

  /**
   * The form the default evidently stands for,
   * "4 * eps * ((sigma / r)**12 - (sigma / r)**6)".
   */
  const DefaultExpression := Coefficient + Enclose(PowerDifference)

  function Enclose(s: string): string {
    "(" + s + ")"
  }

  /** eps = 1 kJ/mol and sigma = 1 nm. */
  const DefaultParameters: map<string, Quantity> :=
    map["eps" := Quantity(1.0, "kJ / mol"), "sigma" := Quantity(1.0, "nm")]

  const DefaultIndependentVariables: set<string> := {"r"}

  datatype PairPotentialType = PairPotentialType(
    name: string,
    expression: Expression,
    parameters: map<string, Quantity>,
    independentVariables: set<string>,
    storedMemberTypes: Option<(PotentialType, PotentialType)>,
    topology: object?,
    setRef: SetRef)
  {
    /** The `member_types` property: the stored pair, or nothing. */
    function MemberTypes(): Option<(PotentialType, PotentialType)> {
      storedMemberTypes
    }
  }

  /**
   * Validation of the `member_types` field, declared as an optional tuple of
   * exactly two AtomTypes: a list of two AtomTypes becomes the pair.
   */
  function ValidateMemberTypes(memberTypes: Option<seq<PotentialType>>)
    : (r: Result<Option<(PotentialType, PotentialType)>>)
    ensures memberTypes.None? ==> r == Success(None)
    ensures memberTypes.Some? ==>
      (r.Success? <==> |memberTypes.value| == 2
                       && memberTypes.value[0].kind == AtomTypeKind
                       && memberTypes.value[1].kind == AtomTypeKind)
    ensures r.Success? && memberTypes.Some? ==>
      r.value == Some((memberTypes.value[0], memberTypes.value[1]))
    ensures r.Failure? ==> r.error == ValidationError
  {
    match memberTypes
    case None => Success(None)
    case Some(ts) =>
      if |ts| == 2 && ts[0].kind == AtomTypeKind && ts[1].kind == AtomTypeKind
      then Success(Some((ts[0], ts[1])))
      else Failure(ValidationError)
  }

  /**
   * The constructor. A parameter left out (None) takes its default; one
   * that is given, even an empty mapping, is kept as it is. The name, the
   * expression, the topology back-reference and the member types are
   * forwarded unchanged, and the record is tagged with the pair-potential
   * table of a topology.
   */
  function NewPairPotentialType(
    name: string := DefaultName,
    expression: string := DefaultExpressionAsWritten,
    parameters: Option<map<string, Quantity>> := None,
    independentVariables: Option<set<string>> := None,
    memberTypes: Option<seq<PotentialType>> := None,
    topology: object? := null): (r: Result<PairPotentialType>)
    ensures r.Success? <==> ValidateMemberTypes(memberTypes).Success?
    ensures r.Failure? ==> r.error == ValidationError
    ensures r.Success? ==>
      && r.value.name == name
      && r.value.expression == Expression(expression)
      && r.value.topology == topology
      && r.value.setRef == PairPotentialTypeDict
      && r.value.MemberTypes() == ValidateMemberTypes(memberTypes).value
    ensures r.Success? && parameters.None? ==>
      r.value.parameters == map["eps" := Quantity(1.0, "kJ / mol"), "sigma" := Quantity(1.0, "nm")]
    ensures r.Success? && parameters.Some? ==> r.value.parameters == parameters.value
    ensures r.Success? && independentVariables.None? ==> r.value.independentVariables == {"r"}
    ensures r.Success? && independentVariables.Some? ==>
      r.value.independentVariables == independentVariables.value
  {
    var parameters := if parameters.None? then DefaultParameters else parameters.value;
    var independentVariables :=
      if independentVariables.None? then DefaultIndependentVariables else independentVariables.value;
    match ValidateMemberTypes(memberTypes)
    case Failure(e) => Failure(e)
    case Success(pair) =>
      Success(PairPotentialType(name, Expression(expression), parameters, independentVariables,
                                pair, topology, PairPotentialTypeDict))
  }

  /** Building with two AtomTypes and reading `member_types` back gives the same pair, in order. */
  lemma MemberTypesRoundTrip(a: PotentialType, b: PotentialType)
    requires a.kind == AtomTypeKind && b.kind == AtomTypeKind
    ensures NewPairPotentialType(memberTypes := Some([a, b])).Success?
    ensures NewPairPotentialType(memberTypes := Some([a, b])).value.MemberTypes() == Some((a, b))
  {
  }

  /** Building without member types leaves `member_types` absent. */
  lemma MemberTypesAbsent()
    ensures NewPairPotentialType().Success?
    ensures NewPairPotentialType().value.MemberTypes() == None
    ensures NewPairPotentialType().value.name == "PairPotentialType"
  {
  }

  /**
   * Building with every argument left out: the name "PairPotentialType",
   * the default expression text exactly as the constructor spells it (with
   * its unmatched parenthesis), eps = 1 kJ/mol and sigma = 1 nm as
   * parameters, and r as the one independent variable.
   */
  lemma Defaults()
    ensures var r := NewPairPotentialType();
      && r.Success?
      && r.value.name == "PairPotentialType"
      && r.value.expression == Expression(DefaultExpressionAsWritten)
      && !Balanced(r.value.expression.canonical)
      && r.value.parameters == map["eps" := Quantity(1.0, "kJ / mol"), "sigma" := Quantity(1.0, "nm")]
      && r.value.independentVariables == {"r"}
  {
    DefaultExpressionAsWrittenUnbalanced();
  }

  // Parenthesis depth of expression text, used to show that the default
  // expression as written does not close its brackets.

  function Step(c: char): int {
    if c == '(' then 1 else if c == ')' then -1 else 0
  }

  /** Opening minus closing parentheses in `s`. */
  function Depth(s: string): int {
    if s == [] then 0 else Depth(s[..|s| - 1]) + Step(s[|s| - 1])
  }

  /** The lowest depth any prefix of `s` reaches (the empty prefix counts as 0). */
  function Lowest(s: string): int {
    if s == [] then 0
    else
      var d := Depth(s);
      var l := Lowest(s[..|s| - 1]);
      if d < l then d else l
  }

  /** Every parenthesis is closed, and none is closed before it is opened. */
  predicate Balanced(s: string) {
    Depth(s) == 0 && Lowest(s) == 0
  }

  lemma {:induction false} DepthAppend(s: string, t: string)
    ensures Depth(s + t) == Depth(s) + Depth(t)
  {
    if t == [] {
      assert s + t == s;
    } else {
      assert (s + t)[..|s + t| - 1] == s + t[..|t| - 1];
      assert (s + t)[|s + t| - 1] == t[|t| - 1];
      DepthAppend(s, t[..|t| - 1]);
    }
  }

  lemma {:induction false} LowestAppend(s: string, t: string)
    ensures Lowest(s + t) == if Depth(s) + Lowest(t) < Lowest(s) then Depth(s) + Lowest(t) else Lowest(s)
  {
    if t == [] {
      assert s + t == s;
      assert Lowest(s) <= Depth(s) by { LowestAtMostDepth(s); }
    } else {
      assert (s + t)[..|s + t| - 1] == s + t[..|t| - 1];
      LowestAppend(s, t[..|t| - 1]);
      DepthAppend(s, t);
    }
  }

  lemma LowestAtMostDepth(s: string)
    ensures Lowest(s) <= Depth(s) && Lowest(s) <= 0
  {
  }

  /** Text without parentheses is neutral. */
  lemma {:induction false} PlainText(s: string)
    requires '(' !in s && ')' !in s
    ensures Depth(s) == 0 && Lowest(s) == 0
  {
    if s != [] {
      assert s[|s| - 1] in s;
      var init := s[..|s| - 1];
      assert forall c :: c in init ==> c in s;
      PlainText(init);
    }
  }

  /** The default expression as written closes one parenthesis more than it opens. */
  lemma DefaultExpressionAsWrittenUnbalanced()
    ensures Depth(DefaultExpressionAsWritten) == -1
    ensures !Balanced(DefaultExpressionAsWritten)
  {
    PowerDifferenceBalanced();
    BalancedConcat(Coefficient, PowerDifference);
    Parentheses();
    DepthAppend(Coefficient + PowerDifference, ")");
  }

  /** The corrected default expression is balanced. */
  lemma DefaultExpressionBalanced()
    ensures Balanced(DefaultExpression)
  {
    PowerDifferenceBalanced();
    BalancedWrap(PowerDifference);
    BalancedConcat(Coefficient, Enclose(PowerDifference));
  }

  lemma PowerDifferenceBalanced()
    ensures Balanced(Coefficient) && Balanced(PowerDifference)
  {
    PlainText(Coefficient);
    PlainText(Ratio);
    PlainText(RepulsivePower);
    PlainText(AttractivePower);
    BalancedWrap(Ratio);
    BalancedConcat(RatioTerm, RepulsivePower);
    BalancedConcat(RatioTerm + RepulsivePower, RatioTerm);
    BalancedConcat(RatioTerm + RepulsivePower + RatioTerm, AttractivePower);
  }

  /** Balanced texts stay balanced when put side by side. */
  lemma BalancedConcat(s: string, t: string)
    requires Balanced(s) && Balanced(t)
    ensures Balanced(s + t)
  {
    BothAppend(s, t);
  }

  /** A balanced text stays balanced inside a pair of parentheses. */
  lemma BalancedWrap(s: string)
    requires Balanced(s)
    ensures Balanced(Enclose(s))
  {
    Parentheses();
    BothAppend("(", s);
    BothAppend("(" + s, ")");
  }

  lemma Parentheses()
    ensures Depth("(") == 1 && Lowest("(") == 0
    ensures Depth(")") == -1 && Lowest(")") == -1
  {
    assert "("[..0] == [] && ")"[..0] == [];
  }

  lemma BothAppend(s: string, t: string)
    ensures Depth(s + t) == Depth(s) + Depth(t)
    ensures Lowest(s + t) == if Depth(s) + Lowest(t) < Lowest(s) then Depth(s) + Lowest(t) else Lowest(s)
  {
    DepthAppend(s, t);
    LowestAppend(s, t);
  }
}
