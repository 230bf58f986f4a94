/**
 * Parametric potentials: the type objects (AtomType, BondType, AngleType,
 * DihedralType, ImproperType) that sites and connections refer to.
 *
 * A type object is shared by reference between every site or connection
 * that holds it, and its `name` can be changed in place; everything else
 * about it is fixed once it is built. Two type objects are the same type
 * for the topology's bookkeeping when their `Key()`s agree.
 */
module Potentials {

  /**
   * A symbolic expression, identified by its text. Parsing and symbolic
   * equality belong to an external algebra library and are not modelled:
   * two expressions are the same here exactly when their texts are.
   */
  datatype Expression = Expression(canonical: string)

  /** A value tagged with a physical unit. */
  datatype Quantity = Quantity(magnitude: real, unit: string)

  /** The concrete potential classes. */
  datatype TypeKind =
    | AtomTypeKind
    | BondTypeKind
    | AngleTypeKind
    | DihedralTypeKind
    | ImproperTypeKind

  /**
   * The bookkeeping table of a topology that a potential reports to. Only
   * the pair-potential table is modelled; the other potentials are kept in
   * the topology's registries instead.
   */
  datatype SetRef = PairPotentialTypeDict

  /**
   * Everything value equality between type objects looks at: the class,
   * the name, the expression, the parameters and the independent variables.
   */
  datatype TypeKey = TypeKey(
    kind: TypeKind,
    name: string,
    expression: Expression,
    parameters: map<string, Quantity>,
    independentVariables: set<string>)

  class PotentialType {
    var name: string
    const kind: TypeKind
    const expression: Expression
    const parameters: map<string, Quantity>
    const independentVariables: set<string>

    constructor (kind: TypeKind, name: string, expression: Expression,
                 parameters: map<string, Quantity>, independentVariables: set<string>)
      ensures Key() == TypeKey(kind, name, expression, parameters, independentVariables)
    {
      this.kind := kind;
      this.name := name;
      this.expression := expression;
      this.parameters := parameters;
      this.independentVariables := independentVariables;
    }

    /** The value this object is compared by. */
    function Key(): TypeKey
      reads this
    {
      TypeKey(kind, name, expression, parameters, independentVariables)
    }
  }

  /** What a site may hold: nothing, or an AtomType. */
  type MaybeAtomType = t: PotentialType? | t == null || t.kind == AtomTypeKind witness null

  /** What a connection may hold: nothing, or a bonded (non-atom) type. */
  type MaybeConnectionType = t: PotentialType? | t == null || t.kind != AtomTypeKind witness null
}
