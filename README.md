# gmso Topology type registries, in Dafny

This project models the bookkeeping core of gmso's `Topology`. A topology
owns its sites (atoms) and connections (bonds, angles, dihedrals,
impropers), and it keeps a derived registry of potential types for each
family. A registry is the insertion-ordered table of distinct type values
that the members currently hold.

The model covers:

- adding sites, connections and sub-topologies, with and without
  `update_types`;
- the full rebuild of the registries (`update_atom_types`,
  `update_topology`), which also re-points every holder at its registry's
  representative object, so that holders of equal types share one instance;
- `get_index` for sites, connections and types;
- renaming a shared type object in place, and what that does to the
  registry order;
- the pair-potential table, keyed by unordered pairs of AtomType values;
- the `combining_rule` setting, the `typed` flag and `is_typed()`;
- the `PairPotentialType` constructor and its `member_types` property.

Sites, connections, type objects and the topology are classes, because gmso
updates them in place and shares them by reference. Registries and member
lists are `seq` fields that the methods reassign. Each mutating method
states its new state: the fields it reassigns, what the holders now point
at, and each registry by the values of its entries, which are drawn from
the former entries and the holders' types. A rebuild is proved against a
value-level specification: the first-occurrence scan `Dedup(Present(keys))`
over the values the holders hold.

A connection holds a type of its own class or none: a bond a `BondType`,
an angle an `AngleType`, a dihedral a `DihedralType`, an improper an
`ImproperType`. The constructor demands this, and adding connections and
rebuilding keep it for every stored connection.

Files:

- `results.dfy`: `Option`, `Result` and the error classes (`TypeError`,
  `ValueError`, `GMSOError`, `ValidationError`).
- `sequences.dfy`: ordered sets, the first-occurrence scan and the re-keying
  of a registry after a rename.
- `potentials.dfy`: type objects and the value they are compared by.
- `registry.dfy`: folding one type into a registry, and per-class views.
- `topology.dfy`: sites, connections, sub-topologies and the `Topology` class.
- `pairpotential_type.dfy`: `PairPotentialType`.

`gmso/core/topology.py` is not part of this model. The behaviour of
`Topology` follows its test suite, `gmso/tests/test_topology.py`.

Two type objects are the same type when their class, name, expression,
parameters and independent variables agree. The name is part of this
because the tests need it: 100 sites whose types cycle through 10 names
give 10 registry entries (gmso/tests/test_topology.py:437-443), and a
renamed type changes its index (gmso/tests/test_topology.py:532-535).

## Model

| member | source | states |
|---|---|---|
| Topologies.Topology.constructor | gmso/tests/test_topology.py:35-41 | A new topology has the given name, no members, empty registries, combining rule "lorentz", `typed` False and `is_typed()` False. |
| Topologies.ParseCombiningRule | gmso/tests/test_topology.py:39-45 | A rule name is accepted exactly when it is "lorentz" or "geometric"; any other name, such as "kong", is a GMSOError. |
| Topologies.ParseRuleName | gmso/tests/test_topology.py:41-43 | Every rule reads back from its own name. |
| Topologies.Topology.SetCombiningRule | gmso/tests/test_topology.py:42-45 | Setting "geometric" or "lorentz" succeeds and reads back the same name. Any other name fails with GMSOError and leaves the rule unchanged. |
| Topologies.Topology.AddSite | gmso/tests/test_topology.py:175-199 | The site is appended unless already present. Without `update_types`, or for an untyped site, the AtomType registry and the site are untouched. With it, exactly the site's value is absorbed into the registry, the site then holds the registry's entry for that value, `typed` is raised, and `is_typed()` holds. |
| Topologies.Topology.RegisterAtomType | gmso/tests/test_topology.py:188-199 | The registry gains the site's value at the end unless an equal value is present. The site is re-pointed at the entry with that value, and no value is duplicated. |
| Topologies.Topology.SetTyped | gmso/tests/test_topology.py:426-433 | Setting the `typed` flag changes nothing else, so `is_typed()` keeps its value. |
| Topologies.Topology.AddConnection | gmso/tests/test_topology.py:201-230 | Missing member sites are appended first. Without `update_types`, or for an untyped connection, the registry of bonded types is unchanged. With it, the stored connection's value is absorbed, even when its members were never added as sites. The registry gains at most that one object, at the end. A duplicate that is not stored keeps its type, and so do all other stored connections. When the stored connections and the new one each hold a type of their own class, so do all stored connections afterwards. |
| Topologies.Connection.constructor | gmso/tests/test_topology.py:216-220 | A new connection has the given kind, members and type, and the type, if any, is of the class for that kind (`OwnClass`): a bond is built with a `BondType`. |
| Topologies.OwnClassesKept | gmso/tests/test_topology.py:232-240 | Re-pointing connections at objects with the same values, as a rebuild does, keeps every connection's type in its own class. |
| Sequences.AbsorbAllAddsOnly | gmso/tests/test_topology.py:55-65 | What `add_connection` appends to the sites comes from the connection's members; with `AbsorbAll`'s own contract, the sites become the old sites followed by exactly the missing members. |
| Topologies.FindEquivalent | gmso/tests/test_topology.py:449-463 | Finds the first stored connection of the same kind over the same ordered members. `AddConnection` keeps that one instead of adding a second, so the duplicate bond is counted once. |
| Topologies.Topology.RegisterConnectionType | gmso/tests/test_topology.py:216-230 | As `RegisterAtomType`, for the connection's bonded type. |
| Registries.Fold | gmso/tests/test_topology.py:242-253 | Two sites holding the same AtomType leave one entry. Folding a value already present returns its existing entry and leaves the registry as it is. |
| Topologies.RebuiltExpressions | gmso/tests/test_topology.py:232-281 | For a registry in the state a rebuild leaves it (`SharesRegistry`), its expressions (`atom_type_expressions`, `connection_type_expressions`) are exactly the expressions of the types the holders point at, and there are no more of them than registry entries. `UpdateAtomTypes`, `UpdateConnectionTypes` and `UpdateTopology` all establish that state. |
| Topologies.RebuiltClassExpressions | gmso/tests/test_topology.py:310-380 | After a rebuild, the expressions of one class's view (`bond_type_expressions`, `angle_type_expressions`, `dihedral_type_expressions`, `improper_type_expressions`) are exactly the expressions of the types of that class the connections hold. |
| Topologies.RebuiltKindExpressions | gmso/tests/test_topology.py:318-380 | After a rebuild, when every connection holds a type of its own class, the view for a connection kind (`angle_type_expressions` for angles, `dihedral_type_expressions` for dihedrals, ...) holds exactly the expressions of the types the connections of that kind hold. |
| Registries.ExpressionsBound | gmso/tests/test_topology.py:248-253 | A registry never has more distinct expressions than entries. |
| Topologies.Topology.Registry | gmso/tests/test_topology.py:314-316 | The per-class view (`bond_types`, `angle_types`, ...) holds exactly the entries of that class in the bonded-type registry. The AtomType view is the AtomType registry. |
| Topologies.Topology.UpdateAtomTypes | gmso/tests/test_topology.py:268-281 | After a site's type is reassigned, the rebuild makes the registry the distinct values the sites hold, in first-seen order. Every typed site is re-pointed at the entry for its value; every entry is held by some site; equal values share one object (together, `SharesRegistry`); what each site holds is unchanged. Only the AtomType registry and the sites' types are modified, so the connection registries and counts stay as they were. |
| Topologies.SitesHoldEntries | gmso/tests/test_topology.py:275-278 | Every entry of a rebuilt AtomType registry is an AtomType that some site holds. |
| Topologies.Topology.UpdateConnectionTypes | gmso/tests/test_topology.py:232-240 | The same rebuild as `UpdateAtomTypes`, over the connections and their bonded types. |
| Topologies.Topology.UpdateTopology | gmso/tests/test_topology.py:435-447 | Rebuilds both registries as above, and both rebuilt states hold at the end: each registry is the first-seen scan of what its holders hold, every typed site and connection points at an entry of its registry, every entry is held, and holders of equal values share one object (`SharesRegistry`), so `sites[0]` and `sites[10]` hold the same AtomType. The registries are duplicate-free, hold only their own families, and are non-empty exactly when `is_typed()` holds. Every connection holds a type of its own class afterwards exactly when it did before. |
| Topologies.ScanFindsAny | gmso/tests/test_topology.py:232-240 | A rebuild yields an empty registry exactly when no holder holds a type. |
| Sequences.DedupCounts | gmso/tests/test_topology.py:437-443 | The rebuilt registry has one entry per distinct value held: 10 distinct names give 10 entries. |
| Topologies.SharedRepresentatives | gmso/tests/test_topology.py:444-446 | Sites pointing into a duplicate-free registry that hold equal values hold the same object, so renaming it through one site is seen through the other. |
| Topologies.AppendedConnectionIndex | gmso/tests/test_topology.py:465-513 | A new connection added after others gets, among the connections of its own kind, the index one past the last of them, whatever other kinds were added in between: the sixth bond has index 5. |
| Topologies.Topology.GetIndex | gmso/tests/test_topology.py:465-526 | A site's index is its position in `sites`. A connection's index is its position among the connections of its own kind. A type's index is the position of its value in its class's registry. A member that is absent is a ValueError; any other argument is a TypeError. |
| Topologies.Topology.RenameType | gmso/tests/test_topology.py:532-535 | Renaming a registry entry re-keys its registry: the entry leaves its slot and its new value is appended unless already present. The other registry is untouched, both stay duplicate-free, and both hold only former entries. |
| Topologies.Relabel | gmso/tests/test_topology.py:543-545 | The renamed object gets the new name. The registry that comes back is the re-keyed one, holds only former entries and has no duplicate values. |
| Sequences.RekeyedMovesToEnd | gmso/tests/test_topology.py:532-535 | A renamed entry whose new value no other entry holds moves to the last index, and the registry keeps its length. In a two-type registry, index 0 becomes index 1. |
| Sequences.RekeyedShiftsOthers | gmso/tests/test_topology.py:551-565 | The entries after the renamed one move one place towards the front, and those before it keep their index. |
| Topologies.Topology.AddPairPotentialType | gmso/tests/test_topology.py:397-403 | A pair potential is stored under the unordered pair of its AtomTypes' values, replacing what an equal pair held. One without member types is a TypeError and stores nothing. |
| Topologies.PairKeyUnordered | gmso/tests/test_topology.py:397-405 | The key of a pair does not depend on the order of its two AtomTypes, and it is the key `remove_pairpotentialtype` looks up for the same list. |
| Topologies.Topology.RemovePairPotentialType | gmso/tests/test_topology.py:405-406 | The entry for the pair is gone and nothing else changes. A pair that is not present is no error. |
| Topologies.Topology.AddSubTopology | gmso/tests/test_topology.py:408-414 | The sub-topology is appended unless already present, and this topology becomes its parent. |
| PairPotentialTypes.ValidateMemberTypes | gmso/core/pairpotential_type.py:29-33 | `member_types` is optional. When given, it is accepted exactly when it is two AtomTypes, which become the stored pair in order; anything else is a ValidationError. |
| PairPotentialTypes.NewPairPotentialType | gmso/core/pairpotential_type.py:35-58 | Left-out parameters default to eps = 1 kJ/mol and sigma = 1 nm. Left-out independent variables default to {"r"}. Supplied values, even empty ones, are kept. A left-out expression defaults to the text exactly as written in the source. The name, expression, topology and member types are forwarded, and the table reference is the pair-potential table. |
| PairPotentialTypes.Defaults | gmso/core/pairpotential_type.py:35-48 | With every argument left out, the name is "PairPotentialType", the expression is the default text exactly as written (unbalanced), the parameters are eps = 1 kJ/mol and sigma = 1 nm, and the independent variable is r. |
| PairPotentialTypes.MemberTypesRoundTrip | gmso/core/pairpotential_type.py:60-62 | Building with two AtomTypes and reading `member_types` gives back the same pair, in order. |
| PairPotentialTypes.MemberTypesAbsent | gmso/core/pairpotential_type.py:60-62 | Building without member types and reading `member_types` gives none. The default name is "PairPotentialType". |
| PairPotentialTypes.DefaultExpressionAsWrittenUnbalanced | gmso/core/pairpotential_type.py:37 | The default expression as written closes one more parenthesis than it opens. |
| PairPotentialTypes.DefaultExpressionBalanced | gmso/core/pairpotential_type.py:37 | The corrected default expression has balanced parentheses. |

## Left out

- Units: a parameter is a magnitude with a unit name. No unit conversion or unit algebra is modelled.
- Symbolic expressions: an expression is identified by its text. Parsing and symbolic equality (sympy) are not modelled, so two spellings of the same formula are different values here.
- Positions, boxes, charges, and equality between whole topologies are not modelled. They are the `test_eq_*`, `test_add_box` and `test_positions_dtype` tests.
- The ParmEd and networkx adapters are not part of this model.
- The `*_type_expressions` views are not stored separately. They are derived from a registry, and `Topologies.RebuiltExpressions` and `Topologies.RebuiltClassExpressions` state what they are after a rebuild. Between rebuilds they follow the registry, which `add_site` and `add_connection` keep up to date only with `update_types`.
- Sub-topologies: a `SubTopology` is modelled by its name and its parent only. The sites it groups, and the operations on them, are not part of this model; the topology only keeps the ordered set of its sub-topologies.
- FindEquivalent: connections are the same when they are of the same kind over the same ordered members. Their types are not compared, and reversed member order is not treated as equal.
- AddConnection: the member sites it appends are not typed into the AtomType registry. Only the connection's own type is folded.
- Registry: for connection classes the contract states which entries the view holds, not their order. The order is that of the bonded-type registry.
- The default pair expression is kept exactly as written; the corrected text under "Findings" is proved balanced but is not what the constructor stores.
- RenameType: renaming a type object that is not a registry entry leaves the registries as they are. The stale entries are not re-checked until the next rebuild, matching the stale reads gmso allows between updates.
- NewPairPotentialType: pydantic's coercion of other field values, such as the string "r" given for independent variables, is not modelled. Independent variables are taken as a set.
- NewPairPotentialType: gmso stores the expression as a sympy expression (gmso/core/pairpotential_type.py:17-18); the base class `ParametricPotential`, which is not part of this model, parses the text and checks it against the parameters and independent variables. The model never parses the text nor runs that check, so no expression makes construction fail here. In particular the unbalanced default, which gmso could not parse, is accepted and stored; `Defaults` and `MemberTypesAbsent` describe the model's construction, not a run of gmso's default constructor.
- UpdateConnectionTypes: its contract keeps what each connection holds by value and does not restate that each connection's type stays in its own class. That follows from `OwnClassesKept`, and `UpdateTopology` states it.
- The weak `topology` back-reference of a pair potential is an ordinary nullable reference.

## Findings

| source | as written | input that shows it | evidently intended | confidence | as-written member | corrected member |
|---|---|---|---|---|---|---|
| gmso/core/pairpotential_type.py:37 | The default expression is `4 * eps * (sigma / r)**12 - (sigma / r)**6)`, which has one more `)` than `(`. | Constructing a `PairPotentialType` with no `expression` argument: gmso cannot parse the default text, so default construction fails instead of building the Lennard-Jones type. | `4 * eps * ((sigma / r)**12 - (sigma / r)**6)`, the 12-6 Lennard-Jones form. | high; not executed | PairPotentialTypes.DefaultExpressionAsWrittenUnbalanced | PairPotentialTypes.DefaultExpressionBalanced |
