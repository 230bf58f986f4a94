/**
 * Topology: the container a molecular system is assembled in. It owns the
 * sites (atoms), the connections between them (bonds, angles, dihedrals,
 * impropers) and its sub-topologies, and it keeps type registries: for
 * each family of potential types, the insertion-ordered table of the
 * distinct type values its members currently hold.
 *
 * Registries are derived data. `AddSite` and `AddConnection` can fold the
 * new member's type in on the spot; `UpdateAtomTypes`,
 * `UpdateConnectionTypes` and `UpdateTopology` rebuild them from scratch
 * with a first-occurrence scan. A member whose type is reassigned in
 * between leaves the registries stale until the next rebuild.
 */
module Topologies {
  import opened Results
  import opened Sequences
  import opened Potentials
  import opened Registries
  import opened PairPotentialTypes

  datatype ConnectionKind = Bond | Angle | Dihedral | Improper

  /** The number of member sites of each kind of connection. */
  function Arity(k: ConnectionKind): nat {
    match k
    case Bond => 2
    case Angle => 3
    case Dihedral => 4
    case Improper => 4
  }

  /** The potential class that types a connection of each kind. */
  function TypeKindOf(k: ConnectionKind): (t: TypeKind)
    ensures t != AtomTypeKind
  {
    match k
    case Bond => BondTypeKind
    case Angle => AngleTypeKind
    case Dihedral => DihedralTypeKind
    case Improper => ImproperTypeKind
  }

  /** A site (an atom); it may hold an AtomType. Sites are compared by identity. */
  class Site {
    var name: string
    var atomType: MaybeAtomType

    constructor (name: string, atomType: MaybeAtomType)
      ensures this.name == name && this.atomType == atomType
    {
      this.name := name;
      this.atomType := atomType;
    }
  }

  /** A bond, angle, dihedral or improper over an ordered tuple of sites. */
  class Connection {
    const kind: ConnectionKind
    const members: seq<Site>
    var connectionType: MaybeConnectionType

    /** A bond holds a BondType, an angle an AngleType, and so on. */
    constructor (kind: ConnectionKind, members: seq<Site>, connectionType: MaybeConnectionType)
      requires |members| == Arity(kind)
      requires connectionType == null || connectionType.kind == TypeKindOf(kind)
      ensures this.kind == kind && this.members == members
      ensures this.connectionType == connectionType
      ensures OwnClass()
    {
      this.kind := kind;
      this.members := members;
      this.connectionType := connectionType;
    }

    /** The type held, if any, is of the class that types this kind of connection. */
    ghost predicate OwnClass()
      reads this
    {
      connectionType == null || connectionType.kind == TypeKindOf(kind)
    }
  }

  /** Every connection holds a type of its own class, or none. */
  ghost predicate OwnClasses(cs: seq<Connection>)
    reads cs
  {
    forall i :: 0 <= i < |cs| ==> cs[i].OwnClass()
  }

  /**
   * Two connections describe the same interaction when they are of the
   * same kind over the same ordered members; the topology keeps one of them.
   */
  predicate Equivalent(a: Connection, b: Connection) {
    a.kind == b.kind && a.members == b.members
  }

  /** The first connection in `cs` equivalent to `c`, if any. */
  function FindEquivalent(cs: seq<Connection>, c: Connection): (r: Option<nat>)
    ensures r.None? <==> forall i :: 0 <= i < |cs| ==> !Equivalent(cs[i], c)
    ensures r.Some? ==> r.value < |cs| && Equivalent(cs[r.value], c)
    ensures r.Some? ==> forall j :: 0 <= j < r.value ==> !Equivalent(cs[j], c)
  {
    if cs == [] then None
    else if Equivalent(cs[0], c) then Some(0)
    else
      match FindEquivalent(cs[1..], c)
      case None => None
      case Some(i) => Some(i + 1)
  }

  /** The connections of one kind, in insertion order (bonds, angles, ...). */
  function OfKind(cs: seq<Connection>, k: ConnectionKind): (r: seq<Connection>)
    ensures forall i :: 0 <= i < |r| ==> r[i].kind == k
    ensures forall i :: 0 <= i < |cs| && cs[i].kind == k ==> cs[i] in r
  {
    if cs == [] then []
    else
      var init := OfKind(cs[..|cs| - 1], k);
      var last := cs[|cs| - 1];
      assert forall i :: 0 <= i < |cs| - 1 ==> cs[i] == cs[..|cs| - 1][i];
      if last.kind == k then init + [last] else init
  }

  /** The per-kind view holds nothing `cs` does not. */
  lemma {:induction false} OfKindKeepsOnly(cs: seq<Connection>, k: ConnectionKind)
    ensures forall i :: 0 <= i < |OfKind(cs, k)| ==> OfKind(cs, k)[i] in cs
  {
    if cs != [] {
      var init := cs[..|cs| - 1];
      OfKindKeepsOnly(init, k);
      assert forall c :: c in init ==> c in cs;
    }
  }

  lemma OfKindSnoc(cs: seq<Connection>, c: Connection, k: ConnectionKind)
    ensures OfKind(cs + [c], k) == if c.kind == k then OfKind(cs, k) + [c] else OfKind(cs, k)
  {
    assert (cs + [c])[..|cs|] == cs;
  }

  /**
   * A new connection appended after others gets, among the connections of
   * its own kind, the index one past the last of them, however many
   * connections of other kinds came in between.
   */
  lemma AppendedConnectionIndex(cs: seq<Connection>, c: Connection)
    requires c !in cs
    ensures IndexOf(OfKind(cs + [c], c.kind), c) == Some(|OfKind(cs, c.kind)|)
  {
    var before := OfKind(cs, c.kind);
    OfKindSnoc(cs, c, c.kind);
    OfKindKeepsOnly(cs, c.kind);
    assert c !in before;
    assert forall p :: 0 <= p < |before| ==> (before + [c])[p] == before[p];
  }

  /** The value of what a holder holds: nothing, or the key of its type. */
  function KeyOf(t: PotentialType?): Option<TypeKey>
    reads t
  {
    if t == null then None else Some(t.Key())
  }

  /** The keys of the present values, in order. */
  function Present(ks: seq<Option<TypeKey>>): (r: seq<TypeKey>)
    ensures forall i :: 0 <= i < |ks| && ks[i].Some? ==> ks[i].value in r
  {
    if ks == [] then []
    else
      var init := ks[..|ks| - 1];
      assert forall i :: 0 <= i < |init| ==> init[i] == ks[i];
      match ks[|ks| - 1]
      case None => Present(init)
      case Some(k) => Present(init) + [k]
  }

  /** Only present values are kept. */
  lemma {:induction false} PresentKeepsOnly(ks: seq<Option<TypeKey>>)
    ensures forall j :: 0 <= j < |Present(ks)| ==> Some(Present(ks)[j]) in ks
  {
    if ks != [] {
      var init := ks[..|ks| - 1];
      PresentKeepsOnly(init);
      assert forall k :: k in init ==> k in ks;
    }
  }

  lemma PresentSnoc(ks: seq<Option<TypeKey>>, k: Option<TypeKey>)
    ensures Present(ks + [k]) == if k.Some? then Present(ks) + [k.value] else Present(ks)
  {
    assert (ks + [k])[..|ks|] == ks;
  }

  /** What each site holds, by value, in site order. */
  function SiteTypeKeys(ss: seq<Site>): (ks: seq<Option<TypeKey>>)
    reads ss, set s | s in ss :: s.atomType
    ensures |ks| == |ss|
    ensures forall i :: 0 <= i < |ss| ==> ks[i] == KeyOf(ss[i].atomType)
  {
    seq(|ss|, i requires 0 <= i < |ss| reads ss, set s | s in ss :: s.atomType => KeyOf(ss[i].atomType))
  }

  /** What each connection holds, by value, in connection order. */
  function ConnectionTypeKeys(cs: seq<Connection>): (ks: seq<Option<TypeKey>>)
    reads cs, set c | c in cs :: c.connectionType
    ensures |ks| == |cs|
    ensures forall i :: 0 <= i < |cs| ==> ks[i] == KeyOf(cs[i].connectionType)
  {
    seq(|cs|, i requires 0 <= i < |cs| reads cs, set c | c in cs :: c.connectionType => KeyOf(cs[i].connectionType))
  }

  /** Re-pointing connections at equal values keeps each one's type in its own class. */
  twostate lemma OwnClassesKept(cs: seq<Connection>)
    requires ConnectionTypeKeys(cs) == old(ConnectionTypeKeys(cs))
    ensures OwnClasses(cs) == old(OwnClasses(cs))
  {
    forall i | 0 <= i < |cs|
      ensures cs[i].OwnClass() == old(cs[i].OwnClass())
    {
      assert KeyOf(cs[i].connectionType) == old(KeyOf(cs[i].connectionType));
    }
  }

  /** The AtomType object each site points at, in site order. */
  function HeldAtomTypes(ss: seq<Site>): (held: seq<PotentialType?>)
    reads ss
    ensures |held| == |ss| && forall i :: 0 <= i < |ss| ==> held[i] == ss[i].atomType
  {
    seq(|ss|, i requires 0 <= i < |ss| reads ss => ss[i].atomType)
  }

  /** The type object each connection points at, in connection order. */
  function HeldConnectionTypes(cs: seq<Connection>): (held: seq<PotentialType?>)
    reads cs
    ensures |held| == |cs| && forall i :: 0 <= i < |cs| ==> held[i] == cs[i].connectionType
  {
    seq(|cs|, i requires 0 <= i < |cs| reads cs => cs[i].connectionType)
  }


  /** The two combining rules for Lennard-Jones parameters. */
  datatype CombiningRule = Lorentz | Geometric

  function RuleName(r: CombiningRule): string {
    match r
    case Lorentz => "lorentz"
    case Geometric => "geometric"
  }

  /** Reads a combining rule; only "lorentz" and "geometric" are accepted. */
  function ParseCombiningRule(s: string): (r: Result<CombiningRule>)
    ensures r.Success? <==> s == "lorentz" || s == "geometric"
    ensures r.Success? ==> RuleName(r.value) == s
    ensures r.Failure? ==> r.error == GMSOError
  {
    if s == "lorentz" then Success(Lorentz)
    else if s == "geometric" then Success(Geometric)
    else Failure(GMSOError)
  }

  /** Every rule reads back from its own name. */
  lemma ParseRuleName(r: CombiningRule)
    ensures ParseCombiningRule(RuleName(r)) == Success(r)
  {
    match r
    case Lorentz =>
    case Geometric =>
      assert "geometric" != "lorentz" by {
        assert "geometric"[0] != "lorentz"[0];
      }
  }

  /** The value key of a pair potential: the unordered pair of its AtomTypes' values. */
  function PairKey(a: PotentialType, b: PotentialType): (k: set<TypeKey>)
    reads a, b
    ensures a.Key() in k && b.Key() in k
    ensures forall x :: x in k ==> x == a.Key() || x == b.Key()
  {
    {a.Key(), b.Key()}
  }

  /** The key `remove_pairpotentialtype` looks up: the values of the listed AtomTypes. */
  function KeySet(ts: seq<PotentialType>): (k: set<TypeKey>)
    reads ts
    ensures forall i :: 0 <= i < |ts| ==> ts[i].Key() in k
  {
    set i | 0 <= i < |ts| :: ts[i].Key()
  }

  /** The order of the AtomTypes of a pair does not matter. */
  lemma PairKeyUnordered(a: PotentialType, b: PotentialType)
    ensures PairKey(a, b) == PairKey(b, a) == KeySet([a, b])
  {
    var ks := KeySet([a, b]);
    assert [a, b][0] == a && [a, b][1] == b;
    forall x | x in ks
      ensures x == a.Key() || x == b.Key()
    {
      var i :| 0 <= i < 2 && [a, b][i].Key() == x;
    }
    assert ks == PairKey(a, b);
  }

  /**
   * The structural invariant of a topology's contents: sites and
   * sub-topologies are ordered sets, no two connections are equivalent, and
   * every member of a connection is one of the sites.
   */
  ghost predicate WellFormed(sites: seq<Site>, subtops: seq<SubTopology>, connections: seq<Connection>) {
    && Distinct(sites)
    && Distinct(subtops)
    && (forall i, j :: 0 <= i < j < |connections| ==> !Equivalent(connections[i], connections[j]))
    && (forall i, m :: 0 <= i < |connections| && m in connections[i].members ==> m in sites)
  }

  /** What `get_index` accepts; anything else is `OtherMember`. */
  datatype Member =
    | SiteMember(site: Site)
    | ConnectionMember(connection: Connection)
    | TypeMember(potential: PotentialType)
    | OtherMember

  class SubTopology {
    var name: string
    var parent: Topology?

    constructor (name: string)
      ensures this.name == name && parent == null
    {
      this.name := name;
      parent := null;
    }
  }

  class Topology {
    var name: string
    /** The sites, in insertion order, each once. */
    var sites: seq<Site>
    /** All connections, in insertion order, no two equivalent. */
    var connections: seq<Connection>
    var subtops: seq<SubTopology>
    /** The AtomType registry. */
    var atomTypes: seq<PotentialType>
    /** The registry of bonded types; `Registry` gives the per-class views. */
    var connectionTypes: seq<PotentialType>
    /** The pair potentials, keyed by the unordered pair of their AtomTypes' values. */
    var pairPotentialTypes: map<set<TypeKey>, PairPotentialType>
    var combiningRule: CombiningRule
    /** A plain flag; see `IsTyped` for what the members actually hold. */
    var typed: bool

    constructor (name: string := "Topology")
      ensures this.name == name
      ensures sites == [] && connections == [] && subtops == []
      ensures atomTypes == [] && connectionTypes == [] && pairPotentialTypes == map[]
      ensures combiningRule == Lorentz && !typed && !IsTyped()
      ensures Valid() && RegistriesDistinct()
    {
      this.name := name;
      sites := [];
      connections := [];
      subtops := [];
      atomTypes := [];
      connectionTypes := [];
      pairPotentialTypes := map[];
      combiningRule := Lorentz;
      typed := false;
    }

    /** The structural invariant, `WellFormed`, of this topology's contents. */
    ghost predicate Valid()
      reads this`sites, this`subtops, this`connections
    {
      WellFormed(sites, subtops, connections)
    }

    /**
     * The registry invariant: no two entries of a registry are value-equal,
     * and each registry holds only its own family of types.
     */
    ghost predicate RegistriesDistinct()
      reads this`atomTypes, this`connectionTypes, atomTypes, connectionTypes
    {
      && Distinct(KeysOf(atomTypes))
      && Distinct(KeysOf(connectionTypes))
      && (forall i :: 0 <= i < |atomTypes| ==> atomTypes[i].kind == AtomTypeKind)
      && (forall i :: 0 <= i < |connectionTypes| ==> connectionTypes[i].kind != AtomTypeKind)
    }

    /** The registry a type of class `k` is looked up in. */
    function Registry(k: TypeKind): (reg: seq<PotentialType>)
      reads this
      ensures k == AtomTypeKind ==> reg == atomTypes
      ensures k != AtomTypeKind ==> forall i :: 0 <= i < |reg| ==> reg[i].kind == k && reg[i] in connectionTypes
      ensures k != AtomTypeKind ==>
        forall i :: 0 <= i < |connectionTypes| && connectionTypes[i].kind == k ==> connectionTypes[i] in reg
    {
      if k == AtomTypeKind then atomTypes
      else
        OfTypeKindKeepsOnly(connectionTypes, k);
        OfTypeKind(connectionTypes, k)
    }

    /** The connections of one kind: `bonds`, `angles`, `dihedrals`, `impropers`. */
    function ConnectionsOf(k: ConnectionKind): seq<Connection>
      reads this
    {
      OfKind(connections, k)
    }

    /** Whether any current site or connection actually holds a type. */
    predicate IsTyped()
      reads this, sites, connections
    {
      || (exists i :: 0 <= i < |sites| && sites[i].atomType != null)
      || (exists i :: 0 <= i < |connections| && connections[i].connectionType != null)
    }

    /** The `typed` setter: a plain flag, independent of what the members hold. */
    method SetTyped(value: bool)
      modifies this`typed
      ensures typed == value
      ensures IsTyped() == old(IsTyped())
    {
      typed := value;
    }

    /**
     * Adds `site` unless it is already there. With `updateTypes`, a typed
     * site's AtomType is folded into the registry, the site is re-pointed at
     * the registry's entry for that value, and the `typed` flag is raised.
     */
    method AddSite(site: Site, updateTypes: bool := true)
      requires Valid() && RegistriesDistinct()
      modifies this`sites, this`atomTypes, this`typed, site`atomType
      ensures Valid() && RegistriesDistinct()
      ensures sites == Absorb(old(sites), site)
      ensures !updateTypes || old(site.atomType) == null ==>
        atomTypes == old(atomTypes) && site.atomType == old(site.atomType) && typed == old(typed)
      ensures updateTypes && old(site.atomType) != null ==>
        && KeysOf(atomTypes) == Absorb(old(KeysOf(atomTypes)), old(site.atomType.Key()))
        && site.atomType != null && site.atomType in atomTypes
        && site.atomType.Key() == old(site.atomType.Key())
        && (atomTypes == old(atomTypes) || atomTypes == old(atomTypes) + [old(site.atomType)])
        && typed
        && IsTyped()
    {
      if updateTypes && site.atomType != null {
        RegisterAtomType(site);
        typed := true;
      }
      sites := Absorb(sites, site);
    }

    /**
     * Folds the AtomType `site` holds into the AtomType registry and
     * re-points the site at the registry's entry for that value.
     */
    method RegisterAtomType(site: Site)
      requires RegistriesDistinct() && site.atomType != null
      modifies this`atomTypes, site`atomType
      ensures RegistriesDistinct()
      ensures KeysOf(atomTypes) == Absorb(old(KeysOf(atomTypes)), old(site.atomType.Key()))
      ensures site.atomType != null && site.atomType in atomTypes
      ensures site.atomType.Key() == old(site.atomType.Key())
      ensures atomTypes == old(atomTypes) || atomTypes == old(atomTypes) + [old(site.atomType)]
    {
      var res := Fold(atomTypes, site.atomType);
      atomTypes := res.0;
      site.atomType := res.1;
    }

    /**
     * Adds `c`, first appending any of its members that are not sites yet.
     * When an equivalent connection is already present, that one is kept and
     * returned; otherwise `c` is appended and returned. With `updateTypes`,
     * the returned connection's type is folded into the registry and the
     * connection re-pointed at the registry's entry. Member sites are
     * appended as they are: their AtomTypes are not folded.
     */
    method AddConnection(c: Connection, updateTypes: bool := true) returns (stored: Connection)
      requires Valid() && RegistriesDistinct()
      modifies this`sites, this`connections, this`connectionTypes, connections`connectionType, c`connectionType
      ensures Valid() && RegistriesDistinct()
      ensures sites == AbsorbAll(old(sites), c.members)
      ensures Equivalent(stored, c) && stored in connections
      ensures FindEquivalent(old(connections), c).None? ==>
        connections == old(connections) + [c] && stored == c
      ensures FindEquivalent(old(connections), c).Some? ==>
        connections == old(connections) && stored == old(connections)[FindEquivalent(old(connections), c).value]
      ensures forall i :: 0 <= i < |old(connections)| && connections[i] != stored ==>
        connections[i].connectionType == old(connections[i].connectionType)
      ensures stored != c ==> c.connectionType == old(c.connectionType)
      ensures !updateTypes || old(stored.connectionType) == null ==>
        connectionTypes == old(connectionTypes) && stored.connectionType == old(stored.connectionType)
      ensures updateTypes && old(stored.connectionType) != null ==>
        && KeysOf(connectionTypes) == Absorb(old(KeysOf(connectionTypes)), old(stored.connectionType.Key()))
        && stored.connectionType != null && stored.connectionType in connectionTypes
        && stored.connectionType.Key() == old(stored.connectionType.Key())
        && (connectionTypes == old(connectionTypes) || connectionTypes == old(connectionTypes) + [old(stored.connectionType)])
      ensures old(OwnClasses(connections + [c])) ==> OwnClasses(connections)
    {
      var found := FindEquivalent(connections, c);
      stored := if found.Some? then connections[found.value] else c;
      ghost var candidates := connections + [c];
      ghost var own := OwnClasses(candidates);
      if updateTypes && stored.connectionType != null {
        RegisterConnectionType(stored, candidates);
      }
      PlaceConnection(c, found);
      if own && found.Some? {
        assert forall i :: 0 <= i < |connections| ==> connections[i] == candidates[i];
      }
    }

    /** The structural half of `AddConnection`: the member sites, then `c` unless `found`. */
    method PlaceConnection(c: Connection, found: Option<nat>)
      requires Valid() && RegistriesDistinct()
      requires found == FindEquivalent(connections, c)
      modifies this`sites, this`connections
      ensures Valid() && RegistriesDistinct()
      ensures sites == AbsorbAll(old(sites), c.members)
      ensures found.None? ==> connections == old(connections) + [c]
      ensures found.Some? ==> connections == old(connections)
    {
      AbsorbSites(c.members);
      if found.None? {
        AppendConnection(c);
      }
    }

    /** Appends a connection no present one is equivalent to, over present sites. */
    method AppendConnection(c: Connection)
      requires Valid() && RegistriesDistinct()
      requires forall i :: 0 <= i < |connections| ==> !Equivalent(connections[i], c)
      requires forall m :: m in c.members ==> m in sites
      modifies this`connections
      ensures Valid() && RegistriesDistinct()
      ensures connections == old(connections) + [c]
    {
      connections := connections + [c];
    }

    /** Appends, in order, those of `ss` that are not sites yet. */
    method AbsorbSites(ss: seq<Site>)
      requires Distinct(sites) && RegistriesDistinct()
      modifies this`sites
      ensures RegistriesDistinct()
      ensures sites == AbsorbAll(old(sites), ss)
      ensures Distinct(sites)
      ensures forall m :: m in old(sites) || m in ss ==> m in sites
    {
      for j := 0 to |ss|
        invariant sites == AbsorbAll(old(sites), ss[..j])
        invariant Distinct(sites)
      {
        assert ss[..j + 1][..j] == ss[..j];
        sites := Absorb(sites, ss[j]);
      }
      assert ss[..|ss|] == ss;
    }

    /**
     * Folds the type connection `c` holds into the registry of bonded types
     * and re-points the connection at the registry's entry for that value.
     */
    method RegisterConnectionType(c: Connection, ghost within: seq<Connection>)
      requires RegistriesDistinct() && c.connectionType != null
      modifies this`connectionTypes, c`connectionType
      ensures RegistriesDistinct()
      ensures KeysOf(connectionTypes) == Absorb(old(KeysOf(connectionTypes)), old(c.connectionType.Key()))
      ensures c.connectionType != null && c.connectionType in connectionTypes
      ensures c.connectionType.Key() == old(c.connectionType.Key())
      ensures connectionTypes == old(connectionTypes) || connectionTypes == old(connectionTypes) + [old(c.connectionType)]
      ensures old(OwnClasses(within)) ==> OwnClasses(within)
    {
      var res := Fold(connectionTypes, c.connectionType);
      connectionTypes := res.0;
      c.connectionType := res.1;
    }

    /**
     * Rebuilds the AtomType registry from the current sites: the distinct
     * values the sites hold, in the order a scan over the sites first
     * meets them. Every typed site is re-pointed at the registry's entry for
     * its value, so sites holding equal values afterwards share one object.
     */
    method UpdateAtomTypes()
      requires Distinct(sites)
      modifies this`atomTypes, sites`atomType
      ensures SiteTypeKeys(sites) == old(SiteTypeKeys(sites))
      ensures KeysOf(atomTypes) == Dedup(Present(SiteTypeKeys(sites)))
      ensures Distinct(KeysOf(atomTypes))
      ensures forall i :: 0 <= i < |sites| && sites[i].atomType != null ==> sites[i].atomType in atomTypes
      ensures forall k :: 0 <= k < |atomTypes| ==>
        atomTypes[k].kind == AtomTypeKind && exists i :: 0 <= i < |sites| && sites[i].atomType == atomTypes[k]
      ensures forall i, j ::
        (0 <= i < |sites| && 0 <= j < |sites| && sites[i].atomType != null &&
         sites[j].atomType != null && sites[i].atomType.Key() == sites[j].atomType.Key()) ==>
          sites[i].atomType == sites[j].atomType
      ensures SharesRegistry(HeldAtomTypes(sites), SiteTypeKeys(sites), atomTypes)
    {
      ghost var keys := SiteTypeKeys(sites);
      var reg := ScanSites(keys);
      SiteTypeKeysAre(sites, keys);
      InstallAtomTypes(reg, keys);
    }

    /**
     * Makes `reg`, the scan of the values `keys` the sites hold, the
     * AtomType registry; the values the sites hold are untouched.
     */
    method InstallAtomTypes(reg: seq<PotentialType>, ghost keys: seq<Option<TypeKey>>)
      requires |keys| == |sites|
      requires forall i :: 0 <= i < |sites| ==> KeyOf(sites[i].atomType) == keys[i]
      requires KeysOf(reg) == Dedup(Present(keys))
      requires forall i :: 0 <= i < |sites| && sites[i].atomType != null ==> sites[i].atomType in reg
      modifies this`atomTypes
      ensures SiteTypeKeys(sites) == keys
      ensures KeysOf(atomTypes) == Dedup(Present(keys))
      ensures Distinct(KeysOf(atomTypes))
      ensures forall i :: 0 <= i < |sites| && sites[i].atomType != null ==> sites[i].atomType in atomTypes
      ensures forall k :: 0 <= k < |atomTypes| ==>
        atomTypes[k].kind == AtomTypeKind && exists i :: 0 <= i < |sites| && sites[i].atomType == atomTypes[k]
      ensures forall i, j ::
        (0 <= i < |sites| && 0 <= j < |sites| && sites[i].atomType != null &&
         sites[j].atomType != null && sites[i].atomType.Key() == sites[j].atomType.Key()) ==>
          sites[i].atomType == sites[j].atomType
      ensures SharesRegistry(HeldAtomTypes(sites), SiteTypeKeys(sites), atomTypes)
    {
      atomTypes := reg;
      KeysKept(reg);
      SiteTypeKeysKept(sites);
      SitesHoldEntries(atomTypes, sites, keys);
      SharedRepresentatives(atomTypes, sites);
      SitesShareRegistry(atomTypes, sites);
    }

    /**
     * The scan of the AtomType rebuild: visits every site in order and
     * returns the distinct values the sites hold, in first-seen order,
     * with every typed site re-pointed at the entry for its value.
     */
    method ScanSites(ghost keys: seq<Option<TypeKey>>) returns (reg: seq<PotentialType>)
      requires Distinct(sites) && |keys| == |sites|
      requires forall i :: 0 <= i < |sites| ==> KeyOf(sites[i].atomType) == keys[i]
      modifies sites`atomType
      ensures forall i :: 0 <= i < |sites| ==> KeyOf(sites[i].atomType) == keys[i]
      ensures KeysOf(reg) == Dedup(Present(keys))
      ensures forall i :: 0 <= i < |sites| && sites[i].atomType != null ==> sites[i].atomType in reg
    {
      reg := [];
      for n := 0 to |sites|
        invariant forall i :: 0 <= i < |sites| ==> KeyOf(sites[i].atomType) == keys[i]
        invariant KeysOf(reg) == Dedup(Present(keys[..n]))
        invariant forall i :: 0 <= i < n && sites[i].atomType != null ==> sites[i].atomType in reg
      {
        reg := ScanSite(n, sites[n], reg, keys);
      }
      assert keys[..|sites|] == keys;
    }

    /**
     * Visits site `n` of the AtomType rebuild: folds the value it holds into
     * `reg`, the distinct values of the sites before it in first-seen
     * order, and re-points the site at the entry for that value.
     */
    method ScanSite(n: nat, s: Site, reg: seq<PotentialType>, ghost keys: seq<Option<TypeKey>>)
      returns (r: seq<PotentialType>)
      requires Distinct(sites) && n < |sites| == |keys| && s == sites[n]
      requires forall i :: 0 <= i < |sites| ==> KeyOf(sites[i].atomType) == keys[i]
      requires KeysOf(reg) == Dedup(Present(keys[..n]))
      requires forall i :: 0 <= i < n && sites[i].atomType != null ==> sites[i].atomType in reg
      modifies s`atomType
      ensures forall i :: 0 <= i < |sites| ==> KeyOf(sites[i].atomType) == keys[i]
      ensures KeysOf(r) == Dedup(Present(keys[..n + 1]))
      ensures forall i :: 0 <= i < n + 1 && sites[i].atomType != null ==> sites[i].atomType in r
    {
      ghost var before := KeysOf(reg);
      r := VisitSite(reg, s);
      ScanKeysStep(keys, n, before, KeysOf(r));
      forall i | 0 <= i < |sites|
        ensures KeyOf(sites[i].atomType) == keys[i]
        ensures i < n + 1 && sites[i].atomType != null ==> sites[i].atomType in r
      {
        if i != n {
          assert sites[i] != s;
          assert sites[i].atomType == old(sites[i].atomType);
          assert i < n && sites[i].atomType != null ==> sites[i].atomType in reg;
        }
      }
    }

    /**
     * Rebuilds the registry of bonded types from the current connections,
     * in the same way `UpdateAtomTypes` rebuilds the AtomType registry.
     */
    method UpdateConnectionTypes()
      requires Distinct(connections)
      modifies this`connectionTypes, connections`connectionType
      ensures ConnectionTypeKeys(connections) == old(ConnectionTypeKeys(connections))
      ensures KeysOf(connectionTypes) == Dedup(Present(ConnectionTypeKeys(connections)))
      ensures Distinct(KeysOf(connectionTypes))
      ensures forall i :: 0 <= i < |connections| && connections[i].connectionType != null ==>
        connections[i].connectionType in connectionTypes
      ensures forall k :: 0 <= k < |connectionTypes| ==>
        connectionTypes[k].kind != AtomTypeKind &&
        exists i :: 0 <= i < |connections| && connections[i].connectionType == connectionTypes[k]
      ensures forall i, j ::
        (0 <= i < |connections| && 0 <= j < |connections| && connections[i].connectionType != null &&
         connections[j].connectionType != null &&
         connections[i].connectionType.Key() == connections[j].connectionType.Key()) ==>
          connections[i].connectionType == connections[j].connectionType
      ensures SharesRegistry(HeldConnectionTypes(connections), ConnectionTypeKeys(connections), connectionTypes)
    {
      ghost var keys := ConnectionTypeKeys(connections);
      var reg := ScanConnections(keys);
      ConnectionTypeKeysAre(connections, keys);
      InstallConnectionTypes(reg, keys);
    }

    /**
     * Makes `reg`, the scan of the values `keys` the connections hold, the
     * registry of bonded types; the values the connections hold are
     * untouched.
     */
    method InstallConnectionTypes(reg: seq<PotentialType>, ghost keys: seq<Option<TypeKey>>)
      requires |keys| == |connections|
      requires forall i :: 0 <= i < |connections| ==> KeyOf(connections[i].connectionType) == keys[i]
      requires KeysOf(reg) == Dedup(Present(keys))
      requires forall i :: 0 <= i < |connections| && connections[i].connectionType != null ==>
        connections[i].connectionType in reg
      modifies this`connectionTypes
      ensures ConnectionTypeKeys(connections) == keys
      ensures KeysOf(connectionTypes) == Dedup(Present(keys))
      ensures Distinct(KeysOf(connectionTypes))
      ensures forall i :: 0 <= i < |connections| && connections[i].connectionType != null ==>
        connections[i].connectionType in connectionTypes
      ensures forall k :: 0 <= k < |connectionTypes| ==>
        connectionTypes[k].kind != AtomTypeKind &&
        exists i :: 0 <= i < |connections| && connections[i].connectionType == connectionTypes[k]
      ensures forall i, j ::
        (0 <= i < |connections| && 0 <= j < |connections| && connections[i].connectionType != null &&
         connections[j].connectionType != null &&
         connections[i].connectionType.Key() == connections[j].connectionType.Key()) ==>
          connections[i].connectionType == connections[j].connectionType
      ensures SharesRegistry(HeldConnectionTypes(connections), ConnectionTypeKeys(connections), connectionTypes)
    {
      connectionTypes := reg;
      KeysKept(reg);
      ConnectionTypeKeysKept(connections);
      ConnectionsHoldEntries(connectionTypes, connections, keys);
      ConnectionsShareRepresentatives(connectionTypes, connections);
      ConnectionsShareRegistry(connectionTypes, connections);
    }

    /** The scan of the bonded-type rebuild, over the connections in order. */
    method ScanConnections(ghost keys: seq<Option<TypeKey>>) returns (reg: seq<PotentialType>)
      requires Distinct(connections) && |keys| == |connections|
      requires forall i :: 0 <= i < |connections| ==> KeyOf(connections[i].connectionType) == keys[i]
      modifies connections`connectionType
      ensures forall i :: 0 <= i < |connections| ==> KeyOf(connections[i].connectionType) == keys[i]
      ensures KeysOf(reg) == Dedup(Present(keys))
      ensures forall i :: 0 <= i < |connections| && connections[i].connectionType != null ==>
        connections[i].connectionType in reg
    {
      reg := [];
      for n := 0 to |connections|
        invariant forall i :: 0 <= i < |connections| ==> KeyOf(connections[i].connectionType) == keys[i]
        invariant KeysOf(reg) == Dedup(Present(keys[..n]))
        invariant forall i :: 0 <= i < n && connections[i].connectionType != null ==>
          connections[i].connectionType in reg
      {
        reg := ScanConnection(n, connections[n], reg, keys);
      }
      assert keys[..|connections|] == keys;
    }

    /** Visits connection `n` of the bonded-type rebuild, as `ScanSite` visits a site. */
    method ScanConnection(n: nat, c: Connection, reg: seq<PotentialType>, ghost keys: seq<Option<TypeKey>>)
      returns (r: seq<PotentialType>)
      requires Distinct(connections) && n < |connections| == |keys| && c == connections[n]
      requires forall i :: 0 <= i < |connections| ==> KeyOf(connections[i].connectionType) == keys[i]
      requires KeysOf(reg) == Dedup(Present(keys[..n]))
      requires forall i :: 0 <= i < n && connections[i].connectionType != null ==>
        connections[i].connectionType in reg
      modifies c`connectionType
      ensures forall i :: 0 <= i < |connections| ==> KeyOf(connections[i].connectionType) == keys[i]
      ensures KeysOf(r) == Dedup(Present(keys[..n + 1]))
      ensures forall i :: 0 <= i < n + 1 && connections[i].connectionType != null ==>
        connections[i].connectionType in r
    {
      ghost var before := KeysOf(reg);
      r := VisitConnection(reg, c);
      ScanKeysStep(keys, n, before, KeysOf(r));
      forall i | 0 <= i < |connections|
        ensures KeyOf(connections[i].connectionType) == keys[i]
        ensures i < n + 1 && connections[i].connectionType != null ==> connections[i].connectionType in r
      {
        if i != n {
          assert connections[i] != c;
          assert connections[i].connectionType == old(connections[i].connectionType);
          assert i < n && connections[i].connectionType != null ==> connections[i].connectionType in reg;
        }
      }
    }

    /**
     * Rebuilds every registry, as `UpdateAtomTypes` and
     * `UpdateConnectionTypes` do; afterwards holders of equal values share
     * one object, and the registries are empty exactly when nothing is typed.
     */
    method UpdateTopology()
      requires Valid()
      modifies this`atomTypes, this`connectionTypes, sites`atomType, connections`connectionType
      ensures Valid() && RegistriesDistinct()
      ensures SiteTypeKeys(sites) == old(SiteTypeKeys(sites))
      ensures ConnectionTypeKeys(connections) == old(ConnectionTypeKeys(connections))
      ensures KeysOf(atomTypes) == Dedup(Present(SiteTypeKeys(sites)))
      ensures KeysOf(connectionTypes) == Dedup(Present(ConnectionTypeKeys(connections)))
      ensures IsTyped() <==> atomTypes != [] || connectionTypes != []
      ensures SharesRegistry(HeldAtomTypes(sites), SiteTypeKeys(sites), atomTypes)
      ensures SharesRegistry(HeldConnectionTypes(connections), ConnectionTypeKeys(connections), connectionTypes)
      ensures OwnClasses(connections) == old(OwnClasses(connections))
    {
      UpdateAtomTypes();
      assert Valid();
      ConnectionTypeKeysKept(connections);
      FinishUpdate();
      OwnClassesKept(connections);
    }

    /** The second half of `UpdateTopology`: the bonded types, once the AtomTypes are current. */
    method FinishUpdate()
      requires Valid()
      requires Distinct(KeysOf(atomTypes)) && forall i :: 0 <= i < |atomTypes| ==> atomTypes[i].kind == AtomTypeKind
      requires KeysOf(atomTypes) == Dedup(Present(SiteTypeKeys(sites)))
      modifies this`connectionTypes, connections`connectionType
      ensures Valid() && RegistriesDistinct()
      ensures SiteTypeKeys(sites) == old(SiteTypeKeys(sites))
      ensures ConnectionTypeKeys(connections) == old(ConnectionTypeKeys(connections))
      ensures KeysOf(atomTypes) == Dedup(Present(SiteTypeKeys(sites)))
      ensures KeysOf(connectionTypes) == Dedup(Present(ConnectionTypeKeys(connections)))
      ensures IsTyped() <==> atomTypes != [] || connectionTypes != []
      ensures HeldAtomTypes(sites) == old(HeldAtomTypes(sites))
      ensures SharesRegistry(HeldConnectionTypes(connections), ConnectionTypeKeys(connections), connectionTypes)
    {
      WellFormedConnectionsDistinct(sites, subtops, connections);
      UpdateConnectionTypes();
      SiteTypeKeysKept(sites);
      KeysKept(atomTypes);
      TypedByKeys();
      ScanFindsAny(SiteTypeKeys(sites));
      ScanFindsAny(ConnectionTypeKeys(connections));
    }

    /** `IsTyped`, read off the values the sites and connections hold. */
    lemma TypedByKeys()
      ensures IsTyped() <==>
        (exists i :: 0 <= i < |sites| && SiteTypeKeys(sites)[i].Some?) ||
        (exists i :: 0 <= i < |connections| && ConnectionTypeKeys(connections)[i].Some?)
    {
      var siteKeys, connectionKeys := SiteTypeKeys(sites), ConnectionTypeKeys(connections);
      if i :| 0 <= i < |sites| && sites[i].atomType != null {
        assert siteKeys[i].Some?;
      }
      if i :| 0 <= i < |connections| && connections[i].connectionType != null {
        assert connectionKeys[i].Some?;
      }
    }

    /**
     * The position of a member: a site in `sites`, a connection among the
     * connections of its kind, a type in the registry of its class (found by
     * value). A member that is not there is a `ValueError`; anything that is
     * not a site, connection or type is a `TypeError`.
     */
    function GetIndex(m: Member): (r: Result<nat>)
      reads this, atomTypes, connectionTypes, if m.TypeMember? then {m.potential} else {}
      ensures m.OtherMember? ==> r == Failure(TypeError)
      ensures r.Failure? && !m.OtherMember? ==> r.error == ValueError
      ensures m.SiteMember? ==>
        (r.Success? <==> m.site in sites) &&
        (r.Success? ==> r.value < |sites| && sites[r.value] == m.site && m.site !in sites[..r.value])
      ensures m.ConnectionMember? ==>
        var cs := ConnectionsOf(m.connection.kind);
        (r.Success? <==> m.connection in cs) &&
        (r.Success? ==> r.value < |cs| && cs[r.value] == m.connection && m.connection !in cs[..r.value])
      ensures m.TypeMember? ==>
        var keys := KeysOf(Registry(m.potential.kind));
        (r.Success? <==> m.potential.Key() in keys) &&
        (r.Success? ==> r.value < |keys| && keys[r.value] == m.potential.Key() && m.potential.Key() !in keys[..r.value])
    {
      match m
      case OtherMember => Failure(TypeError)
      case SiteMember(s) =>
        (match IndexOf(sites, s) case Some(i) => Success(i) case None => Failure(ValueError))
      case ConnectionMember(c) =>
        (match IndexOf(ConnectionsOf(c.kind), c) case Some(i) => Success(i) case None => Failure(ValueError))
      case TypeMember(t) =>
        (match IndexOf(KeysOf(Registry(t.kind)), t.Key()) case Some(i) => Success(i) case None => Failure(ValueError))
    }

    /**
     * Renames a type object. When the object is a registry entry, its
     * registry is re-keyed: the entry leaves its slot and is appended under
     * its new value, unless another entry already holds that value.
     */
    method RenameType(t: PotentialType, newName: string)
      requires RegistriesDistinct()
      modifies t`name, this`atomTypes, this`connectionTypes
      ensures t.name == newName
      ensures RegistriesDistinct()
      ensures forall i :: 0 <= i < |atomTypes| ==> atomTypes[i] in old(atomTypes)
      ensures forall i :: 0 <= i < |connectionTypes| ==> connectionTypes[i] in old(connectionTypes)
      ensures t.kind == AtomTypeKind ==>
        && connectionTypes == old(connectionTypes)
        && KeysOf(atomTypes) == if t in old(atomTypes)
             then Rekeyed(old(KeysOf(atomTypes)), old(t.Key()), t.Key())
             else old(KeysOf(atomTypes))
      ensures t.kind != AtomTypeKind ==>
        && atomTypes == old(atomTypes)
        && KeysOf(connectionTypes) == if t in old(connectionTypes)
             then Rekeyed(old(KeysOf(connectionTypes)), old(t.Key()), t.Key())
             else old(KeysOf(connectionTypes))
    {
      if t.kind == AtomTypeKind {
        atomTypes := Relabel(atomTypes, t, newName);
        KeysKept(connectionTypes);
      } else {
        connectionTypes := Relabel(connectionTypes, t, newName);
        KeysKept(atomTypes);
      }
    }

    /**
     * Stores `pp` under the unordered pair of its AtomTypes' values,
     * replacing what was stored under an equal pair. A pair potential
     * without member types has no key: `TypeError`, nothing stored.
     */
    method AddPairPotentialType(pp: PairPotentialType) returns (o: Outcome)
      modifies this`pairPotentialTypes
      ensures pp.MemberTypes().None? ==>
        o == Fail(TypeError) && pairPotentialTypes == old(pairPotentialTypes)
      ensures pp.MemberTypes().Some? ==>
        var (a, b) := pp.MemberTypes().value;
        o == Pass && pairPotentialTypes == old(pairPotentialTypes)[PairKey(a, b) := pp]
    {
      match pp.MemberTypes()
      case None =>
        o := Fail(TypeError);
      case Some((a, b)) =>
        pairPotentialTypes := pairPotentialTypes[PairKey(a, b) := pp];
        o := Pass;
    }

    /** Drops the entry for the pair of AtomTypes `types`, if there is one. */
    method RemovePairPotentialType(types: seq<PotentialType>)
      modifies this`pairPotentialTypes
      ensures KeySet(types) !in pairPotentialTypes
      ensures pairPotentialTypes == old(pairPotentialTypes) - {KeySet(types)}
    {
      pairPotentialTypes := pairPotentialTypes - {KeySet(types)};
    }

    /** Sets the combining rule by name; any other name is a `GMSOError` and changes nothing. */
    method SetCombiningRule(rule: string) returns (o: Outcome)
      modifies this`combiningRule
      ensures o.Pass? <==> rule == "lorentz" || rule == "geometric"
      ensures o.Pass? ==> RuleName(combiningRule) == rule
      ensures o.Fail? ==> o.error == GMSOError && combiningRule == old(combiningRule)
    {
      match ParseCombiningRule(rule)
      case Success(r) =>
        combiningRule := r;
        o := Pass;
      case Failure(e) =>
        o := Fail(e);
    }

    /** Adds `subtop` unless it is already there, and makes this topology its parent. */
    method AddSubTopology(subtop: SubTopology)
      requires Valid()
      modifies this`subtops, subtop`parent
      ensures Valid()
      ensures subtops == Absorb(old(subtops), subtop)
      ensures subtop.parent == this
    {
      subtops := Absorb(subtops, subtop);
      subtop.parent := this;
    }
  }

  /** One step of the first-occurrence scan over the held values `keys`. */
  lemma ScanKeysStep(keys: seq<Option<TypeKey>>, n: nat, before: seq<TypeKey>, after: seq<TypeKey>)
    requires n < |keys|
    requires before == Dedup(Present(keys[..n]))
    requires after == if keys[n].Some? then Absorb(before, keys[n].value) else before
    ensures after == Dedup(Present(keys[..n + 1]))
  {
    assert keys[..n + 1] == keys[..n] + [keys[n]];
    PresentSnoc(keys[..n], keys[n]);
    if keys[n].Some? {
      DedupSnoc(Present(keys[..n]), keys[n].value);
    }
  }

  /**
   * One step of the AtomType scan: folds the AtomType `s` holds, if any,
   * into `reg` and re-points `s` at the entry for its value.
   */
  method VisitSite(reg: seq<PotentialType>, s: Site) returns (r: seq<PotentialType>)
    modifies s`atomType
    ensures KeyOf(s.atomType) == old(KeyOf(s.atomType))
    ensures old(s.atomType) == null ==> r == reg
    ensures old(s.atomType) != null ==>
      && KeysOf(r) == Absorb(old(KeysOf(reg)), old(s.atomType.Key()))
      && s.atomType in r
      && (r == reg || r == reg + [old(s.atomType)])
  {
    if s.atomType != null {
      var res := Fold(reg, s.atomType);
      r := res.0;
      s.atomType := res.1;
    } else {
      r := reg;
    }
  }

  /** The held values are determined by what each site holds. */
  lemma SiteTypeKeysAre(ss: seq<Site>, keys: seq<Option<TypeKey>>)
    requires |keys| == |ss|
    requires forall i :: 0 <= i < |ss| ==> KeyOf(ss[i].atomType) == keys[i]
    ensures SiteTypeKeys(ss) == keys
  {
  }

  /** The values the sites hold do not change while no site and no type is touched. */
  twostate lemma SiteTypeKeysKept(ss: seq<Site>)
    requires forall i :: 0 <= i < |ss| ==> ss[i].atomType == old(ss[i].atomType)
    requires forall i :: 0 <= i < |ss| && ss[i].atomType != null ==> ss[i].atomType.name == old(ss[i].atomType.name)
    ensures SiteTypeKeys(ss) == old(SiteTypeKeys(ss))
    ensures HeldAtomTypes(ss) == old(HeldAtomTypes(ss))
  {
  }

  /** The values the connections hold do not change while no connection and no type is touched. */
  twostate lemma ConnectionTypeKeysKept(cs: seq<Connection>)
    requires forall i :: 0 <= i < |cs| ==> cs[i].connectionType == old(cs[i].connectionType)
    requires forall i :: 0 <= i < |cs| && cs[i].connectionType != null ==>
      cs[i].connectionType.name == old(cs[i].connectionType.name)
    ensures ConnectionTypeKeys(cs) == old(ConnectionTypeKeys(cs))
    ensures HeldConnectionTypes(cs) == old(HeldConnectionTypes(cs))
  {
  }

  /** A well-formed topology never holds the same connection twice. */
  lemma WellFormedConnectionsDistinct(sites: seq<Site>, subtops: seq<SubTopology>, connections: seq<Connection>)
    requires WellFormed(sites, subtops, connections)
    ensures Distinct(connections)
  {
    forall i, j | 0 <= i < j < |connections| ensures connections[i] != connections[j] {
      assert !Equivalent(connections[i], connections[j]);
    }
  }

  /** A scan finds a value exactly when some holder holds one. */
  lemma ScanFindsAny(keys: seq<Option<TypeKey>>)
    ensures Dedup(Present(keys)) != [] <==> exists i :: 0 <= i < |keys| && keys[i].Some?
  {
    DedupEmpty(Present(keys));
    PresentKeepsOnly(keys);
    if Present(keys) != [] {
      assert Some(Present(keys)[0]) in keys;
    }
  }

  /** Every value the scan keeps was held by some holder. */
  lemma ScannedKeyHeld(keys: seq<Option<TypeKey>>, k: nat)
    requires k < |Dedup(Present(keys))|
    ensures exists i :: 0 <= i < |keys| && keys[i] == Some(Dedup(Present(keys))[k])
  {
    DedupKeepsOnly(Present(keys));
    PresentKeepsOnly(keys);
    assert Some(Dedup(Present(keys))[k]) in keys;
  }

  /**
   * After a rebuild over the sites `ss`, every registry entry is an
   * AtomType some site holds: its value was met in the scan, and the site
   * that held it points at the one entry with that value.
   */
  lemma SitesHoldEntries(reg: seq<PotentialType>, ss: seq<Site>, keys: seq<Option<TypeKey>>)
    requires |keys| == |ss|
    requires forall i :: 0 <= i < |ss| ==> KeyOf(ss[i].atomType) == keys[i]
    requires KeysOf(reg) == Dedup(Present(keys))
    requires forall i :: 0 <= i < |ss| && ss[i].atomType != null ==> ss[i].atomType in reg
    ensures forall k :: 0 <= k < |reg| ==>
      reg[k].kind == AtomTypeKind && exists i :: 0 <= i < |ss| && ss[i].atomType == reg[k]
  {
    forall k | 0 <= k < |reg|
      ensures reg[k].kind == AtomTypeKind && exists i :: 0 <= i < |ss| && ss[i].atomType == reg[k]
    {
      var key := KeysOf(reg)[k];
      ScannedKeyHeld(keys, k);
      var i :| 0 <= i < |keys| && keys[i] == Some(key);
      var t := ss[i].atomType;
      assert t != null && t.Key() == key;
      var p :| 0 <= p < |reg| && reg[p] == t;
      assert KeysOf(reg)[p] == KeysOf(reg)[k];
      assert p == k;
    }
  }

  /** The expressions of the types the holders point at. */
  function HeldExpressions(held: seq<PotentialType?>): set<Expression> {
    set i | 0 <= i < |held| && held[i] != null :: held[i].expression
  }

  /** The expressions of the types of class `k` the holders point at. */
  function HeldClassExpressions(held: seq<PotentialType?>, k: TypeKind): set<Expression> {
    set i | 0 <= i < |held| && held[i] != null && held[i].kind == k :: held[i].expression
  }

  /**
   * After a rebuild, the registry's expressions (the `*_type_expressions`
   * views) are exactly the expressions of the types the holders point at,
   * and there are no more of them than entries.
   */
  lemma RebuiltExpressions(held: seq<PotentialType?>, keys: seq<Option<TypeKey>>, reg: seq<PotentialType>)
    requires SharesRegistry(held, keys, reg)
    ensures Expressions(reg) == HeldExpressions(held)
    ensures |Expressions(reg)| <= |reg|
  {
    forall e | e in HeldExpressions(held) ensures e in Expressions(reg) {
      var i :| 0 <= i < |held| && held[i] != null && held[i].expression == e;
      var k :| 0 <= k < |reg| && reg[k] == held[i];
    }
    forall e | e in Expressions(reg) ensures e in HeldExpressions(held) {
      var k :| 0 <= k < |reg| && reg[k].expression == e;
      var i :| 0 <= i < |held| && held[i] == reg[k];
    }
    ExpressionsBound(reg);
  }

  /**
   * After a rebuild, the expressions of one class's view of the registry
   * (`bond_type_expressions`, `angle_type_expressions`, ...) are exactly
   * the expressions of the types of that class the holders point at.
   */
  lemma RebuiltClassExpressions(held: seq<PotentialType?>, keys: seq<Option<TypeKey>>, reg: seq<PotentialType>, k: TypeKind)
    requires SharesRegistry(held, keys, reg)
    ensures Expressions(OfTypeKind(reg, k)) == HeldClassExpressions(held, k)
  {
    var view := OfTypeKind(reg, k);
    OfTypeKindKeepsOnly(reg, k);
    forall e | e in HeldClassExpressions(held, k) ensures e in Expressions(view) {
      var i :| 0 <= i < |held| && held[i] != null && held[i].kind == k && held[i].expression == e;
      var p :| 0 <= p < |reg| && reg[p] == held[i];
      var q :| 0 <= q < |view| && view[q] == held[i];
    }
    forall e | e in Expressions(view) ensures e in HeldClassExpressions(held, k) {
      var q :| 0 <= q < |view| && view[q].expression == e;
      var p :| 0 <= p < |reg| && reg[p] == view[q];
      var i :| 0 <= i < |held| && held[i] == reg[p];
    }
  }

  /** Each kind of connection is typed by a class of its own. */
  lemma TypeKindOfInjective(k: ConnectionKind, l: ConnectionKind)
    ensures TypeKindOf(k) == TypeKindOf(l) ==> k == l
  {
  }

  /**
   * After a rebuild, when every connection holds a type of its own class,
   * the view of one class (`bond_type_expressions` for `Bond`, ...) holds
   * exactly the expressions of the types the connections of that kind hold.
   */
  lemma RebuiltKindExpressions(cs: seq<Connection>, keys: seq<Option<TypeKey>>, reg: seq<PotentialType>, k: ConnectionKind)
    requires SharesRegistry(HeldConnectionTypes(cs), keys, reg)
    requires OwnClasses(cs)
    ensures Expressions(OfTypeKind(reg, TypeKindOf(k))) ==
      set i | 0 <= i < |cs| && cs[i].kind == k && cs[i].connectionType != null :: cs[i].connectionType.expression
  {
    var held := HeldConnectionTypes(cs);
    RebuiltClassExpressions(held, keys, reg, TypeKindOf(k));
    forall i | 0 <= i < |cs| && held[i] != null
      ensures held[i].kind == TypeKindOf(k) <==> cs[i].kind == k
    {
      assert cs[i].OwnClass();
      TypeKindOfInjective(cs[i].kind, k);
    }
  }

  /** One step of the bonded-type scan, as `VisitSite` is for sites. */
  method VisitConnection(reg: seq<PotentialType>, c: Connection) returns (r: seq<PotentialType>)
    modifies c`connectionType
    ensures KeyOf(c.connectionType) == old(KeyOf(c.connectionType))
    ensures old(c.connectionType) == null ==> r == reg
    ensures old(c.connectionType) != null ==>
      && KeysOf(r) == Absorb(old(KeysOf(reg)), old(c.connectionType.Key()))
      && c.connectionType in r
      && (r == reg || r == reg + [old(c.connectionType)])
  {
    if c.connectionType != null {
      var res := Fold(reg, c.connectionType);
      r := res.0;
      c.connectionType := res.1;
    } else {
      r := reg;
    }
  }

  lemma ConnectionTypeKeysAre(cs: seq<Connection>, keys: seq<Option<TypeKey>>)
    requires |keys| == |cs|
    requires forall i :: 0 <= i < |cs| ==> KeyOf(cs[i].connectionType) == keys[i]
    ensures ConnectionTypeKeys(cs) == keys
  {
  }

  /** Every entry of the rebuilt bonded-type registry is a type some connection holds. */
  lemma ConnectionsHoldEntries(reg: seq<PotentialType>, cs: seq<Connection>, keys: seq<Option<TypeKey>>)
    requires |keys| == |cs|
    requires forall i :: 0 <= i < |cs| ==> KeyOf(cs[i].connectionType) == keys[i]
    requires KeysOf(reg) == Dedup(Present(keys))
    requires forall i :: 0 <= i < |cs| && cs[i].connectionType != null ==> cs[i].connectionType in reg
    ensures forall k :: 0 <= k < |reg| ==>
      reg[k].kind != AtomTypeKind && exists i :: 0 <= i < |cs| && cs[i].connectionType == reg[k]
  {
    forall k | 0 <= k < |reg|
      ensures reg[k].kind != AtomTypeKind && exists i :: 0 <= i < |cs| && cs[i].connectionType == reg[k]
    {
      var key := KeysOf(reg)[k];
      ScannedKeyHeld(keys, k);
      var i :| 0 <= i < |keys| && keys[i] == Some(key);
      var t := cs[i].connectionType;
      assert t != null && t.Key() == key;
      var p :| 0 <= p < |reg| && reg[p] == t;
      assert KeysOf(reg)[p] == KeysOf(reg)[k];
      assert p == k;
    }
  }

  /**
   * How a rebuild leaves holders against their registry `reg`, where
   * holder i points at `held[i]` and holds the value `keys[i]`: every
   * holder that holds a type points at an entry, every entry is pointed at
   * by some holder, and holders of equal values point at one object.
   */
  ghost predicate SharesRegistry(held: seq<PotentialType?>, keys: seq<Option<TypeKey>>, reg: seq<PotentialType>) {
    && |held| == |keys|
    && (forall i :: 0 <= i < |held| && held[i] != null ==> held[i] in reg)
    && (forall k :: 0 <= k < |reg| ==> exists i :: 0 <= i < |held| && held[i] == reg[k])
    && (forall i, j :: 0 <= i < |held| && 0 <= j < |held| && keys[i].Some? && keys[i] == keys[j] ==> held[i] == held[j])
  }

  /** The facts a rebuild establishes about the sites, read as `SharesRegistry`. */
  lemma SitesShareRegistry(reg: seq<PotentialType>, ss: seq<Site>)
    requires forall i :: 0 <= i < |ss| && ss[i].atomType != null ==> ss[i].atomType in reg
    requires forall k :: 0 <= k < |reg| ==> exists i :: 0 <= i < |ss| && ss[i].atomType == reg[k]
    requires forall i, j ::
      (0 <= i < |ss| && 0 <= j < |ss| && ss[i].atomType != null &&
       ss[j].atomType != null && ss[i].atomType.Key() == ss[j].atomType.Key()) ==>
        ss[i].atomType == ss[j].atomType
    ensures SharesRegistry(HeldAtomTypes(ss), SiteTypeKeys(ss), reg)
  {
    var held, keys := HeldAtomTypes(ss), SiteTypeKeys(ss);
    assert forall i :: 0 <= i < |held| && held[i] != null ==> held[i] in reg;
    forall k | 0 <= k < |reg| ensures exists i :: 0 <= i < |held| && held[i] == reg[k] {
      var i :| 0 <= i < |ss| && ss[i].atomType == reg[k];
      assert held[i] == reg[k];
    }
    forall i, j | 0 <= i < |held| && 0 <= j < |held| && keys[i].Some? && keys[i] == keys[j]
      ensures held[i] == held[j]
    {
      assert keys[i] == KeyOf(ss[i].atomType) && keys[j] == KeyOf(ss[j].atomType);
      assert ss[i].atomType != null && ss[j].atomType != null;
      assert ss[i].atomType.Key() == ss[j].atomType.Key();
    }
  }

  /** The facts a rebuild establishes about the connections, read as `SharesRegistry`. */
  lemma ConnectionsShareRegistry(reg: seq<PotentialType>, cs: seq<Connection>)
    requires forall i :: 0 <= i < |cs| && cs[i].connectionType != null ==> cs[i].connectionType in reg
    requires forall k :: 0 <= k < |reg| ==> exists i :: 0 <= i < |cs| && cs[i].connectionType == reg[k]
    requires forall i, j ::
      (0 <= i < |cs| && 0 <= j < |cs| && cs[i].connectionType != null &&
       cs[j].connectionType != null && cs[i].connectionType.Key() == cs[j].connectionType.Key()) ==>
        cs[i].connectionType == cs[j].connectionType
    ensures SharesRegistry(HeldConnectionTypes(cs), ConnectionTypeKeys(cs), reg)
  {
    var held, keys := HeldConnectionTypes(cs), ConnectionTypeKeys(cs);
    assert forall i :: 0 <= i < |held| && held[i] != null ==> held[i] in reg;
    forall k | 0 <= k < |reg| ensures exists i :: 0 <= i < |held| && held[i] == reg[k] {
      var i :| 0 <= i < |cs| && cs[i].connectionType == reg[k];
      assert held[i] == reg[k];
    }
    forall i, j | 0 <= i < |held| && 0 <= j < |held| && keys[i].Some? && keys[i] == keys[j]
      ensures held[i] == held[j]
    {
      assert keys[i] == KeyOf(cs[i].connectionType) && keys[j] == KeyOf(cs[j].connectionType);
      assert cs[i].connectionType != null && cs[j].connectionType != null;
      assert cs[i].connectionType.Key() == cs[j].connectionType.Key();
    }
  }

  /** Connections pointing into a registry without value-equal entries share one object per value. */
  lemma ConnectionsShareRepresentatives(reg: seq<PotentialType>, cs: seq<Connection>)
    requires Distinct(KeysOf(reg))
    requires forall i :: 0 <= i < |cs| && cs[i].connectionType != null ==> cs[i].connectionType in reg
    ensures forall i, j ::
      (0 <= i < |cs| && 0 <= j < |cs| && cs[i].connectionType != null &&
       cs[j].connectionType != null && cs[i].connectionType.Key() == cs[j].connectionType.Key()) ==>
        cs[i].connectionType == cs[j].connectionType
  {
    forall i, j | 0 <= i < |cs| && 0 <= j < |cs| && cs[i].connectionType != null &&
      cs[j].connectionType != null && cs[i].connectionType.Key() == cs[j].connectionType.Key()
      ensures cs[i].connectionType == cs[j].connectionType
    {
      var p :| 0 <= p < |reg| && reg[p] == cs[i].connectionType;
      var q :| 0 <= q < |reg| && reg[q] == cs[j].connectionType;
      assert KeysOf(reg)[p] == KeysOf(reg)[q];
    }
  }

  /**
   * In a registry without value-equal entries, holders that point into the
   * registry and hold equal values hold the same object.
   */
  lemma SharedRepresentatives(reg: seq<PotentialType>, ss: seq<Site>)
    requires Distinct(KeysOf(reg))
    requires forall i :: 0 <= i < |ss| && ss[i].atomType != null ==> ss[i].atomType in reg
    ensures forall i, j ::
      (0 <= i < |ss| && 0 <= j < |ss| && ss[i].atomType != null &&
       ss[j].atomType != null && ss[i].atomType.Key() == ss[j].atomType.Key()) ==>
        ss[i].atomType == ss[j].atomType
  {
    forall i, j | 0 <= i < |ss| && 0 <= j < |ss| && ss[i].atomType != null &&
      ss[j].atomType != null && ss[i].atomType.Key() == ss[j].atomType.Key()
      ensures ss[i].atomType == ss[j].atomType
    {
      var p :| 0 <= p < |reg| && reg[p] == ss[i].atomType;
      var q :| 0 <= q < |reg| && reg[q] == ss[j].atomType;
      assert KeysOf(reg)[p] == KeysOf(reg)[q];
    }
  }

  /**
   * Renames `t` and returns `reg` re-keyed accordingly: when `t` is an
   * entry, its slot is removed and `t` is appended unless an entry with its
   * new value is already there; otherwise `reg` is returned as it is.
   */
  method Relabel(reg: seq<PotentialType>, t: PotentialType, newName: string) returns (r: seq<PotentialType>)
    requires Distinct(KeysOf(reg))
    modifies t`name
    ensures t.name == newName
    ensures KeysOf(r) == if t in reg then Rekeyed(old(KeysOf(reg)), old(t.Key()), t.Key()) else old(KeysOf(reg))
    ensures Distinct(KeysOf(r))
    ensures forall i :: 0 <= i < |r| ==> r[i] in reg
  {
    match IndexOf(reg, t)
    case None =>
      t.name := newName;
      r := reg;
    case Some(p) =>
      var rest := RemoveAt(reg, p);
      RemovedEntry(reg, p);
      t.name := newName;
      KeysKept(rest);
      r := Fold(rest, t).0;
      RekeyedDistinct(old(KeysOf(reg)), old(t.Key()), t.Key());
  }

  /** Removing the entry at `p` removes its key and leaves no other copy of the entry behind. */
  lemma RemovedEntry(reg: seq<PotentialType>, p: nat)
    requires p < |reg| && Distinct(KeysOf(reg))
    ensures KeysOf(RemoveAt(reg, p)) == RemoveAt(KeysOf(reg), p)
    ensures IndexOf(KeysOf(reg), reg[p].Key()) == Some(p)
    ensures reg[p] !in RemoveAt(reg, p)
    ensures forall x :: x in RemoveAt(reg, p) ==> x in reg
  {
    DistinctIndexOf(KeysOf(reg), p);
    DistinctKeysDistinctEntries(reg);
    RemoveAtDistinct(reg, p);
  }
}
