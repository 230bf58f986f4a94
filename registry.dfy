/**
 * A type registry: the insertion-ordered table of distinct type values a
 * topology keeps for one family of types. Each entry is the representative
 * object of its value; the order is the order values were first registered.
 */
module Registries {
  import opened Results
  import opened Sequences
  import opened Potentials

  /** The values of the entries, in registry order. */
  function KeysOf(reg: seq<PotentialType>): (ks: seq<TypeKey>)
    reads reg
    ensures |ks| == |reg|
    ensures forall i :: 0 <= i < |reg| ==> ks[i] == reg[i].Key()
  {
    seq(|reg|, i requires 0 <= i < |reg| reads reg => reg[i].Key())
  }

  /** The values of a registry's entries do not change while no entry is renamed. */
  twostate lemma KeysKept(reg: seq<PotentialType>)
    requires forall i :: 0 <= i < |reg| ==> reg[i].name == old(reg[i].name)
    ensures KeysOf(reg) == old(KeysOf(reg))
  {
  }

  /** Entries with distinct values are distinct objects. */
  lemma DistinctKeysDistinctEntries(reg: seq<PotentialType>)
    requires Distinct(KeysOf(reg))
    ensures Distinct(reg)
  {
    forall i, j | 0 <= i < j < |reg| ensures reg[i] != reg[j] {
      assert KeysOf(reg)[i] != KeysOf(reg)[j];
    }
  }

  /**
   * Registers `t`: the registry after the fold, and the entry a holder of
   * `t` is re-pointed at. An equal value already present is reused;
   * otherwise `t` itself becomes the entry for its value, at the end.
   */
  function Fold(reg: seq<PotentialType>, t: PotentialType): (res: (seq<PotentialType>, PotentialType))
    reads reg, t
    ensures res.1.Key() == t.Key()
    ensures res.1 in res.0
    ensures KeysOf(res.0) == Absorb(KeysOf(reg), t.Key())
    ensures res.0 == reg || res.0 == reg + [t]
    ensures Distinct(KeysOf(reg)) ==> Distinct(KeysOf(res.0))
  {
    match IndexOf(KeysOf(reg), t.Key())
    case Some(i) => (reg, reg[i])
    case None =>
      assert KeysOf(reg + [t]) == KeysOf(reg) + [t.Key()];
      (reg + [t], t)
  }

  /** The entries of one class, in registry order (the per-class registries). */
  function OfTypeKind(reg: seq<PotentialType>, k: TypeKind): (r: seq<PotentialType>)
    ensures forall i :: 0 <= i < |r| ==> r[i].kind == k
    ensures forall i :: 0 <= i < |reg| && reg[i].kind == k ==> reg[i] in r
    ensures |r| <= |reg|
  {
    if reg == [] then []
    else
      var init := OfTypeKind(reg[..|reg| - 1], k);
      var last := reg[|reg| - 1];
      assert forall i :: 0 <= i < |reg| - 1 ==> reg[i] == reg[..|reg| - 1][i];
      if last.kind == k then init + [last] else init
  }

  /** The per-class view holds nothing the registry does not. */
  lemma {:induction false} OfTypeKindKeepsOnly(reg: seq<PotentialType>, k: TypeKind)
    ensures forall i :: 0 <= i < |OfTypeKind(reg, k)| ==> OfTypeKind(reg, k)[i] in reg
  {
    if reg != [] {
      var init := reg[..|reg| - 1];
      OfTypeKindKeepsOnly(init, k);
      assert forall t :: t in init ==> t in reg;
    }
  }

  /** The distinct expressions among the entries (the `*_type_expressions` views). */
  function Expressions(reg: seq<PotentialType>): set<Expression> {
    set i | 0 <= i < |reg| :: reg[i].expression
  }

  /** A registry has no more distinct expressions than entries. */
  lemma {:induction false} ExpressionsBound(reg: seq<PotentialType>)
    ensures |Expressions(reg)| <= |reg|
  {
    if reg != [] {
      var init := reg[..|reg| - 1];
      ExpressionsBound(init);
      assert Expressions(reg) == Expressions(init) + {reg[|reg| - 1].expression} by {
        forall e | e in Expressions(reg) ensures e in Expressions(init) + {reg[|reg| - 1].expression} {
          var i :| 0 <= i < |reg| && reg[i].expression == e;
          if i < |reg| - 1 { assert init[i] == reg[i]; }
        }
        forall e | e in Expressions(init) ensures e in Expressions(reg) {
          var i :| 0 <= i < |init| && init[i].expression == e;
          assert reg[i] == init[i];
        }
      }
    }
  }
}
