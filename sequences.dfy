/**
 * Generic facts about ordered collections: the insertion-ordered sets the
 * topology keeps (sites, connections) and the first-occurrence scans that
 * build its type registries.
 */
module Sequences {
  import opened Results

  /** No value occurs twice. */
  predicate Distinct<T(==)>(s: seq<T>) {
    forall i, j :: 0 <= i < j < |s| ==> s[i] != s[j]
  }

  /** Position of the first occurrence of `x`, if any. */
  function IndexOf<T(==)>(s: seq<T>, x: T): (r: Option<nat>)
    ensures r.None? <==> x !in s
    ensures r.Some? ==> r.value < |s| && s[r.value] == x && x !in s[..r.value]
  {
    if s == [] then None
    else if s[0] == x then Some(0)
    else
      match IndexOf(s[1..], x)
      case None => None
      case Some(i) =>
        assert s[..i + 1] == [s[0]] + s[1..][..i];
        Some(i + 1)
  }

  /** Adds `x` at the end unless it is already present (an ordered-set insert). */
  function Absorb<T(==)>(s: seq<T>, x: T): (r: seq<T>)
    ensures x in r && s <= r && |r| <= |s| + 1
    ensures |r| == |s| + 1 ==> r[|s|] == x
    ensures Distinct(s) ==> Distinct(r)
  {
    if x in s then s else s + [x]
  }

  /** Inserts every element of `xs`, in order, into the ordered set `s`. */
  function AbsorbAll<T(==)>(s: seq<T>, xs: seq<T>): (r: seq<T>)
    ensures s <= r
    ensures forall i :: 0 <= i < |xs| ==> xs[i] in r
    ensures Distinct(s) ==> Distinct(r)
  {
    if xs == [] then s
    else
      var init := xs[..|xs| - 1];
      assert forall i :: 0 <= i < |init| ==> init[i] == xs[i];
      Absorb(AbsorbAll(s, init), xs[|xs| - 1])
  }

  /** What `AbsorbAll` adds after `s` comes from `xs`. */
  lemma {:induction false} AbsorbAllAddsOnly<T>(s: seq<T>, xs: seq<T>)
    ensures forall i :: |s| <= i < |AbsorbAll(s, xs)| ==> AbsorbAll(s, xs)[i] in xs
  {
    if xs != [] {
      var init := xs[..|xs| - 1];
      AbsorbAllAddsOnly(s, init);
      assert forall x :: x in init ==> x in xs;
    }
  }

  /**
   * The distinct values of `xs` in the order a left-to-right scan first
   * meets them.
   */
  function Dedup<T(==)>(xs: seq<T>): (r: seq<T>)
    ensures Distinct(r)
    ensures forall i :: 0 <= i < |xs| ==> xs[i] in r
    ensures |r| <= |xs|
  {
    if xs == [] then []
    else Absorb(Dedup(xs[..|xs| - 1]), xs[|xs| - 1])
  }

  /** The scan only keeps values it met. */
  lemma {:induction false} DedupKeepsOnly<T>(xs: seq<T>)
    ensures forall i :: 0 <= i < |Dedup(xs)| ==> Dedup(xs)[i] in xs
  {
    if xs != [] {
      var init := xs[..|xs| - 1];
      DedupKeepsOnly(init);
      assert forall x :: x in init ==> x in xs;
    }
  }

  lemma DedupSnoc<T>(xs: seq<T>, x: T)
    ensures Dedup(xs + [x]) == Absorb(Dedup(xs), x)
  {
    assert (xs + [x])[..|xs|] == xs;
  }

  /** The values occurring in `xs`. */
  function Elements<T>(xs: seq<T>): set<T> {
    set x | x in xs
  }

  /** The scan keeps exactly one entry per distinct value it meets. */
  lemma {:induction false} DedupCounts<T>(xs: seq<T>)
    ensures |Dedup(xs)| == |Elements(xs)|
  {
    if xs != [] {
      var init, last := xs[..|xs| - 1], xs[|xs| - 1];
      DedupCounts(init);
      assert xs == init + [last];
      assert Elements(xs) == Elements(init) + {last};
      if last in init {
        assert Elements(xs) == Elements(init);
      } else {
        DedupKeepsOnly(init);
        assert last !in Dedup(init);
        assert last !in Elements(init);
      }
    }
  }

  /** The scan finds something exactly when there is something to find. */
  lemma DedupEmpty<T>(xs: seq<T>)
    ensures Dedup(xs) == [] <==> xs == []
  {
    if xs != [] {
      assert xs[0] in Dedup(xs);
    }
  }

  /** `s` without its element at position `i`. */
  function RemoveAt<T>(s: seq<T>, i: nat): (r: seq<T>)
    requires i < |s|
    ensures |r| == |s| - 1
    ensures forall j :: 0 <= j < i ==> r[j] == s[j]
    ensures forall j :: i <= j < |r| ==> r[j] == s[j + 1]
  {
    s[..i] + s[i + 1..]
  }

  lemma RemoveAtDistinct<T>(s: seq<T>, i: nat)
    requires i < |s| && Distinct(s)
    ensures Distinct(RemoveAt(s, i))
    ensures forall x :: x in RemoveAt(s, i) <==> x in s && x != s[i]
  {
    var r := RemoveAt(s, i);
    forall x | x in s && x != s[i] ensures x in r {
      var j :| 0 <= j < |s| && s[j] == x;
      if j < i { assert r[j] == x; } else { assert r[j - 1] == x; }
    }
  }

  /**
   * The ordered keys of a registry after the value `oldKey` of one entry is
   * replaced by `newKey`: the entry for `oldKey` leaves its slot and the
   * new value is appended, unless an entry with that value is already
   * present. Keys without `oldKey` are left as they are.
   */
  function Rekeyed<T(==)>(keys: seq<T>, oldKey: T, newKey: T): seq<T> {
    match IndexOf(keys, oldKey)
    case None => keys
    case Some(i) => Absorb(RemoveAt(keys, i), newKey)
  }

  /** Re-keying keeps a registry free of duplicate values. */
  lemma RekeyedDistinct<T>(keys: seq<T>, oldKey: T, newKey: T)
    requires Distinct(keys)
    ensures Distinct(Rekeyed(keys, oldKey, newKey))
  {
    match IndexOf(keys, oldKey)
    case None =>
    case Some(i) => RemoveAtDistinct(keys, i);
  }

  /**
   * A renamed entry whose new value is not held by any other entry moves to
   * the last position, and the registry keeps its length.
   */
  lemma RekeyedMovesToEnd<T>(keys: seq<T>, oldKey: T, newKey: T)
    requires Distinct(keys)
    requires oldKey in keys
    requires newKey == oldKey || newKey !in keys
    ensures |Rekeyed(keys, oldKey, newKey)| == |keys|
    ensures IndexOf(Rekeyed(keys, oldKey, newKey), newKey) == Some(|keys| - 1)
  {
    var i := IndexOf(keys, oldKey).value;
    RekeyedAppends(keys, i, newKey);
    DistinctIndexOf(RemoveAt(keys, i) + [newKey], |keys| - 1);
  }

  /**
   * When an entry is renamed to a value no other entry holds, the entries
   * after its old slot move one place towards the front and those before it
   * stay where they were.
   */
  lemma RekeyedShiftsOthers<T>(keys: seq<T>, oldKey: T, newKey: T)
    requires Distinct(keys)
    requires oldKey in keys
    requires newKey == oldKey || newKey !in keys
    ensures forall j :: 0 <= j < |keys| && keys[j] != oldKey ==>
      IndexOf(Rekeyed(keys, oldKey, newKey), keys[j]) == Some(if j < IndexOf(keys, oldKey).value then j else j - 1)
  {
    var i := IndexOf(keys, oldKey).value;
    RekeyedAppends(keys, i, newKey);
    forall j | 0 <= j < |keys| && keys[j] != oldKey
      ensures IndexOf(RemoveAt(keys, i) + [newKey], keys[j]) == Some(if j < i then j else j - 1)
    {
      ShiftedIndex(keys, i, newKey, j);
    }
  }

  /** Removing a slot and appending a value held nowhere else keeps the keys distinct. */
  lemma RekeyedAppends<T>(keys: seq<T>, i: nat, newKey: T)
    requires Distinct(keys) && i < |keys|
    requires newKey == keys[i] || newKey !in keys
    ensures Rekeyed(keys, keys[i], newKey) == RemoveAt(keys, i) + [newKey]
    ensures Distinct(RemoveAt(keys, i) + [newKey])
  {
    DistinctIndexOf(keys, i);
    RemoveAtDistinct(keys, i);
  }

  lemma ShiftedIndex<T>(keys: seq<T>, i: nat, newKey: T, j: nat)
    requires Distinct(keys) && i < |keys| && j < |keys| && j != i
    requires Distinct(RemoveAt(keys, i) + [newKey])
    ensures IndexOf(RemoveAt(keys, i) + [newKey], keys[j]) == Some(if j < i then j else j - 1)
  {
    var r := RemoveAt(keys, i) + [newKey];
    var p := if j < i then j else j - 1;
    assert r[p] == keys[j];
    DistinctIndexOf(r, p);
  }

  /** In a registry without duplicates, every entry is found at its own position. */
  lemma DistinctIndexOf<T>(s: seq<T>, p: nat)
    requires Distinct(s) && p < |s|
    ensures IndexOf(s, s[p]) == Some(p)
  {
  }
}
