/**
 * An append-only interning table (the store's `IndexSet`): a sequence without
 * duplicates in which an element's position is its index.
 */
module IndexSets {
  import opened Options

  /** No element occurs twice. */
  predicate Distinct<T(==)>(s: seq<T>) {
    forall i, j :: 0 <= i < j < |s| ==> s[i] != s[j]
  }

  /** `IndexSet::get_index`: the element stored at index `i`, if there is one. */
  function GetIndex<T>(s: seq<T>, i: nat): (r: Option<T>)
    ensures r.Some? <==> i < |s|
    ensures r.Some? ==> r.value == s[i]
  {
    if i < |s| then Some(s[i]) else None
  }

  /** `IndexSet::get_index_of`: the first position holding `x`. */
  function IndexOf<T(==)>(s: seq<T>, x: T): (r: Option<nat>)
    ensures r.Some? <==> x in s
    ensures r.Some? ==> r.value < |s| && s[r.value] == x && x !in s[..r.value]
  {
    if s == [] then None
    else if s[0] == x then Some(0)
    else
      match IndexOf(s[1..], x)
      case None => None
      case Some(i) =>
        assert s[..i + 1] == [s[0]] + s[1..][..i];
        Some(i + 1)
  }

  /**
   * `IndexSet::insert_full`: the table after inserting `x` and the index of `x`.
   * Equal content gets the existing index and leaves the table as it was; new
   * content is appended.
   */
  function InsertFull<T(==)>(s: seq<T>, x: T): (r: (seq<T>, nat))
    ensures r.1 < |r.0| && r.0[r.1] == x
    ensures IndexOf(r.0, x) == Some(r.1)
    ensures s <= r.0
    ensures r.0 == s <==> x in s
    ensures x !in s ==> r.0 == s + [x] && r.1 == |s|
    ensures Distinct(s) ==> Distinct(r.0)
  {
    match IndexOf(s, x)
    case Some(i) => (s, i)
    case None => (s + [x], |s|)
  }

  /** Appending never moves an element: its first position in a table is its first position in any extension. */
  lemma IndexOfPrefix<T>(s: seq<T>, t: seq<T>, x: T)
    requires s <= t && x in s
    ensures IndexOf(t, x) == IndexOf(s, x)
  {
    var i := IndexOf(s, x).value;
    assert t[i] == x;
    assert t[..i] == s[..i];
  }

  /** In a table without duplicates an element is found exactly at its index. */
  lemma IndexOfDistinct<T>(s: seq<T>, i: nat)
    requires Distinct(s) && i < |s|
    ensures IndexOf(s, s[i]) == Some(i)
  {
  }

  /** Inserting the same content twice returns the same index and changes nothing the second time. */
  lemma InsertTwice<T>(s: seq<T>, x: T)
    ensures InsertFull(InsertFull(s, x).0, x) == InsertFull(s, x)
  {
    var (s1, i) := InsertFull(s, x);
    if x !in s {
      assert s1[..|s|] == s;
    }
  }

  /**
   * Hash-consing: after inserting `x` and then `y`, the two indices agree
   * exactly when the contents do.
   */
  lemma InsertInjective<T>(s: seq<T>, x: T, y: T)
    ensures var (s1, i) := InsertFull(s, x);
            var (s2, j) := InsertFull(s1, y);
            i == j <==> x == y
  {
    var (s1, i) := InsertFull(s, x);
    var (s2, j) := InsertFull(s1, y);
    assert s1 <= s2;
    assert s1[i] == s2[i];
    if x == y {
      InsertTwice(s, x);
    }
  }
}
