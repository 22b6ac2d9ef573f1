/** How a listed foreign key is compared with a declared one. */
module ForeignKeys {
  import opened Text
  import opened Comparators
  import opened ElementLists

  datatype ForeignKey = ForeignKey(
    childColumns: seq<string>, parentTable: string, parentColumns: seq<string>, name: string, onDelete: string)

  const NO_ACTION := "NO ACTION"

  /** The default action and none at all are the same. */
  function NormalizeOnDelete(s: string): string {
    var upper := Upper(Trim(s));
    if upper == NO_ACTION then "" else upper
  }

  predicate ForeignKeyEquals(a: ForeignKey, b: ForeignKey) {
    && (a.name != "" && b.name != "" ==> a.name == b.name)
    && a.parentTable == b.parentTable
    && EqualFold(NormalizeOnDelete(a.onDelete), NormalizeOnDelete(b.onDelete))
    && ColumnsEqual(a.childColumns, b.childColumns)
    && ColumnsEqual(a.parentColumns, b.parentColumns)
  }

  method EqualForeignKeys(a: ForeignKey, b: ForeignKey) returns (equal: bool)
    ensures equal == ForeignKeyEquals(a, b)
  {
    hide ColumnsEqual, EqualFold, NormalizeOnDelete;
    if a.name != "" && b.name != "" && a.name != b.name {
      return false;
    }
    if a.parentTable != b.parentTable {
      return false;
    }
    if !EqualFold(NormalizeOnDelete(a.onDelete), NormalizeOnDelete(b.onDelete)) {
      return false;
    }
    var children := EqualColumns(a.childColumns, b.childColumns);
    if !children {
      return false;
    }
    equal := EqualColumns(a.parentColumns, b.parentColumns);
  }

  /** As many keys as declared, and an equal one for each declared key. */
  predicate ForeignKeysMatch(cur: seq<ForeignKey>, ds: seq<ForeignKey>) {
    |cur| == |ds| && forall i :: 0 <= i < |ds| ==> AnyEqual(cur, ds[i])
  }

  predicate AnyEqual(cur: seq<ForeignKey>, d: ForeignKey) {
    exists k :: 0 <= k < |cur| && ForeignKeyEquals(cur[k], d)
  }

  method MatchForeignKeys(cur: seq<ForeignKey>, ds: seq<ForeignKey>) returns (match_: bool)
    ensures match_ == ForeignKeysMatch(cur, ds)
  {
    hide ForeignKeyEquals;
    if |cur| != |ds| {
      return false;
    }
    for i := 0 to |ds|
      invariant forall k :: 0 <= k < i ==> AnyEqual(cur, ds[k])
    {
      var found := false;
      for k := 0 to |cur|
        invariant !found && forall l :: 0 <= l < k ==> !ForeignKeyEquals(cur[l], ds[i])
      {
        found := EqualForeignKeys(cur[k], ds[i]);
        if found {
          break;
        }
      }
      if !found {
        assert !AnyEqual(cur, ds[i]);
        return false;
      }
    }
    return true;
  }

  /** Whether the keys match does not depend on the order they are listed in. */
  lemma MatchInAnyOrder(cur: seq<ForeignKey>, relisted: seq<ForeignKey>, ds: seq<ForeignKey>)
    requires multiset(cur) == multiset(relisted) && ForeignKeysMatch(cur, ds)
    ensures ForeignKeysMatch(relisted, ds)
  {
    hide ForeignKeyEquals;
    assert |multiset(cur)| == |cur| && |multiset(relisted)| == |relisted|;
    forall i | 0 <= i < |ds| ensures AnyEqual(relisted, ds[i]) {
      assert AnyEqual(cur, ds[i]);
      var k :| 0 <= k < |cur| && ForeignKeyEquals(cur[k], ds[i]);
      assert cur[k] in multiset(relisted);
      var l :| 0 <= l < |relisted| && relisted[l] == cur[k];
    }
  }
}
