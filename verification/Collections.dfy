/** Small facts about sequences that several modules share. */
module Collections {
  import opened Options

  predicate NoDuplicates<T(==)>(s: seq<T>) {
    forall i, j :: 0 <= i < j < |s| ==> s[i] != s[j]
  }

  lemma Associative<T>(a: seq<T>, b: seq<T>, c: seq<T>)
    ensures (a + b) + c == a + (b + c)
  {
  }

  /** A declared flag that is present and set. */
  predicate IsTrue(b: Option<bool>) {
    b == Some(true)
  }

  // ----- the values of one column, row by row --------------------------------------------------

  predicate HasNull(rows: seq<Option<string>>) {
    exists i :: 0 <= i < |rows| && rows[i] == None
  }

  /** Every null replaced by `v`. */
  function Filled(rows: seq<Option<string>>, v: Option<string>): seq<Option<string>> {
    seq(|rows|, i requires 0 <= i < |rows| => if rows[i].None? then v else rows[i])
  }

  lemma FilledNulls(rows: seq<Option<string>>, v: Option<string>)
    ensures HasNull(Filled(rows, v)) <==> HasNull(rows) && v.None?
  {
    var f := Filled(rows, v);
    if HasNull(rows) && v.None? {
      var i :| 0 <= i < |rows| && rows[i] == None;
      assert f[i] == None;
    }
    if HasNull(f) {
      var i :| 0 <= i < |f| && f[i] == None;
      assert rows[i] == None;
    }
  }
}
