/** Columns at which the code does not do what one would expect, one lemma each. */
module ColumnInputs {
  import opened Options
  import opened PostgresColumns
  import opened PostgresColumnLaws
  import MysqlColumns

  /** A server that knows one type by a longer name and lists defaults as they are written. */
  function PlainServer(): Server {
    Server((t: string) => if t == "timestamp" then "timestamp without time zone" else t,
      (x: string) => x, (x: string) => Some(x), (i: nat) => "")
  }

  lemma TypesDiffer()
    ensures "timestamp" != "timestamp without time zone" && "text" != "timestamp" && !AutoNumbered("text") && !AutoNumbered("timestamp")
  {
    assert |"timestamp"| == 9 && |"timestamp without time zone"| == 27 && |"text"| == 4 && |"serial"| == 6;
    assert "timestamp"[0] != "bigserial"[0];
  }

  /** An array that is declared as its element type stays an array, whatever number of rounds. */
  lemma ArrayStaysArray(n: nat)
    ensures var d, c := Column("c", "text", false, None, None), Stored("text", true, None, false, []);
      var r := Rounds(PlainServer(), [], d, c, n); r.None? || !Settled(PlainServer(), [], d, r.value)
  {
    var sv, d, c := PlainServer(), Column("c", "text", false, None, None), Stored("text", true, None, false, []);
    TypesDiffer();
    assert sv.typeName("text") == "text";
    assert Hopeless(sv, [], d, Tightened(sv, d, c));
    hide Hopeless, Settled, Rounds;
    SettlesIff(sv, [], d, c);
  }

  /** A key column declared `timestamp` without `not null` is altered by every plan. */
  lemma TimestampKeyNeverSettles(n: nat)
    ensures var d, c := Column("k", "timestamp", false, None, None), Stored("timestamp without time zone", false, None, true, []);
      var r := Rounds(PlainServer(), ["k"], d, c, n); r.None? || !Settled(PlainServer(), ["k"], d, r.value)
  {
    var sv, d := PlainServer(), Column("k", "timestamp", false, None, None);
    var c := Stored("timestamp without time zone", false, None, true, []);
    TypesDiffer();
    var keys := ["k"];
    assert keys[0] == "k" && sv.typeName("timestamp") == c.dataType && sv.typeName(c.dataType) == c.dataType;
    assert Hopeless(sv, keys, d, Tightened(sv, d, c));
    hide Hopeless, Settled, Rounds;
    SettlesIff(sv, keys, d, c);
  }

  /** A column declared `timestamp[]` never becomes an array. */
  lemma TimestampNeverBecomesArray(n: nat)
    ensures var d, c := Column("c", "timestamp", true, None, None), Stored("text", false, None, false, []);
      var r := Rounds(PlainServer(), [], d, c, n); r.None? || !Settled(PlainServer(), [], d, r.value)
  {
    var sv, d, c := PlainServer(), Column("c", "timestamp", true, None, None), Stored("text", false, None, false, []);
    TypesDiffer();
    assert sv.typeName("text") == "text" && sv.typeName(sv.typeName("timestamp")) == sv.typeName("timestamp");
    assert Hopeless(sv, [], d, Tightened(sv, d, c));
    hide Hopeless, Settled, Rounds;
    SettlesIff(sv, [], d, c);
  }

  /** Widening a MySQL column that keeps its declared character set loses the character set. */
  lemma EncodingIsLost()
    ensures var d := MysqlColumns.Column("c", "varchar (20)", None, None, None, "latin1", "");
      var e := d.(dataType := "varchar (10)"); var c := MysqlColumns.Stored("varchar (10)", "character set latin1", None, false, false, []);
      var end := MysqlColumns.ExecuteAll(c, MysqlColumns.Statements(d, e)); end.Some? && end.value.encoding != MysqlColumns.EncodingText(d)
  {
    var d := MysqlColumns.Column("c", "varchar (20)", None, None, None, "latin1", "");
    var e, c := d.(dataType := "varchar (10)"), MysqlColumns.Stored("varchar (10)", "character set latin1", None, false, false, []);
    assert MysqlColumns.Describes(e, c) && d.charset != "";
    hide MysqlColumns.ExecuteAll, MysqlColumns.Statements, MysqlColumns.Describes;
    MysqlColumns.StatementsRunIff(d, e, c);
    MysqlColumns.EncodingKeptIff(d, e, c);
  }
}
