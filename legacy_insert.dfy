/**
 * The early generic insert helper addNewData(tableName, data): one column
 * and one "?" per key of the map, then the map's values bound at positions
 * 1, 2, ... in the order the map yields them.
 */
module LegacyInsert {
  import opened JavaText
  import opened Jdbc

  /** A value held in the Map<String, Object>: a String, an Integer or a Double (null is not modelled). */
  datatype Value = StringValue(s: string) | IntValue(i: int) | DoubleValue(d: real)

  /** The prepared statement handed to executeUpdate: its text and its bound parameters. */
  datatype Statement = Statement(sql: string, params: map<int, Value>)

  /**
   * The order a HashMap yields its keys in: every key exactly once. keySet()
   * and values() of one unmodified map follow this same order.
   */
  ghost predicate IterationOrder(order: seq<string>, keys: set<string>) {
    (forall k :: k in keys <==> k in order)
    && forall i, j :: 0 <= i < j < |order| ==> order[i] != order[j]
  }

  /** The statement text for a table and its columns: one placeholder per column. */
  function InsertSql(table: string, columns: seq<string>): string {
    "INSERT INTO " + table + " (" + Join(", ", columns) + ") VALUES (" + Join(", ", Repeat("?", |columns|)) + ")"
  }

  /** The map's values in iteration order. */
  function ValuesInOrder(data: map<string, Value>, order: seq<string>): (vs: seq<Value>)
    requires forall i :: 0 <= i < |order| ==> order[i] in data
    ensures |vs| == |order| && forall i :: 0 <= i < |order| ==> vs[i] == data[order[i]]
  {
    seq(|order|, i requires 0 <= i < |order| => data[order[i]])
  }

  /**
   * addNewData up to executeUpdate: the two StringJoiner loops over the
   * keys, the statement text, then setObject(index++, value) over the values.
   */
  method AddNewData(table: string, data: map<string, Value>, order: seq<string>) returns (stmt: Statement)
    requires IterationOrder(order, data.Keys)
    ensures stmt.sql == InsertSql(table, order)
    ensures stmt.params == Positions(ValuesInOrder(data, order))
  {
    var attributes, values := JoinKeys(order);
    var sql := "INSERT INTO " + table + " (" + Join(", ", attributes) + ") VALUES (" + Join(", ", values) + ")";
    var params := BindValues(data, order);
    stmt := Statement(sql, params);
  }

  /** The loop over keySet(): each key joins the column list and adds one "?". */
  method JoinKeys(order: seq<string>) returns (attributes: seq<string>, values: seq<string>)
    ensures attributes == order && values == Repeat("?", |order|)
  {
    attributes := [];
    values := [];
    for i := 0 to |order|
      invariant attributes == order[..i] && values == Repeat("?", i)
    {
      attributes := attributes + [order[i]];
      values := values + ["?"];
    }
    assert order[..|order|] == order;
  }

  /** The loop over values(): setObject(index++, value), starting at 1. */
  method BindValues(data: map<string, Value>, order: seq<string>) returns (params: map<int, Value>)
    requires forall i :: 0 <= i < |order| ==> order[i] in data
    ensures params == Positions(ValuesInOrder(data, order))
  {
    ghost var vs := ValuesInOrder(data, order);
    params := map[];
    var index := 1;
    for i := 0 to |order|
      invariant index == i + 1
      invariant params == Positions(vs[..i])
    {
      assert vs[..i + 1][..i] == vs[..i] && vs[i] == data[order[i]];
      params := params[index := data[order[i]]];
      index := index + 1;
    }
    assert vs[..|order|] == vs;
  }

  /** The text has one placeholder per column when neither the table nor a column name holds a '?'. */
  lemma InsertSqlMarks(table: string, columns: seq<string>)
    requires '?' !in table && forall i :: 0 <= i < |columns| ==> '?' !in columns[i]
    ensures Placeholders(InsertSql(table, columns)) == |columns|
  {
    JoinedMarks(", ", |columns|);
    JoinedWithoutMarks(", ", columns);
    LiteralsUnmarked();
    var names := Join(", ", columns);
    var marks := Join(", ", Repeat("?", |columns|));
    NoPlaceholders("INSERT INTO " + table + " (" + names + ") VALUES (");
    NoPlaceholders(")");
    PlaceholdersAdd("INSERT INTO " + table + " (" + names + ") VALUES (", marks);
    PlaceholdersAdd("INSERT INTO " + table + " (" + names + ") VALUES (" + marks, ")");
  }

  lemma LiteralsUnmarked()
    ensures '?' !in "INSERT INTO " && '?' !in " (" && '?' !in ") VALUES (" && '?' !in ")"
  {
  }

  /**
   * The statement carries exactly as many placeholders as the map has
   * entries: the values reach the engine only as parameters, never as text.
   */
  lemma MarksMatchEntries(table: string, data: map<string, Value>, order: seq<string>)
    requires IterationOrder(order, data.Keys)
    requires '?' !in table && forall k :: k in data ==> '?' !in k
    ensures Placeholders(InsertSql(table, order)) == |data| == |order|
  {
    assert forall i :: 0 <= i < |order| ==> order[i] in data;
    InsertSqlMarks(table, order);
    DistinctKeys(order, data.Keys);
  }

  /** Parameters 1 to n are bound, and parameter p is the value of the p-th column named in the text. */
  lemma BoundInOrder(data: map<string, Value>, order: seq<string>)
    requires forall i :: 0 <= i < |order| ==> order[i] in data
    ensures var params := Positions(ValuesInOrder(data, order));
            (forall p :: p in params <==> 1 <= p <= |order|)
            && forall p :: 1 <= p <= |order| ==> params[p] == data[order[p - 1]]
  {
    var vs := ValuesInOrder(data, order);
    var params := Positions(vs);
    forall p | 1 <= p <= |order|
      ensures params[p] == data[order[p - 1]]
    {
      assert params[(p - 1) + 1] == vs[p - 1];
    }
  }

  /** A list without repeats covering a set has the set's size. */
  lemma {:induction false} DistinctKeys(order: seq<string>, keys: set<string>)
    requires IterationOrder(order, keys)
    ensures |keys| == |order|
  {
    if order != [] {
      var last := order[|order| - 1];
      var init := order[..|order| - 1];
      assert forall k :: k in init ==> k != last;
      DistinctKeys(init, keys - {last});
    }
  }
}
