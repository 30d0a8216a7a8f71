/**
 * The DDL ensure_tmp_tables_created sends for an overload: one
 * CREATE GLOBAL TEMPORARY TABLE statement per queued package-local
 * collection, each wrapped in an autonomous anonymous block.
 */
module TmpTables {
  import opened Wrappers
  import opened OrderedMaps
  import opened Text
  import opened Sorting
  import opened Catalog
  import opened ArgumentLists

  /** What can go wrong while creating the tables: the queued metadata has no
      `:element` (Ruby raises NoMethodError on nil), or the database rejects
      the statement. */
  datatype TmpTableError = MissingElement(tableName: string) | DdlFailed(sql: string)

  const CreatePrefix := "CREATE GLOBAL TEMPORARY TABLE "
  const IndexColumn := ",\ni__ NUMBER(38)\n"
  const TableSuffix := ") ON COMMIT PRESERVE ROWS\n"

  /** The anonymous block each statement is executed through, bound to `:sql`. */
  const AutonomousBlock := "DECLARE\nPRAGMA AUTONOMOUS_TRANSACTION;\nBEGIN\nEXECUTE IMMEDIATE :sql;\nEND;\n"

  /** The nested slots of every node refer to nodes. */
  ghost predicate NodesClosed(nodes: seq<Node>) {
    forall k :: 0 <= k < |nodes| ==>
      && (nodes[k].element.Some? ==> nodes[k].element.value < |nodes|)
      && (nodes[k].fields.Some? ==> RefsBelow(nodes[k].fields.value, |nodes|))
  }

  /** `"#{field} #{type_to_sql(metadata)}"` for every field, in position order. */
  function FieldColumns(fields: OMap<string, NodeId>, nodes: seq<Node>, typeToSql: ArgMeta -> string): seq<string>
    requires RefsBelow(fields, |nodes|)
  {
    var order := ByPosition(fields, nodes);
    seq(|order|, i requires 0 <= i < |order| => order[i] + " " + FieldType(fields, nodes, typeToSql, order[i]))
  }

  /** `type_to_sql(fields[name])`, for a field of the record. */
  function FieldType(fields: OMap<string, NodeId>, nodes: seq<Node>, typeToSql: ArgMeta -> string, name: string): string
    requires RefsBelow(fields, |nodes|)
  {
    match Lookup(fields, name)
    case Some(id) => LookupBelow(fields, |nodes|); typeToSql(nodes[id].meta)
    case None => ""
  }

  /** The column list of the table for a collection whose element is `element`:
      a record's fields, or a single `element` column. */
  function Columns(element: Node, nodes: seq<Node>, typeToSql: ArgMeta -> string): string
    requires element.fields.Some? ==> RefsBelow(element.fields.value, |nodes|)
  {
    if element.meta.dataType == PlsqlRecord
    then Join(FieldColumns(element.fields.GetOr([]), nodes, typeToSql), ",\n")
    else "element " + typeToSql(element.meta)
  }

  /** The CREATE statement for the queued table `tableName` of collection `node`. */
  function CreateTableSql(tableName: string, node: Node, nodes: seq<Node>, typeToSql: ArgMeta -> string)
    : Result<string, TmpTableError>
    requires NodesClosed(nodes)
    requires node.element.Some? ==> node.element.value < |nodes|
  {
    if node.element.None? then Err(MissingElement(tableName))
    else Ok(CreatePrefix + tableName + " (\n" + Columns(nodes[node.element.value], nodes, typeToSql) + IndexColumn + TableSuffix)
  }

  /** A collection without an element cannot be rendered; otherwise the
      statement creates the named table and ends with the index column and
      the ON COMMIT PRESERVE ROWS clause. */
  lemma CreateTableSqlShape(tableName: string, node: Node, nodes: seq<Node>, typeToSql: ArgMeta -> string)
    requires NodesClosed(nodes)
    requires node.element.Some? ==> node.element.value < |nodes|
    ensures var r := CreateTableSql(tableName, node, nodes, typeToSql);
            && (r.Err? <==> node.element.None?)
            && (r.Err? ==> r.error == MissingElement(tableName))
            && (r.Ok? ==> StartsWith(r.value, CreatePrefix + tableName + " (\n"))
            && (r.Ok? ==> EndsWith(r.value, IndexColumn + TableSuffix))
  {
    if node.element.Some? {
      var head := CreatePrefix + tableName + " (\n";
      var tail := IndexColumn + TableSuffix;
      var sql := head + Columns(nodes[node.element.value], nodes, typeToSql) + tail;
      assert sql[..|head|] == head;
      assert sql[|sql| - |tail|..] == tail;
    }
  }

  /** The CREATE statement (or the error) for every registration of `regs`. */
  function Creates(regs: seq<(string, NodeId)>, nodes: seq<Node>, typeToSql: ArgMeta -> string)
    : seq<Result<string, TmpTableError>>
    requires NodesClosed(nodes)
    requires forall i :: 0 <= i < |regs| ==> regs[i].1 < |nodes|
  {
    seq(|regs|, i requires 0 <= i < |regs| => CreateTableSql(regs[i].0, nodes[regs[i].1], nodes, typeToSql))
  }

  /** The statements one call sends for the first `n` of the prepared
      `creates`, in order, and the error that stopped it, if any. A statement
      is sent before the database can reject it. */
  function Statements(creates: seq<Result<string, TmpTableError>>, n: nat, ddlOk: string -> bool)
    : (r: (seq<string>, Option<TmpTableError>))
    requires n <= |creates|
  {
    if n == 0 then ([], None)
    else
      var prefix := Statements(creates, n - 1, ddlOk);
      if prefix.1.Some? then prefix
      else
        match creates[n - 1]
        case Err(e) => (prefix.0, Some(e))
        case Ok(sql) => (prefix.0 + [sql], if ddlOk(sql) then None else Some(DdlFailed(sql)))
  }

  /** The statements sent are the first prepared ones, in order; without an
      error all `n` went through, and an error is either the first
      registration that could not be rendered or the last statement sent,
      which the database rejected. */
  lemma {:induction false} StatementsSent(creates: seq<Result<string, TmpTableError>>, n: nat, ddlOk: string -> bool)
    requires n <= |creates|
    ensures var r := Statements(creates, n, ddlOk);
            && |r.0| <= n
            && (r.1.None? ==> |r.0| == n)
            && (forall i :: 0 <= i < |r.0| ==> creates[i] == Ok(r.0[i]))
            && (r.1.None? ==> forall i :: 0 <= i < |r.0| ==> ddlOk(r.0[i]))
            && (r.1.None? <==> forall i :: 0 <= i < n ==> creates[i].Ok? && ddlOk(creates[i].value))
            && (r.1.Some? ==>
                  || (|r.0| < n && creates[|r.0|].Err? && r.1 == Some(creates[|r.0|].error))
                  || (0 < |r.0| && !ddlOk(r.0[|r.0| - 1]) && r.1 == Some(DdlFailed(r.0[|r.0| - 1]))))
  {
    if n > 0 {
      StatementsSent(creates, n - 1, ddlOk);
      var prefix := Statements(creates, n - 1, ddlOk);
      if prefix.1.None? {
        assert forall i :: 0 <= i < n - 1 ==> creates[i] == Ok(prefix.0[i]);
      }
    }
  }

  /** Once a statement has failed, the later registrations send nothing. */
  lemma {:induction false} StatementsStop(creates: seq<Result<string, TmpTableError>>, m: nat, n: nat, ddlOk: string -> bool)
    requires m <= n <= |creates|
    requires Statements(creates, m, ddlOk).1.Some?
    ensures Statements(creates, n, ddlOk) == Statements(creates, m, ddlOk)
  {
    if m < n {
      StatementsStop(creates, m, n - 1, ddlOk);
    }
  }

  /** A record element's columns are its fields, each exactly once, in
      ascending position; any other element gives the single column `element`. */
  lemma ColumnsInPositionOrder(element: Node, nodes: seq<Node>, typeToSql: ArgMeta -> string)
    requires element.fields.Some? ==> RefsBelow(element.fields.value, |nodes|)
    ensures element.meta.dataType != PlsqlRecord ==> Columns(element, nodes, typeToSql) == "element " + typeToSql(element.meta)
    ensures element.meta.dataType == PlsqlRecord ==>
              var fields := element.fields.GetOr([]);
              var order := ByPosition(fields, nodes);
              && Columns(element, nodes, typeToSql) == Join(FieldColumns(fields, nodes, typeToSql), ",\n")
              && multiset(order) == multiset(Keys(fields))
              && SortedBy(order, PositionKey(fields, nodes))
              && forall i :: 0 <= i < |order| ==> StartsWith(FieldColumns(fields, nodes, typeToSql)[i], order[i] + " ")
  {
    var fields := element.fields.GetOr([]);
    ByPositionSorted(fields, nodes);
    if element.meta.dataType == PlsqlRecord {
      var order := ByPosition(fields, nodes);
      var cols := FieldColumns(fields, nodes, typeToSql);
      forall i | 0 <= i < |order| ensures StartsWith(cols[i], order[i] + " ") {
        assert cols[i][..|order[i] + " "|] == order[i] + " ";
      }
    }
  }
}
