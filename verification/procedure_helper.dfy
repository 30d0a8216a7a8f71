/**
 * ORAProcedureHelper: the per-routine state a procedure object keeps
 * (argument metadata per overload, argument and output lists, queued
 * temporary tables) and the three methods that fill and use it.
 */
module ProcedureHelpers {
  import opened Wrappers
  import opened OrderedMaps
  import opened Text
  import opened Sorting
  import opened Catalog
  import opened ArgumentMetadata
  import opened MetadataLaws
  import opened RunLaws
  import opened ArgumentLists
  import opened TmpTables

  /** Every argument hash of @arguments refers to nodes only. */
  ghost predicate ArgumentsClosed(arguments: OMap<nat, OMap<string, NodeId>>, nodes: seq<Node>) {
    forall ov :: ov in KeySet(arguments) ==> RefsBelow(Lookup(arguments, ov).value, |nodes|)
  }

  /** Every id stored in the metadata names a node. */
  ghost predicate Closed(arguments: OMap<nat, OMap<string, NodeId>>, returnMeta: OMap<nat, Option<NodeId>>,
                         tmpTableNames: OMap<nat, seq<(string, NodeId)>>, nodes: seq<Node>)
  {
    && NodesClosed(nodes)
    && DistinctKeys(arguments)
    && ArgumentsClosed(arguments, nodes)
    && (forall ov :: ov in KeySet(returnMeta) && Lookup(returnMeta, ov).value.Some? ==>
          Lookup(returnMeta, ov).value.value < |nodes|)
    && (forall ov :: ov in KeySet(tmpTableNames) ==>
          forall j :: 0 <= j < |Lookup(tmpTableNames, ov).value| ==> Lookup(tmpTableNames, ov).value[j].1 < |nodes|)
  }

  /** An argument hash that agrees with the rows refers only to earlier rows. */
  lemma InnerBelow(rows: seq<Row>, n: nat, ov: nat, inner: OMap<string, NodeId>)
    requires n <= |rows|
    requires InnerAgrees(rows, n, ov, inner)
    ensures RefsBelow(inner, n)
  {
    forall i | 0 <= i < |inner| ensures inner[i].1 < n {
      LookupAt(inner, i);
      assert Lookup(inner, inner[i].0) == LastTopLevel(rows, n, ov, inner[i].0);
    }
  }

  /** Nodes whose nested slots agree with the rows refer only to nodes. */
  lemma ChildrenClosed(rows: seq<Row>, n: nat, nodes: seq<Node>)
    requires n <= |rows| && |nodes| == n
    requires ChildrenAgree(rows, n, nodes)
    ensures NodesClosed(nodes)
  {
    forall p | 0 <= p < n
      ensures nodes[p].element.Some? ==> nodes[p].element.value < n
      ensures nodes[p].fields.Some? ==> RefsBelow(nodes[p].fields.value, n)
    {
      assert NodeChildrenAgree(rows, n, p, nodes[p]);
      if nodes[p].fields.Some? {
        var f := nodes[p].fields.value;
        forall i | 0 <= i < |f| ensures f[i].1 < n {
          LookupAt(f, i);
          assert Lookup(f, f[i].0) == LastField(rows, n, p, f[i].0);
        }
      }
    }
  }

  /** A routine without rows has a single, empty, default overload; otherwise
      line 191 changes nothing. */
  lemma FinishArguments(rows: seq<Row>, env: Env)
    requires Run(rows, |rows|, env).1.None?
    ensures var st := Run(rows, |rows|, env).0;
            Finish(st).arguments == if |rows| == 0 then [(0, [])] else st.arguments
    ensures Finish(Run(rows, |rows|, env).0).nodes == Run(rows, |rows|, env).0.nodes
  {
    var st := Run(rows, |rows|, env).0;
    if |rows| == 0 {
      RunZero(rows, env);
    } else {
      RunArguments(rows, |rows|, env);
      assert OverloadKey(rows[0]) in Seen(rows, |rows|);
      var i :| 0 <= i < |st.arguments| && st.arguments[i].0 == OverloadKey(rows[0]);
      assert Keys(st.arguments)[i] == OverloadKey(rows[0]);
    }
  }

  /** After a run that raised nothing, every stored id names a node. */
  lemma RunClosed(rows: seq<Row>, env: Env)
    requires Run(rows, |rows|, env).1.None?
    ensures var st := Finish(Run(rows, |rows|, env).0);
            Closed(st.arguments, st.returnMeta, st.tmpTableNames, st.nodes)
  {
    var n := |rows|;
    var st := Run(rows, n, env).0;
    RunArguments(rows, n, env);
    RunReturn(rows, n, env);
    RunTmp(rows, n, env);
    RunChildren(rows, n, env);
    ChildrenClosed(rows, n, st.nodes);
    FinishArguments(rows, env);
    forall ov | ov in KeySet(st.arguments) ensures RefsBelow(Lookup(st.arguments, ov).value, n) {
      InnerBelow(rows, n, ov, Lookup(st.arguments, ov).value);
    }
    forall ov | ov in KeySet(st.returnMeta) && Lookup(st.returnMeta, ov).value.Some?
      ensures Lookup(st.returnMeta, ov).value.value < n
    {
      assert Lookup(st.returnMeta, ov) == Some(LastReturn(rows, n, ov));
    }
    forall ov | ov in KeySet(st.tmpTableNames)
      ensures forall j :: 0 <= j < |Lookup(st.tmpTableNames, ov).value| ==> Lookup(st.tmpTableNames, ov).value[j].1 < n
    {
      assert Lookup(st.tmpTableNames, ov) == Some(TmpRegistrations(rows, n, ov, env));
    }
    if n == 0 {
      var empty: OMap<nat, OMap<string, NodeId>> := [];
      assert Finish(st).arguments == Put(empty, 0, []);
      LookupPut(empty, 0, [], 0);
    }
  }

  /** What get_argument_metadata leaves behind when no row raised, read row
      by row: each overload's arguments, return value, temporary tables and
      the overloaded flag as MetadataLaws describes them, every hash built from
      its row with its fields or element, and every reference naming a hash. */
  lemma MetadataAgrees(rows: seq<Row>, env: Env)
    requires Run(rows, |rows|, env).1.None?
    ensures var st := Finish(Run(rows, |rows|, env).0);
            && (|rows| == 0 ==> st.arguments == [(0, [])])
            && (|rows| > 0 ==> ArgumentsAgree(rows, |rows|, st.arguments))
            && ReturnAgrees(rows, |rows|, st.returnMeta)
            && TmpAgrees(rows, |rows|, env, st.tmpTableNames)
            && OverloadedAgrees(rows, |rows|, st.overloaded)
            && NodesAgree(rows, |rows|, env, st.nodes)
            && ChildrenAgree(rows, |rows|, st.nodes)
            && Closed(st.arguments, st.returnMeta, st.tmpTableNames, st.nodes)
  {
    RunArguments(rows, |rows|, env);
    RunReturn(rows, |rows|, env);
    RunTmp(rows, |rows|, env);
    RunOverloaded(rows, |rows|, env);
    RunNodes(rows, |rows|, env);
    RunChildren(rows, |rows|, env);
    FinishArguments(rows, env);
    RunClosed(rows, env);
  }

  /** What creating the tables of overload `ov` needs of the metadata. */
  lemma RegistrationsClosed(arguments: OMap<nat, OMap<string, NodeId>>, returnMeta: OMap<nat, Option<NodeId>>,
                            tmpTableNames: OMap<nat, seq<(string, NodeId)>>, nodes: seq<Node>, ov: nat)
    requires Closed(arguments, returnMeta, tmpTableNames, nodes)
    ensures NodesClosed(nodes)
    ensures var regs := Lookup(tmpTableNames, ov).GetOr([]);
            forall j :: 0 <= j < |regs| ==> regs[j].1 < |nodes|
  {
  }

  /** The statements a call sends, each through the autonomous block. */
  function Executions(sqls: seq<string>): seq<(string, string)> {
    seq(|sqls|, i requires 0 <= i < |sqls| => (AutonomousBlock, sqls[i]))
  }

  lemma ExecutionsSnoc(before: seq<(string, string)>, sqls: seq<string>, sql: string)
    ensures before + Executions(sqls + [sql]) == (before + Executions(sqls)) + [(AutonomousBlock, sql)]
  {
    assert Executions(sqls + [sql]) == Executions(sqls) + [(AutonomousBlock, sql)];
  }

  /** The overload numbers listed are exactly the keys of @arguments. */
  lemma OverloadsInArguments(arguments: OMap<nat, OMap<string, NodeId>>)
    requires DistinctKeys(arguments)
    ensures forall ov :: ov in Overloads(arguments) <==> ov in KeySet(arguments)
    ensures forall i :: 0 <= i < |Overloads(arguments)| ==> Overloads(arguments)[i] in KeySet(arguments)
  {
    OverloadsSorted(arguments);
    KeysInKeySet(arguments);
    forall ov ensures ov in Overloads(arguments) <==> ov in KeySet(arguments) {
      assert ov in Overloads(arguments) <==> ov in multiset(Overloads(arguments));
      assert ov in Keys(arguments) <==> ov in multiset(Keys(arguments));
      if ov in KeySet(arguments) {
        var i :| 0 <= i < |arguments| && arguments[i].0 == ov;
        assert Keys(arguments)[i] == ov;
      }
    }
  }

  /** The argument list (or, with `outOnly`, the output list) of overload `ov`. */
  function ListOf(arguments: OMap<nat, OMap<string, NodeId>>, nodes: seq<Node>, ov: nat, outOnly: bool): seq<string> {
    var inner := Lookup(arguments, ov).GetOr([]);
    if outOnly then OutList(inner, nodes) else ByPosition(inner, nodes)
  }

  /** `table` after storing the list of every overload of `ovs`, in order. */
  function ListTable(arguments: OMap<nat, OMap<string, NodeId>>, nodes: seq<Node>,
                     table: OMap<nat, seq<string>>, ovs: seq<nat>, outOnly: bool): OMap<nat, seq<string>>
  {
    if ovs == [] then table
    else
      var last := ovs[|ovs| - 1];
      Put(ListTable(arguments, nodes, table, ovs[..|ovs| - 1], outOnly), last, ListOf(arguments, nodes, last, outOnly))
  }

  lemma ListTableStep(arguments: OMap<nat, OMap<string, NodeId>>, nodes: seq<Node>,
                      table: OMap<nat, seq<string>>, ovs: seq<nat>, k: nat, outOnly: bool)
    requires k < |ovs|
    ensures ListTable(arguments, nodes, table, ovs[..k + 1], outOnly) ==
            Put(ListTable(arguments, nodes, table, ovs[..k], outOnly), ovs[k], ListOf(arguments, nodes, ovs[k], outOnly))
  {
    assert ovs[..k + 1][..k] == ovs[..k];
  }

  lemma {:induction false} ListTableLookup(arguments: OMap<nat, OMap<string, NodeId>>, nodes: seq<Node>,
                                           table: OMap<nat, seq<string>>, ovs: seq<nat>, outOnly: bool)
    requires DistinctKeys(table)
    ensures DistinctKeys(ListTable(arguments, nodes, table, ovs, outOnly))
    ensures forall ov :: Lookup(ListTable(arguments, nodes, table, ovs, outOnly), ov) ==
              if ov in ovs then Some(ListOf(arguments, nodes, ov, outOnly)) else Lookup(table, ov)
  {
    if ovs != [] {
      var init, last := ovs[..|ovs| - 1], ovs[|ovs| - 1];
      ListTableLookup(arguments, nodes, table, init, outOnly);
      var t0 := ListTable(arguments, nodes, table, init, outOnly);
      forall ov ensures Lookup(Put(t0, last, ListOf(arguments, nodes, last, outOnly)), ov) ==
                        if ov in ovs then Some(ListOf(arguments, nodes, ov, outOnly)) else Lookup(table, ov)
      {
        LookupPut(t0, last, ListOf(arguments, nodes, last, outOnly), ov);
        assert ov in ovs <==> ov in init || ov == last by {
          assert ovs == init + [last];
        }
      }
      LookupPut(t0, last, ListOf(arguments, nodes, last, outOnly), last);
    }
  }

  /** After the whole list of overloads, every overload of @arguments has its
      argument list (or output list), and every other key keeps its entry. */
  lemma ListTableAll(arguments: OMap<nat, OMap<string, NodeId>>, nodes: seq<Node>,
                     table: OMap<nat, seq<string>>, ovs: seq<nat>, outOnly: bool)
    requires forall ov :: ov in ovs <==> ov in KeySet(arguments)
    requires DistinctKeys(table)
    ensures DistinctKeys(ListTable(arguments, nodes, table, ovs, outOnly))
    ensures forall ov :: Lookup(ListTable(arguments, nodes, table, ovs, outOnly), ov) ==
              if ov in KeySet(arguments)
              then Some(if outOnly then OutList(Lookup(arguments, ov).value, nodes)
                        else ByPosition(Lookup(arguments, ov).value, nodes))
              else Lookup(table, ov)
  {
    ListTableLookup(arguments, nodes, table, ovs, outOnly);
  }

  class ProcedureHelper {
    /** The connection facts and String#hash the row loop reads. */
    const env: Env
    /** @arguments: overload => argument name => metadata. */
    var arguments: OMap<nat, OMap<string, NodeId>>
    /** @return: overload => the return value's metadata, if any. */
    var returnMeta: OMap<nat, Option<NodeId>>
    /** @tmp_table_names: overload => (table name, metadata) in row order. */
    var tmpTableNames: OMap<nat, seq<(string, NodeId)>>
    /** @tmp_tables_created: nil until the metadata has been read. */
    var tmpTablesCreated: Option<OMap<nat, bool>>
    var overloaded: bool
    /** The metadata hashes; every id above indexes this sequence. */
    var nodes: seq<Node>
    /** @argument_list and @out_list: overload => argument names. */
    var argumentList: OMap<nat, seq<string>>
    var outList: OMap<nat, seq<string>>
    /** @overloads: the overload numbers in ascending order. */
    var overloads: seq<nat>
    /** Every (block, sql) pair sent through the schema's execute, oldest first. */
    var executed: seq<(string, string)>

    ghost predicate Valid()
      reads this`arguments, this`returnMeta, this`tmpTableNames, this`nodes, this`argumentList, this`outList
    {
      && Closed(arguments, returnMeta, tmpTableNames, nodes)
      && DistinctKeys(argumentList)
      && DistinctKeys(outList)
    }

    constructor (env: Env)
      ensures this.env == env
      ensures arguments == [] && returnMeta == [] && tmpTableNames == [] && tmpTablesCreated == None
      ensures !overloaded && nodes == [] && argumentList == [] && outList == [] && overloads == []
      ensures executed == []
      ensures Valid()
    {
      this.env := env;
      arguments := [];
      returnMeta := [];
      tmpTableNames := [];
      tmpTablesCreated := None;
      overloaded := false;
      nodes := [];
      argumentList := [];
      outList := [];
      overloads := [];
      executed := [];
    }

    /** overloaded? */
    function Overloaded(): (b: bool)
      reads this
      ensures b == overloaded
    {
      overloaded
    }

    /** get_argument_metadata over the catalog rows, in the order the query
        returns them. The result is the exception the row loop raised, if any;
        on success the argument lists are built as well. */
    method GetArgumentMetadata(rows: seq<Row>) returns (err: Option<BuildError>)
      modifies this
      ensures err == Run(rows, |rows|, env).1
      ensures tmpTablesCreated == Some([]) && executed == old(executed)
      ensures err.Some? ==>
                var st := Run(rows, |rows|, env).0;
                && arguments == st.arguments && returnMeta == st.returnMeta
                && tmpTableNames == st.tmpTableNames && overloaded == st.overloaded && nodes == st.nodes
                && argumentList == [] && outList == [] && overloads == old(overloads)
      ensures err.None? ==>
                var st := Finish(Run(rows, |rows|, env).0);
                && arguments == st.arguments && returnMeta == st.returnMeta
                && tmpTableNames == st.tmpTableNames && overloaded == st.overloaded && nodes == st.nodes
                && Valid()
                && overloads == Overloads(arguments)
                && (forall ov :: Lookup(argumentList, ov) ==
                      if ov in KeySet(arguments) then Some(ByPosition(Lookup(arguments, ov).value, nodes)) else None)
                && (forall ov :: Lookup(outList, ov) ==
                      if ov in KeySet(arguments) then Some(OutList(Lookup(arguments, ov).value, nodes)) else None)
    {
      var previousLevel;
      err, previousLevel := ReadRows(rows);
      ghost var st0 := Run(rows, |rows|, env).0;
      assert st0 == Metadata(arguments, returnMeta, tmpTableNames, overloaded, nodes, previousLevel);
      if err.Some? {
        return;
      }
      RunClosed(rows, env);
      CompleteMetadata(st0);
    }

    /** Line 191, then construct_argument_list_for_overloads, after a row loop
        that raised nothing and left the state `st0`. */
    method CompleteMetadata(ghost st0: Metadata)
      requires st0 == Metadata(arguments, returnMeta, tmpTableNames, overloaded, nodes, st0.previousLevel)
      requires var st := Finish(st0); Closed(st.arguments, st.returnMeta, st.tmpTableNames, st.nodes)
      requires argumentList == [] && outList == []
      modifies this`arguments, this`overloads, this`argumentList, this`outList
      ensures arguments == Finish(st0).arguments
      ensures Valid()
      ensures overloads == Overloads(arguments)
      ensures forall ov :: Lookup(argumentList, ov) ==
                if ov in KeySet(arguments) then Some(ByPosition(Lookup(arguments, ov).value, nodes)) else None
      ensures forall ov :: Lookup(outList, ov) ==
                if ov in KeySet(arguments) then Some(OutList(Lookup(arguments, ov).value, nodes)) else None
    {
      if Keys(arguments) == [] {
        arguments := [(0, [])];
      }
      ConstructArgumentListForOverloads();
    }

    /** Lines 85-189: reset the state, then the row loop. */
    method ReadRows(rows: seq<Row>) returns (err: Option<BuildError>, previousLevel: map<nat, NodeId>)
      modifies this`arguments, this`argumentList, this`outList, this`returnMeta, this`overloaded
      modifies this`tmpTableNames, this`tmpTablesCreated, this`nodes
      ensures Run(rows, |rows|, env) == (Metadata(arguments, returnMeta, tmpTableNames, overloaded, nodes, previousLevel), err)
      ensures tmpTablesCreated == Some([]) && argumentList == [] && outList == []
    {
      arguments := [];
      argumentList := [];
      outList := [];
      returnMeta := [];
      overloaded := false;
      previousLevel := map[];
      tmpTableNames := [];
      tmpTablesCreated := Some([]);
      nodes := [];
      RunZero(rows, env);
      err := None;
      var i := 0;
      while i < |rows| && err.None?
        invariant 0 <= i <= |rows|
        invariant Run(rows, i, env) == (Metadata(arguments, returnMeta, tmpTableNames, overloaded, nodes, previousLevel), err)
        modifies this`arguments, this`returnMeta, this`tmpTableNames, this`overloaded, this`nodes
      {
        err, previousLevel := Turn(rows, i, previousLevel);
        i := i + 1;
      }
      if err.Some? {
        RunRaisedStays(rows, i, |rows|, env);
      }
    }

    /** Turn `i` of the row loop (lines 114-188): the state after the first `i`
        rows becomes the state after `i + 1`. */
    method Turn(rows: seq<Row>, i: nat, previousLevel: map<nat, NodeId>)
      returns (err: Option<BuildError>, previousLevel': map<nat, NodeId>)
      requires i < |rows|
      requires Run(rows, i, env) == (Metadata(arguments, returnMeta, tmpTableNames, overloaded, nodes, previousLevel), None)
      modifies this`arguments, this`returnMeta, this`tmpTableNames, this`overloaded, this`nodes
      ensures Run(rows, i + 1, env) == (Metadata(arguments, returnMeta, tmpTableNames, overloaded, nodes, previousLevel'), err)
    {
      err, previousLevel' := TakeRow(rows[i], previousLevel);
    }

    method TakeRow(row: Row, previousLevel: map<nat, NodeId>)
      returns (err: Option<BuildError>, previousLevel': map<nat, NodeId>)
      requires PrevInRange(Metadata(arguments, returnMeta, tmpTableNames, overloaded, nodes, previousLevel))
      modifies this`arguments, this`returnMeta, this`tmpTableNames, this`overloaded, this`nodes
      ensures (Metadata(arguments, returnMeta, tmpTableNames, overloaded, nodes, previousLevel'), err) ==
              Step(old(Metadata(arguments, returnMeta, tmpTableNames, overloaded, nodes, previousLevel)), row, env)
    {
      BeginRow(row, previousLevel);
      ghost var st1 := Metadata(arguments, returnMeta, tmpTableNames, overloaded, nodes, previousLevel);
      err := RowError(Metadata(arguments, returnMeta, tmpTableNames, overloaded, nodes, previousLevel), row, |nodes|);
      if err.Some? {
        previousLevel' := previousLevel;
        return;
      }
      var id := |nodes|;
      var parent := if row.dataLevel > 0 && row.dataLevel - 1 in previousLevel
                    then Some(previousLevel[row.dataLevel - 1]) else None;
      previousLevel' := EnterRow(row, previousLevel);
      ghost var st2 := Metadata(arguments, returnMeta, tmpTableNames, overloaded, nodes, previousLevel');
      assert st2 == Enter(st1, row, env);
      StoreRow(row, id, parent, previousLevel');
      assert Metadata(arguments, returnMeta, tmpTableNames, overloaded, nodes, previousLevel') == Admit(st1, row, env);
    }

    /** Lines 114-123: the overload is noted and its three hashes exist. */
    method BeginRow(row: Row, ghost previousLevel: map<nat, NodeId>)
      modifies this`arguments, this`returnMeta, this`tmpTableNames, this`overloaded
      ensures Metadata(arguments, returnMeta, tmpTableNames, overloaded, nodes, previousLevel) ==
              Prelude(old(Metadata(arguments, returnMeta, tmpTableNames, overloaded, nodes, previousLevel)), row)
    {
      var ov := OverloadKey(row);
      overloaded := overloaded || row.overload.Some?;
      arguments := PutIfAbsent(arguments, ov, []);
      returnMeta := PutIfAbsent(returnMeta, ov, None);
      tmpTableNames := PutIfAbsent(tmpTableNames, ov, []);
    }

    /** Lines 144-168: the new hash is created, queued for a temporary table
        when it is a package-local collection, and remembered as the parent
        of the next level when it is composite. */
    method EnterRow(row: Row, previousLevel: map<nat, NodeId>) returns (previousLevel': map<nat, NodeId>)
      requires PrevInRange(Metadata(arguments, returnMeta, tmpTableNames, overloaded, nodes, previousLevel))
      modifies this`tmpTableNames, this`nodes
      ensures Metadata(arguments, returnMeta, tmpTableNames, overloaded, nodes, previousLevel') ==
              Enter(old(Metadata(arguments, returnMeta, tmpTableNames, overloaded, nodes, previousLevel)), row, env)
    {
      var ov := OverloadKey(row);
      var id := |nodes|;
      nodes := nodes + [NewNode(row, env)];
      if NeedsTmpTable(row) {
        tmpTableNames := Put(tmpTableNames, ov, Lookup(tmpTableNames, ov).GetOr([]) + [(TmpTableNameOf(row, env), id)]);
      }
      previousLevel' := previousLevel;
      if CompositeType(row.dataType) {
        previousLevel' := previousLevel[row.dataLevel := id];
      }
    }

    /** Lines 171-188: the hash becomes the overload's return value, a
        top-level argument, or a field or the element of its parent. */
    method StoreRow(row: Row, id: NodeId, parent: Option<NodeId>, ghost previousLevel: map<nat, NodeId>)
      requires parent.Some? ==> parent.value < |nodes|
      modifies this`arguments, this`returnMeta, this`nodes
      ensures Metadata(arguments, returnMeta, tmpTableNames, overloaded, nodes, previousLevel) ==
              Store(old(Metadata(arguments, returnMeta, tmpTableNames, overloaded, nodes, previousLevel)), row, id, parent)
    {
      var ov := OverloadKey(row);
      if IsReturnRow(row) {
        returnMeta := Put(returnMeta, ov, Some(id));
      } else if row.dataLevel == 0 {
        if row.argumentName.Some? {
          var inner := Lookup(arguments, ov).GetOr([]);
          arguments := Put(arguments, ov, Put(inner, Downcase(row.argumentName.value), id));
        }
      } else if parent.Some? {
        nodes := Attach(nodes, parent.value, row, id);
      }
    }

    /** construct_argument_list_for_overloads: for every overload, its
        argument names by position and, of those, the ones passed out. */
    method ConstructArgumentListForOverloads()
      requires DistinctKeys(arguments) && DistinctKeys(argumentList) && DistinctKeys(outList)
      modifies this`overloads, this`argumentList, this`outList
      ensures DistinctKeys(argumentList) && DistinctKeys(outList)
      ensures overloads == Overloads(arguments)
      ensures forall ov :: Lookup(argumentList, ov) ==
                if ov in KeySet(arguments) then Some(ByPosition(Lookup(arguments, ov).value, nodes))
                else Lookup(old(argumentList), ov)
      ensures forall ov :: Lookup(outList, ov) ==
                if ov in KeySet(arguments) then Some(OutList(Lookup(arguments, ov).value, nodes))
                else Lookup(old(outList), ov)
    {
      overloads := Overloads(arguments);
      OverloadsInArguments(arguments);
      ghost var lists0, outs0 := argumentList, outList;
      StoreLists(overloads);
      ListTableAll(arguments, nodes, lists0, overloads, false);
      ListTableAll(arguments, nodes, outs0, overloads, true);
    }

    /** The loop of construct_argument_list_for_overloads over `ovs`. */
    method StoreLists(ovs: seq<nat>)
      modifies this`argumentList, this`outList
      ensures argumentList == ListTable(arguments, nodes, old(argumentList), ovs, false)
      ensures outList == ListTable(arguments, nodes, old(outList), ovs, true)
    {
      var k := 0;
      while k < |ovs|
        invariant 0 <= k <= |ovs|
        invariant argumentList == ListTable(arguments, nodes, old(argumentList), ovs[..k], false)
        invariant outList == ListTable(arguments, nodes, old(outList), ovs[..k], true)
      {
        ListTableStep(arguments, nodes, old(argumentList), ovs, k, false);
        ListTableStep(arguments, nodes, old(outList), ovs, k, true);
        argumentList := Put(argumentList, ovs[k], ListOf(arguments, nodes, ovs[k], false));
        outList := Put(outList, ovs[k], ListOf(arguments, nodes, ovs[k], true));
        k := k + 1;
      }
      assert ovs[..k] == ovs;
    }

    /** ensure_tmp_tables_created: the first call for an overload after the
        metadata has been read sends its CREATE statements, stopping at the
        first failure, and marks the overload only when all of them went
        through; any later call sends nothing. `typeToSql` is
        ProcedureCommon.type_to_sql and `ddlOk` the database's verdict on a
        statement. */
    method EnsureTmpTablesCreated(ov: nat, typeToSql: ArgMeta -> string, ddlOk: string -> bool)
      returns (err: Option<TmpTableError>)
      requires Valid()
      modifies this`executed, this`tmpTablesCreated
      ensures old(tmpTablesCreated).None? || Lookup(old(tmpTablesCreated).value, ov) == Some(true) ==>
                && err.None? && executed == old(executed) && tmpTablesCreated == old(tmpTablesCreated)
      ensures old(tmpTablesCreated).Some? && Lookup(old(tmpTablesCreated).value, ov) != Some(true) ==>
                var regs := Lookup(tmpTableNames, ov).GetOr([]);
                var r := Statements(Creates(regs, nodes, typeToSql), |regs|, ddlOk);
                && err == r.1
                && executed == old(executed) + Executions(r.0)
                && tmpTablesCreated ==
                   if r.1.None? then Some(Put(old(tmpTablesCreated).value, ov, true)) else old(tmpTablesCreated)
    {
      err := None;
      if tmpTablesCreated.None? || Lookup(tmpTablesCreated.value, ov) == Some(true) {
        return;
      }
      var regs := Lookup(tmpTableNames, ov).GetOr([]);
      RegistrationsClosed(arguments, returnMeta, tmpTableNames, nodes, ov);
      var creates := Creates(regs, nodes, typeToSql);
      err := CreateTables(creates, ddlOk);
      if err.None? {
        tmpTablesCreated := Some(Put(tmpTablesCreated.value, ov, true));
      }
    }

    /** Lines 206-224: one CREATE statement per registration, each sent before
        the next is built; the first failure stops the loop. */
    method CreateTables(creates: seq<Result<string, TmpTableError>>, ddlOk: string -> bool)
      returns (err: Option<TmpTableError>)
      modifies this`executed
      ensures var r := Statements(creates, |creates|, ddlOk);
              err == r.1 && executed == old(executed) + Executions(r.0)
    {
      err := None;
      var i := 0;
      while i < |creates| && err.None?
        invariant 0 <= i <= |creates|
        invariant err == Statements(creates, i, ddlOk).1
        invariant executed == old(executed) + Executions(Statements(creates, i, ddlOk).0)
      {
        err := SendStatement(creates, i, ddlOk, old(executed));
        i := i + 1;
      }
      if err.Some? {
        StatementsStop(creates, i, |creates|, ddlOk);
      }
    }

    /** One turn of that loop: the statement for registration `i`, if it could
        be built, goes to the database (line 223), which may reject it. */
    method SendStatement(creates: seq<Result<string, TmpTableError>>, i: nat, ddlOk: string -> bool,
                         ghost before: seq<(string, string)>)
      returns (err: Option<TmpTableError>)
      requires i < |creates| && Statements(creates, i, ddlOk).1.None?
      requires executed == before + Executions(Statements(creates, i, ddlOk).0)
      modifies this`executed
      ensures err == Statements(creates, i + 1, ddlOk).1
      ensures executed == before + Executions(Statements(creates, i + 1, ddlOk).0)
    {
      match creates[i]
      case Err(e) =>
        err := Some(e);
      case Ok(sql) =>
        ExecutionsSnoc(before, Statements(creates, i, ddlOk).0, sql);
        executed := executed + [(AutonomousBlock, sql)];
        err := if ddlOk(sql) then None else Some(DdlFailed(sql));
    }
  }
}
