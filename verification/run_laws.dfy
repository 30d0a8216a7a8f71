/**
 * The row loop of get_argument_metadata (ArgumentMetadata.Run) satisfies the
 * row-level description of MetadataLaws: each lemma here follows one part of
 * the state through one turn of the loop, then by induction over the rows.
 */
module RunLaws {
  import opened Wrappers
  import opened OrderedMaps
  import opened Text
  import opened Catalog
  import opened ArgumentMetadata
  import opened MetadataLaws

  // ---------------------------------------------------------------------
  // One turn of the loop, part by part
  // ---------------------------------------------------------------------

  lemma StepError(st: Metadata, row: Row, env: Env)
    requires PrevInRange(st)
    ensures Step(st, row, env).1 == RowError(Prelude(st, row), row, |st.nodes|)
  {
  }

  lemma StepNodes(st: Metadata, row: Row, env: Env)
    requires PrevInRange(st)
    requires Step(st, row, env).1.None?
    ensures var nodes := Step(st, row, env).0.nodes;
            && |nodes| == |st.nodes| + 1
            && (forall k :: 0 <= k < |st.nodes| ==>
                  nodes[k].meta == st.nodes[k].meta && nodes[k].tmpTableName == st.nodes[k].tmpTableName)
            && nodes[|st.nodes|].meta == MetaOf(row)
            && nodes[|st.nodes|].tmpTableName == TmpTableNameFor(row, env)
  {
    assert Prelude(st, row).nodes == st.nodes;
  }

  lemma StepPrevious(st: Metadata, row: Row, env: Env)
    requires PrevInRange(st)
    requires Step(st, row, env).1.None?
    ensures Step(st, row, env).0.previousLevel ==
            if CompositeType(row.dataType) then st.previousLevel[row.dataLevel := |st.nodes|] else st.previousLevel
  {
    var st1 := Prelude(st, row);
    assert st1.previousLevel == st.previousLevel && st1.nodes == st.nodes;
  }

  lemma StepOverloaded(st: Metadata, row: Row, env: Env)
    requires PrevInRange(st)
    requires Step(st, row, env).1.None?
    ensures Step(st, row, env).0.overloaded == (st.overloaded || row.overload.Some?)
  {
  }

  lemma StepReturn(st: Metadata, row: Row, env: Env)
    requires PrevInRange(st)
    requires Step(st, row, env).1.None?
    ensures Step(st, row, env).0.returnMeta ==
            var m := PutIfAbsent(st.returnMeta, OverloadKey(row), None);
            if IsReturnRow(row) then Put(m, OverloadKey(row), Some(|st.nodes|)) else m
  {
  }

  lemma StepArguments(st: Metadata, row: Row, env: Env)
    requires PrevInRange(st)
    requires Step(st, row, env).1.None?
    ensures Step(st, row, env).0.arguments ==
            var ov := OverloadKey(row);
            var a1 := PutIfAbsent(st.arguments, ov, []);
            if !IsReturnRow(row) && row.dataLevel == 0 && row.argumentName.Some?
            then Put(a1, ov, Put(Lookup(a1, ov).GetOr([]), Downcase(row.argumentName.value), |st.nodes|))
            else a1
  {
  }

  lemma StepTmp(st: Metadata, row: Row, env: Env)
    requires PrevInRange(st)
    requires Step(st, row, env).1.None?
    ensures Step(st, row, env).0.tmpTableNames ==
            var ov := OverloadKey(row);
            var t1 := PutIfAbsent(st.tmpTableNames, ov, []);
            if NeedsTmpTable(row)
            then Put(t1, ov, Lookup(t1, ov).GetOr([]) + [(TmpTableNameOf(row, env), |st.nodes|)])
            else t1
  {
  }

  lemma StepChildren(st: Metadata, row: Row, env: Env)
    requires PrevInRange(st)
    requires Step(st, row, env).1.None?
    ensures Step(st, row, env).0.nodes ==
            var ns := st.nodes + [NewNode(row, env)];
            if row.dataLevel > 0 && row.dataLevel - 1 in st.previousLevel
            then Attach(ns, st.previousLevel[row.dataLevel - 1], row, |st.nodes|)
            else ns
  {
    assert Prelude(st, row).nodes == st.nodes;
  }

  // ---------------------------------------------------------------------
  // The same, read off a run of the loop
  // ---------------------------------------------------------------------

  lemma RunZero(rows: seq<Row>, env: Env)
    ensures Run(rows, 0, env) == (Start, None)
  {
  }

  /** A run that raises nothing ran its prefix without raising. */
  lemma RunTurn(rows: seq<Row>, n: nat, env: Env)
    requires 0 < n <= |rows|
    requires Run(rows, n, env).1.None?
    ensures Run(rows, n - 1, env).1.None?
    ensures Step(Run(rows, n - 1, env).0, rows[n - 1], env).1.None?
  {
  }

  lemma RunTurnNodes(rows: seq<Row>, n: nat, env: Env)
    requires 0 < n <= |rows|
    requires Run(rows, n, env).1.None?
    ensures Run(rows, n - 1, env).1.None?
    ensures var nodes0, nodes := Run(rows, n - 1, env).0.nodes, Run(rows, n, env).0.nodes;
            && |nodes| == |nodes0| + 1
            && (forall k :: 0 <= k < |nodes0| ==>
                  nodes[k].meta == nodes0[k].meta && nodes[k].tmpTableName == nodes0[k].tmpTableName)
            && nodes[|nodes0|].meta == MetaOf(rows[n - 1])
            && nodes[|nodes0|].tmpTableName == TmpTableNameFor(rows[n - 1], env)
  {
    RunTurn(rows, n, env);
    var st, row := Run(rows, n - 1, env).0, rows[n - 1];
    assert Run(rows, n, env) == Step(st, row, env);
    StepNodes(st, row, env);
    assert |st.nodes| == n - 1;
  }

  lemma {:induction false} RunNodes(rows: seq<Row>, n: nat, env: Env)
    requires n <= |rows|
    requires Run(rows, n, env).1.None?
    ensures NodesAgree(rows, n, env, Run(rows, n, env).0.nodes)
  {
    if n == 0 {
      RunZero(rows, env);
    } else {
      RunTurnNodes(rows, n, env);
      RunNodes(rows, n - 1, env);
      NodesAgreeStep(rows, n, env, Run(rows, n - 1, env).0.nodes, Run(rows, n, env).0.nodes);
    }
  }

  lemma RunTurnPrevious(rows: seq<Row>, n: nat, env: Env)
    requires 0 < n <= |rows|
    requires Run(rows, n, env).1.None?
    ensures Run(rows, n - 1, env).1.None?
    ensures var st := Run(rows, n - 1, env).0;
            Run(rows, n, env).0.previousLevel ==
            if CompositeType(rows[n - 1].dataType) then st.previousLevel[rows[n - 1].dataLevel := |st.nodes|]
            else st.previousLevel
  {
    RunTurn(rows, n, env);
    var st, row := Run(rows, n - 1, env).0, rows[n - 1];
    assert Run(rows, n, env) == Step(st, row, env);
    StepPrevious(st, row, env);
    assert |st.nodes| == n - 1;
  }

  /** The previous-level table is the one the rows determine. */
  lemma {:induction false} RunPrevious(rows: seq<Row>, n: nat, env: Env)
    requires n <= |rows|
    requires Run(rows, n, env).1.None?
    ensures Run(rows, n, env).0.previousLevel == PreviousLevelTable(rows, n)
  {
    if n == 0 {
      RunZero(rows, env);
    } else {
      RunTurnPrevious(rows, n, env);
      RunPrevious(rows, n - 1, env);
      RunNodes(rows, n - 1, env);
    }
  }

  lemma RunTurnOverloaded(rows: seq<Row>, n: nat, env: Env)
    requires 0 < n <= |rows|
    requires Run(rows, n, env).1.None?
    ensures Run(rows, n - 1, env).1.None?
    ensures Run(rows, n, env).0.overloaded == (Run(rows, n - 1, env).0.overloaded || rows[n - 1].overload.Some?)
  {
    RunTurn(rows, n, env);
    var st, row := Run(rows, n - 1, env).0, rows[n - 1];
    assert Run(rows, n, env) == Step(st, row, env);
    StepOverloaded(st, row, env);
    assert |st.nodes| == n - 1;
  }

  lemma {:induction false} RunOverloaded(rows: seq<Row>, n: nat, env: Env)
    requires n <= |rows|
    requires Run(rows, n, env).1.None?
    ensures OverloadedAgrees(rows, n, Run(rows, n, env).0.overloaded)
  {
    if n == 0 {
      RunZero(rows, env);
    } else {
      RunTurnOverloaded(rows, n, env);
      RunOverloaded(rows, n - 1, env);
      OverloadedAgreesStep(rows, n, Run(rows, n - 1, env).0.overloaded, Run(rows, n, env).0.overloaded);
    }
  }

  lemma RunTurnReturn(rows: seq<Row>, n: nat, env: Env)
    requires 0 < n <= |rows|
    requires Run(rows, n, env).1.None?
    ensures Run(rows, n - 1, env).1.None?
    ensures Run(rows, n, env).0.returnMeta ==
            var m := PutIfAbsent(Run(rows, n - 1, env).0.returnMeta, OverloadKey(rows[n - 1]), None);
            if IsReturnRow(rows[n - 1]) then Put(m, OverloadKey(rows[n - 1]), Some(n - 1)) else m
  {
    RunTurn(rows, n, env);
    var st, row := Run(rows, n - 1, env).0, rows[n - 1];
    assert Run(rows, n, env) == Step(st, row, env);
    StepReturn(st, row, env);
    assert |st.nodes| == n - 1;
  }

  lemma {:induction false} RunReturn(rows: seq<Row>, n: nat, env: Env)
    requires n <= |rows|
    requires Run(rows, n, env).1.None?
    ensures ReturnAgrees(rows, n, Run(rows, n, env).0.returnMeta)
  {
    if n == 0 {
      RunZero(rows, env);
    } else {
      RunTurnReturn(rows, n, env);
      RunReturn(rows, n - 1, env);
      ReturnAgreesStep(rows, n, Run(rows, n - 1, env).0.returnMeta, Run(rows, n, env).0.returnMeta);
    }
  }

  lemma RunTurnArguments(rows: seq<Row>, n: nat, env: Env)
    requires 0 < n <= |rows|
    requires Run(rows, n, env).1.None?
    ensures Run(rows, n - 1, env).1.None?
    ensures Run(rows, n, env).0.arguments == ArgumentsAfter(rows, n, Run(rows, n - 1, env).0.arguments)
  {
    RunTurn(rows, n, env);
    var st, row := Run(rows, n - 1, env).0, rows[n - 1];
    assert Run(rows, n, env) == Step(st, row, env);
    StepArguments(st, row, env);
    assert |st.nodes| == n - 1;
  }

  lemma {:induction false} RunArguments(rows: seq<Row>, n: nat, env: Env)
    requires n <= |rows|
    requires Run(rows, n, env).1.None?
    ensures ArgumentsAgree(rows, n, Run(rows, n, env).0.arguments)
  {
    if n == 0 {
      RunZero(rows, env);
    } else {
      RunTurnArguments(rows, n, env);
      RunArguments(rows, n - 1, env);
      ArgumentsAgreeStep(rows, n, Run(rows, n - 1, env).0.arguments);
    }
  }

  lemma RunTurnTmp(rows: seq<Row>, n: nat, env: Env)
    requires 0 < n <= |rows|
    requires Run(rows, n, env).1.None?
    ensures Run(rows, n - 1, env).1.None?
    ensures Run(rows, n, env).0.tmpTableNames == TmpAfter(rows, n, env, Run(rows, n - 1, env).0.tmpTableNames)
  {
    RunTurn(rows, n, env);
    var st, row := Run(rows, n - 1, env).0, rows[n - 1];
    assert Run(rows, n, env) == Step(st, row, env);
    StepTmp(st, row, env);
    assert |st.nodes| == n - 1;
  }

  lemma {:induction false} RunTmp(rows: seq<Row>, n: nat, env: Env)
    requires n <= |rows|
    requires Run(rows, n, env).1.None?
    ensures TmpAgrees(rows, n, env, Run(rows, n, env).0.tmpTableNames)
  {
    if n == 0 {
      RunZero(rows, env);
    } else {
      RunTurnTmp(rows, n, env);
      RunTmp(rows, n - 1, env);
      TmpAgreesStep(rows, n, env, Run(rows, n - 1, env).0.tmpTableNames);
    }
  }

  /** The parent the loop finds in the previous-level table is the row's ParentOf. */
  lemma RunTurnChildren(rows: seq<Row>, n: nat, env: Env)
    requires 0 < n <= |rows|
    requires Run(rows, n, env).1.None?
    ensures Run(rows, n - 1, env).1.None?
    ensures Run(rows, n, env).0.nodes == ChildrenAfter(rows, n, env, Run(rows, n - 1, env).0.nodes)
  {
    RunTurn(rows, n, env);
    var st, row := Run(rows, n - 1, env).0, rows[n - 1];
    assert Run(rows, n, env) == Step(st, row, env);
    StepChildren(st, row, env);
    assert |st.nodes| == n - 1;
    RunPrevious(rows, n - 1, env);
    PreviousLevelTableIsLastComposite(rows, n - 1);
    if row.dataLevel > 0 {
      assert ParentOf(rows, n - 1) == LastComposite(rows, n - 1, row.dataLevel - 1);
    }
  }

  /** When RowError raises nothing. */
  lemma RowErrorNone(st: Metadata, row: Row, id: nat)
    requires PrevInRange(st)
    ensures RowError(st, row, id).None? <==>
            && !(row.typeSubname.Some? && CollectionType(row.dataType) && row.dataLevel > 0)
            && !(row.typeSubname.Some? && !CollectionType(row.dataType) && row.dataType != PlsqlRecord
                 && OverloadKey(row) == 0)
            && (row.dataLevel > 0 ==>
                  row.dataLevel - 1 in st.previousLevel
                  && (st.nodes[st.previousLevel[row.dataLevel - 1]].meta.dataType == PlsqlRecord
                      ==> row.argumentName.Some?))
  {
  }

  /** The previous-level table's entry one level up is the row's ParentOf. */
  lemma ParentFromTable(rows: seq<Row>, n: nat, env: Env, st: Metadata)
    requires 0 < n <= |rows| && rows[n - 1].dataLevel > 0
    requires PrevInRange(st)
    requires st.previousLevel == PreviousLevelTable(rows, n - 1)
    requires NodesAgree(rows, n - 1, env, st.nodes)
    ensures var l := rows[n - 1].dataLevel - 1;
            && (l in st.previousLevel <==> ParentOf(rows, n - 1).Some?)
            && (l in st.previousLevel ==>
                  && st.previousLevel[l] == ParentOf(rows, n - 1).value
                  && st.nodes[st.previousLevel[l]].meta.dataType == rows[ParentOf(rows, n - 1).value].dataType)
  {
    PreviousLevelTableIsLastComposite(rows, n - 1);
  }

  /** Row `n - 1` raises nothing exactly when it is admissible. */
  lemma RowErrorAdmissible(rows: seq<Row>, n: nat, env: Env, st: Metadata)
    requires 0 < n <= |rows|
    requires PrevInRange(st)
    requires st.previousLevel == PreviousLevelTable(rows, n - 1)
    requires NodesAgree(rows, n - 1, env, st.nodes)
    ensures RowError(Prelude(st, rows[n - 1]), rows[n - 1], n - 1).None? <==> Admissible(rows, n - 1)
  {
    var st1 := Prelude(st, rows[n - 1]);
    RowErrorNone(st1, rows[n - 1], n - 1);
    if rows[n - 1].dataLevel > 0 {
      ParentFromTable(rows, n, env, st);
    }
  }

  /** After a prefix that raised nothing, one more row raises nothing exactly
      when it is admissible. */
  lemma RunTurnError(rows: seq<Row>, n: nat, env: Env)
    requires 0 < n <= |rows|
    requires Run(rows, n - 1, env).1.None?
    ensures Run(rows, n, env).1.None? <==> Admissible(rows, n - 1)
  {
    var st := Run(rows, n - 1, env).0;
    StepError(st, rows[n - 1], env);
    RunPrevious(rows, n - 1, env);
    RunNodes(rows, n - 1, env);
    RowErrorAdmissible(rows, n, env, st);
  }

  /** Once the loop has raised, it stays raised. */
  lemma RunTurnRaised(rows: seq<Row>, n: nat, env: Env)
    requires 0 < n <= |rows|
    requires Run(rows, n - 1, env).1.Some?
    ensures Run(rows, n, env) == Run(rows, n - 1, env)
  {
  }

  ghost predicate AllAdmissible(rows: seq<Row>, n: nat)
    requires n <= |rows|
  {
    forall k :: 0 <= k < n ==> Admissible(rows, k)
  }

  lemma AllAdmissibleStep(rows: seq<Row>, n: nat)
    requires 0 < n <= |rows|
    ensures AllAdmissible(rows, n) <==> AllAdmissible(rows, n - 1) && Admissible(rows, n - 1)
  {
  }

  /** The loop raises nothing on the first `n` rows exactly when every one of
      them is admissible. */
  lemma RunSucceeds(rows: seq<Row>, n: nat, env: Env)
    requires n <= |rows|
    ensures Run(rows, n, env).1.None? <==> AllAdmissible(rows, n)
  {
    RunZero(rows, env);
    var k := 0;
    while k < n
      invariant k <= n
      invariant Run(rows, k, env).1.None? <==> AllAdmissible(rows, k)
    {
      AllAdmissibleStep(rows, k + 1);
      if Run(rows, k, env).1.None? {
        RunTurnError(rows, k + 1, env);
        assert Run(rows, k + 1, env).1.None? <==> Admissible(rows, k);
      } else {
        RunTurnRaised(rows, k + 1, env);
        assert Run(rows, k + 1, env).1.Some?;
      }
      k := k + 1;
    }
  }

  lemma {:induction false} RunChildren(rows: seq<Row>, n: nat, env: Env)
    requires n <= |rows|
    requires Run(rows, n, env).1.None?
    ensures ChildrenAgree(rows, n, Run(rows, n, env).0.nodes)
  {
    if n == 0 {
      RunZero(rows, env);
    } else {
      RunTurnChildren(rows, n, env);
      RunChildren(rows, n - 1, env);
      RunNodes(rows, n - 1, env);
      RunTurnError(rows, n, env);
      ChildrenAgreeStep(rows, n, env, Run(rows, n - 1, env).0.nodes);
    }
  }

  // ---------------------------------------------------------------------
  // What the loop of GetArgumentMetadata needs
  // ---------------------------------------------------------------------

  /** Once a row has raised, the remaining rows change nothing. */
  lemma RunRaisedStays(rows: seq<Row>, m: nat, n: nat, env: Env)
    requires m <= n <= |rows|
    requires Run(rows, m, env).1.Some?
    ensures Run(rows, n, env) == Run(rows, m, env)
  {
    var raised := Run(rows, m, env);
    var k := m;
    while k < n
      invariant m <= k <= n
      invariant Run(rows, k, env) == raised
    {
      RunTurnRaised(rows, k + 1, env);
      k := k + 1;
    }
  }
}
