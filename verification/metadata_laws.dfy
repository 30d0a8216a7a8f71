/**
 * What the row loop of get_argument_metadata computes, stated over the rows
 * alone: which row becomes each overload's return value, which rows are its
 * top-level arguments, where every nested row is attached, which temporary
 * tables are queued, and exactly when the loop raises.
 */
module MetadataLaws {
  import opened Wrappers
  import opened OrderedMaps
  import opened Text
  import opened Catalog
  import opened ArgumentMetadata

  /** The last composite row before row `n` at nesting level `level`: the
      previous-level table's entry for that level. */
  function LastComposite(rows: seq<Row>, n: nat, level: nat): (r: Option<nat>)
    requires n <= |rows|
    ensures r.Some? ==> r.value < n && CompositeType(rows[r.value].dataType) && rows[r.value].dataLevel == level
  {
    if n == 0 then None
    else if CompositeType(rows[n - 1].dataType) && rows[n - 1].dataLevel == level then Some(n - 1)
    else LastComposite(rows, n - 1, level)
  }

  /** The row a nested row attaches to: the last composite row one level up. */
  function ParentOf(rows: seq<Row>, k: nat): (r: Option<nat>)
    requires k < |rows|
    ensures r.Some? ==> r.value < k && CompositeType(rows[r.value].dataType)
                        && rows[r.value].dataLevel + 1 == rows[k].dataLevel
  {
    if rows[k].dataLevel == 0 then None else LastComposite(rows, k, rows[k].dataLevel - 1)
  }

  /** The overload keys the first `n` rows carry. */
  ghost function Seen(rows: seq<Row>, n: nat): set<nat>
    requires n <= |rows|
  {
    set k | 0 <= k < n :: OverloadKey(rows[k])
  }

  function LastReturn(rows: seq<Row>, n: nat, ov: nat): (r: Option<nat>)
    requires n <= |rows|
    ensures r.Some? ==> r.value < n && IsReturnRow(rows[r.value]) && OverloadKey(rows[r.value]) == ov
  {
    if n == 0 then None
    else if IsReturnRow(rows[n - 1]) && OverloadKey(rows[n - 1]) == ov then Some(n - 1)
    else LastReturn(rows, n - 1, ov)
  }

  /** A named level-0 row of overload `ov` that is not a return value. */
  predicate IsTopLevelArgument(row: Row, ov: nat, name: string) {
    !IsReturnRow(row) && row.dataLevel == 0 && OverloadKey(row) == ov
    && row.argumentName.Some? && Downcase(row.argumentName.value) == name
  }

  function LastTopLevel(rows: seq<Row>, n: nat, ov: nat, name: string): (r: Option<nat>)
    requires n <= |rows|
    ensures r.Some? ==> r.value < n && IsTopLevelArgument(rows[r.value], ov, name)
  {
    if n == 0 then None
    else if IsTopLevelArgument(rows[n - 1], ov, name) then Some(n - 1)
    else LastTopLevel(rows, n - 1, ov, name)
  }

  /** The last row before `n` attached to row `p`. */
  function LastChild(rows: seq<Row>, n: nat, p: nat): (r: Option<nat>)
    requires n <= |rows|
    ensures r.Some? ==> r.value < n && ParentOf(rows, r.value) == Some(p)
  {
    if n == 0 then None
    else if ParentOf(rows, n - 1) == Some(p) then Some(n - 1)
    else LastChild(rows, n - 1, p)
  }

  predicate IsFieldOf(rows: seq<Row>, k: nat, p: nat, name: string)
    requires k < |rows|
  {
    ParentOf(rows, k) == Some(p) && rows[k].argumentName.Some? && Downcase(rows[k].argumentName.value) == name
  }

  /** The last row before `n` attached to row `p` under the field name `name`. */
  function LastField(rows: seq<Row>, n: nat, p: nat, name: string): (r: Option<nat>)
    requires n <= |rows|
    ensures r.Some? ==> r.value < n && IsFieldOf(rows, r.value, p, name)
  {
    if n == 0 then None
    else if IsFieldOf(rows, n - 1, p, name) then Some(n - 1)
    else LastField(rows, n - 1, p, name)
  }

  /** The temporary tables overload `ov` queues from the first `n` rows, in row order. */
  function TmpRegistrations(rows: seq<Row>, n: nat, ov: nat, env: Env): (r: seq<(string, NodeId)>)
    requires n <= |rows|
    ensures forall i :: 0 <= i < |r| ==>
              && r[i].1 < n && NeedsTmpTable(rows[r[i].1])
              && OverloadKey(rows[r[i].1]) == ov && r[i].0 == TmpTableNameOf(rows[r[i].1], env)
  {
    if n == 0 then []
    else
      TmpRegistrations(rows, n - 1, ov, env)
      + (if NeedsTmpTable(rows[n - 1]) && OverloadKey(rows[n - 1]) == ov
         then [(TmpTableNameOf(rows[n - 1], env), n - 1)] else [])
  }

  /** Row `k` raises nothing: a package-local collection only at level 0, a
      package-local type other than a record or collection only outside the
      default overload, and a nested row has a parent (which, for a record,
      needs the row to be named). */
  predicate Admissible(rows: seq<Row>, k: nat)
    requires k < |rows|
  {
    var row := rows[k];
    && !(row.typeSubname.Some? && CollectionType(row.dataType) && row.dataLevel > 0)
    && !(row.typeSubname.Some? && !CollectionType(row.dataType) && row.dataType != PlsqlRecord
         && OverloadKey(row) == 0)
    && (row.dataLevel > 0 ==>
          ParentOf(rows, k).Some?
          && (rows[ParentOf(rows, k).value].dataType == PlsqlRecord ==> row.argumentName.Some?))
  }

  /** The previous-level table after `n` rows: every composite row overwrites
      the entry for its own level. */
  function PreviousLevelTable(rows: seq<Row>, n: nat): map<nat, NodeId>
    requires n <= |rows|
  {
    if n == 0 then map[]
    else if CompositeType(rows[n - 1].dataType) then PreviousLevelTable(rows, n - 1)[rows[n - 1].dataLevel := n - 1]
    else PreviousLevelTable(rows, n - 1)
  }

  /** The table holds, for every level, the last composite row seen at that
      level, whatever its overload: the parent the next deeper row attaches to. */
  lemma {:induction false} PreviousLevelTableIsLastComposite(rows: seq<Row>, n: nat)
    requires n <= |rows|
    ensures forall l :: l in PreviousLevelTable(rows, n) <==> LastComposite(rows, n, l).Some?
    ensures forall l :: l in PreviousLevelTable(rows, n) ==> PreviousLevelTable(rows, n)[l] == LastComposite(rows, n, l).value
  {
    if n > 0 {
      PreviousLevelTableIsLastComposite(rows, n - 1);
    }
  }


  lemma SeenStep(rows: seq<Row>, n: nat)
    requires 0 < n <= |rows|
    ensures Seen(rows, n) == Seen(rows, n - 1) + {OverloadKey(rows[n - 1])}
  {
    assert OverloadKey(rows[n - 1]) in Seen(rows, n);
  }

  // ---------------------------------------------------------------------
  // What each part of the state holds after `n` rows, and how one more row
  // keeps it so. The row loop itself is connected to these in RunLaws.
  // ---------------------------------------------------------------------

  /** Node k was built from row k: its metadata and its temporary-table name. */
  ghost predicate NodesAgree(rows: seq<Row>, n: nat, env: Env, nodes: seq<Node>)
    requires n <= |rows|
  {
    && |nodes| == n
    && forall k :: 0 <= k < n ==>
         nodes[k].meta == MetaOf(rows[k]) && nodes[k].tmpTableName == TmpTableNameFor(rows[k], env)
  }

  lemma NodesAgreeStep(rows: seq<Row>, n: nat, env: Env, nodes0: seq<Node>, nodes: seq<Node>)
    requires 0 < n <= |rows|
    requires NodesAgree(rows, n - 1, env, nodes0)
    requires |nodes| == n
    requires forall k :: 0 <= k < n - 1 ==>
               nodes[k].meta == nodes0[k].meta && nodes[k].tmpTableName == nodes0[k].tmpTableName
    requires nodes[n - 1].meta == MetaOf(rows[n - 1]) && nodes[n - 1].tmpTableName == TmpTableNameFor(rows[n - 1], env)
    ensures NodesAgree(rows, n, env, nodes)
  {
  }

  /** `@overloaded` is set exactly when some row carried an overload number. */
  ghost predicate OverloadedAgrees(rows: seq<Row>, n: nat, overloaded: bool)
    requires n <= |rows|
  {
    overloaded <==> exists k :: 0 <= k < n && rows[k].overload.Some?
  }

  lemma OverloadedAgreesStep(rows: seq<Row>, n: nat, b0: bool, b: bool)
    requires 0 < n <= |rows|
    requires OverloadedAgrees(rows, n - 1, b0)
    requires b == (b0 || rows[n - 1].overload.Some?)
    ensures OverloadedAgrees(rows, n, b)
  {
    if b0 {
      var k :| 0 <= k < n - 1 && rows[k].overload.Some?;
      assert 0 <= k < n;
    }
  }

  /** @return has one key per overload seen (a nil overload counting as 0),
      and holds the last return row of that overload, or nil when it has none. */
  ghost predicate ReturnAgrees(rows: seq<Row>, n: nat, m: OMap<nat, Option<NodeId>>)
    requires n <= |rows|
  {
    && DistinctKeys(m)
    && KeySet(m) == Seen(rows, n)
    && forall ov :: Lookup(m, ov) == if ov in Seen(rows, n) then Some(LastReturn(rows, n, ov)) else None
  }

  lemma ReturnAgreesStep(rows: seq<Row>, n: nat, m0: OMap<nat, Option<NodeId>>, m: OMap<nat, Option<NodeId>>)
    requires 0 < n <= |rows|
    requires ReturnAgrees(rows, n - 1, m0)
    requires m == var m1 := PutIfAbsent(m0, OverloadKey(rows[n - 1]), None);
                 if IsReturnRow(rows[n - 1]) then Put(m1, OverloadKey(rows[n - 1]), Some(n - 1)) else m1
    ensures ReturnAgrees(rows, n, m)
  {
    var row := rows[n - 1];
    var ov0 := OverloadKey(row);
    var m1 := PutIfAbsent(m0, ov0, None);
    forall ov ensures Lookup(m, ov) == if ov in Seen(rows, n) then Some(LastReturn(rows, n, ov)) else None {
      assert Lookup(m0, ov) == if ov in Seen(rows, n - 1) then Some(LastReturn(rows, n - 1, ov)) else None;
      ReturnAt(rows, n, m0, ov);
    }
    SeenStep(rows, n);
    LookupPutIfAbsent(m0, ov0, None, ov0);
    if IsReturnRow(row) {
      LookupPut(m1, ov0, Some(n - 1), ov0);
    }
  }

  /** One row updates the return entry of `ov` as the declarative definition says. */
  lemma ReturnAt(rows: seq<Row>, n: nat, m0: OMap<nat, Option<NodeId>>, ov: nat)
    requires 0 < n <= |rows|
    requires DistinctKeys(m0)
    requires Lookup(m0, ov) == if ov in Seen(rows, n - 1) then Some(LastReturn(rows, n - 1, ov)) else None
    ensures var m1 := PutIfAbsent(m0, OverloadKey(rows[n - 1]), None);
            Lookup(if IsReturnRow(rows[n - 1]) then Put(m1, OverloadKey(rows[n - 1]), Some(n - 1)) else m1, ov) ==
            if ov in Seen(rows, n) then Some(LastReturn(rows, n, ov)) else None
  {
    var ov0 := OverloadKey(rows[n - 1]);
    var m1 := PutIfAbsent(m0, ov0, None);
    SeenStep(rows, n);
    LookupPutIfAbsent(m0, ov0, None, ov);
    if IsReturnRow(rows[n - 1]) {
      LookupPut(m1, ov0, Some(n - 1), ov);
    }
  }

  /** The argument hash of overload `ov`: every name maps to the last named
      level-0 row of that overload under that lower-cased name, never to a
      return row. */
  ghost predicate InnerAgrees(rows: seq<Row>, n: nat, ov: nat, inner: OMap<string, NodeId>)
    requires n <= |rows|
  {
    && DistinctKeys(inner)
    && forall name :: Lookup(inner, name) == LastTopLevel(rows, n, ov, name)
  }

  /** @arguments has one key per overload seen, each holding its argument hash. */
  ghost predicate ArgumentsAgree(rows: seq<Row>, n: nat, a: OMap<nat, OMap<string, NodeId>>)
    requires n <= |rows|
  {
    && DistinctKeys(a)
    && KeySet(a) == Seen(rows, n)
    && forall ov :: ov in KeySet(a) ==> InnerAgrees(rows, n, ov, Lookup(a, ov).value)
  }

  /** An overload not seen yet has no arguments. */
  lemma LastTopLevelUnseen(rows: seq<Row>, n: nat, ov: nat, name: string)
    requires n <= |rows|
    requires ov !in Seen(rows, n)
    ensures LastTopLevel(rows, n, ov, name).None?
  {
  }

  lemma InnerAgreesStep(rows: seq<Row>, n: nat, ov: nat, inner0: OMap<string, NodeId>, inner: OMap<string, NodeId>)
    requires 0 < n <= |rows|
    requires InnerAgrees(rows, n - 1, ov, inner0)
    requires inner == var row := rows[n - 1];
                      if !IsReturnRow(row) && row.dataLevel == 0 && OverloadKey(row) == ov && row.argumentName.Some?
                      then Put(inner0, Downcase(row.argumentName.value), n - 1) else inner0
    ensures InnerAgrees(rows, n, ov, inner)
  {
    var row := rows[n - 1];
    if !IsReturnRow(row) && row.dataLevel == 0 && OverloadKey(row) == ov && row.argumentName.Some? {
      var nm := Downcase(row.argumentName.value);
      forall name ensures Lookup(inner, name) == LastTopLevel(rows, n, ov, name) {
        assert Lookup(inner0, name) == LastTopLevel(rows, n - 1, ov, name);
        TopLevelAt(rows, n, ov, inner0, nm, name);
      }
      LookupPut(inner0, nm, n - 1, nm);
    } else {
      forall name ensures Lookup(inner, name) == LastTopLevel(rows, n, ov, name) {
        assert Lookup(inner0, name) == LastTopLevel(rows, n - 1, ov, name);
        assert !IsTopLevelArgument(row, ov, name);
      }
    }
  }

  /** The argument `name` of overload `ov` after row n-1, a top-level argument
      of `ov`, is stored under `nm`. */
  lemma TopLevelAt(rows: seq<Row>, n: nat, ov: nat, inner0: OMap<string, NodeId>, nm: string, name: string)
    requires 0 < n <= |rows|
    requires var row := rows[n - 1];
             !IsReturnRow(row) && row.dataLevel == 0 && OverloadKey(row) == ov && row.argumentName.Some?
    requires nm == Downcase(rows[n - 1].argumentName.value)
    requires DistinctKeys(inner0)
    requires Lookup(inner0, name) == LastTopLevel(rows, n - 1, ov, name)
    ensures Lookup(Put(inner0, nm, n - 1), name) == LastTopLevel(rows, n, ov, name)
  {
    LookupPut(inner0, nm, n - 1, name);
    assert IsTopLevelArgument(rows[n - 1], ov, name) <==> name == nm;
  }

  /** The row loop's update of @arguments for row `n - 1`. */
  function ArgumentsAfter(rows: seq<Row>, n: nat, a0: OMap<nat, OMap<string, NodeId>>): OMap<nat, OMap<string, NodeId>>
    requires 0 < n <= |rows|
  {
    var row := rows[n - 1];
    var ov := OverloadKey(row);
    var a1 := PutIfAbsent(a0, ov, []);
    if !IsReturnRow(row) && row.dataLevel == 0 && row.argumentName.Some?
    then Put(a1, ov, Put(Lookup(a1, ov).GetOr([]), Downcase(row.argumentName.value), n - 1))
    else a1
  }

  lemma ArgumentsAfterAt(rows: seq<Row>, n: nat, a0: OMap<nat, OMap<string, NodeId>>, ov: nat)
    requires 0 < n <= |rows|
    requires ArgumentsAgree(rows, n - 1, a0)
    requires ov in KeySet(ArgumentsAfter(rows, n, a0))
    ensures InnerAgrees(rows, n, ov, Lookup(ArgumentsAfter(rows, n, a0), ov).value)
  {
    var ov0 := OverloadKey(rows[n - 1]);
    if ov == ov0 {
      ArgumentsAfterSame(rows, n, a0);
    } else {
      assert ov in KeySet(a0);
      ArgumentsAfterOther(rows, n, a0, ov);
    }
  }

  /** The overload of row `n - 1` gains that row's argument, if it names one. */
  lemma ArgumentsAfterSame(rows: seq<Row>, n: nat, a0: OMap<nat, OMap<string, NodeId>>)
    requires 0 < n <= |rows|
    requires DistinctKeys(a0) && KeySet(a0) == Seen(rows, n - 1)
    requires var ov0 := OverloadKey(rows[n - 1]);
             ov0 in KeySet(a0) ==> InnerAgrees(rows, n - 1, ov0, Lookup(a0, ov0).value)
    ensures var ov0 := OverloadKey(rows[n - 1]);
            && Lookup(ArgumentsAfter(rows, n, a0), ov0).Some?
            && InnerAgrees(rows, n, ov0, Lookup(ArgumentsAfter(rows, n, a0), ov0).value)
  {
    var row := rows[n - 1];
    var ov0 := OverloadKey(row);
    var a1 := PutIfAbsent(a0, ov0, []);
    var a := ArgumentsAfter(rows, n, a0);
    LookupPutIfAbsent(a0, ov0, [], ov0);
    var inner1 := Lookup(a1, ov0).value;
    assert InnerAgrees(rows, n - 1, ov0, inner1) by {
      if ov0 !in KeySet(a0) {
        forall name ensures Lookup(inner1, name) == LastTopLevel(rows, n - 1, ov0, name) {
          LastTopLevelUnseen(rows, n - 1, ov0, name);
        }
      }
    }
    if !IsReturnRow(row) && row.dataLevel == 0 && row.argumentName.Some? {
      LookupPut(a1, ov0, Put(inner1, Downcase(row.argumentName.value), n - 1), ov0);
    }
    InnerAgreesStep(rows, n, ov0, inner1, Lookup(a, ov0).value);
  }

  /** Every other overload keeps its argument hash. */
  lemma ArgumentsAfterOther(rows: seq<Row>, n: nat, a0: OMap<nat, OMap<string, NodeId>>, ov: nat)
    requires 0 < n <= |rows|
    requires DistinctKeys(a0) && ov in KeySet(a0) && ov != OverloadKey(rows[n - 1])
    requires InnerAgrees(rows, n - 1, ov, Lookup(a0, ov).value)
    ensures Lookup(ArgumentsAfter(rows, n, a0), ov) == Lookup(a0, ov)
    ensures InnerAgrees(rows, n, ov, Lookup(a0, ov).value)
  {
    var row := rows[n - 1];
    var ov0 := OverloadKey(row);
    var a1 := PutIfAbsent(a0, ov0, []);
    LookupPutIfAbsent(a0, ov0, [], ov);
    if !IsReturnRow(row) && row.dataLevel == 0 && row.argumentName.Some? {
      LookupPut(a1, ov0, Put(Lookup(a1, ov0).GetOr([]), Downcase(row.argumentName.value), n - 1), ov);
    }
    InnerAgreesStep(rows, n, ov, Lookup(a0, ov).value, Lookup(a0, ov).value);
  }

  lemma ArgumentsAgreeStep(rows: seq<Row>, n: nat, a0: OMap<nat, OMap<string, NodeId>>)
    requires 0 < n <= |rows|
    requires ArgumentsAgree(rows, n - 1, a0)
    ensures ArgumentsAgree(rows, n, ArgumentsAfter(rows, n, a0))
  {
    var row := rows[n - 1];
    var ov0 := OverloadKey(row);
    var a1 := PutIfAbsent(a0, ov0, []);
    SeenStep(rows, n);
    LookupPutIfAbsent(a0, ov0, [], ov0);
    if !IsReturnRow(row) && row.dataLevel == 0 && row.argumentName.Some? {
      LookupPut(a1, ov0, Put(Lookup(a1, ov0).GetOr([]), Downcase(row.argumentName.value), n - 1), ov0);
    }
    forall ov | ov in KeySet(ArgumentsAfter(rows, n, a0))
      ensures InnerAgrees(rows, n, ov, Lookup(ArgumentsAfter(rows, n, a0), ov).value)
    {
      ArgumentsAfterAt(rows, n, a0, ov);
    }
  }

  /** @tmp_table_names has one key per overload seen, each holding the
      temporary tables that overload queued, in row order. */
  ghost predicate TmpAgrees(rows: seq<Row>, n: nat, env: Env, t: OMap<nat, seq<(string, NodeId)>>)
    requires n <= |rows|
  {
    && DistinctKeys(t)
    && KeySet(t) == Seen(rows, n)
    && forall ov :: Lookup(t, ov) == if ov in Seen(rows, n) then Some(TmpRegistrations(rows, n, ov, env)) else None
  }

  lemma TmpRegistrationsUnseen(rows: seq<Row>, n: nat, ov: nat, env: Env)
    requires n <= |rows|
    requires ov !in Seen(rows, n)
    ensures TmpRegistrations(rows, n, ov, env) == []
  {
  }

  /** The row loop's update of @tmp_table_names for row `n - 1`. */
  function TmpAfter(rows: seq<Row>, n: nat, env: Env, t0: OMap<nat, seq<(string, NodeId)>>): OMap<nat, seq<(string, NodeId)>>
    requires 0 < n <= |rows|
  {
    var row := rows[n - 1];
    var ov := OverloadKey(row);
    var t1 := PutIfAbsent(t0, ov, []);
    if NeedsTmpTable(row)
    then Put(t1, ov, Lookup(t1, ov).GetOr([]) + [(TmpTableNameOf(row, env), n - 1)])
    else t1
  }

  lemma TmpRegistrationsStep(rows: seq<Row>, n: nat, ov: nat, env: Env)
    requires 0 < n <= |rows|
    ensures TmpRegistrations(rows, n, ov, env) ==
            if NeedsTmpTable(rows[n - 1]) && OverloadKey(rows[n - 1]) == ov
            then TmpRegistrations(rows, n - 1, ov, env) + [(TmpTableNameOf(rows[n - 1], env), n - 1)]
            else TmpRegistrations(rows, n - 1, ov, env)
  {
    if !(NeedsTmpTable(rows[n - 1]) && OverloadKey(rows[n - 1]) == ov) {
      assert TmpRegistrations(rows, n - 1, ov, env) + [] == TmpRegistrations(rows, n - 1, ov, env);
    }
  }

  lemma TmpAfterAt(rows: seq<Row>, n: nat, env: Env, t0: OMap<nat, seq<(string, NodeId)>>, ov: nat)
    requires 0 < n <= |rows|
    requires DistinctKeys(t0) && KeySet(t0) == Seen(rows, n - 1)
    requires Lookup(t0, ov) == if ov in Seen(rows, n - 1) then Some(TmpRegistrations(rows, n - 1, ov, env)) else None
    ensures Lookup(TmpAfter(rows, n, env, t0), ov) ==
            if ov in Seen(rows, n) then Some(TmpRegistrations(rows, n, ov, env)) else None
  {
    SeenStep(rows, n);
    TmpRegistrationsStep(rows, n, ov, env);
    if ov == OverloadKey(rows[n - 1]) {
      TmpAfterSame(rows, n, env, t0);
    } else {
      TmpAfterOther(rows, n, env, t0, ov);
    }
  }

  /** The overload of row `n - 1` gains that row's registration, if it needs one. */
  lemma TmpAfterSame(rows: seq<Row>, n: nat, env: Env, t0: OMap<nat, seq<(string, NodeId)>>)
    requires 0 < n <= |rows|
    requires DistinctKeys(t0)
    requires var ov0 := OverloadKey(rows[n - 1]);
             Lookup(t0, ov0) == if ov0 in Seen(rows, n - 1) then Some(TmpRegistrations(rows, n - 1, ov0, env)) else None
    ensures var ov0 := OverloadKey(rows[n - 1]);
            Lookup(TmpAfter(rows, n, env, t0), ov0) ==
            if NeedsTmpTable(rows[n - 1])
            then Some(TmpRegistrations(rows, n - 1, ov0, env) + [(TmpTableNameOf(rows[n - 1], env), n - 1)])
            else Some(TmpRegistrations(rows, n - 1, ov0, env))
  {
    var row := rows[n - 1];
    var ov0 := OverloadKey(row);
    var t1 := PutIfAbsent(t0, ov0, []);
    LookupPutIfAbsent(t0, ov0, [], ov0);
    if ov0 !in Seen(rows, n - 1) {
      TmpRegistrationsUnseen(rows, n - 1, ov0, env);
    }
    assert Lookup(t1, ov0) == Some(TmpRegistrations(rows, n - 1, ov0, env));
    if NeedsTmpTable(row) {
      LookupPut(t1, ov0, Lookup(t1, ov0).GetOr([]) + [(TmpTableNameOf(row, env), n - 1)], ov0);
    }
  }

  /** Every other overload keeps its registrations. */
  lemma TmpAfterOther(rows: seq<Row>, n: nat, env: Env, t0: OMap<nat, seq<(string, NodeId)>>, ov: nat)
    requires 0 < n <= |rows|
    requires DistinctKeys(t0) && ov != OverloadKey(rows[n - 1])
    ensures Lookup(TmpAfter(rows, n, env, t0), ov) == Lookup(t0, ov)
  {
    var row := rows[n - 1];
    var ov0 := OverloadKey(row);
    var t1 := PutIfAbsent(t0, ov0, []);
    LookupPutIfAbsent(t0, ov0, [], ov);
    if NeedsTmpTable(row) {
      LookupPut(t1, ov0, Lookup(t1, ov0).GetOr([]) + [(TmpTableNameOf(row, env), n - 1)], ov);
    }
  }

  lemma TmpAgreesStep(rows: seq<Row>, n: nat, env: Env, t0: OMap<nat, seq<(string, NodeId)>>)
    requires 0 < n <= |rows|
    requires TmpAgrees(rows, n - 1, env, t0)
    ensures TmpAgrees(rows, n, env, TmpAfter(rows, n, env, t0))
  {
    var row := rows[n - 1];
    var ov0 := OverloadKey(row);
    var t1 := PutIfAbsent(t0, ov0, []);
    SeenStep(rows, n);
    LookupPutIfAbsent(t0, ov0, [], ov0);
    if NeedsTmpTable(row) {
      LookupPut(t1, ov0, Lookup(t1, ov0).GetOr([]) + [(TmpTableNameOf(row, env), n - 1)], ov0);
    }
    forall ov ensures Lookup(TmpAfter(rows, n, env, t0), ov) ==
                      if ov in Seen(rows, n) then Some(TmpRegistrations(rows, n, ov, env)) else None
    {
      assert Lookup(t0, ov) == if ov in Seen(rows, n - 1) then Some(TmpRegistrations(rows, n - 1, ov, env)) else None;
      TmpAfterAt(rows, n, env, t0, ov);
    }
  }

  /** Node `p`'s nested slots after `n` rows: a record's :fields map every
      field name to the last row attached to it under that name, and any
      other node's :element is the last row attached to it. Only records
      have :fields; a record never gets an :element. */
  ghost predicate NodeChildrenAgree(rows: seq<Row>, n: nat, p: nat, node: Node)
    requires p < n <= |rows|
  {
    && (node.fields.Some? <==> rows[p].dataType == PlsqlRecord)
    && (node.fields.Some? ==>
          && node.element.None?
          && DistinctKeys(node.fields.value)
          && forall name :: Lookup(node.fields.value, name) == LastField(rows, n, p, name))
    && (node.fields.None? ==> node.element == LastChild(rows, n, p))
  }

  ghost predicate ChildrenAgree(rows: seq<Row>, n: nat, nodes: seq<Node>)
    requires n <= |rows| && |nodes| == n
  {
    forall p :: 0 <= p < n ==> NodeChildrenAgree(rows, n, p, nodes[p])
  }

  /** The row loop's update of the nodes for row `n - 1`: its own node is
      added and, when it has a parent, attached to the parent's node. */
  function ChildrenAfter(rows: seq<Row>, n: nat, env: Env, nodes0: seq<Node>): (r: seq<Node>)
    requires 0 < n <= |rows| && |nodes0| == n - 1
    ensures |r| == n
  {
    var row := rows[n - 1];
    var ns := nodes0 + [NewNode(row, env)];
    if row.dataLevel > 0 && ParentOf(rows, n - 1).Some?
    then Attach(ns, ParentOf(rows, n - 1).value, row, n - 1)
    else ns
  }

  /** The new row's own node has nothing nested yet. */
  lemma ChildrenAfterNew(rows: seq<Row>, n: nat, env: Env, nodes0: seq<Node>)
    requires 0 < n <= |rows| && |nodes0| == n - 1
    ensures NodeChildrenAgree(rows, n, n - 1, ChildrenAfter(rows, n, env, nodes0)[n - 1])
  {
    var node := ChildrenAfter(rows, n, env, nodes0)[n - 1];
    assert node == NewNode(rows[n - 1], env);
    forall name ensures Lookup(node.fields.GetOr([]), name) == LastField(rows, n, n - 1, name) {
    }
  }

  /** A node other than the new row's parent keeps its nested slots. */
  lemma ChildrenAfterOther(rows: seq<Row>, n: nat, env: Env, nodes0: seq<Node>, p: nat)
    requires 0 < n <= |rows| && |nodes0| == n - 1
    requires p < n - 1 && ParentOf(rows, n - 1) != Some(p)
    requires NodeChildrenAgree(rows, n - 1, p, nodes0[p])
    ensures NodeChildrenAgree(rows, n, p, ChildrenAfter(rows, n, env, nodes0)[p])
  {
    assert ChildrenAfter(rows, n, env, nodes0)[p] == nodes0[p];
    forall name ensures LastField(rows, n, p, name) == LastField(rows, n - 1, p, name) {
    }
  }

  /** The new row's parent gains it: as a named field of a record, otherwise
      as its element. */
  lemma ChildrenAfterParent(rows: seq<Row>, n: nat, env: Env, nodes0: seq<Node>)
    requires 0 < n <= |rows| && |nodes0| == n - 1
    requires rows[n - 1].dataLevel > 0 && ParentOf(rows, n - 1).Some?
    requires var q := ParentOf(rows, n - 1).value;
             && nodes0[q].meta.dataType == rows[q].dataType
             && (rows[q].dataType == PlsqlRecord ==> rows[n - 1].argumentName.Some?)
             && NodeChildrenAgree(rows, n - 1, q, nodes0[q])
    ensures NodeChildrenAgree(rows, n, ParentOf(rows, n - 1).value,
                              ChildrenAfter(rows, n, env, nodes0)[ParentOf(rows, n - 1).value])
  {
    var row := rows[n - 1];
    var q := ParentOf(rows, n - 1).value;
    var old_ := nodes0[q];
    var node := ChildrenAfter(rows, n, env, nodes0)[q];
    assert (nodes0 + [NewNode(row, env)])[q] == old_;
    if rows[q].dataType == PlsqlRecord {
      FieldAdded(rows, n, q, old_, node);
    } else {
      assert node == old_.(element := Some(n - 1));
    }
  }

  lemma FieldAdded(rows: seq<Row>, n: nat, q: nat, old_: Node, node: Node)
    requires 0 < n <= |rows| && q < n - 1
    requires rows[n - 1].dataLevel > 0 && ParentOf(rows, n - 1) == Some(q)
    requires rows[q].dataType == PlsqlRecord && rows[n - 1].argumentName.Some?
    requires NodeChildrenAgree(rows, n - 1, q, old_)
    requires node == old_.(fields := Some(Put(old_.fields.GetOr([]), Downcase(rows[n - 1].argumentName.GetOr("")), n - 1)))
    ensures NodeChildrenAgree(rows, n, q, node)
  {
    var nm := Downcase(rows[n - 1].argumentName.value);
    FieldsPut(rows, n, q, old_.fields.value, nm);
  }

  lemma FieldsPut(rows: seq<Row>, n: nat, q: nat, fields0: seq<(string, NodeId)>, nm: string)
    requires 0 < n <= |rows| && q < n - 1
    requires ParentOf(rows, n - 1) == Some(q) && rows[n - 1].argumentName.Some?
    requires nm == Downcase(rows[n - 1].argumentName.value)
    requires DistinctKeys(fields0)
    requires forall name :: Lookup(fields0, name) == LastField(rows, n - 1, q, name)
    ensures DistinctKeys(Put(fields0, nm, n - 1))
    ensures forall name :: Lookup(Put(fields0, nm, n - 1), name) == LastField(rows, n, q, name)
  {
    forall name ensures Lookup(Put(fields0, nm, n - 1), name) == LastField(rows, n, q, name) {
      assert Lookup(fields0, name) == LastField(rows, n - 1, q, name);
      FieldAt(rows, n, q, fields0, nm, name);
    }
    LookupPut(fields0, nm, n - 1, nm);
  }

  /** The field `name` of row `q` after row n-1 is stored under `nm`. */
  lemma FieldAt(rows: seq<Row>, n: nat, q: nat, fields0: seq<(string, NodeId)>, nm: string, name: string)
    requires 0 < n <= |rows|
    requires ParentOf(rows, n - 1) == Some(q) && rows[n - 1].argumentName.Some?
    requires nm == Downcase(rows[n - 1].argumentName.value)
    requires DistinctKeys(fields0)
    requires Lookup(fields0, name) == LastField(rows, n - 1, q, name)
    ensures Lookup(Put(fields0, nm, n - 1), name) == LastField(rows, n, q, name)
  {
    LookupPut(fields0, nm, n - 1, name);
    LastFieldStep(rows, n, q, name);
  }

  lemma LastFieldStep(rows: seq<Row>, n: nat, q: nat, name: string)
    requires 0 < n <= |rows|
    requires ParentOf(rows, n - 1) == Some(q) && rows[n - 1].argumentName.Some?
    ensures LastField(rows, n, q, name) ==
            if name == Downcase(rows[n - 1].argumentName.value) then Some(n - 1) else LastField(rows, n - 1, q, name)
  {
  }

  lemma ChildrenAgreeStep(rows: seq<Row>, n: nat, env: Env, nodes0: seq<Node>)
    requires 0 < n <= |rows|
    requires NodesAgree(rows, n - 1, env, nodes0)
    requires ChildrenAgree(rows, n - 1, nodes0)
    requires Admissible(rows, n - 1)
    ensures ChildrenAgree(rows, n, ChildrenAfter(rows, n, env, nodes0))
  {
    var nodes := ChildrenAfter(rows, n, env, nodes0);
    forall p | 0 <= p < n ensures NodeChildrenAgree(rows, n, p, nodes[p]) {
      if p == n - 1 {
        ChildrenAfterNew(rows, n, env, nodes0);
      } else if rows[n - 1].dataLevel > 0 && ParentOf(rows, n - 1) == Some(p) {
        ChildrenAfterParent(rows, n, env, nodes0);
      } else {
        ChildrenAfterOther(rows, n, env, nodes0, p);
      }
    }
  }
}
