/**
 * The row loop of ORAProcedureHelper#get_argument_metadata as a pure fold.
 *
 * The Ruby code keeps one hash per catalog row and shares it: the same hash is
 * stored in @arguments (or @return), in the previous-level table and in
 * @tmp_table_names, and later rows add to its :fields or set its :element.
 * Here the hashes live in an arena, `nodes`, and the hash built for row k is
 * node k; every reference to a hash is its id.
 */
module ArgumentMetadata {
  import opened Wrappers
  import opened OrderedMaps
  import opened Text
  import opened Catalog

  /** What the row loop reads besides the rows: the temporary-table prefix of
      the connection class, the session id, the routine's object id, the
      database version and Ruby's `String#hash` (left uninterpreted). */
  datatype Env = Env(
    tempTablePrefix: string,
    sessionId: nat,
    objectId: nat,
    databaseVersion: seq<int>,
    objectNameHash: string -> int)

  /** The exceptions the row loop can raise. */
  datatype BuildError =
    | NestedPackageCollection(dataType: string, sqlTypeName: Option<string>)
    | PackageLocalType(sqlTypeName: Option<string>)
    | MissingParent(level: nat)
    | UnnamedRecordField(row: nat)

  /** @arguments, @return, @tmp_table_names, @overloaded, the metadata hashes,
      and the local previous_level_argument_metadata table. */
  datatype Metadata = Metadata(
    arguments: OMap<nat, OMap<string, NodeId>>,
    returnMeta: OMap<nat, Option<NodeId>>,
    tmpTableNames: OMap<nat, seq<(string, NodeId)>>,
    overloaded: bool,
    nodes: seq<Node>,
    previousLevel: map<nat, NodeId>)

  const Start := Metadata([], [], [], false, [], map[])

  /** `overload ||= 0` */
  function OverloadKey(row: Row): nat { row.overload.GetOr(0) }

  /** The row that describes a function's return value. */
  predicate IsReturnRow(row: Row) {
    row.argumentName.None? && row.dataLevel == 0 && row.inOut == "OUT"
  }

  function MetaOf(row: Row): ArgMeta {
    ArgMeta(row.position, row.dataType, row.inOut, row.dataLength, row.dataPrecision,
            row.dataScale, row.charUsed, row.charLength, row.typeOwner, row.typeName,
            row.typeSubname, SqlTypeName(row.typeOwner, row.typeName, row.typeSubname))
  }

  /** A top-level collection whose type is declared inside a package gets a
      temporary table. */
  predicate NeedsTmpTable(row: Row) {
    row.typeSubname.Some? && CollectionType(row.dataType) && row.dataLevel == 0
  }

  function TmpTableNameOf(row: Row, env: Env): string {
    var sid := if SubprogramIdColumnAvailable(env.databaseVersion) then row.subprogramId else None;
    TmpTableName(env.tempTablePrefix, env.sessionId, env.objectId,
                 SubprogramPart(sid, env.objectNameHash(row.objectName), OverloadKey(row)), row.position)
  }

  function TmpTableNameFor(row: Row, env: Env): Option<string> {
    if NeedsTmpTable(row) then Some(TmpTableNameOf(row, env)) else None
  }

  ghost predicate PrevInRange(st: Metadata) {
    forall l :: l in st.previousLevel ==> st.previousLevel[l] < |st.nodes|
  }

  /** Lines 118-123: the bookkeeping done for every row before anything can raise. */
  function Prelude(st: Metadata, row: Row): (st': Metadata)
    ensures st'.nodes == st.nodes && st'.previousLevel == st.previousLevel
  {
    var ov := OverloadKey(row);
    st.(overloaded := st.overloaded || row.overload.Some?,
        arguments := PutIfAbsent(st.arguments, ov, []),
        returnMeta := PutIfAbsent(st.returnMeta, ov, None),
        tmpTableNames := PutIfAbsent(st.tmpTableNames, ov, []))
  }

  /** The exception, if any, that row `id` raises (lines 129-141, 181, 183). */
  function RowError(st: Metadata, row: Row, id: nat): Option<BuildError>
    requires PrevInRange(st)
  {
    var sqlType := SqlTypeName(row.typeOwner, row.typeName, row.typeSubname);
    if row.typeSubname.Some? && CollectionType(row.dataType) && row.dataLevel > 0 then
      Some(NestedPackageCollection(row.dataType, sqlType))
    else if row.typeSubname.Some? && !CollectionType(row.dataType) && row.dataType != PlsqlRecord
         && OverloadKey(row) == 0 then
      Some(PackageLocalType(sqlType))
    else if IsReturnRow(row) || row.dataLevel == 0 then None
    else if row.dataLevel - 1 !in st.previousLevel then Some(MissingParent(row.dataLevel))
    else if st.nodes[st.previousLevel[row.dataLevel - 1]].meta.dataType == PlsqlRecord
         && row.argumentName.None? then
      Some(UnnamedRecordField(id))
    else None
  }

  /** Lines 144-188 for a row that raises nothing: build its hash (node `id`),
      queue its temporary table, record it as a level parent, then store it. */
  function Admit(st: Metadata, row: Row, env: Env): (st': Metadata)
    requires PrevInRange(st)
    ensures |st'.nodes| == |st.nodes| + 1
    ensures PrevInRange(st')
    ensures forall k :: 0 <= k < |st.nodes| ==>
              st'.nodes[k].meta == st.nodes[k].meta && st'.nodes[k].tmpTableName == st.nodes[k].tmpTableName
    ensures st'.nodes[|st.nodes|].meta == MetaOf(row)
    ensures st'.nodes[|st.nodes|].tmpTableName == TmpTableNameFor(row, env)
    ensures st'.previousLevel ==
            if CompositeType(row.dataType) then st.previousLevel[row.dataLevel := |st.nodes|] else st.previousLevel
    ensures st'.overloaded == st.overloaded
  {
    var parent := if row.dataLevel > 0 && row.dataLevel - 1 in st.previousLevel
                  then Some(st.previousLevel[row.dataLevel - 1]) else None;
    Store(Enter(st, row, env), row, |st.nodes|, parent)
  }

  /** Lines 144-168: node `|st.nodes|` is created, its temporary table queued
      and, when composite, it becomes the parent for the next level. */
  function Enter(st: Metadata, row: Row, env: Env): (st': Metadata)
    requires PrevInRange(st)
    ensures st'.nodes == st.nodes + [NewNode(row, env)]
    ensures st'.arguments == st.arguments && st'.returnMeta == st.returnMeta && st'.overloaded == st.overloaded
    ensures st'.previousLevel ==
            if CompositeType(row.dataType) then st.previousLevel[row.dataLevel := |st.nodes|] else st.previousLevel
    ensures st'.tmpTableNames ==
            if NeedsTmpTable(row)
            then Put(st.tmpTableNames, OverloadKey(row),
                     Lookup(st.tmpTableNames, OverloadKey(row)).GetOr([]) + [(TmpTableNameOf(row, env), |st.nodes|)])
            else st.tmpTableNames
    ensures PrevInRange(st')
  {
    var id := |st.nodes|;
    var ov := OverloadKey(row);
    var tmpTableNames :=
      if NeedsTmpTable(row)
      then Put(st.tmpTableNames, ov, Lookup(st.tmpTableNames, ov).GetOr([]) + [(TmpTableNameOf(row, env), id)])
      else st.tmpTableNames;
    var previousLevel :=
      if CompositeType(row.dataType) then st.previousLevel[row.dataLevel := id] else st.previousLevel;
    st.(nodes := st.nodes + [NewNode(row, env)], tmpTableNames := tmpTableNames, previousLevel := previousLevel)
  }

  /** The hash built at lines 144-157 and 165; records start with no fields. */
  function NewNode(row: Row, env: Env): Node {
    Node(MetaOf(row), TmpTableNameFor(row, env), if row.dataType == PlsqlRecord then Some([]) else None, None)
  }

  /** Lines 171-187: store node `id` as the return value, as a top-level
      argument under its lower-cased name, or inside `parent`. */
  function Store(st: Metadata, row: Row, id: NodeId, parent: Option<NodeId>): (st': Metadata)
    requires parent.Some? ==> parent.value < |st.nodes|
    ensures |st'.nodes| == |st.nodes|
    ensures forall k :: 0 <= k < |st.nodes| ==>
              st'.nodes[k].meta == st.nodes[k].meta && st'.nodes[k].tmpTableName == st.nodes[k].tmpTableName
    ensures st'.previousLevel == st.previousLevel && st'.tmpTableNames == st.tmpTableNames
    ensures st'.overloaded == st.overloaded
  {
    var ov := OverloadKey(row);
    if IsReturnRow(row) then
      st.(returnMeta := Put(st.returnMeta, ov, Some(id)))
    else if row.dataLevel == 0 then
      if row.argumentName.Some? then
        var inner := Lookup(st.arguments, ov).GetOr([]);
        st.(arguments := Put(st.arguments, ov, Put(inner, Downcase(row.argumentName.value), id)))
      else st
    else if parent.Some? then
      st.(nodes := Attach(st.nodes, parent.value, row, id))
    else st
  }

  /** Lines 181-186: store node `id` under the parent's :fields (a record) or
      as its :element (a collection or a ref cursor). */
  function Attach(nodes: seq<Node>, parent: NodeId, row: Row, id: NodeId): (r: seq<Node>)
    requires parent < |nodes|
    ensures |r| == |nodes|
    ensures forall k :: 0 <= k < |nodes| && k != parent ==> r[k] == nodes[k]
    ensures r[parent].meta == nodes[parent].meta && r[parent].tmpTableName == nodes[parent].tmpTableName
  {
    var p := nodes[parent];
    if p.meta.dataType == PlsqlRecord then
      var name := Downcase(row.argumentName.GetOr(""));
      nodes[parent := p.(fields := Some(Put(p.fields.GetOr([]), name, id)))]
    else
      nodes[parent := p.(element := Some(id))]
  }

  /** One turn of the row loop: the new state, and the exception if the row raised. */
  function Step(st: Metadata, row: Row, env: Env): (r: (Metadata, Option<BuildError>))
    requires PrevInRange(st)
    ensures PrevInRange(r.0)
    ensures r.1.None? ==> |r.0.nodes| == |st.nodes| + 1
  {
    var st1 := Prelude(st, row);
    var err := RowError(st1, row, |st.nodes|);
    if err.Some? then (st1, err) else (Admit(st1, row, env), None)
  }

  /** The row loop over the first `n` rows; it stops at the first exception. */
  function Run(rows: seq<Row>, n: nat, env: Env): (r: (Metadata, Option<BuildError>))
    requires n <= |rows|
    ensures PrevInRange(r.0)
    ensures r.1.None? ==> |r.0.nodes| == n
  {
    if n == 0 then (Start, None)
    else
      var (st, err) := Run(rows, n - 1, env);
      if err.Some? then (st, err)
      else
        Step(st, rows[n - 1], env)
  }

  /** Line 191: a routine without rows gets an empty default overload 0. */
  function Finish(st: Metadata): Metadata {
    if Keys(st.arguments) == [] then st.(arguments := [(0, [])]) else st
  }
}
