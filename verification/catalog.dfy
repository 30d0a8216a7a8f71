/**
 * The catalog side of a stored routine: one row of the `all_arguments` view,
 * the metadata record the Ruby code builds from it, and the pure helpers over
 * type names (lib/plsql/procedure_helpers.rb).
 */
module Catalog {
  import opened Wrappers
  import opened OrderedMaps
  import opened Text

  /** One row of `SELECT subprogram_id, object_name, TO_NUMBER(overload), argument_name,
      position, data_level, data_type, in_out, data_length, data_precision, data_scale,
      char_used, char_length, type_owner, type_name, type_subname FROM all_arguments`.
      A NULL data_type or in_out is the empty string: no comparison in the code
      tells the two apart. */
  datatype Row = Row(
    subprogramId: Option<nat>,
    objectName: string,
    overload: Option<nat>,
    argumentName: Option<string>,
    position: nat,
    dataLevel: nat,
    dataType: string,
    inOut: string,
    dataLength: Option<int>,
    dataPrecision: Option<int>,
    dataScale: Option<int>,
    charUsed: Option<string>,
    charLength: Option<int>,
    typeOwner: Option<string>,
    typeName: Option<string>,
    typeSubname: Option<string>)

  /** The immutable part of an argument-metadata hash. */
  datatype ArgMeta = ArgMeta(
    position: nat,
    dataType: string,
    inOut: string,
    dataLength: Option<int>,
    dataPrecision: Option<int>,
    dataScale: Option<int>,
    charUsed: Option<string>,
    charLength: Option<int>,
    typeOwner: Option<string>,
    typeName: Option<string>,
    typeSubname: Option<string>,
    sqlTypeName: Option<string>)

  type NodeId = nat

  /** An argument-metadata hash with its mutable slots: `:tmp_table_name`,
      `:fields` (present only on a PL/SQL RECORD) and `:element`. Nested
      metadata is referred to by id; see ArgumentMetadata.Metadata.nodes. */
  datatype Node = Node(
    meta: ArgMeta,
    tmpTableName: Option<string>,
    fields: Option<OMap<string, NodeId>>,
    element: Option<NodeId>)

  const PlsqlRecord := "PL/SQL RECORD"

  /** PLSQL_COMPOSITE_TYPES.include?(data_type) */
  predicate CompositeType(dataType: string) {
    dataType in ["PL/SQL RECORD", "PL/SQL TABLE", "TABLE", "VARRAY", "REF CURSOR"]
  }

  /** PLSQL_COLLECTION_TYPES.include?(data_type) */
  predicate CollectionType(dataType: string) {
    dataType in ["PL/SQL TABLE", "TABLE", "VARRAY"]
  }

  /** Every collection is composite; records and ref cursors are composite but
      not collections. */
  lemma CollectionIsComposite(dataType: string)
    ensures CollectionType(dataType) ==> CompositeType(dataType)
    ensures CompositeType(dataType) && !CollectionType(dataType) <==>
            dataType == PlsqlRecord || dataType == "REF CURSOR"
  {
  }

  /** `type_owner && "#{owner.}#{type_name}#{.type_subname}"`, with the owner
      left out when it is PUBLIC. */
  function SqlTypeName(owner: Option<string>, name: Option<string>, subname: Option<string>): (r: Option<string>)
    ensures r.None? <==> owner.None?
    ensures r.Some? && owner.value != "PUBLIC" ==> StartsWith(r.value, owner.value + ".")
    ensures r.Some? && owner.value == "PUBLIC" ==> StartsWith(r.value, name.GetOr(""))
    ensures r.Some? && subname.Some? ==> EndsWith(r.value, "." + subname.value)
    ensures r.Some? && subname.None? ==> EndsWith(r.value, name.GetOr(""))
  {
    match owner
    case None => None
    case Some(o) =>
      var ownerPart := if o == "PUBLIC" then "" else o + ".";
      var subPart := if subname.Some? then "." + subname.value else "";
      var s := ownerPart + name.GetOr("") + subPart;
      assert s[..|ownerPart|] == ownerPart;
      assert s[|s| - |subPart|..] == subPart;
      assert subname.None? ==> s[|s| - |name.GetOr("")|..] == name.GetOr("");
      assert o == "PUBLIC" ==> s[..|name.GetOr("")|] == name.GetOr("");
      Some(s)
  }

  /** The `subprogram_id` part of a temporary table name: the catalog's column
      when it was selected, else `"#{object_name.hash % 10000}#{overload}"`. */
  function SubprogramPart(subprogramId: Option<nat>, objectNameHash: int, overload: nat): (s: string)
    ensures AllDigits(s)
  {
    match subprogramId
    case Some(id) => NatToString(id)
    case None =>
      var h := objectNameHash % 10000;
      NatToString(h) + NatToString(overload)
  }

  /** `"#{RUBY_TEMP_TABLE_PREFIX}#{session_id}_#{object_id}_#{subprogram_id}_#{position}"` */
  function TmpTableName(prefix: string, sessionId: nat, objectId: nat, subprogram: string, position: nat): (r: string)
    ensures StartsWith(r, prefix)
  {
    var r := prefix + (NatToString(sessionId) + "_" + (NatToString(objectId) + "_" + (subprogram + "_" + NatToString(position))));
    assert r[..|prefix|] == prefix;
    r
  }

  /** Temporary table names never collide: the name determines the session,
      the routine, the subprogram and the position. */
  lemma TmpTableNameInjective(prefix: string, s1: nat, o1: nat, u1: string, p1: nat,
                                                s2: nat, o2: nat, u2: string, p2: nat)
    requires AllDigits(u1) && AllDigits(u2)
    requires TmpTableName(prefix, s1, o1, u1, p1) == TmpTableName(prefix, s2, o2, u2, p2)
    ensures s1 == s2 && o1 == o2 && u1 == u2 && p1 == p2
  {
    var x1 := NatToString(s1) + "_" + (NatToString(o1) + "_" + (u1 + "_" + NatToString(p1)));
    var x2 := NatToString(s2) + "_" + (NatToString(o2) + "_" + (u2 + "_" + NatToString(p2)));
    assert prefix + x1 == prefix + x2;
    assert x1 == (prefix + x1)[|prefix|..] == x2;
    SplitAtUnderscore(NatToString(s1), NatToString(o1) + "_" + (u1 + "_" + NatToString(p1)),
                      NatToString(s2), NatToString(o2) + "_" + (u2 + "_" + NatToString(p2)));
    NatToStringInjective(s1, s2);
    SplitAtUnderscore(NatToString(o1), u1 + "_" + NatToString(p1), NatToString(o2), u2 + "_" + NatToString(p2));
    NatToStringInjective(o1, o2);
    SplitAtUnderscore(u1, NatToString(p1), u2, NatToString(p2));
    NatToStringInjective(p1, p2);
  }

  /** Ruby's `Array#<=>` on integer arrays: element by element, then by length. */
  function CompareArrays(a: seq<int>, b: seq<int>): (c: int)
    ensures c == -1 || c == 0 || c == 1
    ensures c == 0 <==> a == b
  {
    if a == [] && b == [] then 0
    else if a == [] then -1
    else if b == [] then 1
    else if a[0] < b[0] then -1
    else if a[0] > b[0] then 1
    else
      var c := CompareArrays(a[1..], b[1..]);
      assert a == [a[0]] + a[1..] && b == [b[0]] + b[1..];
      c
  }

  lemma {:induction false} CompareArraysAntisymmetric(a: seq<int>, b: seq<int>)
    ensures CompareArrays(a, b) == -CompareArrays(b, a)
  {
    if a != [] && b != [] && a[0] == b[0] {
      CompareArraysAntisymmetric(a[1..], b[1..]);
    }
  }

  /** `(database_version <=> [10, 2, 0, 2]) >= 0`: the catalog has a
      subprogram_id column from Oracle 10.2.0.2 on. */
  predicate SubprogramIdColumnAvailable(databaseVersion: seq<int>) {
    CompareArrays(databaseVersion, [10, 2, 0, 2]) >= 0
  }

  /** The order is lexicographic: after a common prefix of length `k`, the first
      differing element decides, and a proper prefix comes first. */
  lemma {:induction false} CompareArraysLexicographic(a: seq<int>, b: seq<int>, k: nat)
    requires k <= |a| && k <= |b| && a[..k] == b[..k]
    ensures k < |a| && k < |b| && a[k] < b[k] ==> CompareArrays(a, b) == -1
    ensures k < |a| && k < |b| && a[k] > b[k] ==> CompareArrays(a, b) == 1
    ensures k == |a| && k < |b| ==> CompareArrays(a, b) == -1
    ensures k < |a| && k == |b| ==> CompareArrays(a, b) == 1
  {
    if k > 0 {
      assert a[0] == a[..k][0] == b[..k][0] == b[0];
      assert a[1..][..k - 1] == a[..k][1..] == b[..k][1..] == b[1..][..k - 1];
      CompareArraysLexicographic(a[1..], b[1..], k - 1);
    }
  }

  /** Versions from 10.2.0.2 on have the column, earlier ones do not. */
  lemma SubprogramIdColumnVersions()
    ensures SubprogramIdColumnAvailable([10, 2, 0, 2])
    ensures SubprogramIdColumnAvailable([10, 2, 0, 3])
    ensures SubprogramIdColumnAvailable([10, 2, 0, 2, 1])
    ensures SubprogramIdColumnAvailable([11])
    ensures SubprogramIdColumnAvailable([11, 1, 0, 6])
    ensures !SubprogramIdColumnAvailable([10, 2, 0, 1])
    ensures !SubprogramIdColumnAvailable([10, 2])
    ensures !SubprogramIdColumnAvailable([9, 2, 0, 8])
  {
    CompareArraysLexicographic([10, 2, 0, 3], [10, 2, 0, 2], 3);
    CompareArraysLexicographic([10, 2, 0, 2, 1], [10, 2, 0, 2], 4);
    CompareArraysLexicographic([11], [10, 2, 0, 2], 0);
    CompareArraysLexicographic([11, 1, 0, 6], [10, 2, 0, 2], 0);
    CompareArraysLexicographic([10, 2, 0, 1], [10, 2, 0, 2], 3);
    CompareArraysLexicographic([10, 2], [10, 2, 0, 2], 2);
    CompareArraysLexicographic([9, 2, 0, 8], [10, 2, 0, 2], 0);
  }
}
