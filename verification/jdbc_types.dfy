/**
 * The type tables of the PostgreSQL JDBC connection
 * (lib/plsql/jdbc_pg_connection.rb): Ruby classes, `java.sql.Types` codes,
 * the two constant hashes between them, `get_java_sql_type` and
 * `plsql_to_ruby_data_type`.
 */
module JdbcTypes {
  import opened Wrappers
  import opened Catalog

  /** The Ruby (and JRuby-proxied Java) classes the connection dispatches on.
      `Other` is any further class, known only by its name. */
  datatype RubyClass =
    | Fixnum | Bignum | Integer | Float | BigDecimal | JavaBigDecimal | String
    | Clob | Blob | Date | JavaDate | Time | DateTime | Timestamp
    | JavaArray | Array | Struct | Hash | ResultSet | Cursor
    | NilClass | TrueClass | FalseClass
    | Other(name: string)

  /** `klass.to_s`, the text that `to_s.to_sym` dispatches on. */
  function ClassName(c: RubyClass): string {
    match c
    case Fixnum => "Fixnum"
    case Bignum => "Bignum"
    case Integer => "Integer"
    case Float => "Float"
    case BigDecimal => "BigDecimal"
    case JavaBigDecimal => "Java::JavaMath::BigDecimal"
    case String => "String"
    case Clob => "Java::JavaSql::Clob"
    case Blob => "Java::JavaSql::Blob"
    case Date => "Date"
    case JavaDate => "Java::JavaSql::Date"
    case Time => "Time"
    case DateTime => "DateTime"
    case Timestamp => "Java::JavaSql::Timestamp"
    case JavaArray => "Java::JavaSql::Array"
    case Array => "Array"
    case Struct => "Java::JavaSql::Struct"
    case Hash => "Hash"
    case ResultSet => "Java::JavaSql::ResultSet"
    case Cursor => "PLSQL::Cursor"
    case NilClass => "NilClass"
    case TrueClass => "TrueClass"
    case FalseClass => "FalseClass"
    case Other(name) => name
  }

  /** The names of the classes listed by constructor. */
  const KnownNames: set<string> := {
    "Fixnum", "Bignum", "Integer", "Float", "BigDecimal", "Java::JavaMath::BigDecimal",
    "String", "Java::JavaSql::Clob", "Java::JavaSql::Blob", "Date", "Java::JavaSql::Date",
    "Time", "DateTime", "Java::JavaSql::Timestamp", "Java::JavaSql::Array", "Array",
    "Java::JavaSql::Struct", "Hash", "Java::JavaSql::ResultSet", "PLSQL::Cursor",
    "NilClass", "TrueClass", "FalseClass"}

  /** A class is named by a constructor of its own, not by `Other`, when it has one. */
  predicate WellNamed(c: RubyClass) {
    c.Other? ==> c.name !in KnownNames
  }

  /** Two well-named classes with one name are one class: dispatching on
      `to_s.to_sym` is dispatching on the class. */
  lemma ClassNameInjective(a: RubyClass, b: RubyClass)
    requires WellNamed(a) && WellNamed(b)
    requires ClassName(a) == ClassName(b)
    ensures a == b
  {
    if !a.Other? {
      assert ClassName(a) in KnownNames;
    }
  }

  // java.sql.Types
  const CHAR: int := 1
  const NUMERIC: int := 2
  const INTEGER: int := 4
  const FLOAT: int := 6
  const DOUBLE: int := 8
  const VARCHAR: int := 12
  const LONGVARCHAR: int := -1
  const DATE: int := 91
  const TIME: int := 92
  const TIMESTAMP: int := 93
  const STRUCT: int := 2002
  const ARRAY: int := 2003
  const BLOB: int := 2004
  const CLOB: int := 2005

  /** RUBY_CLASS_TO_SQL_TYPE */
  const RubyClassToSqlType: map<RubyClass, int> := map[
    Fixnum := INTEGER, Bignum := INTEGER, Integer := INTEGER,
    Float := FLOAT, BigDecimal := NUMERIC, String := VARCHAR,
    Clob := CLOB, Blob := BLOB, Date := DATE,
    Time := TIMESTAMP, DateTime := TIMESTAMP,
    JavaArray := ARRAY, Array := ARRAY,
    Struct := STRUCT, Hash := STRUCT]

  /** SQL_TYPE_TO_RUBY_CLASS */
  const SqlTypeToRubyClass: map<int, RubyClass> := map[
    CHAR := String, VARCHAR := String, LONGVARCHAR := String,
    DOUBLE := BigDecimal, NUMERIC := BigDecimal, INTEGER := Fixnum,
    DATE := Date, TIME := Time, TIMESTAMP := DateTime,
    BLOB := String, CLOB := String,
    ARRAY := JavaArray, STRUCT := Struct]

  /** `get_java_sql_type(value, type)`, given `value.class`: the declared type's
      entry, or the value's class's when no type is declared, else VARCHAR. */
  function GetJavaSqlType(valueClass: RubyClass, declared: Option<RubyClass>): (t: int)
    ensures t == VARCHAR || t in RubyClassToSqlType.Values
  {
    var key := declared.GetOr(valueClass);
    if key in RubyClassToSqlType then RubyClassToSqlType[key] else VARCHAR
  }

  /** A declared type decides alone; without one the value's class decides; a key
      missing from the table gives VARCHAR, and VARCHAR comes only from String or
      from a missing key. */
  lemma GetJavaSqlTypeChoice(valueClass: RubyClass, declared: Option<RubyClass>)
    ensures declared.Some? && declared.value in RubyClassToSqlType ==>
              GetJavaSqlType(valueClass, declared) == RubyClassToSqlType[declared.value]
    ensures declared.None? && valueClass in RubyClassToSqlType ==>
              GetJavaSqlType(valueClass, declared) == RubyClassToSqlType[valueClass]
    ensures GetJavaSqlType(valueClass, declared) == VARCHAR <==>
              var key := declared.GetOr(valueClass); key == String || key !in RubyClassToSqlType
  {
    var key := declared.GetOr(valueClass);
    if key in RubyClassToSqlType && key != String {
      assert RubyClassToSqlType[key] != VARCHAR;
    }
  }

  /** Every SQL type the reading table knows maps to a Ruby class that the
      binding table sends back to an SQL type of the same family, and to the
      same SQL type exactly for the seven types the two tables share. */
  lemma SqlTypeFamilies(t: int)
    requires t in SqlTypeToRubyClass
    ensures SqlTypeToRubyClass[t] in RubyClassToSqlType
    ensures t in {CHAR, VARCHAR, LONGVARCHAR, BLOB, CLOB} <==>
              RubyClassToSqlType[SqlTypeToRubyClass[t]] == VARCHAR
    ensures t in {DOUBLE, NUMERIC} <==> RubyClassToSqlType[SqlTypeToRubyClass[t]] == NUMERIC
    ensures t in {TIME, TIMESTAMP} <==> RubyClassToSqlType[SqlTypeToRubyClass[t]] == TIMESTAMP
    ensures t in {VARCHAR, NUMERIC, INTEGER, DATE, TIMESTAMP, ARRAY, STRUCT} <==>
              RubyClassToSqlType[SqlTypeToRubyClass[t]] == t
  {
    var c := SqlTypeToRubyClass[t];
    if t in {CHAR, VARCHAR, LONGVARCHAR, BLOB, CLOB} {
      assert c == String;
    } else if t in {DOUBLE, NUMERIC} {
      assert c == BigDecimal;
    } else if t in {TIME, TIMESTAMP} {
      assert c in {Time, DateTime};
    } else {
      assert t in {INTEGER, DATE, ARRAY, STRUCT};
      assert c in {Fixnum, Date, JavaArray, Struct};
    }
  }

  /** The error a reference to a missing Java class raises. */
  datatype NameError = NameError(constant: string)

  /** `plsql_to_ruby_data_type(metadata)` as written: "BLOB" names the missing
      class Java::JavaSql::Bob, and the two time-zone spellings of TIME sit in one
      string literal, so neither matches a catalog type name. */
  function PlsqlToRubyDataTypeAsWritten(meta: ArgMeta): (r: Result<(RubyClass, Option<int>), NameError>)
    ensures r.Err? <==> meta.dataType == "BLOB"
  {
    match meta.dataType
    case "VARCHAR" => Ok((String, Some(meta.dataLength.GetOr(32767))))
    case "CHAR" => Ok((String, Some(meta.dataLength.GetOr(32767))))
    case "TEXT" => Ok((String, None))
    case "CLOB" => Ok((Clob, None))
    case "NCLOB" => Ok((Clob, None))
    case "BLOB" => Err(NameError("Java::JavaSql::Bob"))
    case "NUMERIC" => Ok((BigDecimal, None))
    case "INTEGER" => Ok((Fixnum, None))
    case "DATE" => Ok((Date, None))
    case "TIMESTAMP" => Ok((DateTime, None))
    case "TIMESTAMP WITH TIME ZONE" => Ok((DateTime, None))
    case "TIMESTAMP WITHOUT TIME ZONE" => Ok((DateTime, None))
    case "TIME" => Ok((Time, None))
    case "TIME WITH TIME ZONE, TIME WITHOUT TIME ZONE" => Ok((Time, None))
    case "ARRAY" => Ok((JavaArray, None))
    case "STRUCT" => Ok((Struct, None))
    case "CURSOR" => Ok((ResultSet, None))
    case _ => Ok((String, None))
  }

  /** A BLOB argument raises instead of mapping to a class. */
  lemma BlobRaisesAsWritten(meta: ArgMeta)
    requires meta.dataType == "BLOB"
    ensures PlsqlToRubyDataTypeAsWritten(meta) == Err(NameError("Java::JavaSql::Bob"))
  {
  }

  /** "TIME WITH TIME ZONE" and "TIME WITHOUT TIME ZONE" fall through to the
      String fallback, where the intended mapping gives Time. */
  lemma TimeWithTimeZoneAsWritten(meta: ArgMeta)
    requires meta.dataType == "TIME WITH TIME ZONE" || meta.dataType == "TIME WITHOUT TIME ZONE"
    ensures PlsqlToRubyDataTypeAsWritten(meta) == Ok((String, None))
    ensures PlsqlToRubyDataType(meta) == (Time, None)
  {
  }

  /** The catalog type names mapped to TIME. */
  const TimeNames: set<string> := {"TIME", "TIME WITH TIME ZONE", "TIME WITHOUT TIME ZONE"}

  /** The catalog type names mapped to TIMESTAMP. */
  const TimestampNames: set<string> := {"TIMESTAMP", "TIMESTAMP WITH TIME ZONE", "TIMESTAMP WITHOUT TIME ZONE"}

  /** The catalog type names with a branch of their own. */
  const MappedNames: set<string> :=
    {"VARCHAR", "CHAR", "TEXT", "CLOB", "NCLOB", "BLOB", "NUMERIC", "INTEGER", "DATE",
     "ARRAY", "STRUCT", "CURSOR"} + TimeNames + TimestampNames

  /** `plsql_to_ruby_data_type(metadata)` as intended: BLOB maps to
      Java::JavaSql::Blob and each TIME spelling to Time. */
  function PlsqlToRubyDataType(meta: ArgMeta): (r: (RubyClass, Option<int>))
  {
    var dataType := meta.dataType;
    if dataType == "VARCHAR" || dataType == "CHAR" then (String, Some(meta.dataLength.GetOr(32767)))
    else if dataType == "TEXT" then (String, None)
    else if dataType == "CLOB" || dataType == "NCLOB" then (Clob, None)
    else if dataType == "BLOB" then (Blob, None)
    else if dataType == "NUMERIC" then (BigDecimal, None)
    else if dataType == "INTEGER" then (Fixnum, None)
    else if dataType == "DATE" then (Date, None)
    else if dataType in TimestampNames then (DateTime, None)
    else if dataType in TimeNames then (Time, None)
    else if dataType == "ARRAY" then (JavaArray, None)
    else if dataType == "STRUCT" then (Struct, None)
    else if dataType == "CURSOR" then (ResultSet, None)
    else (String, None)
  }

  /** The character types carry their length, 32767 when the catalog has none;
      every other type carries none; a type name without a branch maps to String. */
  lemma PlsqlToRubyDataTypeLength(meta: ArgMeta)
    ensures var r := PlsqlToRubyDataType(meta);
            r.1.Some? <==> meta.dataType == "VARCHAR" || meta.dataType == "CHAR"
    ensures meta.dataType in {"VARCHAR", "CHAR"} ==>
              PlsqlToRubyDataType(meta).1 == Some(if meta.dataLength.Some? then meta.dataLength.value else 32767)
    ensures meta.dataType !in MappedNames ==> PlsqlToRubyDataType(meta) == (String, None)
  {
  }

  /** The type names on which the intended mapping differs from the code. */
  const FixedNames: set<string> :=
    {"BLOB", "TIME WITH TIME ZONE", "TIME WITHOUT TIME ZONE", "TIME WITH TIME ZONE, TIME WITHOUT TIME ZONE"}

  /** The corrected mapping agrees with the code on every type name but the
      ones it fixes, and binds each fixed name under its own SQL type. */
  lemma PlsqlToRubyDataTypeCorrects(meta: ArgMeta)
    ensures meta.dataType !in FixedNames ==>
              PlsqlToRubyDataTypeAsWritten(meta) == Ok(PlsqlToRubyDataType(meta))
    ensures meta.dataType == "BLOB" ==>
              GetJavaSqlType(NilClass, Some(PlsqlToRubyDataType(meta).0)) == BLOB
    ensures meta.dataType in TimeNames ==> PlsqlToRubyDataType(meta).0 == Time
    ensures meta.dataType in TimestampNames + TimeNames ==>
              GetJavaSqlType(NilClass, Some(PlsqlToRubyDataType(meta).0)) == TIMESTAMP
  {
  }
}
