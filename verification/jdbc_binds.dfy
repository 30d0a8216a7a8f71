/**
 * The bind dispatch of the PostgreSQL JDBC connection
 * (lib/plsql/jdbc_pg_connection.rb): which driver call `set_bind_variable` and
 * `get_bind_variable` make, and whether it addresses the parameter by
 * position or by name. A call is returned as a descriptor, not made.
 */
module JdbcBinds {
  import opened Wrappers
  import opened Text
  import opened JdbcTypes
  import opened JdbcValues

  /** The index `i` of a bind: an Integer position, or any other object
      (a Symbol or String naming the parameter), given by its `to_s`. */
  datatype BindIndex = Position(n: int) | Named(text: string)

  /** The JDBC accessor families, `set<Name>` and `get<Name>`. */
  datatype Access =
    | IntAccess | FloatAccess | BigDecimalAccess | StringAccess | ClobAccess | BlobAccess
    | DateAccess | TimestampAccess | NullAccess | ArrayAccess | StructAccess | CursorAccess

  function AccessName(a: Access): string {
    match a
    case IntAccess => "Int"
    case FloatAccess => "Float"
    case BigDecimalAccess => "BigDecimal"
    case StringAccess => "String"
    case ClobAccess => "Clob"
    case BlobAccess => "Blob"
    case DateAccess => "Date"
    case TimestampAccess => "Timestamp"
    case NullAccess => "Null"
    case ArrayAccess => "Array"
    case StructAccess => "Struct"
    case CursorAccess => "Cursor"
  }

  /** Where a bind goes: a parameter position, or a parameter name. */
  datatype Target = AtIndex(n: int) | AtName(key: string)

  /** What a bind passes after the target: the value, or for `setNull` the SQL type. */
  datatype BindArg = BindValue(v: Value) | BindSqlType(code: int)

  /** One `stmt.send(...)` of `set_bind_variable`. */
  datatype DriverCall = DriverCall(access: Access, target: Target, arg: BindArg)

  /** The selector sent: "set" + accessor + "AtName" for a named target. */
  function SetterName(c: DriverCall): string {
    "set" + AccessName(c.access) + (if c.target.AtName? then "AtName" else "")
  }

  datatype BindError = ArgumentError(message: string)

  /** The `case type_symbol` of `set_bind_variable`. */
  function SetterFor(symbol: string): (r: Option<Access>)
    ensures r.None? <==> symbol !in BindableSymbols
  {
    if symbol in {"Fixnum", "Bignum", "Integer"} then Some(IntAccess)
    else if symbol == "Float" then Some(FloatAccess)
    else if symbol in {"BigDecimal", "Java::JavaMath::BigDecimal"} then Some(BigDecimalAccess)
    else if symbol == "String" then Some(StringAccess)
    else if symbol == "Java::JavaSql::Clob" then Some(ClobAccess)
    else if symbol == "Java::JavaSql::Blob" then Some(BlobAccess)
    else if symbol in {"Date", "Java::JavaSql::Date"} then Some(DateAccess)
    else if symbol in {"DateTime", "Time", "Java::JavaSql::Timestamp"} then Some(TimestampAccess)
    else if symbol == "NilClass" then Some(NullAccess)
    else if symbol == "Java::JavaSql::Array" then Some(ArrayAccess)
    else if symbol == "Java::JavaSql::Struct" then Some(StructAccess)
    else if symbol == "Java::JavaSql::ResultSet" then Some(CursorAccess)
    else None
  }

  /** `key`: nil for an Integer index, else the index's text with every ':' removed. */
  function BindTarget(i: BindIndex): Target {
    match i
    case Position(n) => AtIndex(n)
    case Named(text) => AtName(RemoveChar(text, ':'))
  }

  /** `type_symbol`: the declared type only for a non-nil value, else the value's class. */
  function TypeSymbol(v: Value, declared: Option<RubyClass>): string {
    if !v.Nil? && declared.Some? then ClassName(declared.value) else ClassName(ClassOf(v))
  }

  /** `set_bind_variable(stmt, i, value, type)`. */
  function SetBindVariable(i: BindIndex, v: Value, declared: Option<RubyClass>): (r: Result<DriverCall, BindError>)
  {
    var symbol := TypeSymbol(v, declared);
    match SetterFor(symbol)
    case None => Err(ArgumentError("Don't know how to bind variable with type " + symbol))
    case Some(a) =>
      Ok(DriverCall(a, BindTarget(i),
                    if a == NullAccess then BindSqlType(GetJavaSqlType(ClassOf(v), declared)) else BindValue(v)))
  }

  /** The selector ends in "AtName" exactly when the call addresses a name. */
  lemma SelectorSuffix(c: DriverCall)
    ensures EndsWith(SetterName(c), "AtName") <==> c.target.AtName?
  {
    var base := "set" + AccessName(c.access);
    if c.target.AtName? {
      assert SetterName(c) == base + "AtName";
      assert SetterName(c)[|SetterName(c)| - 6..] == "AtName";
    } else {
      assert SetterName(c) == base;
      assert base[|base| - 6..] != "AtName" by {
        assert base[|base| - 1] != 'e' || base[|base| - 2] != 'm';
      }
    }
  }

  /** An Integer index binds positionally; any other index binds by its name with
      all ':' removed, through the `...AtName` selector, and only then. */
  lemma BindAddressing(i: BindIndex, v: Value, declared: Option<RubyClass>)
    requires SetBindVariable(i, v, declared).Ok?
    ensures var c := SetBindVariable(i, v, declared).value;
            && (i.Position? ==> c.target == AtIndex(i.n))
            && (i.Named? ==> c.target.AtName? && c.target.key == RemoveChar(i.text, ':') && ':' !in c.target.key)
            && (EndsWith(SetterName(c), "AtName") <==> i.Named?)
  {
    var c := SetBindVariable(i, v, declared).value;
    assert c.target == BindTarget(i);
    SelectorSuffix(c);
  }

  /** A nil value always takes `setNull`, with the SQL type of the declared type:
      NUMERIC for BigDecimal, VARCHAR when nothing is declared. */
  lemma NilBinding(i: BindIndex, declared: Option<RubyClass>)
    ensures SetBindVariable(i, Nil, declared) ==
            Ok(DriverCall(NullAccess, BindTarget(i), BindSqlType(GetJavaSqlType(NilClass, declared))))
    ensures SetBindVariable(i, Nil, Some(BigDecimal)).value.arg == BindSqlType(NUMERIC)
    ensures SetBindVariable(i, Nil, None).value.arg == BindSqlType(VARCHAR)
  {
    assert TypeSymbol(Nil, declared) == "NilClass";
    assert SetterFor("NilClass") == Some(NullAccess);
  }

  /** For a non-nil value a declared type alone picks the accessor: two non-nil
      values bound with one declared type take the same call or raise alike. */
  lemma DeclaredTypeDecides(i: BindIndex, v: Value, w: Value, c: RubyClass)
    requires !v.Nil? && !w.Nil?
    ensures SetBindVariable(i, v, Some(c)).Ok? <==> SetBindVariable(i, w, Some(c)).Ok?
    ensures SetBindVariable(i, v, Some(c)).Ok? ==>
              SetBindVariable(i, v, Some(c)).value.access == SetBindVariable(i, w, Some(c)).value.access
    ensures TypeSymbol(v, Some(c)) == ClassName(c)
  {
  }

  /** The symbols the `when` branches of `set_bind_variable` list. */
  const BindableSymbols: set<string> := {
    "Fixnum", "Bignum", "Integer", "Float", "BigDecimal", "Java::JavaMath::BigDecimal",
    "String", "Java::JavaSql::Clob", "Java::JavaSql::Blob", "Date", "Java::JavaSql::Date",
    "DateTime", "Time", "Java::JavaSql::Timestamp", "NilClass", "Java::JavaSql::Array",
    "Java::JavaSql::Struct", "Java::JavaSql::ResultSet"}

  /** `set_bind_variable` raises exactly on a type symbol none of its branches
      lists, with a message naming it. */
  lemma UnknownTypeRaises(i: BindIndex, v: Value, declared: Option<RubyClass>)
    ensures SetBindVariable(i, v, declared).Err? <==> TypeSymbol(v, declared) !in BindableSymbols
    ensures SetBindVariable(i, v, declared).Err? ==>
              SetBindVariable(i, v, declared).error.message ==
              "Don't know how to bind variable with type " + TypeSymbol(v, declared)
  {
  }

  /** true and false have no bind of their own: without a declared type they raise. */
  lemma BooleanRaises(i: BindIndex, b: bool)
    ensures SetBindVariable(i, Bool(b), None) ==
            Err(ArgumentError("Don't know how to bind variable with type " + (if b then "TrueClass" else "FalseClass")))
  {
    var symbol := TypeSymbol(Bool(b), None);
    assert symbol == if b then "TrueClass" else "FalseClass";
    assert symbol[0] == 'T' || symbol[0] == 'F';
    assert SetterFor(symbol).None?;
  }

  /** One `stmt.get...(i)` of `get_bind_variable`. */
  datatype DriverRead = DriverRead(access: Access, index: int)

  function GetterName(r: DriverRead): string {
    "get" + AccessName(r.access)
  }

  /** The `case type.to_s.to_sym` of `get_bind_variable`. */
  function GetterFor(symbol: string): (r: Option<Access>)
    ensures r.None? <==> symbol !in ReadableSymbols
  {
    if symbol in {"Fixnum", "Bignum", "Integer"} then Some(IntAccess)
    else if symbol == "Float" then Some(FloatAccess)
    else if symbol == "BigDecimal" then Some(BigDecimalAccess)
    else if symbol == "String" then Some(StringAccess)
    else if symbol == "Java::JavaSql::Clob" then Some(ClobAccess)
    else if symbol == "Java::JavaSql::Blob" then Some(BlobAccess)
    else if symbol == "Date" then Some(DateAccess)
    else if symbol in {"DateTime", "Time"} then Some(TimestampAccess)
    else if symbol == "Java::JavaSql::Array" then Some(ArrayAccess)
    else if symbol == "Java::JavaSql::Struct" then Some(StructAccess)
    else if symbol == "Java::JavaSql::ResultSet" then Some(CursorAccess)
    else None
  }

  /** The symbols the `when` branches of `get_bind_variable` list. */
  const ReadableSymbols: set<string> := {
    "Fixnum", "Bignum", "Integer", "Float", "BigDecimal", "String", "Java::JavaSql::Clob",
    "Java::JavaSql::Blob", "Date", "DateTime", "Time", "Java::JavaSql::Array",
    "Java::JavaSql::Struct", "Java::JavaSql::ResultSet"}

  /** `type.to_s`; `nil.to_s` is "". */
  function TypeText(declared: Option<RubyClass>): string {
    match declared case None => "" case Some(c) => ClassName(c)
  }

  /** `get_bind_variable(stmt, i, type)`: the read it makes, or None where the
      Ruby method returns nil without touching the statement. */
  function GetBindVariable(i: int, declared: Option<RubyClass>): (r: Option<DriverRead>)
    ensures r.None? <==> TypeText(declared) !in ReadableSymbols
    ensures r.Some? ==> r.value.index == i
  {
    var symbol := TypeText(declared);
    match GetterFor(symbol)
    case None => None
    case Some(a) => Some(DriverRead(a, i))
  }

  /** The Java classes only the binding side lists take `setBigDecimal`,
      `setDate` and `setTimestamp`, as their Ruby counterparts do. */
  lemma SetterJavaClasses()
    ensures SetterFor("Java::JavaMath::BigDecimal") == Some(BigDecimalAccess) == SetterFor("BigDecimal")
    ensures SetterFor("Java::JavaSql::Date") == Some(DateAccess) == SetterFor("Date")
    ensures SetterFor("Java::JavaSql::Timestamp") == Some(TimestampAccess) == SetterFor("Time")
  {
  }

  /** The number classes are read through `getInt`, `getFloat` and `getBigDecimal`. */
  lemma GetterNumbers(i: int)
    ensures GetBindVariable(i, Some(Fixnum)) == Some(DriverRead(IntAccess, i))
    ensures GetBindVariable(i, Some(Bignum)) == Some(DriverRead(IntAccess, i))
    ensures GetBindVariable(i, Some(Integer)) == Some(DriverRead(IntAccess, i))
    ensures GetBindVariable(i, Some(Float)) == Some(DriverRead(FloatAccess, i))
    ensures GetBindVariable(i, Some(BigDecimal)) == Some(DriverRead(BigDecimalAccess, i))
  {
  }

  /** Text and the large objects are read through `getString`, `getClob` and `getBlob`. */
  lemma GetterTexts(i: int)
    ensures GetBindVariable(i, Some(String)) == Some(DriverRead(StringAccess, i))
    ensures GetBindVariable(i, Some(Clob)) == Some(DriverRead(ClobAccess, i))
    ensures GetBindVariable(i, Some(Blob)) == Some(DriverRead(BlobAccess, i))
  {
  }

  /** A Date is read through `getDate`, a DateTime or a Time through `getTimestamp`. */
  lemma GetterTimes(i: int)
    ensures GetBindVariable(i, Some(Date)) == Some(DriverRead(DateAccess, i))
    ensures GetBindVariable(i, Some(DateTime)) == Some(DriverRead(TimestampAccess, i))
    ensures GetBindVariable(i, Some(Time)) == Some(DriverRead(TimestampAccess, i))
  {
  }

  /** Arrays, structs and cursors are read through `getArray`, `getStruct` and `getCursor`. */
  lemma GetterStructures(i: int)
    ensures GetBindVariable(i, Some(JavaArray)) == Some(DriverRead(ArrayAccess, i))
    ensures GetBindVariable(i, Some(Struct)) == Some(DriverRead(StructAccess, i))
    ensures GetBindVariable(i, Some(ResultSet)) == Some(DriverRead(CursorAccess, i))
  {
  }

  /** What `get_bind_variable` returns given what the driver answered: the
      BigDecimal read re-wraps a java.math.BigDecimal as a Ruby BigDecimal. */
  function ReadBack(a: Access, raw: Value): (r: Value)
    ensures a != BigDecimalAccess || !raw.JavaNum? ==> r == raw
  {
    if a == BigDecimalAccess && raw.JavaNum? then Num(raw.d) else raw
  }

  /** Every type a value can be read as, it can be bound as, through the same
      accessor; the bind side knows four symbols more. */
  lemma GetterImpliesSetter(symbol: string)
    ensures GetterFor(symbol).Some? ==> SetterFor(symbol) == GetterFor(symbol)
    ensures SetterFor(symbol).Some? && GetterFor(symbol).None? <==>
              symbol in {"Java::JavaMath::BigDecimal", "Java::JavaSql::Date", "Java::JavaSql::Timestamp", "NilClass"}
  {
  }

  /** `get_ruby_value_from_result_set(rset, i, metadata)`, given what the driver
      answers to the read (`raw`). */
  function GetRubyValueFromResultSet(i: int, sqlType: int, raw: Value): (r: Result<Value, ConversionError>)
  {
    var rubyType := if sqlType in SqlTypeToRubyClass then Some(SqlTypeToRubyClass[sqlType]) else None;
    match GetBindVariable(i, rubyType)
    case None => DbValueToRubyValue(Nil)
    case Some(read) => DbValueToRubyValue(ReadBack(read.access, raw))
  }

  /** A column whose SQL type the reading table lists is read through a getter;
      any other column reads as nil, whatever the driver holds. */
  lemma ResultSetReads(i: int, sqlType: int, raw: Value)
    ensures var rubyType := if sqlType in SqlTypeToRubyClass then Some(SqlTypeToRubyClass[sqlType]) else None;
            GetBindVariable(i, rubyType).Some? <==> sqlType in SqlTypeToRubyClass
    ensures sqlType !in SqlTypeToRubyClass ==> GetRubyValueFromResultSet(i, sqlType, raw) == Ok(Nil)
    ensures sqlType in {NUMERIC, DOUBLE} && raw.JavaNum? ==>
              GetRubyValueFromResultSet(i, sqlType, raw) == Ok(DbNumberToRubyNumber(raw.d))
  {
    if sqlType in SqlTypeToRubyClass {
      var c := SqlTypeToRubyClass[sqlType];
      assert c in {String, BigDecimal, Fixnum, Date, Time, DateTime, JavaArray, Struct};
    }
  }
}
