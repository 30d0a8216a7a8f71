/**
 * Values crossing the JDBC boundary (lib/plsql/jdbc_pg_connection.rb):
 * `ruby_value_to_db_value` on the way in, `db_value_to_ruby_value` on the way
 * out, the java.sql.Date/Timestamp field offsets and the number normalisation.
 */
module JdbcValues {
  import opened Wrappers
  import opened JdbcTypes

  /** An exact decimal, `unscaled / 10^scale` (BigDecimal, java.math.BigDecimal). */
  datatype Dec = Dec(unscaled: int, scale: nat)

  function Pow10(n: nat): (p: int)
    ensures p >= 1
  {
    if n == 0 then 1 else 10 * Pow10(n - 1)
  }

  /** Calendar fields of a Ruby Time: year, month 1..12, day, hour, min, sec, usec. */
  datatype Civil = Civil(year: int, month: int, day: int, hour: int, min: int, sec: int, usec: int)

  /** The values the connection converts. A java.sql.Date stores year - 1900 and
      month - 1; a java.sql.Timestamp also stores nanoseconds. `Object` is any
      other object, of class `cls`, told apart from its kin by `id`. */
  datatype Value =
    | Nil
    | Bool(b: bool)
    | Int(i: int)
    | Num(d: Dec)
    | Str(s: string)
    | DateVal(year: int, month: int, day: int)
    | DateTimeVal(year: int, month: int, day: int, hour: int, min: int, sec: int)
    | TimeVal(t: Civil)
    | JavaNum(d: Dec)
    | JavaDateVal(year: int, month: int, date: int)
    | JavaTimestampVal(year: int, month: int, date: int, hours: int, minutes: int, seconds: int, nanos: int)
    | Object(cls: RubyClass, id: nat)

  /** JRuby's Fixnum holds a Java long. */
  const FixnumMin: int := -0x8000_0000_0000_0000
  const FixnumMax: int := 0x7FFF_FFFF_FFFF_FFFF

  /** `value.class` */
  function ClassOf(v: Value): RubyClass {
    match v
    case Nil => NilClass
    case Bool(b) => if b then TrueClass else FalseClass
    case Int(i) => if FixnumMin <= i <= FixnumMax then Fixnum else Bignum
    case Num(_) => BigDecimal
    case Str(_) => String
    case DateVal(_, _, _) => Date
    case DateTimeVal(_, _, _, _, _, _) => DateTime
    case TimeVal(_) => Time
    case JavaNum(_) => JavaBigDecimal
    case JavaDateVal(_, _, _) => JavaDate
    case JavaTimestampVal(_, _, _, _, _, _, _) => Timestamp
    case Object(cls, _) => cls
  }

  /** The classes whose values have a constructor of their own above. */
  const ValueClasses: set<RubyClass> := {
    NilClass, TrueClass, FalseClass, Fixnum, Bignum, BigDecimal, String, Date, DateTime,
    Time, JavaBigDecimal, JavaDate, Timestamp}

  /** A value the program can hold: an `Object` is never of a class that has a
      constructor of its own (an `Object(Time, 3)` stands for nothing). */
  predicate Representable(v: Value) {
    v.Object? ==> v.cls !in ValueClasses
  }

  /** On representable values the class tells the constructor. */
  lemma ClassOfIdentifies(v: Value)
    requires Representable(v)
    ensures ClassOf(v) in {Fixnum, Bignum} <==> v.Int?
    ensures ClassOf(v) == BigDecimal <==> v.Num?
    ensures ClassOf(v) == JavaBigDecimal <==> v.JavaNum?
    ensures ClassOf(v) == Time <==> v.TimeVal?
    ensures ClassOf(v) == DateTime <==> v.DateTimeVal?
    ensures ClassOf(v) == Date <==> v.DateVal?
    ensures ClassOf(v) == Timestamp <==> v.JavaTimestampVal?
    ensures ClassOf(v) == JavaDate <==> v.JavaDateVal?
  {
  }

  /** Ruby truthiness: everything but nil and false. */
  predicate Truthy(v: Value) {
    !(v.Nil? || v == Bool(false))
  }

  /** What a conversion raises. `Unmodelled` stands for a conversion this model
      does not follow: parsing text into a decimal, reading a LOB, an array, a
      struct or a result set. */
  datatype ConversionError = NoMethodError(selector: string) | NumberFormatError | Unmodelled

  /** `java_date(time)` on a Time. */
  function JavaDateOf(t: Civil): (r: Value)
    ensures r.JavaDateVal?
  {
    JavaDateVal(t.year - 1900, t.month - 1, t.day)
  }

  /** `java_timestamp(time)` on a Time. */
  function JavaTimestampOf(t: Civil): (r: Value)
    ensures r.JavaTimestampVal?
  {
    JavaTimestampVal(t.year - 1900, t.month - 1, t.day, t.hour, t.min, t.sec, t.usec * 1000)
  }

  /** The Time `db_value_to_ruby_value` builds from a java.sql.Timestamp. Ruby's
      Integer `/` floors; for the divisor 1000 that is Dafny's `/`. */
  function TimeOfTimestamp(j: Value): (t: Civil)
    requires j.JavaTimestampVal?
  {
    Civil(j.year + 1900, j.month + 1, j.date, j.hours, j.minutes, j.seconds, j.nanos / 1000)
  }

  /** The Time `db_value_to_ruby_value` builds from a java.sql.Date. */
  function TimeOfDate(j: Value): (t: Civil)
    requires j.JavaDateVal?
  {
    Civil(j.year + 1900, j.month + 1, j.date, 0, 0, 0, 0)
  }

  /** Reading a Time back from the Timestamp it was stored as gives that Time;
      storing the Time read from a Timestamp gives the Timestamp back exactly
      when its nanoseconds are whole microseconds. */
  lemma TimestampRoundTrip(t: Civil, j: Value)
    requires j.JavaTimestampVal?
    ensures TimeOfTimestamp(JavaTimestampOf(t)) == t
    ensures JavaTimestampOf(TimeOfTimestamp(j)) == j <==> j.nanos % 1000 == 0
  {
    assert (t.usec * 1000) / 1000 == t.usec;
    var back := JavaTimestampOf(TimeOfTimestamp(j));
    assert back.nanos == (j.nanos / 1000) * 1000;
    assert j.nanos == (j.nanos / 1000) * 1000 + j.nanos % 1000;
  }

  /** The same for dates: a midnight Time round-trips through java.sql.Date, and
      every java.sql.Date round-trips through its Time. */
  lemma DateRoundTrip(t: Civil, j: Value)
    requires j.JavaDateVal?
    ensures t.hour == 0 && t.min == 0 && t.sec == 0 && t.usec == 0 ==> TimeOfDate(JavaDateOf(t)) == t
    ensures JavaDateOf(TimeOfDate(j)) == j
  {
  }

  /** `java_timestamp(value)` on any value: `value && ...` keeps nil and false;
      only a Time answers `usec`. A DateTime lacks `usec`; a Date, a
      java.sql.Date and a java.sql.Timestamp answer `year`, `month` and `day`
      but not `hour`; numbers, text and booleans fail on `year`. */
  function JavaTimestampFrom(v: Value): (r: Result<Value, ConversionError>)
    ensures !Truthy(v) ==> r == Ok(v)
    ensures r.Ok? && Truthy(v) <==> v.TimeVal?
    ensures v.TimeVal? ==> r == Ok(JavaTimestampOf(v.t))
    ensures v.DateTimeVal? ==> r == Err(NoMethodError("usec"))
    ensures v.DateVal? || v.JavaDateVal? || v.JavaTimestampVal? ==> r == Err(NoMethodError("hour"))
    ensures Truthy(v) && !(v.TimeVal? || v.DateTimeVal? || v.DateVal? || v.JavaDateVal? || v.JavaTimestampVal?) ==>
              r == Err(NoMethodError("year"))
  {
    if !Truthy(v) then Ok(v)
    else if v.TimeVal? then Ok(JavaTimestampOf(v.t))
    else if v.DateTimeVal? then Err(NoMethodError("usec"))
    else if v.DateVal? || v.JavaDateVal? || v.JavaTimestampVal? then Err(NoMethodError("hour"))
    else Err(NoMethodError("year"))
  }

  /** `java_bigdecimal(value)`: `value && java.math.BigDecimal.new(value.to_s)`. */
  function JavaBigDecimalFrom(v: Value): (r: Result<Value, ConversionError>)
    ensures !Truthy(v) ==> r == Ok(v)
  {
    match v
    case Nil => Ok(Nil)
    case Bool(b) => if b then Err(NumberFormatError) else Ok(v)
    case Int(i) => Ok(JavaNum(Dec(i, 0)))
    case Num(d) => Ok(JavaNum(d))
    case JavaNum(d) => Ok(JavaNum(d))
    case Str(_) => Err(Unmodelled)
    case Object(_, _) => Err(Unmodelled)
    case _ => Err(NumberFormatError)
  }

  /** `ruby_value_to_db_value(value, type)`: the declared type, else the value's
      class, chooses the conversion by name. */
  function RubyValueToDbValue(v: Value, declared: Option<RubyClass>): (r: Result<Value, ConversionError>)
  {
    var name := ClassName(declared.GetOr(ClassOf(v)));
    if name == "Fixnum" || name == "String" then Ok(v)
    else if name == "BigDecimal" then
      JavaBigDecimalFrom(match v case Bool(b) => Int(if b then 1 else 0) case _ => v)
    else if name == "Date" || name == "DateTime" then
      match v
      case DateTimeVal(y, mo, d, h, mi, s) => Ok(JavaTimestampOf(Civil(y, mo, d, h, mi, s, 0)))
      case DateVal(y, mo, d) => Ok(JavaDateOf(Civil(y, mo, d, 0, 0, 0, 0)))
      case _ => JavaTimestampFrom(v)
    else if name == "Time" then JavaTimestampFrom(v)
    else if name == "Java::JavaSql::Clob" || name == "Java::JavaSql::Blob" then Ok(v)
    else if name == "Java::JavaSql::Array" || name == "Java::JavaSql::Struct" then Ok(Nil)
    else if name == "Java::JavaSql::ResultSet" then
      if !Truthy(v) then Ok(Nil)
      else if v.Object? && v.cls == Cursor then Ok(Object(ResultSet, v.id))
      else Err(NoMethodError("result_set"))
    else Ok(v)
  }

  /** `num.to_i`: truncation toward zero. */
  function Truncate(d: Dec): int {
    var p := Pow10(d.scale);
    if d.unscaled >= 0 then d.unscaled / p else -((-d.unscaled) / p)
  }

  /** Does the decimal hold a whole number? */
  predicate Integral(d: Dec) {
    d.unscaled % Pow10(d.scale) == 0
  }

  /** `db_number_to_ruby_number(num)` on a BigDecimal: the Integer when the number
      equals its truncation, else the decimal itself. */
  function DbNumberToRubyNumber(d: Dec): (r: Value)
    ensures r.Int? <==> Integral(d)
    ensures r.Int? ==> r.i * Pow10(d.scale) == d.unscaled
    ensures !r.Int? ==> r == Num(d)
  {
    var k := Truncate(d);
    TruncateExact(d);
    if k * Pow10(d.scale) == d.unscaled then Int(k) else Num(d)
  }

  /** Truncation is exact precisely on whole numbers. */
  lemma TruncateExact(d: Dec)
    ensures Truncate(d) * Pow10(d.scale) == d.unscaled <==> Integral(d)
  {
    TruncationExact(d.unscaled, Pow10(d.scale));
  }

  lemma TruncationExact(a: int, p: int)
    requires p >= 1
    ensures (if a >= 0 then a / p else -((-a) / p)) * p == a <==> a % p == 0
  {
    if a < 0 {
      var q, m := (-a) / p, (-a) % p;
      assert -a == q * p + m && 0 <= m < p;
      if m == 0 {
        DivModOf(a, p, -q, 0);
      } else {
        DivModOf(a, p, -q - 1, p - m);
        assert (-q) * p != a;
      }
    }
  }

  /** Euclidean division is determined by its quotient and remainder. */
  lemma DivModOf(a: int, p: int, q: int, m: int)
    requires p >= 1 && a == q * p + m && 0 <= m < p
    ensures a / p == q && a % p == m
  {
    var k := a / p - q;
    assert k * p == m - a % p by {
      assert a == (a / p) * p + a % p;
    }
    if k >= 1 {
      assert false;
    } else if k <= -1 {
      assert false;
    }
  }

  /** `db_value_to_ruby_value(value)`: decimals are normalised, java.sql dates and
      timestamps become Times, anything else is returned as it is. */
  function DbValueToRubyValue(v: Value): (r: Result<Value, ConversionError>)
    ensures r.Err? <==> v.Object? && v.cls in {Clob, Blob, JavaArray, Struct, ResultSet}
  {
    match v
    case Num(d) => Ok(DbNumberToRubyNumber(d))
    case JavaNum(d) => Ok(DbNumberToRubyNumber(d))
    case JavaDateVal(_, _, _) => Ok(TimeVal(TimeOfDate(v)))
    case JavaTimestampVal(_, _, _, _, _, _, _) => Ok(TimeVal(TimeOfTimestamp(v)))
    case Object(cls, _) => if cls in {Clob, Blob, JavaArray, Struct, ResultSet} then Err(Unmodelled) else Ok(v)
    case _ => Ok(v)
  }

  /** With a BigDecimal target, true becomes decimal 1, false decimal 0, a number
      its own value, and nil stays nil. */
  lemma BigDecimalCoercion(v: Value)
    ensures RubyValueToDbValue(Bool(true), Some(BigDecimal)) == Ok(JavaNum(Dec(1, 0)))
    ensures RubyValueToDbValue(Bool(false), Some(BigDecimal)) == Ok(JavaNum(Dec(0, 0)))
    ensures v.Int? ==> RubyValueToDbValue(v, Some(BigDecimal)) == Ok(JavaNum(Dec(v.i, 0)))
    ensures v.Num? || v.JavaNum? ==> RubyValueToDbValue(v, Some(BigDecimal)) == Ok(JavaNum(v.d))
    ensures RubyValueToDbValue(Nil, Some(BigDecimal)) == Ok(Nil)
  {
  }

  /** A value bound to a statement and read back from it: the conversion for
      binding, then the conversion of what the driver returns. */
  function StoredAndRead(v: Value, declared: Option<RubyClass>): Result<Value, ConversionError> {
    match RubyValueToDbValue(v, declared)
    case Ok(db) => DbValueToRubyValue(db)
    case Err(e) => Err(e)
  }

  /** A number bound as a BigDecimal reads back with its value: an Integer as
      itself, a decimal as an Integer of equal value when whole, else unchanged. */
  lemma NumberRoundTrip(v: Value)
    requires v.Int? || v.Num?
    ensures var back := StoredAndRead(v, Some(BigDecimal));
            back.Ok? &&
            (v.Int? ==> back.value == v) &&
            (v.Num? ==> if Integral(v.d) then back.value.Int? && back.value.i * Pow10(v.d.scale) == v.d.unscaled
                        else back.value == v)
  {
    if v.Int? {
      assert Pow10(0) == 1;
      var back := DbNumberToRubyNumber(Dec(v.i, 0));
      assert back.Int?;
    }
  }

  /** Dates, DateTimes and Times stored and read back keep their calendar
      fields; a Date reads back as midnight and a DateTime with no microseconds. */
  lemma TemporalRoundTrip(y: int, mo: int, d: int, h: int, mi: int, s: int, t: Civil)
    ensures StoredAndRead(DateVal(y, mo, d), None) ==
            Ok(TimeVal(Civil(y, mo, d, 0, 0, 0, 0)))
    ensures StoredAndRead(DateTimeVal(y, mo, d, h, mi, s), None) ==
            Ok(TimeVal(Civil(y, mo, d, h, mi, s, 0)))
    ensures StoredAndRead(TimeVal(t), None) == Ok(TimeVal(t))
    ensures StoredAndRead(TimeVal(t), Some(DateTime)) == Ok(TimeVal(t))
  {
    TimestampRoundTrip(t, JavaTimestampOf(t));
    TimestampRoundTrip(Civil(y, mo, d, h, mi, s, 0), JavaTimestampOf(t));
    DateRoundTrip(Civil(y, mo, d, 0, 0, 0, 0), JavaDateOf(t));
  }

  /** nil and false pass every temporal and decimal conversion unchanged, and
      nil reads back as nil. */
  lemma FalsyPassThrough(v: Value, declared: RubyClass)
    requires !Truthy(v)
    requires declared in {Date, DateTime, Time, BigDecimal}
    ensures v.Nil? ==> RubyValueToDbValue(v, Some(declared)) == Ok(Nil)
    ensures declared != BigDecimal ==> RubyValueToDbValue(v, Some(declared)) == Ok(v)
    ensures DbValueToRubyValue(v) == Ok(v)
  {
  }
}
