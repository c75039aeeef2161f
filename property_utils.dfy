/**
 * PropertyUtils: typed getters over a loaded property table. The table is
 * the key/value map that java.util.Properties holds after `load`; the
 * getters only read it.
 */
module PropertyUtils {
  import opened Results
  import opened Text

  type Table = map<string, string>

  const IntMin: int := -0x8000_0000
  const IntMax: int := 0x7FFF_FFFF
  const LongMin: int := -0x8000_0000_0000_0000
  const LongMax: int := 0x7FFF_FFFF_FFFF_FFFF

  /**
   * getProperty(key): the stored value exactly as stored. The source calls
   * trim() on it but discards the result, so no trimming happens.
   */
  function GetProperty(table: Table, key: string): (r: Option<string>)
    ensures r.Some? <==> key in table
    ensures r.Some? ==> r.value == table[key]
  {
    if key in table then Some(table[key]) else None
  }

  /** getStr(key): the same lookup as getProperty. */
  function GetStr(table: Table, key: string): (r: Option<string>)
    ensures r.Some? <==> key in table
    ensures r.Some? ==> r.value == table[key]
  {
    GetProperty(table, key)
  }

  /**
   * getStr(key, default): Properties.getProperty(key, default), which goes
   * through the overridden getProperty and falls back to the default only
   * when the key is absent.
   */
  function GetStrOr(table: Table, key: string, default: Option<string>): (r: Option<string>)
    ensures key !in table ==> r == default
    ensures key in table ==> r == Some(table[key])
  {
    match GetProperty(table, key)
    case Some(v) => Some(v)
    case None => default
  }

  /** getInt(key, default): absent gives the default, present gives Integer.parseInt of the trimmed value. */
  function GetIntOr(table: Table, key: string, default: Option<int>): (r: Result<Option<int>>)
    ensures key !in table ==> r == Ok(default)
    ensures key in table ==> r.Err? || r.value.Some?
    ensures key in table && r.Ok? ==> IntMin <= r.value.value <= IntMax
    ensures key in table && r.Err? ==> r.error == NumberFormatException(Trim(table[key]))
    ensures key in table ==>
      (r.Ok? <==> IsIntegerText(Trim(table[key])) && IntMin <= IntegerValue(Trim(table[key])) <= IntMax)
    ensures key in table && r.Ok? ==> r.value == Some(IntegerValue(Trim(table[key])))
  {
    match GetProperty(table, key)
    case None => Ok(default)
    case Some(v) =>
      match ParseInteger(Trim(v), IntMin, IntMax)
      case Ok(n) => Ok(Some(n))
      case Err(e) => Err(e)
  }

  /** getInt(key): getInt(key, null). */
  function GetInt(table: Table, key: string): (r: Result<Option<int>>)
    ensures key !in table ==> r == Ok(None)
    ensures key in table ==> r.Err? || r.value.Some?
    ensures key in table && r.Ok? ==> IntMin <= r.value.value <= IntMax
    ensures key in table && r.Err? ==> r.error == NumberFormatException(Trim(table[key]))
    ensures key in table ==>
      (r.Ok? <==> IsIntegerText(Trim(table[key])) && IntMin <= IntegerValue(Trim(table[key])) <= IntMax)
    ensures key in table && r.Ok? ==> r.value == Some(IntegerValue(Trim(table[key])))
  {
    GetIntOr(table, key, None)
  }

  /** getLong(key, default): as getInt, with Long.parseLong's range. */
  function GetLongOr(table: Table, key: string, default: Option<int>): (r: Result<Option<int>>)
    ensures key !in table ==> r == Ok(default)
    ensures key in table ==> r.Err? || r.value.Some?
    ensures key in table && r.Ok? ==> LongMin <= r.value.value <= LongMax
    ensures key in table && r.Err? ==> r.error == NumberFormatException(Trim(table[key]))
    ensures key in table ==>
      (r.Ok? <==> IsIntegerText(Trim(table[key])) && LongMin <= IntegerValue(Trim(table[key])) <= LongMax)
    ensures key in table && r.Ok? ==> r.value == Some(IntegerValue(Trim(table[key])))
  {
    match GetProperty(table, key)
    case None => Ok(default)
    case Some(v) =>
      match ParseInteger(Trim(v), LongMin, LongMax)
      case Ok(n) => Ok(Some(n))
      case Err(e) => Err(e)
  }

  /** getLong(key): getLong(key, null). */
  function GetLong(table: Table, key: string): (r: Result<Option<int>>)
    ensures key !in table ==> r == Ok(None)
    ensures key in table ==> r.Err? || r.value.Some?
    ensures key in table && r.Ok? ==> LongMin <= r.value.value <= LongMax
    ensures key in table && r.Err? ==> r.error == NumberFormatException(Trim(table[key]))
    ensures key in table ==>
      (r.Ok? <==> IsIntegerText(Trim(table[key])) && LongMin <= IntegerValue(Trim(table[key])) <= LongMax)
    ensures key in table && r.Ok? ==> r.value == Some(IntegerValue(Trim(table[key])))
  {
    GetLongOr(table, key, None)
  }

  /**
   * getBoolean(key, default): an absent or empty value gives the default;
   * otherwise the value, lower-cased and then trimmed, must be "true" or
   * "false", and anything else raises a RuntimeException that quotes it.
   */
  function GetBooleanOr(table: Table, key: string, default: Option<bool>): (r: Result<Option<bool>>)
    ensures key !in table || table[key] == "" ==> r == Ok(default)
    ensures key in table && table[key] != "" ==>
      var t := Trim(ToLowerAscii(table[key]));
      && (t == "true" <==> r == Ok(Some(true)))
      && (t == "false" <==> r == Ok(Some(false)))
      && (t != "true" && t != "false" <==>
           r == Err(RuntimeException("The value can not parse to Boolean : " + t)))
  {
    var value := GetProperty(table, key);
    if value.Some? && value.value != "" then
      var t := Trim(ToLowerAscii(value.value));
      if t == "true" then Ok(Some(true))
      else if t == "false" then Ok(Some(false))
      else Err(RuntimeException("The value can not parse to Boolean : " + t))
    else Ok(default)
  }

  /** getBoolean(key): getBoolean(key, null). */
  function GetBoolean(table: Table, key: string): (r: Result<Option<bool>>)
    ensures key !in table || table[key] == "" ==> r == Ok(None)
    ensures key in table && table[key] != "" ==>
      var t := Trim(ToLowerAscii(table[key]));
      && (t == "true" <==> r == Ok(Some(true)))
      && (t == "false" <==> r == Ok(Some(false)))
      && (t != "true" && t != "false" <==>
           r == Err(RuntimeException("The value can not parse to Boolean : " + t)))
  {
    GetBooleanOr(table, key, None)
  }

  /** containsKey(key). */
  predicate ContainsKey(table: Table, key: string)
    ensures ContainsKey(table, key) <==> GetProperty(table, key).Some?
  {
    key in table
  }

  /** containsKey agrees with getStr: a key is present exactly when getStr finds a value. */
  lemma ContainsKeyIffGetStr(table: Table, key: string)
    ensures ContainsKey(table, key) <==> GetStr(table, key).Some?
  {
  }

  /** getStr(key, d) falls back to d exactly when the key is absent (for a stored value different from d). */
  lemma GetStrOrDefaultIffAbsent(table: Table, key: string, default: Option<string>)
    requires key in table ==> Some(table[key]) != default
    ensures GetStrOr(table, key, default) == default <==> key !in table
  {
  }

  /** The getInt family returns exactly what Integer.toString printed, whatever surrounds it up to ' '. */
  lemma GetIntReadsDecimal(table: Table, key: string, n: int, pad: string)
    requires IntMin <= n <= IntMax
    requires forall i :: 0 <= i < |pad| ==> IsTrimmable(pad[i])
    requires key in table && table[key] == pad + DecimalString(n) + pad
    ensures GetInt(table, key) == Ok(Some(n))
  {
    TrimPadded(pad, DecimalString(n));
    ParseDecimalString(n, IntMin, IntMax);
  }

  /** The same for getLong. */
  lemma GetLongReadsDecimal(table: Table, key: string, n: int, pad: string)
    requires LongMin <= n <= LongMax
    requires forall i :: 0 <= i < |pad| ==> IsTrimmable(pad[i])
    requires key in table && table[key] == pad + DecimalString(n) + pad
    ensures GetLong(table, key) == Ok(Some(n))
  {
    TrimPadded(pad, DecimalString(n));
    ParseDecimalString(n, LongMin, LongMax);
  }

  /** Text that is not an optional sign followed by digits raises, whatever the width. */
  lemma NonNumericRaises(table: Table, key: string)
    requires key in table && !IsIntegerText(Trim(table[key]))
    ensures GetInt(table, key) == Err(NumberFormatException(Trim(table[key])))
    ensures GetLong(table, key) == Err(NumberFormatException(Trim(table[key])))
  {
  }

  /** A decimal long beyond the int range raises for getInt and reads back for getLong. */
  lemma IntWidthExceeded(table: Table, key: string, n: int)
    requires IntMax < n <= LongMax
    requires key in table && table[key] == DecimalString(n)
    ensures GetInt(table, key) == Err(NumberFormatException(DecimalString(n)))
    ensures GetLong(table, key) == Ok(Some(n))
  {
    var d := DecimalString(n);
    TrimPadded("", d);
    assert "" + d + "" == d;
    assert Trim(table[key]) == d;
    ParseDecimalString(n, n, n);
    assert IsIntegerText(d) && IntegerValue(d) == n;
    GetLongReadsDecimal(table, key, n, "");
  }

  /** A '+' sign and leading zeros are accepted, as Integer.parseInt accepts them; letters are not. */
  lemma NonCanonicalIntegers(table: Table)
    requires "a" in table && table["a"] == "+7"
    requires "b" in table && table["b"] == " 007 "
    requires "c" in table && table["c"] == "abc"
    ensures GetInt(table, "a") == Ok(Some(7))
    ensures GetInt(table, "b") == Ok(Some(7))
    ensures GetInt(table, "c") == Err(NumberFormatException("abc"))
  {
    PlusSevenText();
    SpacesTrimmed();
    LeadingZerosText();
    LettersText();
  }

  lemma PlusSevenText()
    ensures Trim("+7") == "+7" && IsIntegerText("+7") && IntegerValue("+7") == 7
  {
    TrimStartKeeps("+7");
    TrimEndKeeps("+7");
    assert "+7"[1..] == "7" && "7"[..0] == "";
  }

  lemma LeadingZerosText()
    ensures IsIntegerText("007") && IntegerValue("007") == 7
  {
    assert AllDigits("007");
    assert "007"[..2] == "00" && "00"[..1] == "0" && "0"[..0] == "";
    assert DigitsValue("0") == 0;
    assert DigitsValue("00") == 0;
    assert DigitsValue("007") == DigitsValue("00") * 10 + 7;
  }

  lemma SpacesTrimmed()
    ensures Trim(" 007 ") == "007"
  {
    assert " 007 " == " " + "007" + " ";
    TrimPadded(" ", "007");
  }

  lemma LettersText()
    ensures Trim("abc") == "abc" && !IsIntegerText("abc")
  {
    TrimStartKeeps("abc");
    TrimEndKeeps("abc");
    assert !IsDigit("abc"[0]) && "abc"[0] != '+' && "abc"[0] != '-';
  }

  lemma TrimPadded(pad: string, s: string)
    requires forall i :: 0 <= i < |pad| ==> IsTrimmable(pad[i])
    requires |s| > 0 && !IsTrimmable(s[0]) && !IsTrimmable(s[|s| - 1])
    ensures Trim(pad + s + pad) == s
  {
    TrimStartPadded(pad, s + pad);
    assert pad + s + pad == pad + (s + pad);
    TrimEndPadded(s, pad);
  }

  lemma {:induction false} TrimStartPadded(pad: string, s: string)
    requires forall i :: 0 <= i < |pad| ==> IsTrimmable(pad[i])
    requires |s| > 0 && !IsTrimmable(s[0])
    ensures TrimStart(pad + s) == s
    decreases |pad|
  {
    if |pad| > 0 {
      assert (pad + s)[1..] == pad[1..] + s;
      TrimStartPadded(pad[1..], s);
    }
  }

  lemma {:induction false} TrimEndPadded(s: string, pad: string)
    requires forall i :: 0 <= i < |pad| ==> IsTrimmable(pad[i])
    requires |s| > 0 && !IsTrimmable(s[|s| - 1])
    ensures TrimEnd(s + pad) == s
    decreases |pad|
  {
    if |pad| > 0 {
      assert (s + pad)[..|s + pad| - 1] == s + pad[..|pad| - 1];
      TrimEndPadded(s, pad[..|pad| - 1]);
    } else {
      assert s + pad == s;
    }
  }

  /** A value made only of whitespace is not empty, so it is parsed, and it raises. */
  lemma WhitespaceOnlyBooleanRaises(table: Table, key: string)
    requires key in table && table[key] == " "
    ensures GetBoolean(table, key).Err?
  {
    assert Trim(ToLowerAscii(" ")) == "";
  }

  /** Upper-case spellings with surrounding spaces are accepted. */
  lemma BooleanExample(table: Table, key: string)
    requires key in table && table[key] == " TRUE "
    ensures GetBoolean(table, key) == Ok(Some(true))
  {
    var lowered := ToLowerAscii(" TRUE ");
    assert lowered[0] == ' ' && lowered[1] == 't' && lowered[2] == 'r';
    assert lowered[3] == 'u' && lowered[4] == 'e' && lowered[5] == ' ';
    assert lowered == " " + "true" + " ";
    TrimPadded(" ", "true");
  }
}
