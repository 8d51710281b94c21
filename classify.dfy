/** The field classifier (`find_type`, `try_parse_date`) and the constraint
    classifier (`find_constraint`). Rust's `f64` parser and the `dtparse`
    date parser are foreign code; they enter as the two oracles of `Oracles`. */
module Classify {
  import opened Wrappers
  import opened Text
  import opened Schema

  /** The time-of-day part of a parsed date (chrono's `NaiveTime`). */
  datatype Time = Time(hour: nat, minute: nat, second: nat, nano: nat)

  const Midnight: Time := Time(0, 0, 0, 0)

  /** `parsesF64(f)`: whether `f.parse::<f64>()` succeeds.
      `parseDate(f)`: the time of day of `dtparse::parse(f)`, or `None` when
      it fails. */
  datatype Oracles = Oracles(parsesF64: string -> bool, parseDate: string -> Option<Time>)

  /** The range of a 64-bit `isize`. */
  const IsizeMin: int := -0x8000_0000_0000_0000
  const IsizeMax: int := 0x7FFF_FFFF_FFFF_FFFF

  predicate IsDigit(c: char)
  {
    '0' <= c <= '9'
  }

  predicate AllDigits(s: string)
  {
    forall i :: 0 <= i < |s| ==> IsDigit(s[i])
  }

  /** The value of a non-empty run of ASCII digits, read left to right;
      `None` if the run is empty or holds anything else. */
  function ParseDigits(s: string): Option<nat>
    decreases |s|
  {
    if s == [] || !IsDigit(s[|s| - 1]) then None
    else
      var d := s[|s| - 1] as int - '0' as int;
      if |s| == 1 then Some(d)
      else match ParseDigits(s[..|s| - 1])
        case None => None
        case Some(v) => Some(v * 10 + d)
  }

  /** `s.parse::<isize>()`: an optional `+` or `-`, then at least one ASCII
      digit, and a value that fits in 64 bits. */
  function ParseIsize(s: string): (r: Option<int>)
    ensures r.Some? ==> s != [] && IsizeMin <= r.value <= IsizeMax
  {
    if s == [] then None
    else
      var digits := if s[0] == '+' || s[0] == '-' then s[1..] else s;
      match ParseDigits(digits)
      case None => None
      case Some(m) =>
        var v: int := if s[0] == '-' then 0 - m else m;
        if IsizeMin <= v <= IsizeMax then Some(v) else None
  }

  /** `try_parse_date`: a date at exactly 00:00:00 is a `Date`, any other
      time of day makes it a `Timestamp`. */
  function TryParseDate(field: string, o: Oracles): (r: Option<ColumnType>)
    ensures r.Some? <==> o.parseDate(field).Some?
    ensures r.Some? ==> (r.value == Date || r.value == Timestamp)
    ensures r.Some? ==> (r.value == Date <==> o.parseDate(field).value == Midnight)
  {
    match o.parseDate(field)
    case None => None
    case Some(time) => if time == Midnight then Some(Date) else Some(Timestamp)
  }

  /** `find_type`: the first test that the lower-cased field passes decides. */
  function FindType(field: string, o: Oracles): (r: ColumnType)
    ensures r == Unknown <==> field == []
    ensures r == Boolean <==> Lower(field) == "true" || Lower(field) == "false"
  {
    var f := Lower(field);
    if f == [] then Unknown
    else if f == "true" || f == "false" then Boolean
    else if ParseIsize(f).Some? then Integer
    else if o.parsesF64(f) then Numeric
    else match TryParseDate(f, o)
      case Some(c) => c
      case None => Text
  }

  /** `find_constraint`: only the exact null sentinel is nullable. */
  function FindConstraint(field: string, nullAs: string): (r: ColumnConstraint)
    ensures r == Nullable <==> field == nullAs
  {
    if field == nullAs then Nullable else NotNull
  }

  // ----- Facts about the integer syntax -----

  /** A run accepted by `ParseDigits` is non-empty and all digits, and
      every such run is accepted. */
  lemma {:induction false} ParseDigitsAccepts(s: string)
    ensures ParseDigits(s).Some? <==> s != [] && AllDigits(s)
    decreases |s|
  {
    if |s| > 1 {
      var init := s[..|s| - 1];
      ParseDigitsAccepts(init);
      assert forall i :: 0 <= i < |init| ==> init[i] == s[i];
    }
  }

  /** Every character of an accepted integer is a digit, except a leading
      sign, and its value is within the `isize` range. */
  lemma ParseIsizeChars(s: string)
    requires ParseIsize(s).Some?
    ensures forall i :: 0 <= i < |s| ==> IsDigit(s[i]) || (i == 0 && (s[i] == '+' || s[i] == '-'))
    ensures IsizeMin <= ParseIsize(s).value <= IsizeMax
  {
    var digits := if s[0] == '+' || s[0] == '-' then s[1..] else s;
    ParseDigitsAccepts(digits);
    forall i | 0 < i < |s| && (s[0] == '+' || s[0] == '-')
      ensures IsDigit(s[i])
    {
      assert s[i] == digits[i - 1];
    }
  }

  /** The converse of `ParseIsizeChars`: an optional sign before any
      non-empty digit run, leading zeros and `-0` included, is accepted
      exactly when its value is within the `isize` range. */
  lemma ParseIsizeSigned(sign: string, d: string)
    requires sign == "" || sign == "+" || sign == "-"
    requires d != [] && AllDigits(d)
    ensures ParseDigits(d).Some?
    ensures var v := if sign == "-" then 0 - ParseDigits(d).value else ParseDigits(d).value;
      ParseIsize(sign + d) == if IsizeMin <= v <= IsizeMax then Some(v) else None
  {
    ParseDigitsAccepts(d);
    var s := sign + d;
    if sign == "" {
      assert s == d && IsDigit(s[0]);
    } else {
      assert s[0] == sign[0] && s[1..] == d;
    }
  }

  /** `+007` and `-0` are integers, as `isize::from_str` reads them. */
  lemma ParseIsizeExamples()
    ensures ParseIsize("+007") == Some(7)
    ensures ParseIsize("-0") == Some(0)
    ensures ParseIsize("+") == None && ParseIsize("-") == None
  {
    ParseIsizeSigned("+", "007");
    assert "+" + "007" == "+007";
    assert ParseDigits("007") == Some(7) by {
      assert "007"[..2] == "00" && "00"[..1] == "0";
    }
    ParseIsizeSigned("-", "0");
    assert "-" + "0" == "-0";
    ParseDigitsAccepts([]);
    assert "+"[1..] == [];
    assert "-"[1..] == [];
  }

  /** Lower-casing does not change whether or how a field parses as an integer. */
  lemma {:induction false} ParseIsizeIgnoresCase(s: string)
    ensures ParseIsize(Lower(s)) == ParseIsize(s)
  {
    if exists i :: 0 <= i < |s| && 'A' <= s[i] <= 'Z' {
      var i :| 0 <= i < |s| && 'A' <= s[i] <= 'Z';
      var l := Lower(s);
      assert 'a' <= l[i] <= 'z';
      if ParseIsize(s).Some? {
        ParseIsizeChars(s);
      }
      if ParseIsize(l).Some? {
        ParseIsizeChars(l);
      }
    } else {
      assert Lower(s) == s;
    }
  }

  /** Decimal text of a natural number, most significant digit first. */
  function NatText(n: nat): (s: string)
    decreases n
  {
    if n < 10 then [('0' as int + n) as char]
    else NatText(n / 10) + [('0' as int + n % 10) as char]
  }

  /** Decimal text of an integer, as `isize::to_string` writes it. */
  function DecimalText(v: int): string
  {
    if v < 0 then "-" + NatText(-v) else NatText(v)
  }

  /** Reading the decimal text of `n` gives `n` back. */
  lemma {:induction false} NatTextValue(n: nat)
    ensures ParseDigits(NatText(n)) == Some(n)
    ensures NatText(n) != [] && IsDigit(NatText(n)[0])
    decreases n
  {
    if n >= 10 {
      var s := NatText(n);
      NatTextValue(n / 10);
      assert s[..|s| - 1] == NatText(n / 10);
    }
  }

  /** Every integer in the `isize` range parses back from its decimal text. */
  lemma DecimalTextRoundTrip(v: int)
    requires IsizeMin <= v <= IsizeMax
    ensures ParseIsize(DecimalText(v)) == Some(v)
  {
    var s := DecimalText(v);
    if v < 0 {
      var digits := NatText(-v);
      NatTextValue(-v);
      assert s == "-" + digits;
      assert s[0] == '-' && s[1..] == digits;
    } else {
      NatTextValue(v);
    }
  }

  // ----- find_type takes the first match, in this order -----

  /** Integer exactly when the field parses as an `isize`, in any case. */
  lemma FindTypeInteger(field: string, o: Oracles)
    ensures FindType(field, o) == Integer <==> ParseIsize(field).Some?
  {
    ParseIsizeIgnoresCase(field);
    var f := Lower(field);
    if f == "true" {
      assert !IsDigit(f[0]);
    }
    if f == "false" {
      assert !IsDigit(f[0]);
    }
  }

  /** The decimal text of every `isize` value classifies as Integer. */
  lemma IntegersClassifyAsInteger(v: int, o: Oracles)
    requires IsizeMin <= v <= IsizeMax
    ensures FindType(DecimalText(v), o) == Integer
  {
    DecimalTextRoundTrip(v);
    FindTypeInteger(DecimalText(v), o);
  }

  /** A field with a decimal point is never Integer. */
  lemma PointIsNotInteger(field: string, o: Oracles)
    requires '.' in field
    ensures FindType(field, o) != Integer
  {
    FindTypeInteger(field, o);
    if ParseIsize(field).Some? {
      ParseIsizeChars(field);
    }
  }

  /** Numeric exactly when the float oracle accepts a field that is not
      empty, not a boolean word and not an integer. */
  lemma FindTypeNumeric(field: string, o: Oracles)
    ensures FindType(field, o) == Numeric <==>
      var f := Lower(field);
      f != "" && f != "true" && f != "false" && ParseIsize(field).None? && o.parsesF64(f)
  {
    ParseIsizeIgnoresCase(field);
  }

  /** The date oracle is consulted only after every earlier test failed; a
      parsed time of exactly midnight gives Date, any other gives Timestamp,
      and a failed parse gives Text. */
  lemma FindTypeDateTime(field: string, o: Oracles)
    ensures var f := Lower(field);
      var earlier := f == "" || f == "true" || f == "false" || ParseIsize(field).Some? || o.parsesF64(f);
      && (FindType(field, o) == Date <==> !earlier && o.parseDate(f) == Some(Midnight))
      && (FindType(field, o) == Timestamp <==> !earlier && o.parseDate(f).Some? && o.parseDate(f) != Some(Midnight))
      && (FindType(field, o) == Text <==> !earlier && o.parseDate(f).None?)
  {
    ParseIsizeIgnoresCase(field);
  }

  /** The cases of `test_find_type`, and the empty field. */
  lemma FindTypeExamples(o: Oracles)
    ensures FindType("true", o) == Boolean && FindType("false", o) == Boolean
    ensures FindType("TRUE", o) == Boolean
    ensures FindType("0", o) == Integer
    ensures o.parsesF64("0.0") ==> FindType("0.0", o) == Numeric
    ensures FindType("", o) == Unknown
  {
    assert Lower("TRUE") == "true";
    assert Lower("true") == "true";
    assert Lower("false") == "false";
    assert Lower("0") == "0";
    assert Lower("0.0") == "0.0";
    assert ParseIsize("0.0").None? by {
      assert !IsDigit("0.0"[1]);
    }
  }

  /** The cases of `test_parse_date`, stated for any date parser
      that reads `2020-01-01` as midnight and `2020-01-01 18:30:04 +02:00`
      as 18:30:04. */
  lemma TryParseDateExamples(o: Oracles)
    requires o.parseDate("2020-01-01") == Some(Midnight)
    requires o.parseDate("2020-01-01 18:30:04 +02:00") == Some(Time(18, 30, 4, 0))
    ensures TryParseDate("2020-01-01", o) == Some(Date)
    ensures TryParseDate("2020-01-01 18:30:04 +02:00", o) == Some(Timestamp)
  {
  }

  /** The sentinel alone is Nullable, matched exactly and case-sensitively. */
  lemma FindConstraintExamples()
    ensures FindConstraint("", "") == Nullable
    ensures FindConstraint("smth", "") == NotNull
    ensures FindConstraint("NULL", "null") == NotNull
  {
  }
}
