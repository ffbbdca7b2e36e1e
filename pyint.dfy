/** Python's `int(s)` for a `str` argument and the default base 10, and the
    canonical decimal text of an integer (`str(n)`). */
module PyInt {
  import opened Results
  import opened PyText

  predicate IsDigit(c: char) {
    '0' <= c <= '9'
  }

  predicate AllDigits(s: string) {
    forall i :: 0 <= i < |s| ==> IsDigit(s[i])
  }

  function DigitValue(c: char): (d: nat)
    requires IsDigit(c)
    ensures d < 10
  {
    c as int - '0' as int
  }

  function DigitChar(d: nat): (c: char)
    requires d < 10
    ensures IsDigit(c) && DigitValue(c) == d
  {
    ('0' as int + d) as char
  }

  /** The digit part `int` accepts after the optional sign: decimal digits,
      where single underscores may separate two digits (PEP 515). */
  predicate IsDigitGroup(b: string) {
    && |b| > 0
    && IsDigit(b[0])
    && IsDigit(b[|b| - 1])
    && (forall i :: 0 <= i < |b| ==> IsDigit(b[i]) || b[i] == '_')
    && (forall i :: 0 <= i < |b| - 1 ==> b[i] == '_' ==> b[i + 1] != '_')
  }

  /** The characters of `b` other than underscores, in order. */
  function WithoutUnderscores(b: string): (r: string)
    ensures '_' !in r
    ensures forall c :: c in r ==> c in b
    ensures '_' !in b ==> r == b
  {
    if b == [] then []
    else (if b[0] == '_' then [] else [b[0]]) + WithoutUnderscores(b[1..])
  }

  /** The number that a string of decimal digits denotes. */
  function DecimalValue(ds: string): nat
    requires AllDigits(ds)
  {
    if ds == [] then 0 else DecimalValue(ds[..|ds| - 1]) * 10 + DigitValue(ds[|ds| - 1])
  }

  /** The white space `int` skips around the digits. An ASCII character is
      skipped only if it is a tab, a line feed, a vertical tab, a form feed,
      a carriage return or a space: U+001C..U+001F, which `str.isspace`
      accepts, are not. Every other code point is skipped when
      `str.isspace` accepts it. */
  predicate IntSpace(c: char) {
    IsSpace(c) && !('\U{1C}' <= c <= '\U{1F}')
  }

  /** `int(s)`: None where Python raises ValueError. Surrounding white space
      in the sense of IntSpace is ignored, one `+` or `-` may precede the
      digits, and underscores may separate digits. */
  function ParseInt(s: string): Option<int> {
    ParseSigned(Trim(s, IntSpace))
  }

  /** `int` on a string without surrounding white space. */
  function ParseSigned(t: string): Option<int> {
    var negative := t != [] && t[0] == '-';
    var body := if t != [] && (t[0] == '-' || t[0] == '+') then t[1..] else t;
    if !IsDigitGroup(body) then None
    else
      DigitGroupDigits(body);
      var m: int := DecimalValue(WithoutUnderscores(body));
      Some(if negative then -m else m)
  }

  lemma DigitGroupDigits(b: string)
    requires IsDigitGroup(b)
    ensures AllDigits(WithoutUnderscores(b))
  {
    var r := WithoutUnderscores(b);
    forall i | 0 <= i < |r| ensures IsDigit(r[i]) {
      assert r[i] in r;
      var j :| 0 <= j < |b| && b[j] == r[i];
    }
  }

  /** `str(n)` for a natural number: no sign, no leading zero. */
  function ShowNat(n: nat): (r: string)
    ensures |r| > 0 && AllDigits(r)
  {
    if n < 10 then [DigitChar(n)] else ShowNat(n / 10) + [DigitChar(n % 10)]
  }

  /** `str(n)`: a minus sign before the digits of a negative number. */
  function ShowInt(n: int): (r: string)
    ensures |r| > 0
    ensures forall i :: 0 <= i < |r| ==> IsDigit(r[i]) || (i == 0 && r[i] == '-')
  {
    if n < 0 then "-" + ShowNat(-n) else ShowNat(n)
  }

  lemma {:induction false} DecimalValueOfShowNat(n: nat)
    ensures DecimalValue(ShowNat(n)) == n
  {
    var r := ShowNat(n);
    if n >= 10 {
      DecimalValueOfShowNat(n / 10);
      assert r[..|r| - 1] == ShowNat(n / 10);
    }
  }

  /** `int(str(n)) == n`: the canonical decimal text parses back. */
  lemma ParseShowInt(n: int)
    ensures ParseInt(ShowInt(n)) == Some(n)
  {
    var s := ShowInt(n);
    var m: nat := if n < 0 then -n else n;
    var d := ShowNat(m);
    assert !IntSpace(s[0]) && !IntSpace(s[|s| - 1]);
    TrimUnchanged(s, IntSpace);
    ShowNatIsDigitGroup(m);
    DecimalValueOfShowNat(m);
    ParseSignedDigits(s, n < 0, d);
    assert ParseInt(s) == ParseSigned(s);
  }

  lemma ParseSignedDigits(s: string, negative: bool, d: string)
    requires s == (if negative then "-" else "") + d
    requires IsDigitGroup(d) && WithoutUnderscores(d) == d
    ensures AllDigits(d)
    ensures ParseSigned(s) == Some(if negative then -(DecimalValue(d) as int) else DecimalValue(d))
  {
    DigitGroupDigits(d);
    var body := if s != [] && (s[0] == '-' || s[0] == '+') then s[1..] else s;
    assert body == d by {
      if negative {
        assert s[0] == '-' && s[1..] == d;
      } else {
        assert s == d && IsDigit(s[0]);
      }
    }
  }

  lemma ShowNatIsDigitGroup(n: nat)
    ensures IsDigitGroup(ShowNat(n)) && WithoutUnderscores(ShowNat(n)) == ShowNat(n)
  {
  }

  /** A string with no decimal digit, the empty string among them, is not an integer. */
  lemma ParseIntNeedsDigit(s: string)
    requires forall i :: 0 <= i < |s| ==> !IsDigit(s[i])
    ensures ParseInt(s) == None
  {
    var t := Trim(s, IntSpace);
    if t != [] && (t[0] == '-' || t[0] == '+') && |t| > 1 {
      TrimFrom(s, IntSpace, t[1]);
    } else if t != [] {
      TrimFrom(s, IntSpace, t[0]);
    }
  }

  /** `int` skips the ASCII white space around the digits. */
  lemma IntSkipsAsciiSpace()
    ensures ParseInt(" 7\n") == Some(7)
  {
    var s := " 7\n";
    assert IntSpace(s[0]) && !IntSpace(s[1]) && IntSpace(s[2]);
    assert SkipSpace(s, 1, IntSpace) == 1;
    assert SkipSpace(s, 0, IntSpace) == 1;
    assert SkipSpaceBack(s, 1, 2, IntSpace) == 2;
    assert SkipSpaceBack(s, 1, 3, IntSpace) == 2;
    assert Trim(s, IntSpace) == s[1..2] == "7";
    assert IsDigitGroup("7") && WithoutUnderscores("7") == "7";
    assert DecimalValue("7") == DecimalValue("") * 10 + 7;
  }

  /** `str.strip` removes U+001C, but `int` does not skip it. */
  lemma IntKeepsFileSeparator()
    ensures Strip("\U{1C}7") == "7"
    ensures ParseInt("\U{1C}7") == None
  {
    var s := "\U{1C}7";
    assert IsSpace(s[0]) && !IsSpace(s[1]) && !IntSpace(s[0]);
    assert SkipSpace(s, 1, IsSpace) == 1;
    assert SkipSpace(s, 0, IsSpace) == 1;
    assert SkipSpaceBack(s, 1, 2, IsSpace) == 2;
    assert Trim(s, IsSpace) == s[1..2] == "7";
    TrimUnchanged(s, IntSpace);
    assert !IsDigitGroup(s);
  }

  /** The canonical text of an integer contains no comma. */
  lemma ShowIntHasNoComma(n: int)
    ensures ',' !in ShowInt(n)
  {
  }
}
