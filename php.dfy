/**
 * The parts of PHP's value semantics that the modules of this project rely on.
 *
 * Strings are PHP byte strings: every `char` stands for one byte, so the
 * ASCII-only character tests below are exactly PHP's (and PCRE's, without the
 * `u` modifier).  Floating point values are not modelled.
 */
module Php {

  datatype Option<T> = None | Some(value: T)

  /** An array key: PHP turns every canonical decimal string key into an integer key. */
  datatype Key = IntKey(i: int) | StrKey(s: string)

  /** A PHP value. Arrays are ordered lists of (key, value) entries. */
  datatype Value =
    | Null
    | Bool(b: bool)
    | Int(i: int)
    | Str(s: string)
    | Arr(entries: seq<(Key, Value)>)
    | Obj(cls: string)

  const IntMax: int := 0x7fff_ffff_ffff_ffff
  const IntMin: int := -0x8000_0000_0000_0000

  /** PHP's conversion to bool: '', '0', 0, NULL, FALSE and [] are falsy. */
  predicate Truthy(v: Value)
  {
    match v
    case Null => false
    case Bool(b) => b
    case Int(i) => i != 0
    case Str(s) => s != "" && s != "0"
    case Arr(e) => |e| > 0
    case Obj(_) => true
  }

  // ---------------------------------------------------------------------
  // Characters

  predicate IsDigit(c: char) { '0' <= c <= '9' }
  predicate IsUpper(c: char) { 'A' <= c <= 'Z' }
  predicate IsLower(c: char) { 'a' <= c <= 'z' }
  predicate IsLetter(c: char) { IsUpper(c) || IsLower(c) }
  /** PCRE's `\w` outside UTF mode: ASCII letters, digits and underscore. */
  predicate IsWordChar(c: char) { IsLetter(c) || IsDigit(c) || c == '_' }

  predicate AllDigits(s: string) { forall i :: 0 <= i < |s| ==> IsDigit(s[i]) }

  /** `strtoupper`: ASCII letters only. */
  function UpperChar(c: char): (r: char)
    ensures IsLower(c) ==> IsUpper(r) && r as int == c as int - 32
    ensures !IsLower(c) ==> r == c
  {
    if IsLower(c) then (c as int - 32) as char else c
  }

  function Upper(s: string): (r: string)
    ensures |r| == |s|
    ensures forall i :: 0 <= i < |s| ==> r[i] == UpperChar(s[i])
  {
    if s == [] then [] else [UpperChar(s[0])] + Upper(s[1..])
  }

  /** `strtolower`: ASCII letters only. */
  function LowerChar(c: char): (r: char)
    ensures IsUpper(c) ==> IsLower(r) && r as int == c as int + 32
    ensures !IsUpper(c) ==> r == c
  {
    if IsUpper(c) then (c as int + 32) as char else c
  }

  function Lower(s: string): (r: string)
    ensures |r| == |s|
    ensures forall i :: 0 <= i < |s| ==> r[i] == LowerChar(s[i])
  {
    if s == [] then [] else [LowerChar(s[0])] + Lower(s[1..])
  }

  /** The characters `trim` strips by default. */
  predicate IsTrimmed(c: char) { c == ' ' || c == '\t' || c == '\n' || c == '\r' || c == '\0' || c == '\U{0B}' }

  /** The white space PHP skips around a numeric string. */
  predicate IsNumericSpace(c: char) { c == ' ' || c == '\t' || c == '\n' || c == '\r' || c == '\U{0B}' || c == '\U{0C}' }

  function TrimLeft(s: string): (r: string)
    ensures |r| <= |s| && r == s[|s| - |r|..]
    ensures r == [] || !IsTrimmed(r[0])
    ensures forall i :: 0 <= i < |s| - |r| ==> IsTrimmed(s[i])
  {
    if s != [] && IsTrimmed(s[0]) then TrimLeft(s[1..]) else s
  }

  function TrimRight(s: string): (r: string)
    ensures |r| <= |s| && r == s[..|r|]
    ensures r == [] || !IsTrimmed(r[|r| - 1])
    ensures forall i :: |r| <= i < |s| ==> IsTrimmed(s[i])
  {
    if s != [] && IsTrimmed(s[|s| - 1]) then TrimRight(s[..|s| - 1]) else s
  }

  /** `trim`: the longest infix that neither starts nor ends with a stripped character. */
  function Trim(s: string): (r: string)
    ensures r == [] || (!IsTrimmed(r[0]) && !IsTrimmed(r[|r| - 1]))
    ensures |r| <= |s| - (|s| - |TrimLeft(s)|)
    ensures r == s[|s| - |TrimLeft(s)|..|s| - |TrimLeft(s)| + |r|]
  {
    var l := TrimLeft(s);
    var r := TrimRight(l);
    assert r == s[|s| - |l|..|s| - |l| + |r|];
    r
  }

  /** A string that neither starts nor ends with a stripped character is its own trim. */
  lemma TrimNoop(s: string)
    requires s == [] || (!IsTrimmed(s[0]) && !IsTrimmed(s[|s| - 1]))
    ensures Trim(s) == s
  {
    assert TrimLeft(s) == s;
    assert TrimRight(s) == s;
  }

  /** Trimming a trimmed string changes nothing. */
  lemma TrimIdempotent(s: string)
    ensures Trim(Trim(s)) == Trim(s)
  {
    TrimNoop(Trim(s));
  }

  predicate StartsWith(s: string, prefix: string) { |prefix| <= |s| && s[..|prefix|] == prefix }

  /** `implode`. */
  function Join(sep: string, parts: seq<string>): string
  {
    if parts == [] then "" else if |parts| == 1 then parts[0] else parts[0] + sep + Join(sep, parts[1..])
  }

  // ---------------------------------------------------------------------
  // str_replace and explode

  /**
   * `explode`: the pieces of `s` between the non-overlapping occurrences of
   * `needle`, found left to right.
   */
  function Explode(needle: string, s: string): (r: seq<string>)
    requires needle != []
    ensures |r| >= 1
    decreases |s|
  {
    if |s| < |needle| then [s]
    else if s[..|needle|] == needle then [[]] + Explode(needle, s[|needle|..])
    else
      var rest := Explode(needle, s[1..]);
      [[s[0]] + rest[0]] + rest[1..]
  }

  /**
   * `str_replace` with one search string: every non-overlapping occurrence,
   * found left to right, is replaced; an empty search string changes nothing.
   */
  function StrReplace(search: string, replace: string, s: string): string
    decreases |s|
  {
    if search == [] || |s| < |search| then s
    else if s[..|search|] == search then replace + StrReplace(search, replace, s[|search|..])
    else [s[0]] + StrReplace(search, replace, s[1..])
  }

  lemma JoinCons(sep: string, head: string, tail: seq<string>)
    requires |tail| >= 1
    ensures Join(sep, [head] + tail) == head + sep + Join(sep, tail)
  {
    assert ([head] + tail)[1..] == tail;
  }

  lemma JoinExtendFirst(sep: string, c: char, parts: seq<string>)
    requires |parts| >= 1
    ensures Join(sep, [[c] + parts[0]] + parts[1..]) == [c] + Join(sep, parts)
  {
    var q := [[c] + parts[0]] + parts[1..];
    if |parts| == 1 {
    } else {
      assert q[1..] == parts[1..];
      assert Join(sep, q) == q[0] + sep + Join(sep, q[1..]);
    }
  }

  /** `str_replace(n, r, s)` is `implode(r, explode(n, s))`. */
  lemma {:induction false} StrReplaceIsJoinOfExplode(needle: string, replace: string, s: string)
    requires needle != []
    ensures StrReplace(needle, replace, s) == Join(replace, Explode(needle, s))
    decreases |s|
  {
    if |s| < |needle| {
      assert Explode(needle, s) == [s];
    } else if s[..|needle|] == needle {
      var rest := Explode(needle, s[|needle|..]);
      assert Explode(needle, s) == [[]] + rest;
      assert StrReplace(needle, replace, s) == replace + StrReplace(needle, replace, s[|needle|..]);
      StrReplaceIsJoinOfExplode(needle, replace, s[|needle|..]);
      JoinCons(replace, [], rest);
    } else {
      var rest := Explode(needle, s[1..]);
      assert Explode(needle, s) == [[s[0]] + rest[0]] + rest[1..];
      assert StrReplace(needle, replace, s) == [s[0]] + StrReplace(needle, replace, s[1..]);
      StrReplaceIsJoinOfExplode(needle, replace, s[1..]);
      JoinExtendFirst(replace, s[0], rest);
    }
  }

  /** Gluing the pieces back with the needle restores the string: `explode` loses nothing. */
  lemma {:induction false} ExplodeJoinRoundTrip(needle: string, s: string)
    requires needle != []
    ensures Join(needle, Explode(needle, s)) == s
    decreases |s|
  {
    if |s| < |needle| {
      assert Explode(needle, s) == [s];
    } else if s[..|needle|] == needle {
      var rest := Explode(needle, s[|needle|..]);
      assert Explode(needle, s) == [[]] + rest;
      ExplodeJoinRoundTrip(needle, s[|needle|..]);
      JoinCons(needle, [], rest);
      assert s == s[..|needle|] + s[|needle|..];
    } else {
      var rest := Explode(needle, s[1..]);
      assert Explode(needle, s) == [[s[0]] + rest[0]] + rest[1..];
      ExplodeJoinRoundTrip(needle, s[1..]);
      JoinExtendFirst(needle, s[0], rest);
      assert s == [s[0]] + s[1..];
    }
  }

  predicate Lacks(s: string, c: char)
  {
    forall i :: 0 <= i < |s| ==> s[i] != c
  }

  lemma {:induction false} ExplodeUnsplit(sep: string, p: string)
    requires sep != [] && Lacks(p, sep[0])
    ensures Explode(sep, p) == [p]
    decreases |p|
  {
    if |p| >= |sep| {
      assert p[..|sep|][0] == p[0];
      assert Lacks(p[1..], sep[0]) by {
        forall i | 0 <= i < |p| - 1 ensures p[1..][i] != sep[0] { assert p[1..][i] == p[i + 1]; }
      }
      ExplodeUnsplit(sep, p[1..]);
      assert [p[0]] + p[1..] == p;
    }
  }

  lemma {:induction false} ExplodeFirstPiece(sep: string, p: string, rest: string)
    requires sep != [] && Lacks(p, sep[0])
    ensures Explode(sep, p + sep + rest) == [p] + Explode(sep, rest)
    decreases |p|
  {
    var s := p + sep + rest;
    if p == [] {
      assert s == sep + rest && s[..|sep|] == sep && s[|sep|..] == rest;
    } else {
      assert s[..|sep|][0] == p[0];
      assert Lacks(p[1..], sep[0]) by {
        forall i | 0 <= i < |p| - 1 ensures p[1..][i] != sep[0] { assert p[1..][i] == p[i + 1]; }
      }
      ExplodeFirstPiece(sep, p[1..], rest);
      assert s[1..] == p[1..] + sep + rest;
      assert [p[0]] + p[1..] == p;
    }
  }

  /**
   * `explode` undoes `implode` when no piece holds the separator's first
   * character.
   */
  lemma {:induction false} ExplodeOfJoin(sep: string, parts: seq<string>)
    requires sep != [] && |parts| >= 1
    requires forall k :: 0 <= k < |parts| ==> Lacks(parts[k], sep[0])
    ensures Explode(sep, Join(sep, parts)) == parts
  {
    if |parts| == 1 {
      ExplodeUnsplit(sep, parts[0]);
    } else {
      ExplodeOfJoin(sep, parts[1..]);
      ExplodeFirstPiece(sep, parts[0], Join(sep, parts[1..]));
      assert [parts[0]] + parts[1..] == parts;
    }
  }

  /** Replacing a search string by itself is the identity. */
  lemma StrReplaceSelf(needle: string, s: string)
    ensures StrReplace(needle, needle, s) == s
  {
    if needle != [] {
      StrReplaceIsJoinOfExplode(needle, needle, s);
      ExplodeJoinRoundTrip(needle, s);
    }
  }

  predicate OccursAt(needle: string, s: string, i: int)
  {
    0 <= i <= |s| - |needle| && s[i..i + |needle|] == needle
  }

  predicate Occurs(needle: string, s: string)
  {
    exists i | 0 <= i <= |s| - |needle| :: OccursAt(needle, s, i)
  }

  /** A subject without the search string comes back unchanged. */
  lemma {:induction false} StrReplaceAbsent(search: string, replace: string, s: string)
    requires search != [] && !Occurs(search, s)
    ensures StrReplace(search, replace, s) == s
    decreases |s|
  {
    if |s| >= |search| {
      assert !OccursAt(search, s, 0);
      assert s[0..|search|] == s[..|search|];
      assert !Occurs(search, s[1..]) by {
        forall i | 0 <= i <= |s| - 1 - |search|
          ensures !OccursAt(search, s[1..], i)
        {
          assert s[1..][i..i + |search|] == s[i + 1..i + 1 + |search|];
          assert !OccursAt(search, s, i + 1);
        }
      }
      StrReplaceAbsent(search, replace, s[1..]);
    }
  }

  /** A search string that starts the subject and is longer than the rest is replaced once. */
  lemma StrReplaceLeading(search: string, replace: string, tail: string)
    requires |tail| < |search|
    ensures StrReplace(search, replace, search + tail) == replace + tail
  {
    var s := search + tail;
    assert s[..|search|] == search && s[|search|..] == tail;
  }

  // ---------------------------------------------------------------------
  // Decimal integers

  function DigitChar(d: nat): (c: char)
    requires d < 10
    ensures IsDigit(c)
  {
    ('0' as int + d) as char
  }

  function DigitValue(c: char): nat
    requires IsDigit(c)
  {
    c as int - '0' as int
  }

  /** The decimal digits of `n`, most significant first, without leading zeros. */
  function Digits(n: nat): (r: string)
    ensures |r| >= 1 && AllDigits(r)
    ensures |r| > 1 ==> r[0] != '0'
    ensures n > 0 ==> r[0] != '0'
  {
    if n < 10 then [DigitChar(n)] else Digits(n / 10) + [DigitChar(n % 10)]
  }

  function ParseDigits(s: string): nat
    requires AllDigits(s)
  {
    if s == [] then 0 else 10 * ParseDigits(s[..|s| - 1]) + DigitValue(s[|s| - 1])
  }

  /** PHP's string form of an integer. */
  function IntToString(i: int): (r: string)
  {
    if i < 0 then "-" + Digits(-i) else Digits(i)
  }

  /** A canonical decimal: "0", or an optional minus sign and digits without a leading zero. */
  predicate IsCanonicalDecimal(s: string)
  {
    if s == "0" then true
    else
      var body := if |s| > 0 && s[0] == '-' then s[1..] else s;
      |body| > 0 && AllDigits(body) && body[0] != '0'
  }

  function ParseCanonical(s: string): int
    requires IsCanonicalDecimal(s)
  {
    if |s| > 0 && s[0] == '-' then -(ParseDigits(s[1..]) as int) else ParseDigits(s)
  }

  lemma {:induction false} ParseDigitsOfDigits(n: nat)
    ensures ParseDigits(Digits(n)) == n
  {
    if n >= 10 {
      var d := Digits(n);
      assert d[..|d| - 1] == Digits(n / 10);
      ParseDigitsOfDigits(n / 10);
    }
  }

  lemma {:induction false} DigitsOfParseDigits(s: string)
    requires |s| >= 1 && AllDigits(s) && (|s| > 1 ==> s[0] != '0')
    ensures Digits(ParseDigits(s)) == s
    decreases |s|
  {
    var p := s[..|s| - 1];
    if |s| == 1 {
      assert ParseDigits(s) == DigitValue(s[0]);
    } else {
      DigitsOfParseDigits(p);
      ParseDigitsPositive(p);
      assert s == p + [s[|s| - 1]];
    }
  }

  lemma {:induction false} ParseDigitsPositive(s: string)
    requires |s| >= 1 && AllDigits(s) && s[0] != '0'
    ensures ParseDigits(s) >= 1
    decreases |s|
  {
    if |s| > 1 {
      ParseDigitsPositive(s[..|s| - 1]);
    }
  }

  /** Every integer's string form is canonical and parses back to the integer. */
  lemma IntToStringRoundTrip(i: int)
    ensures IsCanonicalDecimal(IntToString(i))
    ensures ParseCanonical(IntToString(i)) == i
  {
    if i < 0 {
      ParseDigitsOfDigits(-i);
      assert IntToString(i)[1..] == Digits(-i);
    } else {
      ParseDigitsOfDigits(i);
    }
  }

  /** Every canonical decimal string is the string form of the integer it denotes. */
  lemma CanonicalRoundTrip(s: string)
    requires IsCanonicalDecimal(s)
    ensures IntToString(ParseCanonical(s)) == s
  {
    if s == "0" {
    } else if |s| > 0 && s[0] == '-' {
      DigitsOfParseDigits(s[1..]);
      ParseDigitsPositive(s[1..]);
      assert s == "-" + s[1..];
    } else {
      DigitsOfParseDigits(s);
    }
  }

  /** The key an array gets for the string key `s`. */
  function KeyOf(s: string): Key
  {
    if IsCanonicalDecimal(s) && IntMin <= ParseCanonical(s) <= IntMax then IntKey(ParseCanonical(s)) else StrKey(s)
  }

  /** The string a key stands for (what `(string) $key` gives). */
  function KeyString(k: Key): string
  {
    match k
    case IntKey(i) => IntToString(i)
    case StrKey(s) => s
  }

  /** The value `array_keys` gives for a key. */
  function KeyValue(k: Key): (r: Value)
    ensures r.Int? || r.Str?
  {
    match k
    case IntKey(i) => Int(i)
    case StrKey(s) => Str(s)
  }

  function Pow10(n: nat): (r: nat)
    ensures r >= 1
  {
    if n == 0 then 1 else 10 * Pow10(n - 1)
  }

  lemma {:induction false} ParseDigitsBelow(s: string)
    requires AllDigits(s)
    ensures ParseDigits(s) < Pow10(|s|)
  {
    if s != [] {
      assert AllDigits(s[..|s| - 1]);
      ParseDigitsBelow(s[..|s| - 1]);
    }
  }

  /** A canonical decimal string of at most 18 characters always becomes an integer key. */
  lemma ShortDecimalKey(s: string)
    requires IsCanonicalDecimal(s) && |s| <= 18
    ensures KeyOf(s).IntKey?
  {
    var body := if |s| > 0 && s[0] == '-' then s[1..] else s;
    assert AllDigits(body) by {
      if s == "0" {
        assert body == "0";
      }
    }
    ParseDigitsBelow(body);
    Pow10Mono(|body|, 18);
    Pow10Eighteen();
  }

  lemma Pow10Eighteen()
    ensures Pow10(18) == 1_000_000_000_000_000_000
  {
    assert Pow10(1) == 10;
    assert Pow10(2) == 100;
    assert Pow10(3) == 1000;
    assert Pow10(4) == 10000;
    assert Pow10(5) == 100000;
    assert Pow10(6) == 1000000;
    assert Pow10(7) == 10000000;
    assert Pow10(8) == 100000000;
    assert Pow10(9) == 1000000000;
    assert Pow10(10) == 10000000000;
    assert Pow10(11) == 100000000000;
    assert Pow10(12) == 1000000000000;
    assert Pow10(13) == 10000000000000;
    assert Pow10(14) == 100000000000000;
    assert Pow10(15) == 1000000000000000;
    assert Pow10(16) == 10000000000000000;
    assert Pow10(17) == 100000000000000000;
    assert Pow10(18) == 1000000000000000000;
  }

  lemma {:induction false} Pow10Mono(m: nat, n: nat)
    requires m <= n
    ensures Pow10(m) <= Pow10(n)
  {
    if m < n {
      Pow10Mono(m, n - 1);
    }
  }

  /** Normalising a string key loses nothing: its string form is the original string. */
  lemma KeyOfRoundTrip(s: string)
    ensures KeyString(KeyOf(s)) == s
  {
    if IsCanonicalDecimal(s) {
      CanonicalRoundTrip(s);
    }
  }

  /** Distinct string keys stay distinct keys. */
  lemma KeyOfInjective(a: string, b: string)
    ensures KeyOf(a) == KeyOf(b) ==> a == b
  {
    KeyOfRoundTrip(a);
    KeyOfRoundTrip(b);
  }

  /** A canonical integer string within the integer range always becomes an integer key. */
  lemma KeyOfIntString(i: int)
    requires IntMin <= i <= IntMax
    ensures KeyOf(IntToString(i)) == IntKey(i)
  {
    IntToStringRoundTrip(i);
  }

  // ---------------------------------------------------------------------
  // is_numeric, ctype_digit and (int)

  function SkipWhile(s: string, i: nat, space: bool): (r: nat)
    requires i <= |s|
    ensures i <= r <= |s|
    ensures forall j :: i <= j < r ==> (if space then IsNumericSpace(s[j]) else IsDigit(s[j]))
    ensures r < |s| ==> !(if space then IsNumericSpace(s[r]) else IsDigit(s[r]))
    decreases |s| - i
  {
    if i < |s| && (if space then IsNumericSpace(s[i]) else IsDigit(s[i])) then SkipWhile(s, i + 1, space) else i
  }

  /** The end of an exponent `[eE][+-]?[0-9]+` starting at `i`, or `i` when there is none. */
  function ExponentEnd(s: string, i: nat): (r: nat)
    requires i <= |s|
    ensures i <= r <= |s|
  {
    if i < |s| && (s[i] == 'e' || s[i] == 'E') then
      var f := if i + 1 < |s| && (s[i + 1] == '+' || s[i + 1] == '-') then i + 2 else i + 1;
      var g := SkipWhile(s, f, false);
      if g > f then g else i
    else i
  }

  /**
   * A numeric string: optional leading white space, an optional sign, digits
   * with an optional decimal point (at least one digit in all), an optional
   * exponent and optional trailing white space.
   */
  predicate IsNumericString(s: string)
  {
    var a := SkipWhile(s, 0, true);
    var b := if a < |s| && (s[a] == '+' || s[a] == '-') then a + 1 else a;
    var c := SkipWhile(s, b, false);
    var d := if c < |s| && s[c] == '.' then SkipWhile(s, c + 1, false) else c;
    var digits := (c - b) + (if d > c then d - c - 1 else 0);
    digits > 0 && SkipWhile(s, ExponentEnd(s, d), true) == |s|
  }

  /** `is_numeric`: integers and numeric strings. */
  predicate IsNumeric(v: Value)
  {
    match v
    case Int(_) => true
    case Str(s) => IsNumericString(s)
    case _ => false
  }

  lemma {:induction false} SkipDigitsToEnd(s: string, i: nat)
    requires i <= |s| && AllDigits(s[i..])
    ensures SkipWhile(s, i, false) == |s|
    decreases |s| - i
  {
    if i < |s| {
      assert IsDigit(s[i..][0]);
      assert s[i + 1..] == s[i..][1..];
      SkipDigitsToEnd(s, i + 1);
    }
  }

  /** A numeric string holds a digit. */
  lemma NumericStringHasDigit(s: string)
    requires IsNumericString(s)
    ensures exists i :: 0 <= i < |s| && IsDigit(s[i])
  {
    var a := SkipWhile(s, 0, true);
    var b := if a < |s| && (s[a] == '+' || s[a] == '-') then a + 1 else a;
    var c := SkipWhile(s, b, false);
    if c > b {
      assert IsDigit(s[b]);
    } else {
      var d := SkipWhile(s, c + 1, false);
      assert IsDigit(s[c + 1]);
    }
  }

  /** Every non-empty string of digits is numeric. */
  lemma DigitStringIsNumeric(s: string)
    requires |s| > 0 && AllDigits(s)
    ensures IsNumericString(s)
  {
    var a := SkipWhile(s, 0, true);
    assert a == 0;
    var c := SkipWhile(s, 0, false);
    SkipDigitsToEnd(s, 0);
    assert c == |s|;
    assert ExponentEnd(s, c) == |s|;
  }

  /**
   * `ctype_digit`: a non-empty string of digits; an integer from -128 to 255
   * is taken as a character code (negative ones plus 256); any other integer
   * is taken as its decimal string; every other type fails.
   */
  predicate CtypeDigit(v: Value)
  {
    match v
    case Str(s) => |s| > 0 && AllDigits(s)
    case Int(i) =>
      if -128 <= i <= 255 then
        var code := if i < 0 then i + 256 else i;
        '0' as int <= code <= '9' as int
      else i > 0 && AllDigits(IntToString(i))
    case _ => false
  }

  /** `ctype_digit` implies `is_numeric`. */
  lemma CtypeDigitIsNumeric(v: Value)
    requires CtypeDigit(v)
    ensures IsNumeric(v)
  {
    if v.Str? {
      DigitStringIsNumeric(v.s);
    }
  }

  /** The value of the digits `s[i..j]`. */
  function DigitsValue(s: string, i: nat, j: nat): nat
    requires i <= j <= |s| && forall k :: i <= k < j ==> IsDigit(s[k])
  {
    assert AllDigits(s[i..j]) by {
      forall k | 0 <= k < j - i ensures IsDigit(s[i..j][k]) { assert s[i..j][k] == s[i + k]; }
    }
    ParseDigits(s[i..j])
  }

  /** The signed value of an exponent `[eE][+-]?[0-9]+` starting at `i`, 0 when there is none. */
  function ExponentValue(s: string, i: nat): int
    requires i <= |s|
  {
    if i < |s| && (s[i] == 'e' || s[i] == 'E') then
      var f := if i + 1 < |s| && (s[i + 1] == '+' || s[i + 1] == '-') then i + 2 else i + 1;
      var n: int := DigitsValue(s, f, SkipWhile(s, f, false));
      if f == i + 2 && s[i + 1] == '-' then -n else n
    else 0
  }

  /** `m` times ten to the `k`, truncated toward zero. */
  function Scaled(m: nat, k: int): nat
    decreases if k >= 0 then k else -k
  {
    if k == 0 then m
    else if k > 0 then Scaled(10 * m, k - 1)
    else Scaled(m / 10, k + 1)
  }

  /**
   * `(int)` of a string: the numeric prefix `is_numeric` reads (leading white
   * space, an optional sign, digits with an optional decimal point, an
   * optional exponent), truncated toward zero; 0 when there is no digit.
   */
  function IntCast(s: string): int
  {
    var a := SkipWhile(s, 0, true);
    var b := if a < |s| && (s[a] == '+' || s[a] == '-') then a + 1 else a;
    var c := SkipWhile(s, b, false);
    var d := if c < |s| && s[c] == '.' then SkipWhile(s, c + 1, false) else c;
    var scale := if d > c then d - c - 1 else 0;
    var mantissa := DigitsValue(s, b, c) * Pow10(scale) + (if d > c then DigitsValue(s, c + 1, d) else 0);
    var n: int := Scaled(mantissa, ExponentValue(s, d) - scale);
    if a < |s| && s[a] == '-' then -n else n
  }

  /** `(int)` of any value. */
  function ToInt(v: Value): int
  {
    match v
    case Null => 0
    case Bool(b) => if b then 1 else 0
    case Int(i) => i
    case Str(s) => IntCast(s)
    case Arr(e) => if |e| > 0 then 1 else 0
    case Obj(_) => 1
  }

  /**
   * `(string)` of a value: NULL and FALSE give '', TRUE gives '1', an integer
   * its decimal form; an array gives 'Array' (with a warning) and an object
   * its class name (standing for its `__toString`).
   */
  function ToStr(v: Value): (r: string)
    ensures v.Str? ==> r == v.s
    ensures !v.Arr? && !v.Obj? ==> (Truthy(Str(r)) <==> Truthy(v))
  {
    match v
    case Null => ""
    case Bool(b) => if b then "1" else ""
    case Int(i) =>
      assert i > 0 ==> Digits(i)[0] != '0';
      IntToString(i)
    case Str(s) => s
    case Arr(_) => "Array"
    case Obj(cls) => cls
  }

  /** `(int)` undoes the string form of an integer. */
  lemma IntCastOfIntToString(i: int)
    ensures IntCast(IntToString(i)) == i
  {
    var s := IntToString(i);
    var body := if i < 0 then Digits(-i) else Digits(i);
    var b := if i < 0 then 1 else 0;
    assert s[b..] == body;
    assert SkipWhile(s, 0, true) == 0;
    SkipDigitsToEnd(s, b);
    assert s[b..|s|] == body;
    assert ExponentValue(s, |s|) == 0;
    ParseDigitsOfDigits(if i < 0 then -i else i);
  }

  /** `(int)` reads an exponent. */
  lemma IntCastExponent()
    ensures IntCast("2e3") == 2000
  {
  }

  /** `(int)` reads a fraction and an exponent together. */
  lemma IntCastFractionExponent()
    ensures IntCast("1.5e1") == 15
  {
  }

  /** `(int)` truncates a negative fraction toward zero. */
  lemma IntCastNegativeFraction()
    ensures IntCast(" -7.9") == -7
  {
    var t := " -7.9";
    assert SkipWhile(t, 0, true) == 1;
    assert SkipWhile(t, 2, false) == 3;
    assert SkipWhile(t, 4, false) == 5;
    assert DigitsValue(t, 2, 3) == 7 by { assert t[2..3] == "7"; }
    assert DigitsValue(t, 4, 5) == 9 by { assert t[4..5] == "9"; }
    assert ExponentValue(t, 5) == 0;
    assert Scaled(79, -1) == 7;
  }

  /** `(int)` stops at the first character that cannot extend the number. */
  lemma IntCastStops()
    ensures IntCast("12abc") == 12
    ensures IntCast("abc") == 0
  {
    var t := "12abc";
    assert SkipWhile(t, 0, true) == 0;
    assert SkipWhile(t, 0, false) == 2;
    assert t[0..2] == "12";
    assert ParseDigits("12") == 12;
    assert DigitsValue(t, 0, 2) == 12;
    assert ExponentValue(t, 2) == 0;
    assert SkipWhile("abc", 0, false) == 0;
    assert "abc"[0..0] == [];
  }

  /**
   * PHP 8's loose `$v == $lit` for a literal `lit` that is not numeric:
   * NULL equals only '', a bool compares with the literal's truth value,
   * an integer compares as its decimal string, a string compares as a string.
   */
  predicate LooseEqualsLiteral(v: Value, lit: string)
  {
    match v
    case Null => lit == ""
    case Bool(b) => b == Truthy(Str(lit))
    case Int(i) => IntToString(i) == lit
    case Str(s) => s == lit
    case Arr(_) => false
    case Obj(_) => false
  }

  // ---------------------------------------------------------------------
  // Html::escape and the placeholders of t()

  /** The entity `htmlspecialchars` puts for a character under `ENT_QUOTES` ('' when it keeps it). */
  function Entity(c: char): string
  {
    if c == '&' then "&amp;"
    else if c == '<' then "&lt;"
    else if c == '>' then "&gt;"
    else if c == '"' then "&quot;"
    else if c == '\'' then "&#039;"
    else ""
  }

  /** What `htmlspecialchars` writes for one character under `ENT_QUOTES`. */
  function Escaped(c: char): string
  {
    if Entity(c) == "" then [c] else Entity(c)
  }

  /**
   * `Html::escape`: `htmlspecialchars` with `ENT_QUOTES | ENT_SUBSTITUTE` in
   * UTF-8, character by character.  A string here is a sequence of Unicode
   * characters, so it has no invalid UTF-8 byte sequence for `ENT_SUBSTITUTE`
   * to replace with U+FFFD.
   */
  function Escape(s: string): string
  {
    if s == [] then [] else Escaped(s[0]) + Escape(s[1..])
  }

  /** Reads the five entities back; every other character stands for itself. */
  function Unescape(s: string): string
  {
    if s == [] then []
    else if |s| >= 5 && s[..5] == "&amp;" then "&" + Unescape(s[5..])
    else if |s| >= 4 && s[..4] == "&lt;" then "<" + Unescape(s[4..])
    else if |s| >= 4 && s[..4] == "&gt;" then ">" + Unescape(s[4..])
    else if |s| >= 6 && s[..6] == "&quot;" then "\"" + Unescape(s[6..])
    else if |s| >= 6 && s[..6] == "&#039;" then "'" + Unescape(s[6..])
    else [s[0]] + Unescape(s[1..])
  }

  /** The markup `t()` renders for a `%` placeholder whose value is already markup. */
  function Emphasis(markup: string): string
  {
    "<em class=\"placeholder\">" + markup + "</em>"
  }

  /** The markup `t()` renders for a `%` placeholder whose value is a plain string: escaped, then emphasised. */
  function Placeholder(s: string): string
  {
    Emphasis(Escape(s))
  }

  /** One escaped character reads back to itself, whatever follows it. */
  lemma UnescapeEscaped(c: char, rest: string)
    ensures Unescape(Escaped(c) + rest) == [c] + Unescape(rest)
  {
    var t := Escaped(c) + rest;
    assert t[|Escaped(c)|..] == rest;
    if Entity(c) == "" {
      assert t[0] == c && c != '&';
      assert t == [c] + rest;
    } else {
      assert t[..|Escaped(c)|] == Escaped(c);
      assert t[1] == Escaped(c)[1];
    }
  }

  /** Escaping loses nothing: the entities read back to the original string. */
  lemma {:induction false} EscapeRoundTrip(s: string)
    ensures Unescape(Escape(s)) == s
  {
    if s != [] {
      EscapeRoundTrip(s[1..]);
      UnescapeEscaped(s[0], Escape(s[1..]));
      assert s == [s[0]] + s[1..];
    }
  }

  /** An escaped string holds no `<`, `>`, `"` or `'`: it cannot open a tag or close an attribute. */
  lemma {:induction false} EscapeNoMarkup(s: string)
    ensures forall i :: 0 <= i < |Escape(s)| ==> Escape(s)[i] !in {'<', '>', '"', '\''}
  {
    if s != [] {
      EscapeNoMarkup(s[1..]);
      var head := Escaped(s[0]);
      forall i | 0 <= i < |Escape(s)| ensures Escape(s)[i] !in {'<', '>', '"', '\''} {
        if i >= |head| {
          assert Escape(s)[i] == Escape(s[1..])[i - |head|];
        } else {
          assert Escape(s)[i] == head[i];
        }
      }
    }
  }

  /** A string without the five special characters is its own escape. */
  lemma {:induction false} EscapePlain(s: string)
    requires forall i :: 0 <= i < |s| ==> Entity(s[i]) == ""
    ensures Escape(s) == s
  {
    if s != [] {
      EscapePlain(s[1..]);
      assert s == [s[0]] + s[1..];
    }
  }

  // ---------------------------------------------------------------------
  // Ordered arrays

  type Entries = seq<(Key, Value)>

  function Keys(e: Entries): (r: seq<Key>)
    ensures |r| == |e| && forall i :: 0 <= i < |e| ==> r[i] == e[i].0
  {
    if e == [] then [] else [e[0].0] + Keys(e[1..])
  }

  predicate UniqueKeys(e: Entries)
  {
    forall i, j :: 0 <= i < j < |e| ==> e[i].0 != e[j].0
  }

  function Lookup(e: Entries, k: Key): (r: Option<Value>)
    ensures r.None? <==> forall i :: 0 <= i < |e| ==> e[i].0 != k
    ensures r.Some? ==> exists i :: 0 <= i < |e| && e[i] == (k, r.value)
  {
    if e == [] then None else if e[0].0 == k then Some(e[0].1) else Lookup(e[1..], k)
  }

  /** `$a[$k] = $v`: overwrite in place when the key exists, else append. */
  function Put(e: Entries, k: Key, v: Value): (r: Entries)
    ensures Lookup(e, k).Some? ==> |r| == |e| && Keys(r) == Keys(e)
    ensures Lookup(e, k).None? ==> r == e + [(k, v)]
  {
    if e == [] then [(k, v)]
    else if e[0].0 == k then [(k, v)] + e[1..]
    else [e[0]] + Put(e[1..], k, v)
  }

  /** `unset($a[$k])`. */
  function Remove(e: Entries, k: Key): (r: Entries)
    ensures Lookup(r, k).None?
    ensures |r| <= |e|
  {
    if e == [] then [] else if e[0].0 == k then Remove(e[1..], k) else [e[0]] + Remove(e[1..], k)
  }

  lemma {:induction false} PutLookup(e: Entries, k: Key, v: Value, k2: Key)
    ensures Lookup(Put(e, k, v), k2) == if k2 == k then Some(v) else Lookup(e, k2)
  {
    if e != [] && e[0].0 != k {
      PutLookup(e[1..], k, v, k2);
    }
  }

  /** In an array without duplicate keys, the i-th key finds the i-th value. */
  lemma {:induction false} LookupUnique(e: Entries, i: nat)
    requires UniqueKeys(e) && i < |e|
    ensures Lookup(e, e[i].0) == Some(e[i].1)
  {
    if i > 0 {
      assert e[0].0 != e[i].0;
      assert UniqueKeys(e[1..]) by {
        forall a, b | 0 <= a < b < |e| - 1
          ensures e[1..][a].0 != e[1..][b].0
        {
          assert e[1..][a] == e[a + 1] && e[1..][b] == e[b + 1];
        }
      }
      LookupUnique(e[1..], i - 1);
      assert e[1..][i - 1] == e[i];
    }
  }

  lemma {:induction false} RemoveLookup(e: Entries, k: Key, k2: Key)
    requires k2 != k
    ensures Lookup(Remove(e, k), k2) == Lookup(e, k2)
  {
    if e != [] {
      RemoveLookup(e[1..], k, k2);
    }
  }

  /** `$v[$k]` on an array (NULL when the key or the array is missing). */
  function Index(v: Value, k: Key): Value
  {
    if v.Arr? then (match Lookup(v.entries, k) case Some(x) => x case None => Null) else Null
  }

  /** `$v[$k] ?? $default`. */
  function Coalesce(v: Value, k: Key, default: Value): (r: Value)
    ensures r == default || (v.Arr? && Lookup(v.entries, k) == Some(r) && r != Null)
  {
    var x := Index(v, k);
    if x == Null then default else x
  }

  function K(s: string): Key { KeyOf(s) }

  /** `array_filter` without a callback: keeps truthy entries with their keys. */
  function FilterTruthy(e: Entries): (r: Entries)
    ensures |r| <= |e|
    ensures forall i :: 0 <= i < |r| ==> Truthy(r[i].1)
  {
    if e == [] then [] else if Truthy(e[0].1) then [e[0]] + FilterTruthy(e[1..]) else FilterTruthy(e[1..])
  }

  /** `array_filter` leaves nothing exactly when every value is falsy. */
  lemma {:induction false} FilterTruthyEmpty(e: Entries)
    ensures FilterTruthy(e) == [] <==> forall i :: 0 <= i < |e| ==> !Truthy(e[i].1)
  {
    if e != [] {
      FilterTruthyEmpty(e[1..]);
      assert forall i :: 1 <= i < |e| ==> e[i] == e[1..][i - 1];
    }
  }

  /** `array_filter` over a list of strings, keeping those PHP finds truthy. */
  function FilterTruthyStrings(s: seq<string>): (r: seq<string>)
    ensures |r| <= |s|
    ensures forall i :: 0 <= i < |r| ==> Truthy(Str(r[i]))
    ensures forall x :: x in r <==> x in s && Truthy(Str(x))
  {
    if s == [] then [] else if Truthy(Str(s[0])) then [s[0]] + FilterTruthyStrings(s[1..]) else FilterTruthyStrings(s[1..])
  }

  /** `array_values`. */
  function ValuesOf(d: Entries): (r: seq<Value>)
    ensures |r| == |d| && forall i :: 0 <= i < |d| ==> r[i] == d[i].1
  {
    if d == [] then [] else [d[0].1] + ValuesOf(d[1..])
  }

  /** `(string)` of each value. */
  function Strings(vs: seq<Value>): (r: seq<string>)
    ensures |r| == |vs| && forall i :: 0 <= i < |vs| ==> r[i] == ToStr(vs[i])
  {
    if vs == [] then [] else [ToStr(vs[0])] + Strings(vs[1..])
  }

  /** The entries of `b` whose key `a` lacks, in `b`'s order. */
  function Missing(a: Entries, b: Entries): Entries
  {
    if b == [] then []
    else if Lookup(a, b[0].0).None? then [b[0]] + Missing(a, b[1..])
    else Missing(a, b[1..])
  }

  /** The array union `$a + $b`: `a`, then the entries of `b` under keys `a` lacks. */
  function Union(a: Entries, b: Entries): Entries
  {
    a + Missing(a, b)
  }

  lemma {:induction false} LookupAppend(x: Entries, y: Entries, k: Key)
    ensures Lookup(x + y, k) == if Lookup(x, k).Some? then Lookup(x, k) else Lookup(y, k)
  {
    if x != [] {
      var xy := x + y;
      assert xy[0] == x[0] && xy[1..] == x[1..] + y;
      if x[0].0 != k {
        LookupAppend(x[1..], y, k);
        assert Lookup(xy, k) == Lookup(x[1..] + y, k);
      }
    } else {
      assert x + y == y;
    }
  }

  lemma {:induction false} LookupMissing(a: Entries, b: Entries, k: Key)
    requires Lookup(a, k).None?
    ensures Lookup(Missing(a, b), k) == Lookup(b, k)
  {
    if b != [] {
      LookupMissing(a, b[1..], k);
    }
  }

  /** A key of the union finds the left operand's value, else the right one's. */
  lemma UnionLookup(a: Entries, b: Entries, k: Key)
    ensures Lookup(Union(a, b), k) == if Lookup(a, k).Some? then Lookup(a, k) else Lookup(b, k)
  {
    LookupAppend(a, Missing(a, b), k);
    if Lookup(a, k).None? {
      LookupMissing(a, b, k);
    }
  }

  // ---------------------------------------------------------------------
  // Sequence steps, kept apart from the contexts that use them

  lemma PrefixStep<T>(s: seq<T>, i: int)
    requires 0 <= i < |s|
    ensures s[..i + 1][..i] == s[..i] && s[..i + 1] == s[..i] + [s[i]]
  {
  }

  /** A value wrapped in a prefix and a suffix is the slice between them. */
  lemma Wrapped<T>(a: seq<T>, b: seq<T>, x: seq<T>, c: seq<T>, d: seq<T>)
    ensures var m := a + (b + x + c) + d;
      m == (a + b) + x + (c + d)
      && m[..|a + b|] == a + b && m[|m| - |c + d|..] == c + d && m[|a + b|..|m| - |c + d|] == x
  {
  }

  lemma PrefixAll<T>(s: seq<T>)
    ensures s[..|s|] == s
  {
  }
}
