/** Kotlin vocabulary shared by every module: nullable values, `Result`, and 32-bit `Int`. */
module Base {

  /** A Kotlin nullable value: `None` is `null`. */
  datatype Option<+T> = None | Some(value: T)

  /** Kotlin's `Result<T>`: a value, or a failure whose exception message may itself be null. */
  datatype Result<+T> = Success(value: T) | Failure(message: Option<string>)

  /** Kotlin's `Int`. */
  type Int32 = x: int | -0x8000_0000 <= x < 0x8000_0000

  /** Kotlin's `Int` arithmetic: the exact result wrapped to 32-bit two's complement. */
  function Wrap32(x: int): (r: Int32)
    ensures -0x8000_0000 <= x < 0x8000_0000 ==> r == x
    ensures x >= 0x8000_0000 ==> r < x
  {
    (x + 0x8000_0000) % 0x1_0000_0000 - 0x8000_0000
  }

  function Min(a: int, b: int): int { if a <= b then a else b }

  /** Kotlin's elvis operator `o ?: d`. */
  function OrElse<T>(o: Option<T>, d: T): T
  {
    if o.Some? then o.value else d
  }
}

/** Decimal rendering of integers, and ASCII case-insensitive substring matching. */
module Text {
  import opened Base

  predicate IsDigit(c: char) { '0' <= c <= '9' }

  predicate AllDigits(s: string) { forall i :: 0 <= i < |s| ==> IsDigit(s[i]) }

  function DigitChar(d: nat): (c: char)
    requires d < 10
    ensures IsDigit(c) && c as int - '0' as int == d
  {
    ('0' as int + d) as char
  }

  /** The decimal digits of `n`, most significant first, without leading zeros. */
  function Digits(n: nat): (s: string)
    ensures |s| >= 1 && AllDigits(s)
    ensures s[0] == '0' ==> n == 0
  {
    if n < 10 then [DigitChar(n)] else Digits(n / 10) + [DigitChar(n % 10)]
  }

  /** Kotlin's `Int.toString()`, which string templates such as "$malId" also use. */
  function Decimal(n: int): (s: string)
    ensures |s| >= 1 && IsDigit(s[|s| - 1])
    ensures s[0] == '-' <==> n < 0
  {
    if n < 0 then "-" + Digits(-n) else Digits(n)
  }

  /** The number a string of decimal digits denotes. */
  function DigitsValue(s: string): nat
    requires AllDigits(s)
  {
    if s == [] then 0 else DigitsValue(s[..|s| - 1]) * 10 + (s[|s| - 1] as int - '0' as int)
  }

  /** Reads back an optionally signed decimal numeral: the inverse of `Decimal`. */
  function ParseDecimal(s: string): Option<int>
  {
    if |s| > 1 && s[0] == '-' && AllDigits(s[1..]) then Some(-(DigitsValue(s[1..]) as int))
    else if |s| > 0 && AllDigits(s) then Some(DigitsValue(s))
    else None
  }

  lemma {:induction false} DigitsValueOfDigits(n: nat)
    ensures DigitsValue(Digits(n)) == n
  {
    if n >= 10 {
      var s := Digits(n);
      assert s[..|s| - 1] == Digits(n / 10);
      DigitsValueOfDigits(n / 10);
    }
  }

  lemma DecimalRoundTrip(n: int)
    ensures ParseDecimal(Decimal(n)) == Some(n)
  {
    if n < 0 {
      NegativeRoundTrip(-n);
    } else {
      UnsignedRoundTrip(n);
    }
  }

  lemma NegativeRoundTrip(m: nat)
    requires m > 0
    ensures ParseDecimal(Decimal(-(m as int))) == Some(-(m as int))
  {
    var d := Digits(m);
    assert Decimal(-(m as int)) == "-" + d;
    assert ("-" + d)[1..] == d;
    DigitsValueOfDigits(m);
  }

  lemma UnsignedRoundTrip(n: nat)
    ensures ParseDecimal(Decimal(n)) == Some(n)
  {
    var d := Digits(n);
    assert Decimal(n) == d && d[0] != '-';
    DigitsValueOfDigits(n);
  }

  /** ASCII-only lower-casing, which is all SQLite's LIKE folds. */
  function AsciiLower(c: char): char
  {
    if 'A' <= c <= 'Z' then (c as int + 32) as char else c
  }

  predicate MatchesAt(text: string, pattern: string, i: nat)
    requires i + |pattern| <= |text|
  {
    forall k :: 0 <= k < |pattern| ==> AsciiLower(text[i + k]) == AsciiLower(pattern[k])
  }

  /**
   * SQLite's `text LIKE '%' || pattern || '%'`: the pattern occurs somewhere in the text,
   * ignoring the case of ASCII letters. Wildcards inside `pattern` are not interpreted.
   */
  predicate ContainsIgnoringCase(text: string, pattern: string)
    ensures ContainsIgnoringCase(text, pattern) ==> |pattern| <= |text|
    ensures pattern == text ==> ContainsIgnoringCase(text, pattern)
  {
    SelfMatches(text);
    exists i :: 0 <= i <= |text| - |pattern| && MatchesAt(text, pattern, i)
  }

  /** Every text matches itself from its start. */
  lemma SelfMatches(text: string)
    ensures MatchesAt(text, text, 0)
  {
  }

  /** An empty query matches every text, so searching for "" lists every row. */
  lemma EmptyPatternMatches(text: string)
    ensures ContainsIgnoringCase(text, "")
  {
    assert MatchesAt(text, "", 0);
  }

  /**
   * SQLite's BINARY collation: byte-wise comparison of the UTF-8 encodings, which orders
   * strings as code-point-wise lexicographic comparison does, a prefix first.
   */
  predicate StrLe(a: string, b: string)
  {
    a == [] || (b != [] && (a[0] < b[0] || (a[0] == b[0] && StrLe(a[1..], b[1..]))))
  }

  lemma {:induction false} StrLeTotal(a: string, b: string)
    ensures StrLe(a, b) || StrLe(b, a)
  {
    if a != [] && b != [] && a[0] == b[0] {
      StrLeTotal(a[1..], b[1..]);
    }
  }

  lemma {:induction false} StrLeTransitive(a: string, b: string, c: string)
    requires StrLe(a, b) && StrLe(b, c)
    ensures StrLe(a, c)
  {
    if a != [] && b != [] && c != [] && a[0] == b[0] && b[0] == c[0] {
      StrLeTransitive(a[1..], b[1..], c[1..]);
    }
  }

  lemma {:induction false} StrLeAntisymmetric(a: string, b: string)
    requires StrLe(a, b) && StrLe(b, a)
    ensures a == b
  {
    if a != [] && b != [] {
      StrLeAntisymmetric(a[1..], b[1..]);
      assert a == [a[0]] + a[1..] && b == [b[0]] + b[1..];
    }
  }
}
