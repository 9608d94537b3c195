/** String helpers with JavaScript's meaning: `\s` / `String.prototype.trim` whitespace,
    truthiness of strings, and the decimal rendering used for record ids. */
module Text {
  import opened Wrappers

  /** The characters that JavaScript's `\s` matches and `trim()` removes
      (WhiteSpace and LineTerminator of ECMAScript). */
  predicate IsWhitespace(c: char) {
    || ('\U{9}' <= c <= '\U{D}') || c == ' ' || c == '\U{A0}' || c == '\U{1680}'
    || ('\U{2000}' <= c <= '\U{200A}')
    || c == '\U{2028}' || c == '\U{2029}' || c == '\U{202F}' || c == '\U{205F}'
    || c == '\U{3000}' || c == '\U{FEFF}'
  }

  /** Every character of `s` is whitespace (the empty string included). */
  predicate IsBlank(s: string) {
    forall k | 0 <= k < |s| :: IsWhitespace(s[k])
  }

  function TrimStart(s: string): (r: string)
    ensures |r| <= |s| && r == s[|s| - |r|..]
    ensures r == [] || !IsWhitespace(r[0])
    ensures forall k | 0 <= k < |s| - |r| :: IsWhitespace(s[k])
  {
    if s != [] && IsWhitespace(s[0]) then TrimStart(s[1..]) else s
  }

  function TrimEnd(s: string): (r: string)
    ensures |r| <= |s| && r == s[..|r|]
    ensures r == [] || !IsWhitespace(r[|r| - 1])
    ensures forall k | |r| <= k < |s| :: IsWhitespace(s[k])
  {
    if s != [] && IsWhitespace(s[|s| - 1]) then TrimEnd(s[..|s| - 1]) else s
  }

  /** How many characters `trim()` cuts off the front of `s`. */
  function LeadingBlank(s: string): (n: nat)
    ensures n <= |s|
  {
    |s| - |TrimStart(s)|
  }

  /** `s.trim()`: `s` with the whitespace cut off both ends, so neither end of the result
      is whitespace. */
  function Trim(s: string): (r: string)
    ensures |r| <= |s|
    ensures r == [] || (!IsWhitespace(r[0]) && !IsWhitespace(r[|r| - 1]))
  {
    TrimEnd(TrimStart(s))
  }

  /** The trimmed text is the infix of `s` after its leading whitespace, and only
      whitespace was cut from either end. */
  lemma TrimIsInfix(s: string)
    ensures var r := Trim(s); var i := LeadingBlank(s);
            && i + |r| <= |s| && r == s[i..i + |r|]
            && (forall k | 0 <= k < i :: IsWhitespace(s[k]))
            && (forall k | i + |r| <= k < |s| :: IsWhitespace(s[k]))
  {
    var t := TrimStart(s);
    var r := TrimEnd(t);
    var i := |s| - |t|;
    forall k | i + |r| <= k < |s| ensures IsWhitespace(s[k]) {
      assert s[k] == t[k - i];
    }
  }

  /** A string trims to nothing exactly when it is blank. */
  lemma TrimEmptyIffBlank(s: string)
    ensures Trim(s) == [] <==> IsBlank(s)
  {
    TrimIsInfix(s);
    if Trim(s) == [] {
      assert |TrimStart(s)| == 0;
    } else {
      var r := Trim(s);
      var i := LeadingBlank(s);
      assert s[i] == r[0];
    }
  }

  /** Trimming twice is trimming once. */
  lemma TrimIdempotent(s: string)
    ensures Trim(Trim(s)) == Trim(s)
  {
    var r := Trim(s);
    if r != [] {
      assert TrimStart(r) == r;
      assert TrimEnd(r) == r;
    }
  }

  /** JavaScript truthiness of a string: only `""` is falsy. */
  predicate Truthy(s: string) { s != "" }

  /** `x || fallback` for an optional string: `null`, `undefined` and `""` give the fallback. */
  function OrElse(x: Option<string>, fallback: string): (r: string)
    ensures x.Some? && x.value != "" ==> r == x.value
    ensures x.None? || x.value == "" ==> r == fallback
  {
    if x.Some? && x.value != "" then x.value else fallback
  }

  /** Lexicographic order on character codes, the order a string index sorts by. */
  predicate StringLe(a: string, b: string) {
    a == [] || (b != [] && (a[0] < b[0] || (a[0] == b[0] && StringLe(a[1..], b[1..]))))
  }

  /** Any two strings are comparable. */
  lemma {:induction false} StringLeTotal(a: string, b: string)
    ensures StringLe(a, b) || StringLe(b, a)
  {
    if a != [] && b != [] && a[0] == b[0] {
      StringLeTotal(a[1..], b[1..]);
    }
  }

  /** The order is transitive. */
  lemma {:induction false} StringLeTransitive(a: string, b: string, c: string)
    requires StringLe(a, b) && StringLe(b, c)
    ensures StringLe(a, c)
  {
    if a != [] && a[0] == b[0] && b[0] == c[0] {
      StringLeTransitive(a[1..], b[1..], c[1..]);
    }
  }

  /** The number of UTF-16 code units of a character: two for one above U+FFFF, which
      JavaScript stores as a surrogate pair. */
  function CodeUnits(c: char): nat {
    if c as int > 0xFFFF then 2 else 1
  }

  /** `s.length` in JavaScript: the string's length in UTF-16 code units, the length that
      string length bounds compare. */
  function Utf16Length(s: string): (n: nat)
    ensures |s| <= n <= 2 * |s|
    ensures n == 0 <==> s == []
  {
    if s == [] then 0 else CodeUnits(s[0]) + Utf16Length(s[1..])
  }

  /** A string without characters above U+FFFF has as many code units as characters. */
  lemma {:induction false} Utf16LengthOfBasic(s: string)
    requires forall k | 0 <= k < |s| :: s[k] as int <= 0xFFFF
    ensures Utf16Length(s) == |s|
  {
    if s != [] {
      Utf16LengthOfBasic(s[1..]);
    }
  }

  /** The first `n` characters, as `s.slice(0, n)` does for `n >= 0`. */
  function Prefix(s: string, n: nat): (r: string)
    ensures |r| == if n <= |s| then n else |s|
    ensures forall k | 0 <= k < |r| :: r[k] == s[k]
  {
    if n <= |s| then s[..n] else s
  }
}

/** Record identifiers. The document store's ObjectIds are modelled as naturals; a request
    carries an id as text, which the store casts back (`ParseId`), failing on malformed text. */
module Ids {
  import opened Wrappers

  type Id = nat

  /** The error a malformed id string raises when the store casts it. */
  const CastErrorMessage := "Cast to ObjectId failed"

  predicate IsDigit(c: char) { '0' <= c <= '9' }

  function DigitChar(d: nat): (c: char)
    requires d < 10
    ensures IsDigit(c) && c as int - '0' as int == d
  {
    ['0', '1', '2', '3', '4', '5', '6', '7', '8', '9'][d]
  }

  function DigitsValue(s: string): nat
    requires forall k | 0 <= k < |s| :: IsDigit(s[k])
  {
    if s == [] then 0
    else
      assert IsDigit(s[|s| - 1]);
      DigitsValue(s[..|s| - 1]) * 10 + (s[|s| - 1] as int - '0' as int)
  }

  /** `id.toString()`: the decimal text of an id, without leading zeros. */
  function IdText(n: Id): (s: string)
    ensures s != [] && forall k | 0 <= k < |s| :: IsDigit(s[k])
    ensures s[0] == '0' <==> n == 0
    ensures n < 10 <==> |s| == 1
  {
    if n < 10 then [DigitChar(n)] else IdText(n / 10) + [DigitChar(n % 10)]
  }

  /** The texts an id cast accepts: digits, without a leading zero unless the text is "0". */
  predicate Canonical(s: string) {
    s != [] && (forall k | 0 <= k < |s| :: IsDigit(s[k])) && (|s| == 1 || s[0] != '0')
  }

  /** Casting a request's id text to an id: defined exactly on canonical texts, and the
      text of the id found is the text cast. */
  function ParseId(s: string): (r: Option<Id>)
    ensures r.Some? <==> Canonical(s)
    ensures r.Some? ==> IdText(r.value) == s
  {
    if Canonical(s) then CanonicalText(s); Some(DigitsValue(s)) else None
  }

  /** A digit string starting with a non-zero digit has a positive value. */
  lemma {:induction false} LeadingDigitPositive(s: string)
    requires s != [] && (forall k | 0 <= k < |s| :: IsDigit(s[k])) && s[0] != '0'
    ensures DigitsValue(s) > 0
  {
    if |s| > 1 {
      assert s[..|s| - 1][0] == s[0];
      LeadingDigitPositive(s[..|s| - 1]);
    }
  }

  /** A canonical text is the text of its value. */
  lemma {:induction false} CanonicalText(s: string)
    requires Canonical(s)
    ensures IdText(DigitsValue(s)) == s
  {
    var last := s[|s| - 1];
    assert IsDigit(last);
    var d := last as int - '0' as int;
    if |s| == 1 {
      assert s[..0] == [];
      assert DigitsValue(s) == d;
      assert DigitChar(d) == last;
    } else {
      var init := s[..|s| - 1];
      assert init[0] == s[0];
      assert Canonical(init);
      CanonicalText(init);
      LeadingDigitPositive(init);
      var v := DigitsValue(s);
      assert v == DigitsValue(init) * 10 + d;
      assert v / 10 == DigitsValue(init) && v % 10 == d;
      assert DigitChar(d) == last;
      assert s == init + [last];
    }
  }

  /** Casting the text of an id gives the id back. */
  lemma ParseIdText(n: Id)
    ensures ParseId(IdText(n)) == Some(n)
  {
    assert Canonical(IdText(n));
    IdTextInjective(ParseId(IdText(n)).value, n);
  }

  /** Distinct ids have distinct texts, so the text identifies the record. */
  lemma {:induction false} IdTextInjective(a: Id, b: Id)
    requires IdText(a) == IdText(b)
    ensures a == b
  {
    if a >= 10 && b >= 10 {
      var sa, sb := IdText(a / 10), IdText(b / 10);
      assert sa + [DigitChar(a % 10)] == sb + [DigitChar(b % 10)];
      assert |sa| == |sb|;
      assert sa == (sa + [DigitChar(a % 10)])[..|sa|];
      assert sb == (sb + [DigitChar(b % 10)])[..|sb|];
      assert DigitChar(a % 10) == DigitChar(b % 10);
      IdTextInjective(a / 10, b / 10);
    } else if a < 10 && b < 10 {
      assert DigitChar(a) == DigitChar(b);
    }
  }
}
