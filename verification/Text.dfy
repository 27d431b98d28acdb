/** Small facts about text that several parts share: decimal numbers, separators, prefixes. */
module Text {

  predicate IsDigit(c: char) {
    '0' <= c <= '9'
  }

  function Digit(d: nat): char
    requires d < 10
  {
    "0123456789"[d]
  }

  /** Decimal notation without leading zeros, as strconv.FormatInt and str() write a natural number. */
  function Decimal(n: nat): (s: string)
    ensures |s| > 0
    ensures forall i :: 0 <= i < |s| ==> IsDigit(s[i])
  {
    if n < 10 then [Digit(n)] else Decimal(n / 10) + [Digit(n % 10)]
  }

  function Value(s: string): nat
    requires forall i :: 0 <= i < |s| ==> IsDigit(s[i])
  {
    if |s| == 0 then 0 else
      assert IsDigit(s[|s| - 1]);
      10 * Value(s[..|s| - 1]) + (s[|s| - 1] as int - '0' as int)
  }

  lemma {:induction false} DecimalRoundTrip(n: nat)
    ensures Value(Decimal(n)) == n
  {
    if n >= 10 {
      DecimalRoundTrip(n / 10);
      var s := Decimal(n);
      assert s[..|s| - 1] == Decimal(n / 10);
    } else {
      assert Decimal(n)[..0] == [];
    }
  }

  lemma {:induction false} DecimalInjective(m: nat, n: nat)
    requires Decimal(m) == Decimal(n)
    ensures m == n
  {
    DecimalRoundTrip(m);
    DecimalRoundTrip(n);
  }

  /** Text up to the first separator is determined by the whole. */
  lemma {:induction false} SplitUnique(a: string, b: string, a': string, b': string, c: char)
    requires c !in a && c !in a'
    requires a + [c] + b == a' + [c] + b'
    ensures a == a' && b == b'
  {
    var s := a + [c] + b;
    assert s[0] == if |a| > 0 then a[0] else c;
    assert s[0] == if |a'| > 0 then a'[0] else c;
    if |a| > 0 && |a'| > 0 {
      assert s[1..] == a[1..] + [c] + b;
      assert s[1..] == a'[1..] + [c] + b';
      SplitUnique(a[1..], b, a'[1..], b', c);
    } else {
      assert s[1..] == b || |a| > 0;
      assert s[1..] == b' || |a'| > 0;
    }
  }

  /** Python's partition: the text before the first separator, or all of it. */
  function Before(s: string, c: char): string {
    if |s| == 0 || s[0] == c then "" else [s[0]] + Before(s[1..], c)
  }

  /** The text after the first separator, or nothing. */
  function After(s: string, c: char): string {
    if |s| == 0 then "" else if s[0] == c then s[1..] else After(s[1..], c)
  }

  lemma {:induction false} PartitionJoined(a: string, b: string, c: char)
    requires c !in a
    ensures Before(a + [c] + b, c) == a && After(a + [c] + b, c) == b
  {
    var s := a + [c] + b;
    if |a| == 0 {
      assert s[0] == c && s[1..] == b;
    } else {
      PartitionJoined(a[1..], b, c);
      assert s[0] == a[0] && s[1..] == a[1..] + [c] + b;
    }
  }

  /** Go's unicode.IsSpace */
  predicate IsSpace(c: char) {
    || '\t' <= c <= '\r' || c == ' ' || c == '\U{0085}' || c == '\U{00A0}' || c == '\U{1680}'
    || '\U{2000}' <= c <= '\U{200A}' || c == '\U{2028}' || c == '\U{2029}' || c == '\U{202F}' || c == '\U{205F}'
    || c == '\U{3000}'
  }

  /** Go's strings.TrimSpace */
  function Trim(s: string): string
    decreases |s|
  {
    if |s| == 0 then s
    else if IsSpace(s[0]) then Trim(s[1..])
    else if IsSpace(s[|s| - 1]) then Trim(s[..|s| - 1])
    else s
  }

  /** The length of a text in UTF-8. */
  function Utf8Size(s: string): nat {
    if |s| == 0 then 0
    else
      var c := s[|s| - 1] as int;
      Utf8Size(s[..|s| - 1]) + if c < 0x80 then 1 else if c < 0x800 then 2 else if c < 0x10000 then 3 else 4
  }

  lemma {:induction false} Utf8AtLeastLength(s: string)
    ensures Utf8Size(s) >= |s|
  {
    if |s| > 0 { Utf8AtLeastLength(s[..|s| - 1]); }
  }

  lemma {:induction false} Utf8Quad(s: string)
    ensures Utf8Size(s) <= 4 * |s|
  {
    if |s| > 0 { Utf8Quad(s[..|s| - 1]); }
  }
}
