/** The few pieces of Python's string behaviour the clock relies on:
    `str.split` with a one-character separator, `int()` on a decimal
    string, decimal formatting of integers (`f"{n}"`, `f"{n:02d}"`) and the
    short slices `s[:2]` and `s[-2:]`. */
module PyText {

  datatype Option<+T> = None | Some(value: T)

  predicate IsDigit(c: char) {
    '0' <= c <= '9'
  }

  function DigitValue(c: char): (d: nat)
    requires IsDigit(c)
    ensures d < 10
  {
    c as int - '0' as int
  }

  function DigitChar(d: nat): (c: char)
    requires d < 10
    ensures IsDigit(c) && DigitValue(c) == d
  {
    ('0' as int + d) as char
  }

  /** Python's `max` and `min` of two integers. */
  function Max(a: int, b: int): (r: int) {
    if a >= b then a else b
  }

  function Min(a: int, b: int): (r: int) {
    if a <= b then a else b
  }

  // ---------------------------------------------------------------- split

  /** Python's `s.split(sep)`: the pieces between occurrences of `sep`. */
  function Split(s: string, sep: char): (parts: seq<string>)
    ensures |parts| >= 1
    ensures forall k :: 0 <= k < |parts| ==> sep !in parts[k]
  {
    if s == [] then [[]]
    else
      var rest := Split(s[1..], sep);
      if s[0] == sep then [[]] + rest
      else [[s[0]] + rest[0]] + rest[1..]
  }

  /** Python's `sep.join(parts)`, the inverse of `Split`. */
  function Join(parts: seq<string>, sep: char): (r: string)
    requires |parts| >= 1
  {
    if |parts| == 1 then parts[0] else parts[0] + [sep] + Join(parts[1..], sep)
  }

  function Count(s: string, c: char): (r: nat) {
    if s == [] then 0 else (if s[0] == c then 1 else 0) + Count(s[1..], c)
  }

  lemma {:induction false} CountZero(s: string, c: char)
    ensures Count(s, c) == 0 <==> c !in s
  {
    if s != [] {
      CountZero(s[1..], c);
      assert c in s <==> s[0] == c || c in s[1..];
    }
  }

  /** Joining the pieces gives the string back, and there is one more piece
      than there are separators. */
  lemma {:induction false} SplitJoin(s: string, sep: char)
    ensures Join(Split(s, sep), sep) == s
    ensures |Split(s, sep)| == Count(s, sep) + 1
  {
    if s != [] {
      SplitJoin(s[1..], sep);
      var rest := Split(s[1..], sep);
      var parts := Split(s, sep);
      if s[0] == sep {
        assert parts[1..] == rest;
        calc {
          Join(parts, sep);
          parts[0] + [sep] + Join(parts[1..], sep);
          [sep] + s[1..];
          s;
        }
      } else if |rest| == 1 {
        assert parts == [[s[0]] + rest[0]];
        assert rest[0] == s[1..];
      } else {
        assert parts[1..] == rest[1..];
        calc {
          Join(parts, sep);
          ([s[0]] + rest[0]) + [sep] + Join(rest[1..], sep);
          [s[0]] + (rest[0] + [sep] + Join(rest[1..], sep));
          [s[0]] + Join(rest, sep);
          s;
        }
      }
    }
  }

  /** A separator-free piece followed by a separator splits off as the
      first piece. */
  lemma {:induction false} SplitFirst(a: string, b: string, sep: char)
    requires sep !in a
    ensures Split(a + [sep] + b, sep) == [a] + Split(b, sep)
  {
    if a == [] {
      assert [] + [sep] + b == [sep] + b;
      assert ([sep] + b)[1..] == b;
    } else {
      SplitFirst(a[1..], b, sep);
      assert (a + [sep] + b)[1..] == a[1..] + [sep] + b;
      assert [a[0]] + a[1..] == a;
    }
  }

  /** Two separator-free strings joined by one separator split back into
      exactly those two strings. */
  lemma SplitAround(a: string, b: string, sep: char)
    requires sep !in a && sep !in b
    ensures Split(a + [sep] + b, sep) == [a, b]
  {
    SplitFirst(a, b, sep);
    SplitNone(b, sep);
  }

  /** Three separator-free strings joined by separators split back into
      exactly those three strings. */
  lemma SplitThree(a: string, b: string, c: string, sep: char)
    requires sep !in a && sep !in b && sep !in c
    ensures Split(a + [sep] + b + [sep] + c, sep) == [a, b, c]
  {
    var t := b + [sep] + c;
    var s := a + [sep] + b + [sep] + c;
    assert s == a + [sep] + t;
    SplitFirst(a, t, sep);
    SplitAround(b, c, sep);
    assert Split(s, sep) == [a] + [b, c];
  }

  lemma {:induction false} SplitNone(s: string, sep: char)
    requires sep !in s
    ensures Split(s, sep) == [s]
  {
    if s != [] {
      SplitNone(s[1..], sep);
      assert [s[0]] + s[1..] == s;
    }
  }

  /** Python's `s.split(sep, 1)` when `sep in s`: the text before the first
      separator and everything after it. */
  function SplitOnce(s: string, sep: char): (r: Option<(string, string)>)
  {
    var parts := Split(s, sep);
    if |parts| == 1 then None else Some((parts[0], Join(parts[1..], sep)))
  }

  lemma SplitOnceSpec(s: string, sep: char)
    ensures SplitOnce(s, sep).None? <==> sep !in s
    ensures SplitOnce(s, sep).Some? ==>
              var (a, b) := SplitOnce(s, sep).value;
              a + [sep] + b == s && sep !in a
  {
    SplitJoin(s, sep);
    CountZero(s, sep);
  }

  // ---------------------------------------------------------------- int()

  /** The ASCII characters Python's `int()` strips around a number. */
  predicate IsSpace(c: char) {
    c == ' ' || 9 <= c as int <= 13
  }

  function TrimStart(s: string): (r: string)
    ensures r == [] || !IsSpace(r[0])
  {
    if s != [] && IsSpace(s[0]) then TrimStart(s[1..]) else s
  }

  function TrimEnd(s: string): (r: string)
    ensures r == [] || !IsSpace(r[|r| - 1])
  {
    if s != [] && IsSpace(s[|s| - 1]) then TrimEnd(s[..|s| - 1]) else s
  }

  function Strip(s: string): (r: string) {
    TrimEnd(TrimStart(s))
  }

  /** Decimal digits, with single underscores allowed between two digits
      (`int("1_000") == 1000`). */
  predicate WellFormedDigits(t: string) {
    && |t| > 0
    && IsDigit(t[0])
    && IsDigit(t[|t| - 1])
    && DigitsOrUnderscores(t)
    && forall k :: 0 < k < |t| - 1 && t[k] == '_' ==> IsDigit(t[k - 1]) && IsDigit(t[k + 1])
  }

  predicate DigitsOrUnderscores(t: string) {
    forall k :: 0 <= k < |t| ==> IsDigit(t[k]) || t[k] == '_'
  }

  /** The value of a digit string, read most significant digit first;
      underscores are skipped. */
  function DigitsValue(t: string): (r: nat)
    requires DigitsOrUnderscores(t)
  {
    if t == [] then 0
    else if t[|t| - 1] == '_' then DigitsValue(t[..|t| - 1])
    else DigitsValue(t[..|t| - 1]) * 10 + DigitValue(t[|t| - 1])
  }

  function ParseDigits(t: string): (r: Option<nat>) {
    if WellFormedDigits(t) then Some(DigitsValue(t)) else None
  }

  /** Python's `int(s)` for base 10 over ASCII text: surrounding whitespace,
      an optional sign, then digits; anything else is a `ValueError`, here
      `None`. */
  function ParseInt(s: string): (r: Option<int>) {
    var t := Strip(s);
    if |t| > 0 && (t[0] == '-' || t[0] == '+') then
      match ParseDigits(t[1..])
      case Some(n) => Some(if t[0] == '-' then -(n as int) else n as int)
      case None => None
    else
      match ParseDigits(t)
      case Some(n) => Some(n)
      case None => None
  }

  // ---------------------------------------------------------------- formatting

  /** `f"{n}"` for a natural number: decimal, no leading zeros. */
  function NatToString(n: nat): (r: string)
    ensures |r| >= 1
    ensures forall k :: 0 <= k < |r| ==> IsDigit(r[k])
  {
    if n < 10 then [DigitChar(n)] else NatToString(n / 10) + [DigitChar(n % 10)]
  }

  /** `f"{i}"` for any integer. */
  function IntToString(i: int): (r: string)
  {
    if i < 0 then "-" + NatToString(-i) else NatToString(i)
  }

  /** `f"{n:02d}"` for 0 <= n < 100. */
  function Pad2(n: nat): (r: string)
    requires n < 100
    ensures |r| == 2 && IsDigit(r[0]) && IsDigit(r[1])
    ensures DigitValue(r[0]) * 10 + DigitValue(r[1]) == n
  {
    [DigitChar(n / 10), DigitChar(n % 10)]
  }

  /** The two-digit text is a well-formed digit string, unchanged by
      stripping, whose value is the number. */
  lemma Pad2Reads(n: nat)
    requires n < 100
    ensures WellFormedDigits(Pad2(n)) && Strip(Pad2(n)) == Pad2(n)
    ensures ParseDigits(Pad2(n)) == Some(n)
  {
    var r := Pad2(n);
    assert r[..1] == [r[0]];
    assert r[..1][..0] == [];
    assert DigitsValue(r[..1]) == DigitValue(r[0]);
    assert DigitsValue(r) == DigitsValue(r[..1]) * 10 + DigitValue(r[1]);
    assert TrimStart(r) == r;
    assert TrimEnd(r) == r;
  }

  /** The decimal text reads back as the number it was made from. */
  lemma {:induction false} NatToStringValue(n: nat)
    ensures DigitsOrUnderscores(NatToString(n))
    ensures DigitsValue(NatToString(n)) == n
  {
    var r := NatToString(n);
    if n >= 10 {
      NatToStringValue(n / 10);
      assert r[..|r| - 1] == NatToString(n / 10);
    }
  }

  lemma NatToStringShape(n: nat)
    ensures WellFormedDigits(NatToString(n))
    ensures Strip(NatToString(n)) == NatToString(n)
  {
  }

  /** Round trip: `int(f"{i}") == i` for every integer. */
  lemma ParseIntToString(i: int)
    ensures ParseInt(IntToString(i)) == Some(i)
  {
    var m: nat := if i < 0 then -i else i;
    NatToStringValue(m);
    NatToStringShape(m);
    var d := NatToString(m);
    if i < 0 {
      var s := "-" + d;
      assert TrimStart(s) == s;
      assert TrimEnd(s) == s;
      assert s[1..] == d;
    }
  }

  lemma IntToStringNoColon(i: int)
    ensures ':' !in IntToString(i)
  {
    var m: nat := if i < 0 then -i else i;
    assert forall k :: 0 <= k < |NatToString(m)| ==> IsDigit(NatToString(m)[k]);
  }

  // ---------------------------------------------------------------- slices

  /** Python's `s[:2]`. */
  function Head2(s: string): (r: string)
    ensures |r| == if |s| < 2 then |s| else 2
    ensures r <= s
  {
    if |s| < 2 then s else s[..2]
  }

  /** Python's `s[-2:]`. */
  function Tail2(s: string): (r: string)
    ensures |r| == if |s| < 2 then |s| else 2
    ensures s[|s| - |r|..] == r
  {
    if |s| < 2 then s else s[|s| - 2..]
  }
}
