/** The string operations the helpers are written with: splitting on one character,
    the decimal forms of strconv, and the zero padding of a "%09s" verb. */
module Text {
  import opened Wrappers
  import opened Int64

  // ----- strings.Split with a one-character separator -----

  function Split(s: string, sep: char): (parts: seq<string>)
    ensures |parts| >= 1
    ensures forall i :: 0 <= i < |parts| ==> sep !in parts[i]
  {
    if s == "" then [""]
    else if s[0] == sep then [""] + Split(s[1..], sep)
    else
      var rest := Split(s[1..], sep);
      [[s[0]] + rest[0]] + rest[1..]
  }

  lemma {:induction false} SplitNone(s: string, sep: char)
    requires sep !in s
    ensures Split(s, sep) == [s]
  {
    if s != "" {
      SplitNone(s[1..], sep);
      assert [s[0]] + s[1..] == s;
    }
  }

  lemma {:induction false} SplitFirst(a: string, sep: char, b: string)
    requires sep !in a
    ensures Split(a + [sep] + b, sep) == [a] + Split(b, sep)
  {
    var s := a + [sep] + b;
    if a == "" {
      assert s[1..] == b;
    } else {
      assert s[1..] == a[1..] + [sep] + b;
      SplitFirst(a[1..], sep, b);
      assert [a[0]] + a[1..] == a;
    }
  }

  /** Two separator-free fields survive being joined and split again. */
  lemma SplitTwo(a: string, sep: char, b: string)
    requires sep !in a && sep !in b
    ensures Split(a + [sep] + b, sep) == [a, b]
  {
    SplitFirst(a, sep, b);
    SplitNone(b, sep);
  }

  // ----- decimal digits -----

  predicate IsDigit(c: char) { '0' <= c <= '9' }

  predicate AllDigits(s: string) { forall i :: 0 <= i < |s| ==> IsDigit(s[i]) }

  function DigitChar(d: int): char
    requires 0 <= d < 10
  {
    ('0' as int + d) as char
  }

  function DigitValue(c: char): (d: nat)
    requires IsDigit(c)
    ensures d < 10 && DigitChar(d) == c
  {
    c as int - '0' as int
  }

  /** The shortest decimal form of a natural number. */
  function Digits(n: nat): (s: string)
    ensures s != "" && AllDigits(s)
  {
    if n < 10 then [DigitChar(n)] else Digits(n / 10) + [DigitChar(n % 10)]
  }

  function Value(s: string): (n: nat)
    requires AllDigits(s)
  {
    if s == "" then 0
    else 10 * Value(s[..|s| - 1]) + DigitValue(s[|s| - 1])
  }

  lemma {:induction false} ValueOfDigits(n: nat)
    ensures Value(Digits(n)) == n
  {
    if n >= 10 {
      ValueOfDigits(n / 10);
      var s := Digits(n);
      assert s[..|s| - 1] == Digits(n / 10);
    }
  }

  /** Only zero starts with a zero digit. */
  lemma {:induction false} ShortestForm(n: nat)
    ensures Digits(n)[0] == '0' <==> n == 0
    ensures n == 0 ==> Digits(n) == "0"
  {
    if n >= 10 { ShortestForm(n / 10); }
  }

  /** Leading zeros do not change the number a digit string denotes. */
  lemma {:induction false} ValueLeadingZero(s: string)
    requires AllDigits(s)
    ensures AllDigits("0" + s) && Value("0" + s) == Value(s)
  {
    var t := "0" + s;
    if s == "" {
      assert t[..0] == "";
    } else {
      assert t[..|t| - 1] == "0" + s[..|s| - 1];
      ValueLeadingZero(s[..|s| - 1]);
    }
  }

  /** Digit strings of one length denote different numbers unless they are equal. */
  lemma {:induction false} SameLengthSameValue(s: string, t: string)
    requires AllDigits(s) && AllDigits(t) && |s| == |t| && Value(s) == Value(t)
    ensures s == t
  {
    if s != "" {
      var n := |s| - 1;
      assert DigitValue(s[n]) == DigitValue(t[n]) && Value(s[..n]) == Value(t[..n]);
      SameLengthSameValue(s[..n], t[..n]);
      assert s == s[..n] + [s[n]] && t == t[..n] + [t[n]];
    }
  }

  // ----- strconv.FormatInt and strconv.ParseInt, base 10, 64 bits -----

  function FormatInt(x: int64): (s: string)
    ensures s != ""
  {
    var n: int := x;
    if n < 0 then "-" + Digits(-n) else Digits(n)
  }

  predicate Signed(s: string) { s != "" && (s[0] == '-' || s[0] == '+') }

  function Unsigned(s: string): string { if Signed(s) then s[1..] else s }

  /** The integer a signed digit string denotes, before any range check. */
  function ParseBig(s: string): Option<int>
  {
    var body := Unsigned(s);
    if body == "" || !AllDigits(body) then None
    else
      var n: int := Value(body);
      Some(if s[0] == '-' then -n else n)
  }

  function ParseInt(s: string): (r: Option<int64>)
  {
    match ParseBig(s)
    case None => None
    case Some(n) => if InRange(n) then Some(n) else None
  }

  lemma FormatShape(x: int64)
    ensures Unsigned(FormatInt(x)) == Digits(if x < 0 then -(x as int) else x)
    ensures FormatInt(x)[0] == '-' <==> x < 0
  {
    var s := FormatInt(x);
    if x < 0 {
      assert s[1..] == Digits(-(x as int));
    } else {
      assert IsDigit(s[0]);
    }
  }

  /** Every int64 survives the decimal round trip. */
  lemma ParseFormat(x: int64)
    ensures ParseInt(FormatInt(x)) == Some(x)
  {
    FormatShape(x);
    ValueOfDigits(if x < 0 then -(x as int) else x);
    assert ParseBig(FormatInt(x)) == Some(x as int);
  }

  /** What parses contains only digits after an optional sign. */
  lemma ParsedHasNo(s: string, c: char)
    requires ParseInt(s).Some?
    requires !IsDigit(c) && c != '-' && c != '+'
    ensures c !in s
  {
    forall i | 0 <= i < |s| ensures s[i] != c {
      if Signed(s) {
        assert i > 0 ==> s[i] == s[1..][i - 1];
      }
    }
  }

  // ----- fmt.Sprintf("%09s", s) -----

  function Pad9(s: string): (t: string)
    ensures |t| == if |s| < 9 then 9 else |s|
    decreases 9 - |s|
  {
    if |s| >= 9 then s else Pad9("0" + s)
  }

  lemma {:induction false} PadValue(s: string)
    requires AllDigits(s)
    ensures AllDigits(Pad9(s)) && Value(Pad9(s)) == Value(s)
    decreases 9 - |s|
  {
    if |s| < 9 {
      ValueLeadingZero(s);
      PadValue("0" + s);
    }
  }

  lemma {:induction false} PadKeeps(s: string, c: char)
    requires c != '0'
    ensures c in Pad9(s) <==> c in s
    decreases 9 - |s|
  {
    if |s| < 9 {
      PadKeeps("0" + s, c);
      assert forall i :: 0 <= i < |s| ==> ("0" + s)[i + 1] == s[i];
    }
  }
}
