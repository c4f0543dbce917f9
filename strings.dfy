/**
 * The JavaScript string primitives the application relies on, over `seq<char>`:
 * `trim`, ASCII `toLowerCase`/`toUpperCase`, `split` on one character, `join`,
 * `includes`, number-to-text conversion, `parseInt(s, 10)` and the code-unit
 * ordering used in place of `localeCompare`.
 */
module Strings {
  import opened Wrappers

  /** The characters `String.prototype.trim` removes (WhiteSpace and LineTerminator of ECMA-262). */
  predicate IsWhitespace(c: char) {
    c == ' ' || c == '\t' || c == '\n' || c == '\r' || c == '\U{000B}' || c == '\U{000C}'
    || c == '\U{00A0}' || c == '\U{1680}' || ('\U{2000}' <= c <= '\U{200A}')
    || c == '\U{2028}' || c == '\U{2029}' || c == '\U{202F}' || c == '\U{205F}'
    || c == '\U{3000}' || c == '\U{FEFF}'
  }

  /** A string made of whitespace only (the empty string included). */
  predicate IsBlank(s: string) {
    forall i :: 0 <= i < |s| ==> IsWhitespace(s[i])
  }

  /** Drops the leading whitespace. */
  function TrimStart(s: string): (r: string)
    ensures |r| <= |s| && r == s[|s| - |r|..]
    ensures r != [] ==> !IsWhitespace(r[0])
    ensures forall i :: 0 <= i < |s| - |r| ==> IsWhitespace(s[i])
  {
    if s != [] && IsWhitespace(s[0]) then TrimStart(s[1..]) else s
  }

  /** Drops the trailing whitespace. */
  function TrimEnd(s: string): (r: string)
    ensures |r| <= |s| && r == s[..|r|]
    ensures r != [] ==> !IsWhitespace(r[|r| - 1])
    ensures forall i :: |r| <= i < |s| ==> IsWhitespace(s[i])
  {
    if s != [] && IsWhitespace(s[|s| - 1]) then TrimEnd(s[..|s| - 1]) else s
  }

  /** `s.trim()`: the longest infix of `s` that neither starts nor ends with whitespace. */
  function Trim(s: string): (r: string)
    ensures |r| <= |s|
    ensures r != [] ==> !IsWhitespace(r[0]) && !IsWhitespace(r[|r| - 1])
    ensures r == [] <==> IsBlank(s)
  {
    var t := TrimStart(s);
    TrimEnd(t)
  }

  /** Trimming twice is trimming once. */
  lemma TrimIdempotent(s: string)
    ensures Trim(Trim(s)) == Trim(s)
  {
    var r := Trim(s);
    if r != [] {
      assert TrimStart(r) == r;
      assert TrimEnd(r) == r;
    }
  }

  /** ASCII upper case to lower case; every other character is kept. */
  function LowerChar(c: char): char {
    if 'A' <= c <= 'Z' then (c as int + 32) as char else c
  }

  /** ASCII lower case to upper case; every other character is kept. */
  function UpperChar(c: char): char {
    if 'a' <= c <= 'z' then (c as int - 32) as char else c
  }

  /** `s.toLowerCase()` restricted to ASCII letters. */
  function Lower(s: string): (r: string)
    ensures |r| == |s|
    ensures forall i :: 0 <= i < |s| ==> r[i] == LowerChar(s[i])
  {
    seq(|s|, i requires 0 <= i < |s| => LowerChar(s[i]))
  }

  /** `s.toUpperCase()` restricted to ASCII letters. */
  function Upper(s: string): (r: string)
    ensures |r| == |s|
    ensures forall i :: 0 <= i < |s| ==> r[i] == UpperChar(s[i])
  {
    seq(|s|, i requires 0 <= i < |s| => UpperChar(s[i]))
  }

  /** `s.split(sep)` for a one-character separator: the pieces between separators. */
  function Split(s: string, sep: char): (parts: seq<string>)
    ensures |parts| >= 1
    ensures forall k :: 0 <= k < |parts| ==> sep !in parts[k]
  {
    if s == [] then [""]
    else
      var rest := Split(s[1..], sep);
      if s[0] == sep then [""] + rest
      else [[s[0]] + rest[0]] + rest[1..]
  }

  /** `parts.join(sep)`. */
  function Join(parts: seq<string>, sep: string): string {
    if parts == [] then ""
    else if |parts| == 1 then parts[0]
    else parts[0] + sep + Join(parts[1..], sep)
  }

  /** A string without the separator splits into itself alone. */
  lemma {:induction false} SplitNoSeparator(s: string, sep: char)
    requires sep !in s
    ensures Split(s, sep) == [s]
  {
    if s != [] {
      SplitNoSeparator(s[1..], sep);
      assert [s[0]] + s[1..] == s;
    }
  }

  /** Splitting at the first separator. */
  lemma {:induction false} SplitAtFirst(a: string, sep: char, b: string)
    requires sep !in a
    ensures Split(a + [sep] + b, sep) == [a] + Split(b, sep)
  {
    if a == [] {
      assert (a + [sep] + b)[1..] == b;
    } else {
      assert (a + [sep] + b)[1..] == a[1..] + [sep] + b;
      SplitAtFirst(a[1..], sep, b);
      assert [a[0]] + a[1..] == a;
    }
  }

  /** `split` undoes `join` when no piece contains the separator. */
  lemma {:induction false} SplitJoin(parts: seq<string>, sep: char)
    requires |parts| >= 1
    requires forall k :: 0 <= k < |parts| ==> sep !in parts[k]
    ensures Split(Join(parts, [sep]), sep) == parts
  {
    if |parts| == 1 {
      SplitNoSeparator(parts[0], sep);
    } else {
      SplitJoin(parts[1..], sep);
      SplitAtFirst(parts[0], sep, Join(parts[1..], [sep]));
      assert [parts[0]] + parts[1..] == parts;
    }
  }

  /** `join` undoes `split`: gluing the pieces back with the separator gives the string. */
  lemma {:induction false} JoinSplit(s: string, sep: char)
    ensures Join(Split(s, sep), [sep]) == s
  {
    if s != [] {
      var rest := Split(s[1..], sep);
      JoinSplit(s[1..], sep);
      assert Join(rest, [sep]) == s[1..];
      if s[0] == sep {
        assert ([""] + rest)[1..] == rest;
        assert Join([""] + rest, [sep]) == "" + [sep] + Join(rest, [sep]);
      } else {
        var parts := [[s[0]] + rest[0]] + rest[1..];
        assert parts[1..] == rest[1..];
        if |rest| == 1 {
          assert Join(parts, [sep]) == [s[0]] + Join(rest, [sep]);
        } else {
          assert Join(rest, [sep]) == rest[0] + [sep] + Join(rest[1..], [sep]);
          assert Join(parts, [sep]) == [s[0]] + rest[0] + [sep] + Join(rest[1..], [sep]);
        }
      }
      assert [s[0]] + s[1..] == s;
    }
  }

  /** `s.includes(t)`. */
  predicate Contains(s: string, t: string)
    decreases |s|
  {
    (|t| <= |s| && s[..|t|] == t) || (s != [] && Contains(s[1..], t))
  }

  /** A string contains each of its prefixes. */
  lemma PrefixContained(t: string, rest: string)
    ensures Contains(t + rest, t)
  {
    assert (t + rest)[..|t|] == t;
  }

  /** A string contains whatever an infix of it contains. */
  lemma {:induction false} ContainsInfix(pre: string, t: string, post: string)
    ensures Contains(pre + t + post, t)
  {
    if pre == [] {
      assert pre + t + post == t + post;
      PrefixContained(t, post);
    } else {
      assert (pre + t + post)[1..] == pre[1..] + t + post;
      ContainsInfix(pre[1..], t, post);
    }
  }

  predicate IsDigit(c: char) {
    '0' <= c <= '9'
  }

  /** A run of digits holds no separator that is not itself a digit. */
  lemma AllDigitsNoSeparator(s: string, sep: char)
    requires forall i :: 0 <= i < |s| ==> IsDigit(s[i])
    requires !IsDigit(sep)
    ensures sep !in s
  {
    forall i | 0 <= i < |s| ensures s[i] != sep { assert IsDigit(s[i]); }
  }

  function DigitChar(d: nat): (c: char)
    requires d < 10
    ensures IsDigit(c) && c as int - '0' as int == d
  {
    (d + '0' as int) as char
  }

  /** `String(n)` for a natural number: decimal digits, no leading zero. */
  function NatToString(n: nat): (r: string)
    ensures |r| >= 1 && IsDigit(r[0])
    ensures forall i :: 0 <= i < |r| ==> IsDigit(r[i])
  {
    if n < 10 then [DigitChar(n)] else NatToString(n / 10) + [DigitChar(n % 10)]
  }

  /** `String(n)` / `${n}` for an integer. */
  function IntToString(n: int): (r: string)
    ensures |r| >= 1
    ensures n >= 0 ==> r == NatToString(n)
  {
    if n < 0 then "-" + NatToString(-n) else NatToString(n)
  }

  /** The value of a run of decimal digits. */
  function DigitsValue(s: string): (v: int)
    requires forall i :: 0 <= i < |s| ==> IsDigit(s[i])
    ensures v >= 0
  {
    if s == [] then 0
    else
      assert IsDigit(s[|s| - 1]);
      DigitsValue(s[..|s| - 1]) * 10 + (s[|s| - 1] as int - '0' as int)
  }

  /** Reading back the digits of a number gives the number. */
  lemma {:induction false} DigitsValueOfNatToString(n: nat)
    ensures DigitsValue(NatToString(n)) == n
  {
    if n >= 10 {
      var s := NatToString(n);
      assert s[..|s| - 1] == NatToString(n / 10);
      DigitsValueOfNatToString(n / 10);
    }
  }

  /** The maximal run of digits at the start of `s`. */
  function LeadingDigits(s: string): (r: string)
    ensures |r| <= |s| && r == s[..|r|]
    ensures forall i :: 0 <= i < |r| ==> IsDigit(r[i])
    ensures |r| < |s| ==> !IsDigit(s[|r|])
  {
    if s != [] && IsDigit(s[0]) then [s[0]] + LeadingDigits(s[1..]) else []
  }

  /**
   * `parseInt(s, 10)`: leading whitespace is skipped, one optional sign is read,
   * then the longest run of digits; `None` stands for NaN (no digit at all).
   * Whatever follows the digits is ignored.
   */
  function ParseInt(s: string): (r: Option<int>)
    ensures r.None? <==> LeadingDigits(SignlessBody(TrimStart(s))) == []
  {
    var t := TrimStart(s);
    var body := SignlessBody(t);
    var ds := LeadingDigits(body);
    if ds == [] then None
    else
      var magnitude: int := DigitsValue(ds);
      Some(if t[0] == '-' then -magnitude else magnitude)
  }

  /** What follows an optional leading sign. */
  function SignlessBody(t: string): (r: string)
    ensures |r| <= |t|
  {
    if t != [] && (t[0] == '-' || t[0] == '+') then t[1..] else t
  }

  /** `parseInt` reads the decimal text of a number back, whatever non-digit text follows it. */
  lemma ParseIntOfNatString(n: nat, rest: string)
    requires rest == [] || !IsDigit(rest[0])
    ensures ParseInt(NatToString(n) + rest) == Some(n)
  {
    ParseIntOfDigits(NatToString(n), rest);
    DigitsValueOfNatToString(n);
  }

  /** `parseInt` of a run of digits followed by a non-digit is the value of the run, leading zeros included. */
  lemma ParseIntOfDigits(ds: string, rest: string)
    requires ds != [] && forall i :: 0 <= i < |ds| ==> IsDigit(ds[i])
    requires rest == [] || !IsDigit(rest[0])
    ensures ParseInt(ds + rest) == Some(DigitsValue(ds))
  {
    var t := ds + rest;
    assert t[0] == ds[0];
    DigitFirstIsParsedWhole(t);
    LeadingDigitsOfDigitsThen(ds, rest);
  }

  /** A string that starts with a digit has no leading whitespace and no sign. */
  lemma DigitFirstIsParsedWhole(t: string)
    requires t != [] && IsDigit(t[0])
    ensures TrimStart(t) == t && SignlessBody(t) == t
  {
  }

  lemma {:induction false} LeadingDigitsOfDigitsThen(s: string, rest: string)
    requires forall i :: 0 <= i < |s| ==> IsDigit(s[i])
    requires rest == [] || !IsDigit(rest[0])
    ensures LeadingDigits(s + rest) == s
  {
    if s != [] {
      assert (s + rest)[1..] == s[1..] + rest;
      LeadingDigitsOfDigitsThen(s[1..], rest);
      assert [s[0]] + s[1..] == s;
    }
  }

  /** A text that neither starts nor ends with whitespace is its own trim. */
  lemma TrimOfUnpadded(s: string)
    requires s != [] && !IsWhitespace(s[0]) && !IsWhitespace(s[|s| - 1])
    ensures Trim(s) == s
  {
    assert TrimStart(s) == s;
  }

  /** On a non-empty run of digits, trimming changes nothing and `parseInt` reads the whole run. */
  lemma DigitsAgree(s: string)
    ensures (s != [] && forall i :: 0 <= i < |s| ==> IsDigit(s[i])) ==>
      Trim(s) == s && ParseInt(s) == Some(DigitsValue(s))
  {
    if s != [] && forall i :: 0 <= i < |s| ==> IsDigit(s[i]) {
      assert !IsWhitespace(s[0]) && !IsWhitespace(s[|s| - 1]);
      TrimOfUnpadded(s);
      ParseIntOfDigits(s, []);
      assert s + [] == s;
    }
  }

  /**
   * `Number(s)` for unsigned decimal text: surrounding whitespace is ignored, blank text
   * is 0, a run of digits is its value, and anything else is NaN (`None`).
   */
  function ToNumber(s: string): (r: Option<int>)
    ensures r.Some? ==> r.value >= 0
    ensures IsBlank(s) ==> r == Some(0)
    ensures (s != [] && forall i :: 0 <= i < |s| ==> IsDigit(s[i])) ==> r == ParseInt(s)
  {
    var t := Trim(s);
    DigitsAgree(s);
    if t == [] then Some(0)
    else if forall i :: 0 <= i < |t| ==> IsDigit(t[i]) then Some(DigitsValue(t))
    else None
  }

  /** Code-unit lexicographic order: what `a.localeCompare(b) <= 0` is taken to mean here. */
  predicate StrLe(a: string, b: string) {
    a == [] || (b != [] && (a[0] < b[0] || (a[0] == b[0] && StrLe(a[1..], b[1..]))))
  }

  lemma {:induction false} StrLeTotal(a: string, b: string)
    ensures StrLe(a, b) || StrLe(b, a)
  {
    if a != [] && b != [] && a[0] == b[0] {
      StrLeTotal(a[1..], b[1..]);
    }
  }

  lemma {:induction false} StrLeTransitive(a: string, b: string, c: string)
    requires StrLe(a, b) && StrLe(b, c)
    ensures StrLe(a, c)
  {
    if a != [] && b != [] && c != [] && a[0] == b[0] && b[0] == c[0] {
      StrLeTransitive(a[1..], b[1..], c[1..]);
    }
  }

  /** For strings of the same length, the first difference decides. */
  lemma {:induction false} StrLeAppend(a: string, x: string, b: string, y: string)
    requires |a| == |b|
    ensures StrLe(a + x, b + y) <==> (a != b && StrLe(a, b)) || (a == b && StrLe(x, y))
  {
    if a != [] {
      assert (a + x)[1..] == a[1..] + x;
      assert (b + y)[1..] == b[1..] + y;
      StrLeAppend(a[1..], x, b[1..], y);
      assert a == [a[0]] + a[1..] && b == [b[0]] + b[1..];
    } else {
      assert a + x == x && b + y == y;
    }
  }

  /** Among digit strings of one length, code-unit order is numeric order. */
  lemma {:induction false} FixedWidthDigitsOrder(a: string, b: string)
    requires |a| == |b|
    requires forall i :: 0 <= i < |a| ==> IsDigit(a[i])
    requires forall i :: 0 <= i < |b| ==> IsDigit(b[i])
    ensures StrLe(a, b) <==> DigitsValue(a) <= DigitsValue(b)
    ensures a == b <==> DigitsValue(a) == DigitsValue(b)
  {
    if a != [] {
      var a', b' := a[..|a| - 1], b[..|b| - 1];
      FixedWidthDigitsOrder(a', b');
      assert a == a' + [a[|a| - 1]] && b == b' + [b[|b| - 1]];
      StrLeAppend(a', [a[|a| - 1]], b', [b[|b| - 1]]);
    }
  }
}
