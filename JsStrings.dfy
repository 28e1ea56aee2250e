/**
 * The few JavaScript string operations the scripts and the route rely on:
 * truthiness of an optional string, `trim`, `split` on one character, `join`,
 * and `parseInt(s, 10)`.
 */
module JsStrings {
  import opened Wrappers

  /** `if (s)` on a value of type `string | null | undefined`: present and not empty. */
  predicate Truthy(s: Option<string>) {
    s.Some? && s.value != ""
  }

  /** ECMAScript WhiteSpace and LineTerminator code points: what `trim` removes and `parseInt` skips. */
  predicate IsWhitespace(c: char) {
    || c == '\t' || c == '\n' || c == '\U{000B}' || c == '\U{000C}' || c == '\r'
    || c == ' ' || c == '\U{00A0}' || c == '\U{1680}' || ('\U{2000}' <= c <= '\U{200A}')
    || c == '\U{2028}' || c == '\U{2029}' || c == '\U{202F}' || c == '\U{205F}'
    || c == '\U{3000}' || c == '\U{FEFF}'
  }

  /** Leading whitespace removed: a suffix of `s` that starts with a non-blank, everything cut off being blank. */
  function TrimStart(s: string): (r: string)
    ensures |r| <= |s| && r == s[|s| - |r|..]
    ensures r == [] || !IsWhitespace(r[0])
    ensures forall k :: 0 <= k < |s| - |r| ==> IsWhitespace(s[k])
  {
    if s != [] && IsWhitespace(s[0]) then TrimStart(s[1..]) else s
  }

  /** Trailing whitespace removed: a prefix of `s` that ends with a non-blank, everything cut off being blank. */
  function TrimEnd(s: string): (r: string)
    ensures |r| <= |s| && r == s[..|r|]
    ensures r == [] || !IsWhitespace(r[|r| - 1])
    ensures forall k :: |r| <= k < |s| ==> IsWhitespace(s[k])
  {
    if s != [] && IsWhitespace(s[|s| - 1]) then TrimEnd(s[..|s| - 1]) else s
  }

  /** `s.trim()`: the slice `s[i..i+|r|]` with no whitespace at either end, all of `s` outside it whitespace. */
  function Trim(s: string): (r: string)
    ensures exists i :: 0 <= i <= |s| && |r| <= |s[i..]| && r == s[i..][..|r|]
                        && (forall k :: 0 <= k < i ==> IsWhitespace(s[k]))
                        && (forall k :: i + |r| <= k < |s| ==> IsWhitespace(s[k]))
    ensures r == [] || (!IsWhitespace(r[0]) && !IsWhitespace(r[|r| - 1]))
  {
    var t := TrimStart(s);
    var r := TrimEnd(t);
    var i := |s| - |t|;
    assert t == s[i..];
    r
  }

  /** `s.split(d)` for a one-character separator `d`; `"".split(d)` is `[""]`. */
  function Split(s: string, d: char): (r: seq<string>)
    ensures |r| >= 1
    ensures forall k :: 0 <= k < |r| ==> d !in r[k]
  {
    if s == [] then [""]
    else
      var rest := Split(s[1..], d);
      if s[0] == d then [""] + rest else [[s[0]] + rest[0]] + rest[1..]
  }

  /** `parts.join(d)`. */
  function Join(parts: seq<string>, d: char): string {
    if |parts| == 0 then ""
    else if |parts| == 1 then parts[0]
    else parts[0] + [d] + Join(parts[1..], d)
  }

  lemma {:induction false} JoinCons(c: char, p: string, ps: seq<string>, d: char)
    ensures Join([[c] + p] + ps, d) == [c] + Join([p] + ps, d)
  {
    if |ps| > 0 {
      assert ([[c] + p] + ps)[1..] == ps;
      assert ([p] + ps)[1..] == ps;
    }
  }

  /** Splitting and joining on the same character gives the string back. */
  lemma {:induction false} JoinSplit(s: string, d: char)
    ensures Join(Split(s, d), d) == s
  {
    if s != [] {
      var rest := Split(s[1..], d);
      JoinSplit(s[1..], d);
      if s[0] == d {
        assert ([""] + rest)[1..] == rest;
      } else {
        JoinCons(s[0], rest[0], rest[1..], d);
        assert [rest[0]] + rest[1..] == rest;
      }
    }
  }

  lemma {:induction false} SplitPrefix(p: string, t: string, d: char)
    requires d !in p
    ensures Split(p + t, d) == [p + Split(t, d)[0]] + Split(t, d)[1..]
  {
    if p != [] {
      assert (p + t)[1..] == p[1..] + t;
      SplitPrefix(p[1..], t, d);
      assert [p[0]] + (p[1..] + Split(t, d)[0]) == p + Split(t, d)[0];
    } else {
      var x := Split(t, d);
      assert p + t == t && p + x[0] == x[0];
      assert [x[0]] + x[1..] == x;
    }
  }

  /** Joining pieces free of the separator and splitting again gives the pieces back. */
  lemma {:induction false} SplitJoin(parts: seq<string>, d: char)
    requires |parts| >= 1
    requires forall k :: 0 <= k < |parts| ==> d !in parts[k]
    ensures Split(Join(parts, d), d) == parts
  {
    if |parts| == 1 {
      SplitPrefix(parts[0], "", d);
      assert parts[0] + "" == parts[0];
      assert Split("", d) == [""];
    } else {
      var rest := Join(parts[1..], d);
      SplitJoin(parts[1..], d);
      SplitPrefix(parts[0], [d] + rest, d);
      assert Join(parts, d) == parts[0] + ([d] + rest);
      assert ([d] + rest)[1..] == rest;
      assert Split([d] + rest, d) == [""] + parts[1..];
      assert parts[0] + "" == parts[0];
      assert [parts[0]] + parts[1..] == parts;
    }
  }

  /** `.filter(Boolean)` on an array of strings: the empty strings removed, order kept. */
  function DropEmpty(xs: seq<string>): (r: seq<string>)
    ensures |r| <= |xs|
    ensures forall k :: 0 <= k < |r| ==> r[k] != ""
    ensures forall x :: x in r <==> x in xs && x != ""
  {
    if xs == [] then []
    else (if xs[0] == "" then [] else [xs[0]]) + DropEmpty(xs[1..])
  }

  predicate IsDigit(c: char) {
    '0' <= c <= '9'
  }

  /** The longest prefix of `s` made of decimal digits. */
  function DigitRun(s: string): (r: string)
    ensures |r| <= |s| && r == s[..|r|]
    ensures forall k :: 0 <= k < |r| ==> IsDigit(r[k])
    ensures |r| == |s| || !IsDigit(s[|r|])
  {
    if s != [] && IsDigit(s[0]) then [s[0]] + DigitRun(s[1..]) else []
  }

  function DigitValue(c: char): nat
    requires IsDigit(c)
  {
    c as int - '0' as int
  }

  /** The value of a string of decimal digits, most significant first. */
  function DigitsValue(ds: string): nat
    requires forall k :: 0 <= k < |ds| ==> IsDigit(ds[k])
  {
    if ds == [] then 0
    else DigitsValue(ds[..|ds| - 1]) * 10 + DigitValue(ds[|ds| - 1])
  }

  /**
   * `parseInt(s, 10)`: skip leading whitespace, take an optional sign and then the
   * longest run of decimal digits; `None` stands for `NaN` (no digit at all).
   */
  function ParseInt(s: string): Option<int> {
    ParseTrimmed(TrimStart(s))
  }

  /** `parseInt` once the leading whitespace is gone. */
  function ParseTrimmed(t: string): Option<int> {
    var signed := |t| > 0 && (t[0] == '-' || t[0] == '+');
    var ds := DigitRun(if signed then t[1..] else t);
    if ds == [] then None
    else
      var v: int := DigitsValue(ds);
      Some(if signed && t[0] == '-' then -v else v)
  }

  /** The decimal digits of `n`, without leading zeros. */
  function NatDigits(n: nat): (r: string)
    ensures |r| >= 1
    ensures forall k :: 0 <= k < |r| ==> IsDigit(r[k])
  {
    (if n < 10 then [] else NatDigits(n / 10)) + [('0' as int + n % 10) as char]
  }

  /** `String(n)` for an integer `n`. */
  function DecimalString(n: int): string {
    if n < 0 then "-" + NatDigits(-n) else NatDigits(n)
  }

  lemma {:induction false} NatDigitsValue(n: nat)
    ensures DigitsValue(NatDigits(n)) == n
  {
    var q, d := n / 10, n % 10;
    var pre := if n < 10 then [] else NatDigits(q);
    var c := ('0' as int + d) as char;
    assert NatDigits(n) == pre + [c];
    assert (pre + [c])[..|pre|] == pre;
    assert DigitValue(c) == d;
    if n >= 10 {
      NatDigitsValue(q);
    }
    assert DigitsValue(pre) == q;
  }

  lemma {:induction false} DigitRunOfDigits(ds: string, rest: string)
    requires forall k :: 0 <= k < |ds| ==> IsDigit(ds[k])
    requires rest == [] || !IsDigit(rest[0])
    ensures DigitRun(ds + rest) == ds
  {
    if ds != [] {
      assert (ds + rest)[1..] == ds[1..] + rest;
      DigitRunOfDigits(ds[1..], rest);
    } else {
      assert ds + rest == rest;
    }
  }

  lemma {:induction false} ParseTrimmedDigits(sign: string, ds: string, rest: string)
    requires sign == "" || sign == "-"
    requires |ds| >= 1 && forall k :: 0 <= k < |ds| ==> IsDigit(ds[k])
    requires rest == [] || !IsDigit(rest[0])
    ensures ParseTrimmed(sign + ds + rest) == Some(if sign == "-" then -(DigitsValue(ds) as int) else DigitsValue(ds))
  {
    DigitRunOfDigits(ds, rest);
    if sign == "-" {
      ParseTrimmedNegative(ds, rest);
    } else {
      assert sign + ds + rest == ds + rest;
      ParseTrimmedPositive(ds, rest);
    }
  }

  lemma ParseTrimmedPositive(ds: string, rest: string)
    requires |ds| >= 1 && IsDigit(ds[0])
    requires DigitRun(ds + rest) == ds
    requires forall k :: 0 <= k < |ds| ==> IsDigit(ds[k])
    ensures ParseTrimmed(ds + rest) == Some(DigitsValue(ds) as int)
  {
    assert (ds + rest)[0] == ds[0];
  }

  lemma ParseTrimmedNegative(ds: string, rest: string)
    requires |ds| >= 1
    requires DigitRun(ds + rest) == ds
    requires forall k :: 0 <= k < |ds| ==> IsDigit(ds[k])
    ensures ParseTrimmed("-" + ds + rest) == Some(-(DigitsValue(ds) as int))
  {
    var x := "-" + ds + rest;
    assert x[0] == '-';
    assert x[1..] == ds + rest;
  }

  /**
   * `parseInt` reads back any integer written in decimal, whatever follows it
   * as long as it does not start with a digit (`"1500abc"` gives 1500).
   */
  lemma {:induction false} ParseIntDecimal(n: int, rest: string)
    requires rest == [] || !IsDigit(rest[0])
    ensures ParseInt(DecimalString(n) + rest) == Some(n)
  {
    var m: nat := if n < 0 then -n else n;
    var sign := if n < 0 then "-" else "";
    var ds := NatDigits(m);
    var x := sign + ds + rest;
    assert DecimalString(n) + rest == x;
    assert x[0] == if n < 0 then '-' else ds[0];
    TrimStartKeeps(x);
    NatDigitsValue(m);
    ParseTrimmedDigits(sign, ds, rest);
  }

  /** A string that does not start with whitespace is its own `trimStart()`. */
  lemma TrimStartKeeps(s: string)
    requires s == [] || !IsWhitespace(s[0])
    ensures TrimStart(s) == s
  {
  }

  /** Leading whitespace never changes what `parseInt` reads. */
  lemma {:induction false} ParseIntSkipsWhitespace(ws: string, s: string)
    requires forall k :: 0 <= k < |ws| ==> IsWhitespace(ws[k])
    ensures ParseInt(ws + s) == ParseInt(s)
  {
    TrimStartBlankPrefix(ws, s);
  }

  lemma {:induction false} TrimStartBlankPrefix(ws: string, s: string)
    requires forall k :: 0 <= k < |ws| ==> IsWhitespace(ws[k])
    ensures TrimStart(ws + s) == TrimStart(s)
  {
    if ws != [] {
      assert (ws + s)[1..] == ws[1..] + s;
      TrimStartBlankPrefix(ws[1..], s);
    } else {
      assert ws + s == s;
    }
  }

  /** A string with no decimal digit in it parses to `NaN`. */
  lemma {:induction false} ParseIntNoDigits(s: string)
    requires forall k :: 0 <= k < |s| ==> !IsDigit(s[k])
    ensures ParseInt(s) == None
  {
    var t := TrimStart(s);
    if |t| > 0 {
      assert !IsDigit(t[0]);
      if |t| > 1 {
        assert !IsDigit(t[1..][0]);
      }
    }
  }

  /** A string that neither starts nor ends with whitespace is its own `trim()`. */
  lemma {:induction false} TrimTrimmed(s: string)
    requires s == [] || (!IsWhitespace(s[0]) && !IsWhitespace(s[|s| - 1]))
    ensures Trim(s) == s
  {
  }

  /** `trim()` twice is `trim()` once. */
  lemma TrimIdempotent(s: string)
    ensures Trim(Trim(s)) == Trim(s)
  {
    TrimTrimmed(Trim(s));
  }

  /** Dropping empty strings from a list that has none changes nothing. */
  lemma {:induction false} DropEmptyNone(xs: seq<string>)
    requires forall k :: 0 <= k < |xs| ==> xs[k] != ""
    ensures DropEmpty(xs) == xs
  {
    if xs != [] {
      DropEmptyNone(xs[1..]);
      assert [xs[0]] + xs[1..] == xs;
    }
  }

  /** `.filter(Boolean)` keeps order: filtering two parts is filtering each and concatenating. */
  lemma {:induction false} DropEmptyAppend(a: seq<string>, b: seq<string>)
    ensures DropEmpty(a + b) == DropEmpty(a) + DropEmpty(b)
    decreases |a|
  {
    if a == [] {
      assert a + b == b;
    } else {
      assert (a + b)[0] == a[0] && (a + b)[1..] == a[1..] + b;
      DropEmptyAppend(a[1..], b);
    }
  }

  /** `.filter(Boolean)` keeps duplicates: every non-empty string occurs as often as before. */
  lemma {:induction false} DropEmptyMultiset(xs: seq<string>)
    ensures multiset(DropEmpty(xs)) == multiset(xs)["" := 0]
    decreases |xs|
  {
    if xs != [] {
      DropEmptyMultiset(xs[1..]);
      assert xs == [xs[0]] + xs[1..];
      assert multiset(xs) == multiset([xs[0]]) + multiset(xs[1..]);
    }
  }
}
