/**
 * The parts of PHP's value semantics the import pipeline relies on:
 * `empty()`, the `(string)` cast, `explode`, `implode` and `str_replace`.
 */
module Php {

  /** A PHP value as it occurs in a configuration, a cell or an input-row property. */
  datatype Value = Null | Str(s: string) | Int(i: int) | Bool(b: bool) | Strs(items: seq<string>)

  /** `empty($s)` for a string: only "" and "0" are empty. */
  predicate EmptyString(s: string) {
    s == "" || s == "0"
  }

  /** `empty($v)`: null, false, 0, "", "0" and the empty array are empty. */
  predicate Empty(v: Value) {
    match v
    case Null => true
    case Str(s) => EmptyString(s)
    case Int(i) => i == 0
    case Bool(b) => !b
    case Strs(items) => items == []
  }

  function DigitChar(d: nat): char
    requires d < 10
  {
    "0123456789"[d]
  }

  predicate IsDigit(c: char) {
    '0' <= c <= '9'
  }

  /** The value of a decimal digit; any other character counts as 0. */
  function DigitValue(c: char): nat {
    if IsDigit(c) then (c as int - '0' as int) as nat else 0
  }

  /** Decimal notation of a natural number, most significant digit first. */
  function NatToString(n: nat): (r: string)
    ensures |r| > 0 && forall k :: 0 <= k < |r| ==> IsDigit(r[k])
    decreases n
  {
    if n < 10 then [DigitChar(n)] else NatToString(n / 10) + [DigitChar(n % 10)]
  }

  /** `(string)$i` for an integer. */
  function IntToString(i: int): string {
    if i < 0 then "-" + NatToString(-i) else NatToString(i)
  }

  /** Reads a string of decimal digits. */
  function ParseNat(s: string): nat {
    if s == [] then 0 else 10 * ParseNat(s[..|s| - 1]) + DigitValue(s[|s| - 1])
  }

  /** Reads decimal text with an optional leading minus sign. */
  function ParseInt(s: string): int {
    if |s| > 0 && s[0] == '-' then -(ParseNat(s[1..]) as int) else ParseNat(s)
  }

  lemma {:induction false} ParseNatToString(n: nat)
    ensures ParseNat(NatToString(n)) == n
  {
    var r := NatToString(n);
    if n >= 10 {
      ParseNatToString(n / 10);
      assert r[..|r| - 1] == NatToString(n / 10);
    }
  }

  /** Text that starts with a digit reads as unsigned. */
  lemma ParseUnsigned(d: string)
    requires |d| > 0 && IsDigit(d[0])
    ensures ParseInt(d) == ParseNat(d)
  {
  }

  /** A minus sign negates the digits after it. */
  lemma ParseMinus(d: string)
    ensures ParseInt("-" + d) == -(ParseNat(d) as int)
  {
    assert ("-" + d)[1..] == d;
  }

  /** The decimal text of an integer reads back as that integer. */
  lemma ParseIntToString(a: int)
    ensures ParseInt(IntToString(a)) == a
  {
    if a < 0 {
      var n: nat := -a;
      var d := NatToString(n);
      assert IntToString(a) == "-" + d;
      ParseNatToString(n);
      ParseMinus(d);
    } else {
      ParseNatToString(a);
      ParseUnsigned(NatToString(a));
    }
  }

  /** The decimal text of an integer determines the integer: distinct numbers print differently. */
  lemma IntToStringInjective(a: int, b: int)
    ensures IntToString(a) == IntToString(b) ==> a == b
  {
    ParseIntToString(a);
    ParseIntToString(b);
  }

  /** `(string)$v`: null and false become "", true becomes "1", an array becomes "Array". */
  function ToPhpString(v: Value): string {
    match v
    case Null => ""
    case Str(s) => s
    case Int(i) => IntToString(i)
    case Bool(b) => if b then "1" else ""
    case Strs(_) => "Array"
  }

  /** `d` occurs in `t` starting at position `k`. */
  predicate OccursAt(t: string, d: string, k: nat) {
    k + |d| <= |t| && t[k..k + |d|] == d
  }

  /** `t` holds no occurrence of `d`. */
  ghost predicate FreeOf(t: string, d: string) {
    forall k: nat :: !OccursAt(t, d, k)
  }

  /** `explode($d, $s)`: the pieces of `s` between the occurrences of `d`, scanned left to right. */
  function Split(s: string, d: string): (r: seq<string>)
    requires |d| > 0
    ensures |r| > 0
    decreases |s|
  {
    if |s| < |d| then [s]
    else if s[..|d|] == d then [""] + Split(s[|d|..], d)
    else
      var rest := Split(s[1..], d);
      [[s[0]] + rest[0]] + rest[1..]
  }

  /** `implode($sep, $parts)`. */
  function Join(parts: seq<string>, sep: string): string {
    if |parts| == 0 then ""
    else if |parts| == 1 then parts[0]
    else parts[0] + sep + Join(parts[1..], sep)
  }

  /** `str_replace($pat, $rep, $s)`: every occurrence of `pat`, scanned left to right, becomes `rep`. */
  function ReplaceAll(s: string, pat: string, rep: string): string
    requires |pat| > 0
    decreases |s|
  {
    if |s| < |pat| then s
    else if s[..|pat|] == pat then rep + ReplaceAll(s[|pat|..], pat, rep)
    else [s[0]] + ReplaceAll(s[1..], pat, rep)
  }

  lemma JoinExtendHead(c: string, parts: seq<string>, sep: string)
    requires |parts| > 0
    ensures Join([c + parts[0]] + parts[1..], sep) == c + Join(parts, sep)
  {
    var ps := [c + parts[0]] + parts[1..];
    if |parts| > 1 {
      assert ps[1..] == parts[1..];
    }
  }

  /** Imploding the pieces with the delimiter gives back the exploded string. */
  lemma {:induction false} JoinSplit(s: string, d: string)
    requires |d| > 0
    ensures Join(Split(s, d), d) == s
    decreases |s|
  {
    if |s| < |d| {
    } else if s[..|d|] == d {
      var rest := Split(s[|d|..], d);
      var parts := [""] + rest;
      assert Split(s, d) == parts;
      JoinSplit(s[|d|..], d);
      assert parts[1..] == rest;
      calc {
        Join(parts, d);
        "" + d + Join(rest, d);
        s[..|d|] + s[|d|..];
        s;
      }
    } else {
      var rest := Split(s[1..], d);
      assert Split(s, d) == [[s[0]] + rest[0]] + rest[1..];
      JoinSplit(s[1..], d);
      JoinExtendHead([s[0]], rest, d);
      assert [s[0]] + s[1..] == s;
    }
  }

  /** str_replace is explode followed by implode with the replacement. */
  lemma {:induction false} ReplaceIsJoinOfSplit(s: string, pat: string, rep: string)
    requires |pat| > 0
    ensures ReplaceAll(s, pat, rep) == Join(Split(s, pat), rep)
    decreases |s|
  {
    if |s| < |pat| {
    } else if s[..|pat|] == pat {
      var rest := Split(s[|pat|..], pat);
      var parts := [""] + rest;
      assert Split(s, pat) == parts;
      assert ReplaceAll(s, pat, rep) == rep + ReplaceAll(s[|pat|..], pat, rep);
      ReplaceIsJoinOfSplit(s[|pat|..], pat, rep);
      assert parts[1..] == rest;
      assert Join(parts, rep) == "" + rep + Join(rest, rep);
    } else {
      var rest := Split(s[1..], pat);
      assert Split(s, pat) == [[s[0]] + rest[0]] + rest[1..];
      assert ReplaceAll(s, pat, rep) == [s[0]] + ReplaceAll(s[1..], pat, rep);
      ReplaceIsJoinOfSplit(s[1..], pat, rep);
      JoinExtendHead([s[0]], rest, rep);
    }
  }

  /** The first piece of `explode` is a prefix of the input. */
  lemma {:induction false} SplitHeadIsPrefix(s: string, d: string)
    requires |d| > 0
    ensures Split(s, d)[0] <= s
    decreases |s|
  {
    if |s| >= |d| && s[..|d|] != d {
      SplitHeadIsPrefix(s[1..], d);
    }
  }

  /** No piece of `explode($d, $s)` contains the delimiter `d`. */
  lemma {:induction false} SplitPiecesFree(s: string, d: string)
    requires |d| > 0
    ensures forall i :: 0 <= i < |Split(s, d)| ==> FreeOf(Split(s, d)[i], d)
    decreases |s|
  {
    var r := Split(s, d);
    if |s| < |d| {
      forall k: nat ensures !OccursAt(s, d, k) { }
    } else if s[..|d|] == d {
      SplitPiecesFree(s[|d|..], d);
      forall k: nat ensures !OccursAt("", d, k) { }
      assert r == [""] + Split(s[|d|..], d);
    } else {
      var rest := Split(s[1..], d);
      SplitPiecesFree(s[1..], d);
      SplitHeadIsPrefix(s[1..], d);
      var head := [s[0]] + rest[0];
      assert head <= s;
      forall k: nat ensures !OccursAt(head, d, k) {
        if OccursAt(head, d, k) {
          if k == 0 {
            assert false;
          } else {
            assert head[k..k + |d|] == rest[0][k - 1..k - 1 + |d|];
            assert OccursAt(rest[0], d, k - 1);
            assert false;
          }
        }
      }
      assert r == [head] + rest[1..];
      forall i | 0 <= i < |r| ensures FreeOf(r[i], d) {
        if i > 0 {
          assert r[i] == rest[i];
        }
      }
    }
  }
}
