/** String operations the Ruby code relies on: `downcase`, `to_s` of an integer,
    `=~ /.../` with a literal pattern, `gsub` of one character and `join`. */
module Text {

  function LowerChar(c: char): (d: char)
    ensures 'A' <= c <= 'Z' ==> 'a' <= d <= 'z' && d as int == c as int + 32
    ensures !('A' <= c <= 'Z') ==> d == c
  {
    if 'A' <= c <= 'Z' then (c as int - 'A' as int + 'a' as int) as char else c
  }

  /** `String#downcase` on ASCII letters. */
  function Downcase(s: string): (r: string)
    ensures |r| == |s|
    ensures forall i :: 0 <= i < |s| ==> r[i] == LowerChar(s[i])
  {
    seq(|s|, i requires 0 <= i < |s| => LowerChar(s[i]))
  }

  lemma DowncaseIdempotent(s: string)
    ensures Downcase(Downcase(s)) == Downcase(s)
  {
  }

  predicate IsDigit(c: char) { '0' <= c <= '9' }

  predicate AllDigits(s: string) {
    forall i :: 0 <= i < |s| ==> IsDigit(s[i])
  }

  function DigitChar(d: nat): (c: char)
    requires d < 10
    ensures IsDigit(c)
  {
    ('0' as int + d) as char
  }

  /** `Integer#to_s` for a non-negative integer: its decimal digits, most
      significant first, with no leading zero. */
  function NatToString(n: nat): (s: string)
    ensures |s| > 0 && AllDigits(s)
    ensures |s| > 1 ==> s[0] != '0'
    decreases n
  {
    if n < 10 then [DigitChar(n)] else NatToString(n / 10) + [DigitChar(n % 10)]
  }

  /** `Integer#to_s` for any integer. */
  function IntToString(i: int): (s: string)
    ensures |s| > 0
    ensures i >= 0 ==> AllDigits(s)
  {
    if i >= 0 then NatToString(i) else "-" + NatToString(-i)
  }

  /** Two different numbers never print the same. */
  lemma {:induction false} NatToStringInjective(m: nat, n: nat)
    requires NatToString(m) == NatToString(n)
    ensures m == n
    decreases m
  {
    var s := NatToString(m);
    if m < 10 && n < 10 {
      assert s[0] == DigitChar(m) && s[0] == DigitChar(n);
    } else if m >= 10 && n >= 10 {
      var a, b := NatToString(m / 10), NatToString(n / 10);
      assert |a| == |b| && a == s[..|s| - 1] && b == s[..|s| - 1];
      NatToStringInjective(m / 10, n / 10);
      assert DigitChar(m % 10) == s[|s| - 1] == DigitChar(n % 10);
    }
  }

  /** `s =~ /lit/` for a pattern without metacharacters: does `lit` occur in `s`? */
  predicate Contains(s: string, lit: string) {
    exists i :: 0 <= i <= |s| - |lit| && OccursAt(s, lit, i)
  }

  predicate OccursAt(s: string, lit: string, i: int) {
    0 <= i <= |s| - |lit| && s[i..i + |lit|] == lit
  }

  /** `s.gsub(c, '')`. */
  function RemoveChar(s: string, c: char): (r: string)
    ensures c !in r
    ensures |r| <= |s|
    ensures forall x :: x in r <==> x in s && x != c
    ensures c !in s ==> r == s
  {
    if s == [] then []
    else (if s[0] == c then [] else [s[0]]) + RemoveChar(s[1..], c)
  }

  /** `gsub` drops every `c` and keeps every other character as often as it occurs. */
  lemma {:induction false} RemoveCharCounts(s: string, c: char)
    ensures multiset(RemoveChar(s, c)) == multiset(s)[c := 0]
  {
    if s != [] {
      assert s == [s[0]] + s[1..];
      RemoveCharCounts(s[1..], c);
    }
  }

  /** `gsub` works left to right: the characters kept stay in their order. */
  lemma {:induction false} RemoveCharConcat(a: string, b: string, c: char)
    ensures RemoveChar(a + b, c) == RemoveChar(a, c) + RemoveChar(b, c)
  {
    if a != [] {
      assert (a + b)[1..] == a[1..] + b;
      RemoveCharConcat(a[1..], b, c);
    } else {
      assert a + b == b;
    }
  }

  /** `parts.join(sep)`. */
  function Join(parts: seq<string>, sep: string): string {
    if parts == [] then ""
    else if |parts| == 1 then parts[0]
    else parts[0] + sep + Join(parts[1..], sep)
  }

  predicate StartsWith(s: string, p: string) { |p| <= |s| && s[..|p|] == p }
  predicate EndsWith(s: string, p: string) { |p| <= |s| && s[|s| - |p|..] == p }

  /** The position of the first `c` in `s`, or `|s|` when there is none. */
  function FirstIndexOf(s: string, c: char): (i: nat)
    ensures i <= |s|
  {
    if s == [] then 0 else if s[0] == c then 0 else 1 + FirstIndexOf(s[1..], c)
  }

  lemma {:induction false} FirstUnderscoreAfterDigits(a: string, x: string)
    requires AllDigits(a)
    ensures FirstIndexOf(a + "_" + x, '_') == |a|
  {
    if a != [] {
      assert (a + "_" + x)[1..] == a[1..] + "_" + x;
      FirstUnderscoreAfterDigits(a[1..], x);
    }
  }

  /** A digit string followed by `_` can be split back: the separator is the
      first `_`. */
  lemma {:induction false} SplitAtUnderscore(a: string, x: string, b: string, y: string)
    requires AllDigits(a) && AllDigits(b)
    requires a + "_" + x == b + "_" + y
    ensures a == b && x == y
  {
    var s := a + "_" + x;
    FirstUnderscoreAfterDigits(a, x);
    FirstUnderscoreAfterDigits(b, y);
    assert a == s[..|a|] == b;
    assert x == s[|a| + 1..] == y;
  }
}
