/** The few Kotlin standard-library string operations the model relies on,
    written with the semantics of `kotlin.text` for a `String` viewed as a
    sequence of UTF-16 code units. */
module KotlinStrings {

  /** `s.startsWith(prefix)`. */
  predicate StartsWith(s: string, prefix: string) {
    |prefix| <= |s| && s[..|prefix|] == prefix
  }

  /** `sub` occurs in `s` at index `i`. */
  predicate OccursAt(s: string, sub: string, i: int) {
    0 <= i && i + |sub| <= |s| && s[i..i + |sub|] == sub
  }

  /** `s.contains(sub)`. */
  predicate Contains(s: string, sub: string) {
    exists i | 0 <= i <= |s| - |sub| :: OccursAt(s, sub, i)
  }

  /** `s.replace(from, to)` for single characters. */
  function ReplaceChar(s: string, from: char, to: char): (r: string)
    ensures |r| == |s|
    ensures forall i :: 0 <= i < |s| ==> r[i] == (if s[i] == from then to else s[i])
  {
    seq(|s|, i requires 0 <= i < |s| => if s[i] == from then to else s[i])
  }

  /** `s.replace(from, to)` for strings: every leftmost, non-overlapping
      occurrence of `from` is replaced. An empty `from` matches before every
      character and at the end, so `"ab".replace("", "-") == "-a-b-"`. */
  function ReplaceAll(s: string, from: string, to: string): string
    decreases |s|, |from|
  {
    if |from| == 0 then
      if |s| == 0 then to else to + [s[0]] + ReplaceAll(s[1..], from, to)
    else if |s| < |from| then s
    else if s[..|from|] == from then to + ReplaceAll(s[|from|..], from, to)
    else [s[0]] + ReplaceAll(s[1..], from, to)
  }

  /** Replacing a non-empty string by itself changes nothing. */
  lemma {:induction false} ReplaceAllSelf(s: string, w: string)
    requires |w| > 0
    ensures ReplaceAll(s, w, w) == s
    decreases |s|
  {
    if |s| < |w| {
    } else if s[..|w|] == w {
      ReplaceAllSelf(s[|w|..], w);
      assert s == s[..|w|] + s[|w|..];
    } else {
      ReplaceAllSelf(s[1..], w);
      assert s == [s[0]] + s[1..];
    }
  }

  /** A string in which the searched text does not occur is left unchanged. */
  lemma {:induction false} ReplaceAllAbsent(s: string, from: string, to: string)
    requires |from| > 0 && !Contains(s, from)
    ensures ReplaceAll(s, from, to) == s
    decreases |s|
  {
    if |s| < |from| {
    } else {
      assert !OccursAt(s, from, 0);
      assert s[..|from|] != from;
      forall i | OccursAt(s[1..], from, i) ensures false {
        assert s[1..][i..i + |from|] == s[i + 1..i + 1 + |from|];
        assert OccursAt(s, from, i + 1);
      }
      ReplaceAllAbsent(s[1..], from, to);
      assert s == [s[0]] + s[1..];
    }
  }

  /** Replacing one character by a string: a character is in the result
      exactly when it is a kept character of `s`, or comes from `to` and
      `c` occurred. */
  lemma {:induction false} ReplaceCharByString(s: string, c: char, to: string, d: char)
    ensures d in ReplaceAll(s, [c], to) <==> (d != c && d in s) || (c in s && d in to)
    decreases |s|
  {
    if |s| > 0 {
      var tail := s[1..];
      ReplaceCharByString(tail, c, to, d);
      assert s == [s[0]] + tail;
      if s[..1] == [c] {
        assert ReplaceAll(s, [c], to) == to + ReplaceAll(tail, [c], to);
      } else {
        assert ReplaceAll(s, [c], to) == [s[0]] + ReplaceAll(tail, [c], to);
      }
    }
  }

  /** Index of the first `c` in `s`. */
  function IndexOf(s: string, c: char): (r: nat)
    requires c in s
    ensures r < |s| && s[r] == c && c !in s[..r]
  {
    if s[0] == c then 0 else 1 + IndexOf(s[1..], c)
  }

  /** Index of the last `c` in `s`. */
  function LastIndexOf(s: string, c: char): (r: nat)
    requires c in s
    ensures r < |s| && s[r] == c && c !in s[r + 1..]
  {
    if s[|s| - 1] == c then |s| - 1 else LastIndexOf(s[..|s| - 1], c)
  }

  /** `s.substringAfter(c)`: the text after the first `c`, or all of `s`
      when `c` does not occur. */
  function SubstringAfter(s: string, c: char): string {
    if c in s then s[IndexOf(s, c) + 1..] else s
  }

  /** `s.substringBefore(c)`: the text before the first `c`, or all of `s`. */
  function SubstringBefore(s: string, c: char): string {
    if c in s then s[..IndexOf(s, c)] else s
  }

  /** `s.substringBeforeLast(c)`: the text before the last `c`, or all of `s`. */
  function SubstringBeforeLast(s: string, c: char): string {
    if c in s then s[..LastIndexOf(s, c)] else s
  }

  /** `s.split(sep)` for a non-empty delimiter: the pieces between leftmost,
      non-overlapping occurrences of `sep`; never empty (`"".split(sep)` is
      `[""]`). */
  function Split(s: string, sep: string): (r: seq<string>)
    requires |sep| > 0
    ensures |r| >= 1
    decreases |s|
  {
    if |s| < |sep| then [s]
    else if s[..|sep|] == sep then [[]] + Split(s[|sep|..], sep)
    else
      var rest := Split(s[1..], sep);
      [[s[0]] + rest[0]] + rest[1..]
  }

  /** `parts.joinToString(sep)`. */
  function Join(parts: seq<string>, sep: string): string
    requires |parts| >= 1
  {
    if |parts| == 1 then parts[0] else parts[0] + sep + Join(parts[1..], sep)
  }

  /** The first character of `sep` does not reappear inside it, so an
      occurrence of `sep` can never straddle the end of a piece. */
  predicate SelfSeparating(sep: string) {
    |sep| > 0 && sep[0] !in sep[1..]
  }

  /** A piece without `sep` splits to itself. */
  lemma {:induction false} SplitPiece(p: string, sep: string)
    requires |sep| > 0 && !Contains(p, sep)
    ensures Split(p, sep) == [p]
    decreases |p|
  {
    if |p| >= |sep| {
      assert !OccursAt(p, sep, 0);
      forall i | OccursAt(p[1..], sep, i) ensures false {
        assert p[1..][i..i + |sep|] == p[i + 1..i + 1 + |sep|];
        assert OccursAt(p, sep, i + 1);
      }
      SplitPiece(p[1..], sep);
      assert p == [p[0]] + p[1..];
    }
  }

  /** Splitting `p + sep + rest` cuts exactly after `p`. */
  lemma {:induction false} SplitCutsAfterPiece(p: string, sep: string, rest: string)
    requires SelfSeparating(sep) && !Contains(p, sep)
    ensures Split(p + sep + rest, sep) == [p] + Split(rest, sep)
    decreases |p|
  {
    var s := p + sep + rest;
    if |p| == 0 {
      assert p == [] && s == sep + rest;
      assert s[..|sep|] == sep;
      assert s[|sep|..] == rest;
    } else {
      NoSeparatorAtStart(p, sep, rest);
      NoSeparatorInTail(p, sep);
      SplitCutsAfterPiece(p[1..], sep, rest);
      assert s[1..] == p[1..] + sep + rest;
      var tail := Split(s[1..], sep);
      assert Split(s, sep) == [[s[0]] + tail[0]] + tail[1..];
      assert [s[0]] + tail[0] == p;
    }
  }

  /** No occurrence of a self-separating `sep` starts at the front of
      `p + sep + rest`: it would lie in `p` or straddle the end of `p`. */
  lemma NoSeparatorAtStart(p: string, sep: string, rest: string)
    requires SelfSeparating(sep) && !Contains(p, sep) && |p| > 0
    ensures (p + sep + rest)[..|sep|] != sep
  {
    var s := p + sep + rest;
    if |sep| <= |p| {
      assert s[..|sep|] == p[..|sep|];
      assert !OccursAt(p, sep, 0);
    } else {
      assert s[|p|] == sep[0];
      assert sep[1..][|p| - 1] == sep[|p|];
      assert s[..|sep|][|p|] != sep[|p|];
    }
  }

  /** A piece without `sep` has none after its first character either. */
  lemma NoSeparatorInTail(p: string, sep: string)
    requires !Contains(p, sep) && |p| > 0
    ensures !Contains(p[1..], sep)
  {
    forall i | OccursAt(p[1..], sep, i) ensures false {
      assert p[1..][i..i + |sep|] == p[i + 1..i + 1 + |sep|];
      assert OccursAt(p, sep, i + 1);
    }
  }

  /** Splitting undoes joining when no piece contains the delimiter. */
  lemma {:induction false} SplitJoin(parts: seq<string>, sep: string)
    requires |parts| >= 1 && SelfSeparating(sep)
    requires forall i :: 0 <= i < |parts| ==> !Contains(parts[i], sep)
    ensures Split(Join(parts, sep), sep) == parts
    decreases |parts|
  {
    if |parts| == 1 {
      SplitPiece(parts[0], sep);
    } else {
      SplitCutsAfterPiece(parts[0], sep, Join(parts[1..], sep));
      SplitJoin(parts[1..], sep);
    }
  }

  /** Kotlin's `Int.toString()` for a non-negative value: decimal digits, no
      leading zeros. */
  function Decimal(n: nat): (r: string)
    ensures |r| >= 1
    ensures forall i :: 0 <= i < |r| ==> '0' <= r[i] <= '9'
    decreases n
  {
    if n < 10 then [Digit(n)] else Decimal(n / 10) + [Digit(n % 10)]
  }

  /** Kotlin's `Int.toString()` for any value. */
  function SignedDecimal(n: int): (r: string)
    ensures |r| >= 1
  {
    if n < 0 then "-" + Decimal(-n) else Decimal(n)
  }

  function Digit(d: nat): (c: char)
    requires d < 10
    ensures '0' <= c <= '9'
  {
    ['0', '1', '2', '3', '4', '5', '6', '7', '8', '9'][d]
  }

  /** Distinct numbers print differently. */
  lemma {:induction false} DecimalInjective(m: nat, n: nat)
    requires Decimal(m) == Decimal(n)
    ensures m == n
    decreases m + n
  {
    var a, b := Decimal(m), Decimal(n);
    if m < 10 && n < 10 {
      assert a[0] == Digit(m) && b[0] == Digit(n);
      DigitInjective(m, n);
    } else if m >= 10 && n >= 10 {
      assert a[|a| - 1] == Digit(m % 10) && b[|b| - 1] == Digit(n % 10);
      DigitInjective(m % 10, n % 10);
      assert a[..|a| - 1] == Decimal(m / 10);
      assert b[..|b| - 1] == Decimal(n / 10);
      DecimalInjective(m / 10, n / 10);
      assert m == m / 10 * 10 + m % 10 && n == n / 10 * 10 + n % 10;
    }
  }

  lemma DigitInjective(d: nat, e: nat)
    requires d < 10 && e < 10 && Digit(d) == Digit(e)
    ensures d == e
  {
  }

  /** `Char.lowercase()` restricted to ASCII: 'A'..'Z' become 'a'..'z', in
      order; every other character is kept. */
  function LowerAscii(c: char): (r: char)
    ensures 'A' <= c <= 'Z' ==> 'a' <= r <= 'z' && r as int - 'a' as int == c as int - 'A' as int
    ensures !('A' <= c <= 'Z') ==> r == c
  {
    if 'A' <= c <= 'Z' then (c as int + 32) as char else c
  }

  /** `s.replaceFirstChar { it.lowercase() }`, ASCII only: the first
      character lower-cased, the rest kept. */
  function LowerFirst(s: string): (r: string)
    ensures |r| == |s| && (|s| > 0 ==> r[1..] == s[1..])
    ensures |s| > 0 && 'A' <= s[0] <= 'Z' ==> 'a' <= r[0] <= 'z' && r[0] as int - 'a' as int == s[0] as int - 'A' as int
    ensures |s| > 0 && !('A' <= s[0] <= 'Z') ==> r == s
  {
    if |s| == 0 then s else [LowerAscii(s[0])] + s[1..]
  }
}
