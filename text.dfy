/**
 * String helpers the application relies on: whitespace tests, ASCII case folding,
 * ordinal substring search, split/join on one separator character and the ordinal
 * lexicographic order on strings.
 */
module Text {

  /** `char.IsWhiteSpace`: the Unicode separators plus U+0009..U+000D and U+0085. */
  predicate IsWhiteSpace(c: char) {
    c == ' ' || ('\t' <= c <= '\r') || c == '\U{0085}' || c == '\U{00A0}' || c == '\U{1680}'
    || ('\U{2000}' <= c <= '\U{200A}') || c == '\U{2028}' || c == '\U{2029}'
    || c == '\U{202F}' || c == '\U{205F}' || c == '\U{3000}'
  }

  /** `string.IsNullOrWhiteSpace` on a (non-null) string: empty or only white space. */
  predicate IsNullOrWhiteSpace(s: string) {
    forall i | 0 <= i < |s| :: IsWhiteSpace(s[i])
  }

  /** Invariant lower-casing, restricted to ASCII letters. */
  function LowerChar(c: char): char {
    if 'A' <= c <= 'Z' then (c as int + 32) as char else c
  }

  /** Invariant upper-casing, restricted to ASCII letters. */
  function UpperChar(c: char): char {
    if 'a' <= c <= 'z' then (c as int - 32) as char else c
  }

  /** `ToLowerInvariant` / `ToLower` on a whole string (ASCII letters only). */
  function Lower(s: string): string {
    seq(|s|, i requires 0 <= i < |s| => LowerChar(s[i]))
  }

  /** `t` occurs in `s` starting at offset `i`. */
  predicate OccursAt(s: string, t: string, i: int) {
    0 <= i && i + |t| <= |s| && s[i..i + |t|] == t
  }

  /** Ordinal substring test: `t` occurs in `s` at some offset. */
  predicate Contains(s: string, t: string) {
    exists i | 0 <= i <= |s| :: OccursAt(s, t, i)
  }

  /** `s.Contains(t, StringComparison.OrdinalIgnoreCase)`. */
  predicate ContainsIgnoreCase(s: string, t: string) {
    Contains(Lower(s), Lower(t))
  }

  /** `string.Equals(a, b, StringComparison.OrdinalIgnoreCase)`. */
  predicate EqualsIgnoreCase(a: string, b: string) {
    Lower(a) == Lower(b)
  }

  predicate StartsWith(s: string, prefix: string) {
    |prefix| <= |s| && s[..|prefix|] == prefix
  }

  predicate EndsWith(s: string, suffix: string) {
    |suffix| <= |s| && s[|s| - |suffix|..] == suffix
  }

  /** Number of occurrences of `c` in `s`. */
  function CountChar(s: string, c: char): nat {
    if s == [] then 0 else (if s[0] == c then 1 else 0) + CountChar(s[1..], c)
  }

  lemma {:induction false} CountCharConcat(a: string, b: string, c: char)
    ensures CountChar(a + b, c) == CountChar(a, c) + CountChar(b, c)
  {
    if a == [] {
      assert a + b == b;
    } else {
      assert (a + b)[1..] == a[1..] + b;
      CountCharConcat(a[1..], b, c);
    }
  }

  lemma {:induction false} CountCharAbsent(s: string, c: char)
    requires c !in s
    ensures CountChar(s, c) == 0
  {
    if s != [] {
      CountCharAbsent(s[1..], c);
    }
  }

  /** Index of the first occurrence of `c` in `s`. */
  function IndexOfChar(s: string, c: char): (i: nat)
    requires c in s
    ensures i < |s| && s[i] == c && c !in s[..i]
  {
    if s[0] == c then 0 else 1 + IndexOfChar(s[1..], c)
  }

  /** The first position holding `c` is the one `IndexOfChar` finds. */
  lemma {:induction false} IndexOfCharAt(s: string, c: char, j: nat)
    requires j < |s| && s[j] == c && c !in s[..j]
    ensures IndexOfChar(s, c) == j
  {
    if j > 0 {
      assert s[0] == s[..j][0];
      assert s[1..][..j - 1] == s[1..j];
      assert forall x | x in s[1..j] :: x in s[..j];
      IndexOfCharAt(s[1..], c, j - 1);
    }
  }

  /**
   * `s.Split(sep)`: the pieces between occurrences of `sep`, empty pieces included,
   * so there is always one more piece than there are separators.
   */
  function Split(s: string, sep: char): (words: seq<string>)
    ensures |words| == CountChar(s, sep) + 1
    ensures forall k :: 0 <= k < |words| ==> sep !in words[k]
    decreases |s|
  {
    if sep !in s then
      CountCharAbsent(s, sep);
      [s]
    else
      var i := IndexOfChar(s, sep);
      assert s == s[..i] + [sep] + s[i + 1..];
      CountCharConcat(s[..i] + [sep], s[i + 1..], sep);
      CountCharConcat(s[..i], [sep], sep);
      CountCharAbsent(s[..i], sep);
      [s[..i]] + Split(s[i + 1..], sep)
  }

  /** `string.Join(sep, words)`. */
  function Join(words: seq<string>, sep: char): string {
    if |words| == 0 then ""
    else if |words| == 1 then words[0]
    else words[0] + [sep] + Join(words[1..], sep)
  }

  /** Joining pieces that do not contain the separator and splitting again gives the pieces back. */
  lemma {:induction false} SplitJoin(words: seq<string>, sep: char)
    requires |words| >= 1
    requires forall k :: 0 <= k < |words| ==> sep !in words[k]
    ensures Split(Join(words, sep), sep) == words
  {
    if |words| > 1 {
      var w, rest := words[0], Join(words[1..], sep);
      var s := w + [sep] + rest;
      assert s[|w|] == sep;
      assert s[..|w|] == w;
      IndexOfCharAt(s, sep, |w|);
      var i := IndexOfChar(s, sep);
      assert s[..i] == w && s[i + 1..] == rest;
      SplitJoin(words[1..], sep);
    }
  }

  /** A character that occurs in no piece and is not the separator does not occur in the join. */
  lemma {:induction false} JoinExcludes(words: seq<string>, sep: char, c: char)
    requires c != sep
    requires forall k :: 0 <= k < |words| ==> c !in words[k]
    ensures c !in Join(words, sep)
  {
    if |words| > 1 {
      JoinExcludes(words[1..], sep, c);
    }
  }

  /** Ordinal lexicographic order: compares UTF-16 code values position by position. */
  predicate LexLess(a: string, b: string) {
    if |a| == 0 then |b| > 0
    else |b| > 0 && (a[0] < b[0] || (a[0] == b[0] && LexLess(a[1..], b[1..])))
  }

  lemma {:induction false} LexLessIrreflexive(a: string)
    ensures !LexLess(a, a)
  {
    if |a| > 0 {
      LexLessIrreflexive(a[1..]);
    }
  }

  lemma {:induction false} LexLessTransitive(a: string, b: string, c: string)
    requires LexLess(a, b) && LexLess(b, c)
    ensures LexLess(a, c)
  {
    if |a| > 0 && a[0] == b[0] && b[0] == c[0] {
      LexLessTransitive(a[1..], b[1..], c[1..]);
    }
  }

  /** Any two different strings are ordered one way or the other. */
  lemma {:induction false} LexLessTotal(a: string, b: string)
    ensures a == b || LexLess(a, b) || LexLess(b, a)
  {
    if |a| > 0 && |b| > 0 && a[0] == b[0] {
      LexLessTotal(a[1..], b[1..]);
      if a[1..] == b[1..] {
        assert a == [a[0]] + a[1..] && b == [b[0]] + b[1..];
      }
    }
  }

  lemma {:induction false} LexLessAsymmetric(a: string, b: string)
    requires LexLess(a, b)
    ensures !LexLess(b, a)
  {
    if |a| > 0 && a[0] == b[0] {
      LexLessAsymmetric(a[1..], b[1..]);
    }
  }

  /**
   * Comparing two strings that start with pieces of equal length: the first pieces
   * decide, and only when they are equal do the remainders.
   */
  lemma {:induction false} LexLessConcat(x1: string, x2: string, y1: string, y2: string)
    requires |x1| == |y1|
    ensures LexLess(x1 + x2, y1 + y2) <==> LexLess(x1, y1) || (x1 == y1 && LexLess(x2, y2))
  {
    if |x1| == 0 {
      assert x1 + x2 == x2 && y1 + y2 == y2;
      LexLessIrreflexive(x1);
    } else {
      assert (x1 + x2)[0] == x1[0] && (y1 + y2)[0] == y1[0];
      assert (x1 + x2)[1..] == x1[1..] + x2 && (y1 + y2)[1..] == y1[1..] + y2;
      LexLessConcat(x1[1..], x2, y1[1..], y2);
      assert x1 == y1 <==> x1[0] == y1[0] && x1[1..] == y1[1..] by {
        if x1[0] == y1[0] && x1[1..] == y1[1..] {
          assert x1 == [x1[0]] + x1[1..] && y1 == [y1[0]] + y1[1..];
        }
      }
    }
  }

  /** Case folding works character by character. */
  lemma LowerConcat(a: string, b: string)
    ensures Lower(a + b) == Lower(a) + Lower(b)
  {
    assert forall i | 0 <= i < |a + b| :: Lower(a + b)[i] == (Lower(a) + Lower(b))[i];
  }

  /** Two strings after the same prefix compare as the strings do. */
  lemma LexLessSamePrefix(p: string, x: string, y: string)
    ensures LexLess(p + x, p + y) <==> LexLess(x, y)
  {
    LexLessConcat(p, x, p, y);
    LexLessIrreflexive(p);
  }

  /** The pieces of a split hold only characters of the string. */
  lemma {:induction false} SplitKeepsAbsent(s: string, sep: char, c: char)
    requires c !in s
    ensures forall k | 0 <= k < |Split(s, sep)| :: c !in Split(s, sep)[k]
    decreases |s|
  {
    if sep in s {
      var i := IndexOfChar(s, sep);
      assert forall x | x in s[..i] :: x in s;
      assert forall x | x in s[i + 1..] :: x in s;
      SplitKeepsAbsent(s[i + 1..], sep, c);
    }
  }

  /** A string that starts with the separator splits into an empty first piece. */
  lemma SplitLeadingSeparator(s: string, sep: char)
    requires |s| > 0 && s[0] == sep
    ensures Split(s, sep)[0] == []
  {
    assert s[..0] == [];
    IndexOfCharAt(s, sep, 0);
  }

  /** A string that ends with the separator splits into an empty last piece. */
  lemma {:induction false} SplitTrailingSeparator(s: string, sep: char)
    requires |s| > 0 && s[|s| - 1] == sep
    ensures var words := Split(s, sep); words[|words| - 1] == []
    decreases |s|
  {
    var i := IndexOfChar(s, sep);
    var rest := s[i + 1..];
    var words := Split(s, sep);
    assert words == [s[..i]] + Split(rest, sep);
    if rest != [] {
      assert rest[|rest| - 1] == sep;
      SplitTrailingSeparator(rest, sep);
    } else {
      assert Split(rest, sep) == [rest];
    }
  }

  /** Case mapping never produces a character it was not given, other than a letter. */
  lemma CaseMappingKeeps(c: char, d: char)
    requires !('A' <= d <= 'Z') && !('a' <= d <= 'z') && c != d
    ensures LowerChar(c) != d && UpperChar(c) != d
  {
  }
}
