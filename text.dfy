/**
 * The JavaScript string primitives the plugin relies on: `toLowerCase`
 * (over ASCII), the `\s` / `trim` whitespace set, `\w`, `includes`,
 * `split` on a one-character separator and `replace` of a single character
 * (which replaces only the first occurrence).
 */
module Text {

  /** ECMAScript WhiteSpace and LineTerminator code points: what `\s` matches and `trim` removes. */
  predicate IsWhitespace(c: char) {
    c == ' ' || c == '\t' || c == '\n' || c == '\U{000B}' || c == '\U{000C}' || c == '\r'
    || c == '\U{00A0}' || c == '\U{1680}' || ('\U{2000}' <= c <= '\U{200A}')
    || c == '\U{2028}' || c == '\U{2029}' || c == '\U{202F}' || c == '\U{205F}'
    || c == '\U{3000}' || c == '\U{FEFF}'
  }

  /** `\w` of a non-Unicode regular expression: ASCII letters, digits and `_`. */
  predicate IsWordChar(c: char) {
    ('a' <= c <= 'z') || ('A' <= c <= 'Z') || ('0' <= c <= '9') || c == '_'
  }

  predicate IsUpper(c: char) {
    'A' <= c <= 'Z'
  }

  function LowerChar(c: char): (d: char)
    ensures !IsUpper(d)
    ensures IsWordChar(d) <==> IsWordChar(c)
    ensures IsWhitespace(d) <==> IsWhitespace(c)
    ensures !IsUpper(c) ==> d == c
  {
    if IsUpper(c) then (c as int + 32) as char else c
  }

  /** `toLowerCase`, restricted to the ASCII letters. */
  function Lower(s: string): (r: string)
    ensures |r| == |s|
    ensures forall i :: 0 <= i < |s| ==> r[i] == LowerChar(s[i])
  {
    seq(|s|, i requires 0 <= i < |s| => LowerChar(s[i]))
  }

  predicate AllWhitespace(s: string) {
    forall i :: 0 <= i < |s| ==> IsWhitespace(s[i])
  }

  /** `t` sits in `s` at position `i`. */
  predicate OccursAt(s: string, t: string, i: int) {
    0 <= i && i + |t| <= |s| && s[i..i + |t|] == t
  }

  /** `s.includes(t)`. */
  predicate Contains(s: string, t: string) {
    exists i :: 0 <= i <= |s| - |t| && OccursAt(s, t, i)
  }

  lemma ContainsEmpty(s: string)
    ensures Contains(s, "")
  {
    assert OccursAt(s, "", 0);
  }

  /** Substring containment is transitive. */
  lemma ContainsTransitive(a: string, b: string, c: string)
    requires Contains(a, b) && Contains(b, c)
    ensures Contains(a, c)
  {
    var i :| 0 <= i <= |a| - |b| && OccursAt(a, b, i);
    var j :| 0 <= j <= |b| - |c| && OccursAt(b, c, j);
    assert b == a[i..i + |b|];
    forall k | 0 <= k < |c| ensures a[i + j + k] == c[k] {
      assert c[k] == b[j + k];
    }
    assert a[i + j..i + j + |c|] == c;
    assert OccursAt(a, c, i + j);
  }

  /** A string occurs in any text built around it. */
  lemma ContainsMiddle(a: string, b: string, c: string)
    ensures Contains(a + b + c, b)
  {
    assert (a + b + c)[|a|..|a| + |b|] == b;
    assert OccursAt(a + b + c, b, |a|);
  }

  /** A character absent from a string is absent from every piece of it. */
  lemma ContainsNoChar(s: string, t: string, c: char)
    requires Contains(s, t) && c !in s
    ensures c !in t
  {
    var i :| 0 <= i <= |s| - |t| && OccursAt(s, t, i);
    forall j | 0 <= j < |t| ensures t[j] != c {
      assert t[j] == s[i + j];
    }
  }

  /** Lower-casing both sides keeps a containment. */
  lemma LowerKeepsContains(s: string, t: string)
    requires Contains(s, t)
    ensures Contains(Lower(s), Lower(t))
  {
    var i :| 0 <= i <= |s| - |t| && OccursAt(s, t, i);
    assert Lower(s)[i..i + |t|] == Lower(t);
    assert OccursAt(Lower(s), Lower(t), i);
  }

  lemma LowerIdempotent(s: string)
    ensures Lower(Lower(s)) == Lower(s)
  {
  }

  /** `trimStart`: drops the leading whitespace and nothing else. */
  function TrimStart(s: string): (r: string)
    ensures |r| <= |s|
    ensures AllWhitespace(s[..|s| - |r|])
    ensures r == [] || !IsWhitespace(r[0])
    decreases |s|
  {
    if |s| > 0 && IsWhitespace(s[0]) then
      var r := TrimStart(s[1..]);
      WhitespaceCons(s, |s| - |r|);
      r
    else s
  }

  lemma WhitespaceCons(s: string, n: nat)
    requires 0 < n <= |s| && IsWhitespace(s[0]) && AllWhitespace(s[1..][..n - 1])
    ensures AllWhitespace(s[..n])
  {
    forall i | 0 < i < n ensures IsWhitespace(s[..n][i]) {
      assert s[..n][i] == s[1..][..n - 1][i - 1];
    }
  }

  /** `trimEnd`: drops the trailing whitespace and nothing else. */
  function TrimEnd(s: string): (r: string)
    ensures |r| <= |s|
    ensures AllWhitespace(s[|r|..])
    ensures r == [] || !IsWhitespace(r[|r| - 1])
    decreases |s|
  {
    if |s| > 0 && IsWhitespace(s[|s| - 1]) then
      var r := TrimEnd(s[..|s| - 1]);
      WhitespaceSnoc(s, |r|);
      r
    else s
  }

  lemma WhitespaceSnoc(s: string, m: nat)
    requires m < |s| && IsWhitespace(s[|s| - 1]) && AllWhitespace(s[..|s| - 1][m..])
    ensures AllWhitespace(s[m..])
  {
    forall i | 0 <= i < |s| - m - 1 ensures IsWhitespace(s[m..][i]) {
      assert s[m..][i] == s[..|s| - 1][m..][i];
    }
  }

  /** `trimStart` keeps a suffix of its input. */
  lemma {:induction false} TrimStartIsSuffix(s: string)
    ensures var r := TrimStart(s); r == s[|s| - |r|..]
    decreases |s|
  {
    if |s| > 0 && IsWhitespace(s[0]) {
      TrimStartIsSuffix(s[1..]);
      var r := TrimStart(s);
      assert s[1..][|s| - 1 - |r|..] == s[|s| - |r|..];
    }
  }

  /** `trimEnd` keeps a prefix of its input. */
  lemma {:induction false} TrimEndIsPrefix(s: string)
    ensures var r := TrimEnd(s); r == s[..|r|]
    decreases |s|
  {
    if |s| > 0 && IsWhitespace(s[|s| - 1]) {
      TrimEndIsPrefix(s[..|s| - 1]);
      var r := TrimEnd(s);
      assert s[..|s| - 1][..|r|] == s[..|r|];
    }
  }

  /** `trim`: the text between the leading and the trailing whitespace. */
  function Trim(s: string): (r: string)
    ensures Contains(s, r)
    ensures IsTrimmed(r)
    ensures r == [] <==> AllWhitespace(s)
  {
    TrimContained(s);
    TrimEndsTrimmed(s);
    TrimEmptyIff(s);
    TrimEnd(TrimStart(s))
  }

  lemma TrimContained(s: string)
    ensures Contains(s, TrimEnd(TrimStart(s)))
  {
    var a := TrimStart(s);
    var r := TrimEnd(a);
    var k := |s| - |a|;
    TrimStartIsSuffix(s);
    TrimEndIsPrefix(a);
    assert s[k..k + |r|] == r;
    assert OccursAt(s, r, k);
  }

  lemma TrimEndsTrimmed(s: string)
    ensures IsTrimmed(TrimEnd(TrimStart(s)))
  {
    var a := TrimStart(s);
    var r := TrimEnd(a);
    TrimEndIsPrefix(a);
    if r != [] {
      assert r[0] == a[0];
    }
  }

  lemma TrimEmptyIff(s: string)
    ensures TrimEnd(TrimStart(s)) == [] <==> AllWhitespace(s)
  {
    var a := TrimStart(s);
    TrimStartIsSuffix(s);
    TrimEndIsPrefix(a);
    TrimBlank(s, a, TrimEnd(a), |s| - |a|);
  }

  lemma TrimBlank(s: string, a: string, r: string, k: int)
    requires 0 <= k <= |s| && s[k..] == a && AllWhitespace(s[..k])
    requires a == [] || !IsWhitespace(a[0])
    requires |r| <= |a| && r == a[..|r|] && AllWhitespace(a[|r|..])
    ensures r == [] <==> AllWhitespace(s)
  {
    if r == [] {
      assert a[|r|..] == a;
      assert a == [];
      assert s[..k] == s;
    }
    if a != [] {
      assert a[0] == s[k];
    }
  }

  /** Neither starts nor ends with whitespace. */
  predicate IsTrimmed(s: string) {
    s == [] || (!IsWhitespace(s[0]) && !IsWhitespace(s[|s| - 1]))
  }

  /** Trimming text that is already trimmed changes nothing. */
  lemma TrimOfTrimmed(s: string)
    requires IsTrimmed(s)
    ensures Trim(s) == s
  {
  }

  /** `trimStart` drops exactly a whitespace prefix that is followed by text not starting with whitespace. */
  lemma {:induction false} TrimStartOfPadded(a: string, x: string)
    requires AllWhitespace(a) && (x == [] || !IsWhitespace(x[0]))
    ensures TrimStart(a + x) == x
    decreases |a|
  {
    if a == [] {
      assert a + x == x;
    } else {
      assert (a + x)[0] == a[0] && (a + x)[1..] == a[1..] + x;
      TrimStartOfPadded(a[1..], x);
    }
  }

  /** `trimEnd` drops exactly a whitespace suffix that follows text not ending with whitespace. */
  lemma {:induction false} TrimEndOfPadded(x: string, b: string)
    requires AllWhitespace(b) && (x == [] || !IsWhitespace(x[|x| - 1]))
    ensures TrimEnd(x + b) == x
    decreases |b|
  {
    if b == [] {
      assert x + b == x;
    } else {
      assert (x + b)[|x + b| - 1] == b[|b| - 1];
      assert (x + b)[..|x + b| - 1] == x + b[..|b| - 1];
      TrimEndOfPadded(x, b[..|b| - 1]);
    }
  }

  /** `trim` of trimmed text padded with whitespace on both sides is that text. */
  lemma TrimOfPadded(a: string, t: string, b: string)
    requires AllWhitespace(a) && AllWhitespace(b) && IsTrimmed(t)
    ensures Trim(a + t + b) == t
  {
    if t == [] {
      assert a + t + b == a + b;
      assert AllWhitespace(a + b) by {
        forall i | 0 <= i < |a + b| ensures IsWhitespace((a + b)[i]) {
          if i >= |a| {
            assert (a + b)[i] == b[i - |a|];
          }
        }
      }
    } else {
      assert a + t + b == a + (t + b);
      assert (t + b)[0] == t[0];
      TrimStartOfPadded(a, t + b);
      TrimEndOfPadded(t, b);
    }
  }

  /** Text cut at `k`, and its tail cut again after `r`, is the three pieces joined. */
  lemma Recompose(s: string, k: nat, x: string, r: string)
    requires k <= |s| && x == s[k..] && |r| <= |x| && r == x[..|r|]
    ensures s == s[..k] + r + x[|r|..]
  {
    assert x == r + x[|r|..];
    assert s == s[..k] + x;
  }

  /** Every text is its `trim` padded with whitespace on both sides. */
  lemma TrimIsPadded(s: string)
    ensures exists a, b :: s == a + Trim(s) + b && AllWhitespace(a) && AllWhitespace(b)
  {
    var x := TrimStart(s);
    var r := TrimEnd(x);
    assert r == Trim(s);
    var k := |s| - |x|;
    TrimStartIsSuffix(s);
    TrimEndIsPrefix(x);
    Recompose(s, k, x, r);
    assert AllWhitespace(s[..k]) && AllWhitespace(x[|r|..]);
  }

  /** A leading space is removed by `trim`. */
  lemma TrimLeadingSpace(s: string)
    ensures Trim(" " + s) == Trim(s)
  {
    assert (" " + s)[1..] == s;
  }

  /** `parts.join(sep)` for a one-character separator. */
  function Join(parts: seq<string>, sep: char): string
    requires |parts| >= 1
  {
    if |parts| == 1 then parts[0] else parts[0] + [sep] + Join(parts[1..], sep)
  }

  /** `s.split(sep)` for a one-character separator: never empty, one more part than separators. */
  function Split(s: string, sep: char): (r: seq<string>)
    ensures |r| >= 1
    ensures forall i :: 0 <= i < |r| ==> sep !in r[i]
    ensures Join(r, sep) == s
    decreases |s|
  {
    if |s| == 0 then [""]
    else if s[0] == sep then [""] + Split(s[1..], sep)
    else
      var rest := Split(s[1..], sep);
      assert Join(rest, sep) == s[1..];
      assert |rest| > 1 ==> Join([[s[0]] + rest[0]] + rest[1..], sep) == [s[0]] + rest[0] + [sep] + Join(rest[1..], sep);
      [[s[0]] + rest[0]] + rest[1..]
  }

  /** Splitting a join gives back the parts when none of them holds the separator. */
  lemma {:induction false} SplitJoin(parts: seq<string>, sep: char)
    requires |parts| >= 1
    requires forall i :: 0 <= i < |parts| ==> sep !in parts[i]
    ensures Split(Join(parts, sep), sep) == parts
    decreases |parts|, |parts[0]|
  {
    if |parts[0]| == 0 {
      if |parts| > 1 {
        SplitJoin(parts[1..], sep);
        assert Join(parts, sep) == [sep] + Join(parts[1..], sep);
        assert (Join(parts, sep))[1..] == Join(parts[1..], sep);
      }
    } else {
      var tail := [parts[0][1..]] + parts[1..];
      assert tail[0] == parts[0][1..] && tail[1..] == parts[1..];
      assert sep !in parts[0][1..];
      SplitJoin(tail, sep);
      var s := Join(parts, sep);
      assert s == [parts[0][0]] + Join(tail, sep);
      assert s[0] == parts[0][0] && s[1..] == Join(tail, sep);
      assert s[0] != sep;
      assert [parts[0][0]] + parts[0][1..] == parts[0];
    }
  }

  /** `s.replace(from, to)` with a one-character pattern: only the first `from` is replaced. */
  function ReplaceFirst(s: string, from: char, to: char): (r: string)
    ensures |r| == |s|
    ensures forall i :: 0 <= i < |s| ==> r[i] == (if s[i] == from && from !in s[..i] then to else s[i])
    decreases |s|
  {
    if |s| == 0 then []
    else if s[0] == from then [to] + s[1..]
    else
      var rest := ReplaceFirst(s[1..], from, to);
      ReplaceFirstStep(s, from, to, rest);
      [s[0]] + rest
  }

  lemma ReplaceFirstStep(s: string, from: char, to: char, rest: string)
    requires |s| > 0 && s[0] != from && |rest| == |s| - 1
    requires forall i :: 0 <= i < |rest| ==>
      rest[i] == (if s[1..][i] == from && from !in s[1..][..i] then to else s[1..][i])
    ensures forall i :: 0 <= i < |s| ==> ([s[0]] + rest)[i] == (if s[i] == from && from !in s[..i] then to else s[i])
  {
    forall i | 1 <= i < |s|
      ensures ([s[0]] + rest)[i] == (if s[i] == from && from !in s[..i] then to else s[i])
    {
      assert s[..i] == [s[0]] + s[1..][..i - 1];
      assert ([s[0]] + rest)[i] == rest[i - 1] && s[1..][i - 1] == s[i];
    }
  }
}
