/**
 * The JavaScript string operations the editor relies on, stated over `seq<char>`:
 * whitespace as `String.prototype.trim` and `\s` see it, `trim`, `split` on one
 * character, `join`, `startsWith`, `includes`, a global literal `replace`, and the
 * decimal rendering of a non-negative integer in a template literal.
 */
module Text {

  /** ECMAScript WhiteSpace and LineTerminator code points: what `trim` removes and `\s` matches. */
  predicate IsJsWhitespace(c: char) {
    c == '\t' || c == '\n' || c == '\U{000B}' || c == '\U{000C}' || c == '\r' || c == ' ' ||
    c == '\U{00A0}' || c == '\U{1680}' || ('\U{2000}' <= c <= '\U{200A}') ||
    c == '\U{2028}' || c == '\U{2029}' || c == '\U{202F}' || c == '\U{205F}' ||
    c == '\U{3000}' || c == '\U{FEFF}'
  }

  /** `s || fallback`: JavaScript treats the empty string as absent. */
  function OrElse(s: string, fallback: string): (r: string)
    ensures s != "" ==> r == s
    ensures s == "" ==> r == fallback
  {
    if s != "" then s else fallback
  }

  /** True when every character is whitespace (JavaScript: `!s.trim()`). */
  predicate IsBlank(s: string) {
    forall i :: 0 <= i < |s| ==> IsJsWhitespace(s[i])
  }

  predicate StartsWith(s: string, prefix: string) {
    |prefix| <= |s| && s[..|prefix|] == prefix
  }

  /** `s.includes(p)`: p occurs at some position of s. */
  predicate Contains(s: string, p: string)
    decreases |s|
  {
    StartsWith(s, p) || (|s| > 0 && Contains(s[1..], p))
  }

  /** The number of whitespace characters `trimStart` removes from the front. */
  function LeadingSpace(s: string): (k: nat)
    ensures k <= |s| && (k == |s| || !IsJsWhitespace(s[k]))
    ensures forall n :: 0 <= n < k ==> IsJsWhitespace(s[n])
    decreases |s|
  {
    if s != [] && IsJsWhitespace(s[0]) then 1 + LeadingSpace(s[1..]) else 0
  }

  /** Where the whitespace that `trimEnd` removes from the back begins. */
  function TrailingSpace(s: string): (k: nat)
    ensures k <= |s| && (k == 0 || !IsJsWhitespace(s[k - 1]))
    ensures forall n :: k <= n < |s| ==> IsJsWhitespace(s[n])
    decreases |s|
  {
    if s != [] && IsJsWhitespace(s[|s| - 1]) then TrailingSpace(s[..|s| - 1]) else |s|
  }

  /** `s.trim()`: the text between the leading and the trailing whitespace. */
  function Trim(s: string): (r: string)
    ensures |r| <= |s|
    ensures r != [] ==> !IsJsWhitespace(r[0]) && !IsJsWhitespace(r[|r| - 1])
  {
    var t := s[LeadingSpace(s)..];
    t[..TrailingSpace(t)]
  }

  /** `trim` leaves no whitespace at either end, and removes only whitespace. */
  lemma TrimEnds(s: string)
    ensures var r := Trim(s); r == [] || (!IsJsWhitespace(r[0]) && !IsJsWhitespace(r[|r| - 1]))
    ensures exists i, j :: 0 <= i <= j <= |s| && Trim(s) == s[i..j] && IsBlank(s[..i]) && IsBlank(s[j..])
  {
    var i := LeadingSpace(s);
    var t := s[i..];
    var k := TrailingSpace(t);
    assert Trim(s) == s[i..i + k];
    assert IsBlank(s[..i]);
    var u := s[i + k..];
    forall n | 0 <= n < |u| ensures IsJsWhitespace(u[n]) {
      assert u[n] == t[k + n];
    }
  }

  /** A line is dropped by `filter(p => p.trim())` exactly when it is blank. */
  lemma TrimEmptyIffBlank(s: string)
    ensures Trim(s) == [] <==> IsBlank(s)
  {
    TrimEnds(s);
    var i, j :| 0 <= i <= j <= |s| && Trim(s) == s[i..j] && IsBlank(s[..i]) && IsBlank(s[j..]);
    if Trim(s) == [] {
      forall n | 0 <= n < |s| ensures IsJsWhitespace(s[n]) {
        if n < i { assert s[..i][n] == s[n]; } else { assert s[j..][n - j] == s[n]; }
      }
    } else {
      assert !IsJsWhitespace(s[i]);
    }
  }

  /** `s.split(sep)` for a one-character separator: n separators give n + 1 pieces. */
  function Split(s: string, sep: char): (r: seq<string>)
    ensures |r| >= 1
    ensures forall k :: 0 <= k < |r| ==> sep !in r[k]
    decreases |s|
  {
    if s == [] then [""]
    else if s[0] == sep then [""] + Split(s[1..], sep)
    else
      var rest := Split(s[1..], sep);
      [[s[0]] + rest[0]] + rest[1..]
  }

  /** `parts.join(sep)`. */
  function Join(parts: seq<string>, sep: string): string
    decreases |parts|
  {
    if parts == [] then ""
    else if |parts| == 1 then parts[0]
    else parts[0] + sep + Join(parts[1..], sep)
  }

  /** Splitting on a character and joining on it again gives back the original string. */
  lemma {:induction false} SplitJoin(s: string, sep: char)
    ensures Join(Split(s, sep), [sep]) == s
    decreases |s|
  {
    if s == [] {
    } else if s[0] == sep {
      SplitJoin(s[1..], sep);
      var rest := Split(s[1..], sep);
      assert Split(s, sep) == [""] + rest;
      assert ([""] + rest)[1..] == rest;
    } else {
      SplitJoin(s[1..], sep);
      var rest := Split(s[1..], sep);
      var r := Split(s, sep);
      assert r == [[s[0]] + rest[0]] + rest[1..];
      if |rest| == 1 {
        assert Join(r, [sep]) == [s[0]] + rest[0];
      } else {
        assert r[1..] == rest[1..];
        assert Join(rest, [sep]) == rest[0] + [sep] + Join(rest[1..], [sep]);
        assert Join(r, [sep]) == [s[0]] + rest[0] + [sep] + Join(rest[1..], [sep]);
      }
    }
  }

  /** A separator-free first line is the first piece, and the pieces of the rest follow. */
  lemma {:induction false} SplitLine(a: string, b: string, sep: char)
    requires sep !in a
    ensures Split(a + [sep] + b, sep) == [a] + Split(b, sep)
    decreases |a|
  {
    var s := a + [sep] + b;
    if a == [] {
      assert s[0] == sep && s[1..] == b;
    } else {
      assert s[0] == a[0] && s[1..] == a[1..] + [sep] + b;
      SplitLine(a[1..], b, sep);
      assert [a[0]] + a[1..] == a;
    }
  }

  /**
   * `s.replace(/pat/g, rep)` for a literal pattern: matches are found left to right
   * and never overlap; text a replacement produces is not searched again.
   */
  function ReplaceAll(s: string, pat: string, rep: string): string
    requires pat != []
    decreases |s|
  {
    if |s| < |pat| then s
    else if StartsWith(s, pat) then rep + ReplaceAll(s[|pat|..], pat, rep)
    else [s[0]] + ReplaceAll(s[1..], pat, rep)
  }

  const Fence: string := "```"

  /** Removing every "```" cannot leave a lone backtick at the front behind a non-backtick. */
  lemma {:induction false} RemoveFenceKeepsHead(s: string)
    requires s != [] && s[0] != '`'
    ensures var r := ReplaceAll(s, Fence, ""); r != [] && r[0] == s[0]
  {
  }

  /** After removing every "```", no "```" is left (new ones cannot form at the seams). */
  lemma {:induction false} RemoveFenceLeavesNone(s: string)
    ensures !Contains(ReplaceAll(s, Fence, ""), Fence)
    decreases |s|
  {
    var r := ReplaceAll(s, Fence, "");
    if |s| < 3 {
      assert r == s;
      ShortAbsence(s, Fence);
    } else if StartsWith(s, Fence) {
      RemoveFenceLeavesNone(s[3..]);
      assert r == ReplaceAll(s[3..], Fence, "");
    } else {
      var t := s[1..];
      var rt := ReplaceAll(t, Fence, "");
      RemoveFenceLeavesNone(t);
      assert r == [s[0]] + rt;
      assert r[1..] == rt;
      if s[0] == '`' {
        // s does not start with "```", so t does not start with "``"
        assert !(t[0] == '`' && t[1] == '`') by { assert s[..3] == [s[0], t[0], t[1]]; }
        if t[0] != '`' {
          RemoveFenceKeepsHead(t);
        } else {
          assert !StartsWith(t, Fence);
          var u := t[1..];
          RemoveFenceKeepsHead(u);
          assert rt == [t[0]] + ReplaceAll(u, Fence, "");
        }
        assert !StartsWith(r, Fence);
      }
    }
  }

  /** `trim` keeps a substring, so it cannot create an occurrence of a pattern. */
  lemma TrimPreservesAbsence(s: string, p: string)
    requires !Contains(s, p)
    ensures !Contains(Trim(s), p)
  {
    TrimEnds(s);
    var i, j :| 0 <= i <= j <= |s| && Trim(s) == s[i..j] && IsBlank(s[..i]) && IsBlank(s[j..]);
    SliceAbsence(s, p, i, j);
  }

  lemma SliceAbsence(s: string, p: string, i: nat, j: nat)
    requires i <= j <= |s| && !Contains(s, p)
    ensures !Contains(s[i..j], p)
  {
    SuffixAbsence(s, p, i);
    assert s[i..][..j - i] == s[i..j];
    PrefixAbsence(s[i..], p, j - i);
  }

  lemma {:induction false} SuffixAbsence(s: string, p: string, i: nat)
    requires i <= |s| && !Contains(s, p)
    ensures !Contains(s[i..], p)
    decreases i
  {
    if i > 0 {
      assert s[1..][i - 1..] == s[i..];
      SuffixAbsence(s[1..], p, i - 1);
    }
  }

  lemma {:induction false} PrefixAbsence(s: string, p: string, j: nat)
    requires j <= |s| && !Contains(s, p)
    ensures !Contains(s[..j], p)
    decreases j
  {
    var t := s[..j];
    if |p| <= j { assert s[..|p|] == t[..|p|]; }
    if j > 0 {
      assert t[1..] == s[1..][..j - 1];
      PrefixAbsence(s[1..], p, j - 1);
    }
  }

  /** A string shorter than the pattern cannot contain it. */
  lemma {:induction false} ShortAbsence(s: string, p: string)
    requires |s| < |p|
    ensures !Contains(s, p)
    decreases |s|
  {
    if |s| > 0 { ShortAbsence(s[1..], p); }
  }

  /** A string none of whose characters opens the pattern cannot contain it. */
  lemma {:induction false} AbsentFirstChar(s: string, p: string)
    requires p != [] && forall k :: 0 <= k < |s| ==> s[k] != p[0]
    ensures !Contains(s, p)
    decreases |s|
  {
    if |p| <= |s| {
      assert s[..|p|][0] == s[0];
    }
    if |s| > 0 {
      AbsentFirstChar(s[1..], p);
    }
  }

  function DigitChar(d: nat): (c: char)
    requires d < 10
    ensures '0' <= c <= '9'
  {
    "0123456789"[d]
  }

  /** `${n}` for a non-negative integer: its decimal digits, most significant first. */
  function NatToString(n: nat): (r: string)
    ensures r != []
    ensures forall k :: 0 <= k < |r| ==> '0' <= r[k] <= '9'
    decreases n
  {
    if n < 10 then [DigitChar(n)] else NatToString(n / 10) + [DigitChar(n % 10)]
  }

  /** The number a string of decimal digits denotes, most significant digit first. */
  function DigitsValue(s: string): nat
    decreases |s|
  {
    if s == [] then 0
    else
      var d := s[|s| - 1] as int - '0' as int;
      DigitsValue(s[..|s| - 1]) * 10 + (if 0 <= d < 10 then d else 0)
  }

  /** The digits `${n}` prints denote n. */
  lemma {:induction false} NatToStringValue(n: nat)
    ensures DigitsValue(NatToString(n)) == n
    decreases n
  {
    var r := NatToString(n);
    if n < 10 {
      assert r[..0] == [];
    } else {
      var p := NatToString(n / 10);
      assert r[..|r| - 1] == p && r[|r| - 1] == DigitChar(n % 10);
      NatToStringValue(n / 10);
    }
  }

  /** ASCII part of `toLowerCase`: 'A'..'Z' become 'a'..'z', every other character stays. */
  function ToLowerAscii(s: string): (r: string)
    ensures |r| == |s|
    ensures forall k :: 0 <= k < |s| ==> r[k] == if 'A' <= s[k] <= 'Z' then (s[k] as int + 32) as char else s[k]
    ensures forall k :: 0 <= k < |s| ==> (IsJsWhitespace(s[k]) <==> IsJsWhitespace(r[k]))
    ensures forall k :: 0 <= k < |s| ==> !('A' <= r[k] <= 'Z')
    decreases |s|
  {
    if s == [] then []
    else
      var c := s[0];
      var l := if 'A' <= c <= 'Z' then (c as int + 32) as char else c;
      [l] + ToLowerAscii(s[1..])
  }

  /** The strings `f` gives for the elements of xs, concatenated in order (an `html +=` loop). */
  function Concat<T>(f: T -> string, xs: seq<T>): string
    decreases |xs|
  {
    if xs == [] then "" else Concat(f, xs[..|xs| - 1]) + f(xs[|xs| - 1])
  }

  /** Concatenating over a split list is concatenating over each part. */
  lemma {:induction false} ConcatAppend<T>(f: T -> string, a: seq<T>, b: seq<T>)
    ensures Concat(f, a + b) == Concat(f, a) + Concat(f, b)
    decreases |b|
  {
    if b == [] {
      assert a + b == a;
    } else {
      var b' := b[..|b| - 1];
      assert (a + b)[..|a + b| - 1] == a + b';
      ConcatAppend(f, a, b');
    }
  }

  /** Appending in two steps is appending the two parts at once. */
  lemma AppendAssoc(a: string, b: string, c: string)
    ensures (a + b) + c == a + (b + c)
  {
  }
}
