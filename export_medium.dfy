/**
 * `generateMediumHtml`: the case study as one HTML string for pasting into Medium.
 * The functions give the expected output piece by piece; the methods at the end
 * build it the way the exporter does, appending to `html` in loops over the
 * metrics, the blocks and the lines of each text section, with an `inList` flag
 * that opens and closes bullet lists.
 */
module ExportToMedium {
  import opened Wrappers
  import opened Text
  import opened Blocks

  // ---------------------------------------------------------------- inline markdown

  /** An index at or after `from` holding `c`, or `|s|`; `IndexOfFirst` shows it is the first. */
  function IndexOf(s: string, c: char, from: nat): (k: nat)
    requires from <= |s|
    ensures from <= k <= |s| && (k < |s| ==> s[k] == c)
    decreases |s| - from
  {
    if from == |s| || s[from] == c then from else IndexOf(s, c, from + 1)
  }

  /**
   * No occurrence of `c` lies between `from` and the index found. (Kept out of
   * the function's own contract: that quantifier would be instantiated wherever
   * the markdown rules are unfolded.)
   */
  lemma {:induction false} IndexOfFirst(s: string, c: char, from: nat)
    requires from <= |s|
    ensures forall i :: from <= i < IndexOf(s, c, from) ==> s[i] != c
    decreases |s| - from
  {
    if from < |s| && s[from] != c {
      IndexOfFirst(s, c, from + 1);
    }
  }

  // The three global replacements applied to every line, in this order:
  //   links   \[([^\]]+)\]\(([^)]+)\)  ->  <a href="$2">$1</a>
  //   bold    \*\*([^*]+)\*\*        ->  <strong>$1</strong>
  //   italics \*([^*]+)\*            ->  <em>$1</em>
  datatype Rule = LinkRule | BoldRule | ItalicRule

  /** A match at the front of the text: captured groups and how many characters it spans. */
  datatype Span = Span(first: string, second: string, end: nat)

  function Trigger(rule: Rule): char {
    match rule
    case LinkRule => '['
    case BoldRule => '*'
    case ItalicRule => '*'
  }

  /**
   * Whether the rule's pattern matches at index 0. Each group is a maximal run of
   * characters other than its closing delimiter, so the match is unique: a group
   * ends at the first closing delimiter and must not be empty.
   */
  function MatchAt(rule: Rule, s: string): (r: Option<Span>)
    ensures r.Some? ==> 0 < r.value.end <= |s| && s[0] == Trigger(rule)
  {
    if s == [] || s[0] != Trigger(rule) then None
    else match rule
      case LinkRule =>
        var j := IndexOf(s, ']', 1);
        if j == 1 || j + 1 >= |s| || s[j + 1] != '(' then None
        else
          var m := IndexOf(s, ')', j + 2);
          if m == j + 2 || m == |s| then None else Some(Span(s[1..j], s[j + 2..m], m + 1))
      case BoldRule =>
        if |s| < 2 || s[1] != '*' then None
        else
          var j := IndexOf(s, '*', 2);
          if j == 2 || j + 1 >= |s| || s[j + 1] != '*' then None else Some(Span(s[2..j], "", j + 2))
      case ItalicRule =>
        var j := IndexOf(s, '*', 1);
        if j == 1 || j == |s| then None else Some(Span(s[1..j], "", j + 1))
  }

  function Replacement(rule: Rule, m: Span): string {
    match rule
    case LinkRule => "<a href=\"" + m.second + "\">" + m.first + "</a>"
    case BoldRule => "<strong>" + m.first + "</strong>"
    case ItalicRule => "<em>" + m.first + "</em>"
  }

  /**
   * `s.replace(pattern, template)` with the `g` flag: leftmost matches, never
   * overlapping. A position whose character cannot open the pattern is copied
   * without trying the match, which gives the same result since `MatchAt` fails there.
   */
  function ApplyRule(rule: Rule, s: string): string
    decreases |s|
  {
    if s == [] then []
    else if s[0] != Trigger(rule) then [s[0]] + ApplyRule(rule, s[1..])
    else match MatchAt(rule, s)
      case Some(m) => Replacement(rule, m) + ApplyRule(rule, s[m.end..])
      case None => [s[0]] + ApplyRule(rule, s[1..])
  }

  /** `IndexOf` lands on a known occurrence when nothing before it matches. */
  lemma IndexOfAt(s: string, c: char, from: nat, k: nat)
    requires from <= k < |s| && s[k] == c
    requires forall i :: from <= i < k ==> s[i] != c
    ensures IndexOf(s, c, from) == k
  {
    IndexOfFirst(s, c, from);
  }

  /** Text free of the rule's opening character passes through in front of the rest. */
  lemma {:induction false} RulePlainPrefix(rule: Rule, t: string, rest: string)
    requires Trigger(rule) !in t
    ensures ApplyRule(rule, t + rest) == t + ApplyRule(rule, rest)
  {
    var f := (x: string) => ApplyRule(rule, x);
    forall c: char, x: string | c != Trigger(rule) ensures f([c] + x) == [c] + f(x) {
      ConsStep(rule, c, x);
    }
    CopiesPrefix(f, Trigger(rule), t, rest);
  }

  /** A rule's single step: a character that cannot open a match is copied. */
  lemma ConsStep(rule: Rule, c: char, x: string)
    requires c != Trigger(rule)
    ensures ApplyRule(rule, [c] + x) == [c] + ApplyRule(rule, x)
  {
    assert ([c] + x)[1..] == x;
  }

  /**
   * Any left-to-right rewrite that copies each character other than `trigger`
   * copies a whole trigger-free prefix.
   */
  lemma {:induction false} CopiesPrefix(f: string -> string, trigger: char, t: string, rest: string)
    requires forall c: char, x: string :: c != trigger ==> f([c] + x) == [c] + f(x)
    requires trigger !in t
    ensures f(t + rest) == t + f(rest)
    decreases |t|
  {
    if t == [] {
      assert t + rest == rest;
    } else {
      var c, t' := t[0], t[1..];
      assert c in t && trigger !in t';
      assert t + rest == [c] + (t' + rest);
      CopiesPrefix(f, trigger, t', rest);
      assert [c] + (t' + f(rest)) == t + f(rest);
    }
  }

  /** `[t](u)` becomes `<a href="u">t</a>`, and the search goes on after the `)`. */
  lemma LinkReplaced(t: string, u: string, rest: string)
    requires t != [] && ']' !in t && u != [] && ')' !in u
    ensures ApplyRule(LinkRule, "[" + t + "](" + u + ")" + rest)
         == "<a href=\"" + u + "\">" + t + "</a>" + ApplyRule(LinkRule, rest)
  {
    var s := "[" + t + "](" + u + ")" + rest;
    var j := 1 + |t|;
    var m := j + 2 + |u|;
    forall i | 1 <= i < j ensures s[i] != ']' {
      assert s[i] == t[i - 1];
    }
    IndexOfAt(s, ']', 1, j);
    forall i | j + 2 <= i < m ensures s[i] != ')' {
      assert s[i] == u[i - j - 2];
    }
    IndexOfAt(s, ')', j + 2, m);
    assert s[1..j] == t && s[j + 2..m] == u && s[m + 1..] == rest;
    assert MatchAt(LinkRule, s) == Some(Span(t, u, m + 1));
  }

  /** `**t**` becomes `<strong>t</strong>`, and the search goes on after the closing pair. */
  lemma BoldReplaced(t: string, rest: string)
    requires t != [] && '*' !in t
    ensures ApplyRule(BoldRule, "**" + t + "**" + rest) == "<strong>" + t + "</strong>" + ApplyRule(BoldRule, rest)
  {
    var s := "**" + t + "**" + rest;
    var j := 2 + |t|;
    forall i | 2 <= i < j ensures s[i] != '*' {
      assert s[i] == t[i - 2];
    }
    IndexOfAt(s, '*', 2, j);
    assert s[2..j] == t && s[j + 2..] == rest;
    assert MatchAt(BoldRule, s) == Some(Span(t, "", j + 2));
  }

  /** `*t*` becomes `<em>t</em>`, and the search goes on after the closing star. */
  lemma ItalicReplaced(t: string, rest: string)
    requires t != [] && '*' !in t
    ensures ApplyRule(ItalicRule, "*" + t + "*" + rest) == "<em>" + t + "</em>" + ApplyRule(ItalicRule, rest)
  {
    var s := "*" + t + "*" + rest;
    var j := 1 + |t|;
    forall i | 1 <= i < j ensures s[i] != '*' {
      assert s[i] == t[i - 1];
    }
    IndexOfAt(s, '*', 1, j);
    assert s[1..j] == t && s[j + 1..] == rest;
    assert MatchAt(ItalicRule, s) == Some(Span(t, "", j + 1));
  }

  /** Links first, then bold, then italics. */
  function InlineMarkdown(s: string): string {
    ApplyRule(ItalicRule, ApplyRule(BoldRule, ApplyRule(LinkRule, s)))
  }

  /** Text without the rule's opening character comes through unchanged. */
  lemma {:induction false} RuleLeavesPlainText(rule: Rule, s: string)
    requires Trigger(rule) !in s
    ensures ApplyRule(rule, s) == s
    decreases |s|
  {
    if s != [] {
      assert Trigger(rule) !in s[1..];
      RuleLeavesPlainText(rule, s[1..]);
    }
  }

  /** A line without '[' or '*' is emitted as it is. */
  lemma PlainLineUnchanged(s: string)
    requires '[' !in s && '*' !in s
    ensures InlineMarkdown(s) == s
  {
    RuleLeavesPlainText(LinkRule, s);
    RuleLeavesPlainText(BoldRule, s);
    RuleLeavesPlainText(ItalicRule, s);
  }

  /** A rewritten line begins with its own first character or with the '<' of a tag. */
  lemma RuleHead(rule: Rule, s: string)
    requires s != []
    ensures var r := ApplyRule(rule, s); r != [] && (r[0] == s[0] || r[0] == '<')
    ensures s[0] != Trigger(rule) ==> ApplyRule(rule, s) == [s[0]] + ApplyRule(rule, s[1..])
  {
  }

  lemma MarkdownHead(s: string)
    requires s != []
    ensures var r := InlineMarkdown(s); r != [] && (r[0] == s[0] || r[0] == '<')
    ensures s[0] != '[' && s[0] != '*' ==> InlineMarkdown(s) == [s[0]] + InlineMarkdown(s[1..])
  {
    var a := ApplyRule(LinkRule, s);
    RuleHead(LinkRule, s);
    var b := ApplyRule(BoldRule, a);
    RuleHead(BoldRule, a);
    RuleHead(ItalicRule, b);
    if s[0] != '[' && s[0] != '*' {
      assert a == [s[0]] + ApplyRule(LinkRule, s[1..]);
      assert a[1..] == ApplyRule(LinkRule, s[1..]);
      assert b == [s[0]] + ApplyRule(BoldRule, ApplyRule(LinkRule, s[1..]));
      assert b[1..] == ApplyRule(BoldRule, ApplyRule(LinkRule, s[1..]));
    }
  }

  /** A character that opens no pattern passes through in front of the rest. */
  lemma MarkdownCons(c: char, t: string)
    requires c != '[' && c != '*'
    ensures InlineMarkdown([c] + t) == [c] + InlineMarkdown(t)
  {
    MarkdownHead([c] + t);
    assert ([c] + t)[1..] == t;
  }

  /**
   * Over the whole pass, a link at the front of a line becomes an anchor and the
   * rest of the line is rewritten on its own; the later passes leave the anchor
   * alone because its text and url hold no '*'.
   */
  lemma InlineLink(t: string, u: string, rest: string)
    requires t != [] && ']' !in t && '*' !in t
    requires u != [] && ')' !in u && '*' !in u
    ensures InlineMarkdown("[" + t + "](" + u + ")" + rest)
         == "<a href=\"" + u + "\">" + t + "</a>" + InlineMarkdown(rest)
  {
    var a := "<a href=\"" + u + "\">" + t + "</a>";
    LinkReplaced(t, u, rest);
    var l := ApplyRule(LinkRule, rest);
    assert '*' !in a;
    RulePlainPrefix(BoldRule, a, l);
    RulePlainPrefix(ItalicRule, a, ApplyRule(BoldRule, l));
  }

  /** Bold text at the front of a line becomes a strong element, whatever follows. */
  lemma InlineBold(t: string, rest: string)
    requires t != [] && '*' !in t && '[' !in t
    ensures InlineMarkdown("**" + t + "**" + rest) == "<strong>" + t + "</strong>" + InlineMarkdown(rest)
  {
    var p := "**" + t + "**";
    assert '[' !in p;
    RulePlainPrefix(LinkRule, p, rest);
    var l := ApplyRule(LinkRule, rest);
    assert p + l == "**" + t + "**" + l;
    BoldReplaced(t, l);
    var st := "<strong>" + t + "</strong>";
    assert '*' !in st;
    RulePlainPrefix(ItalicRule, st, ApplyRule(BoldRule, l));
  }

  /**
   * Italic text at the front of a line becomes an emphasis element when what
   * follows does not begin with another '*' (that would make the bold pass match
   * the closing star first).
   */
  lemma InlineItalic(t: string, rest: string)
    requires t != [] && '*' !in t && '[' !in t
    requires rest == [] || rest[0] != '*'
    ensures InlineMarkdown("*" + t + "*" + rest) == "<em>" + t + "</em>" + InlineMarkdown(rest)
  {
    var p := "*" + t + "*";
    assert '[' !in p;
    RulePlainPrefix(LinkRule, p, rest);
    var l := ApplyRule(LinkRule, rest);
    if rest != [] {
      RuleHead(LinkRule, rest);
    }
    var b := ApplyRule(BoldRule, l);
    StarWrap(t, l);
    BoldSkipsSingleStar(t, l);
    StarWrap(t, b);
    ItalicReplaced(t, b);
  }

  lemma StarWrap(t: string, x: string)
    ensures "*" + t + "*" + x == ['*'] + (t + (['*'] + x))
  {
  }

  /** A single '*' not followed by another opens no bold match. */
  lemma LoneStarStep(s: string)
    requires s != [] && s[0] == '*' && (|s| == 1 || s[1] != '*')
    ensures ApplyRule(BoldRule, s) == [s[0]] + ApplyRule(BoldRule, s[1..])
  {
    assert MatchAt(BoldRule, s) == None;
  }

  /** The bold pass leaves `*t*` alone when the text after it does not start with '*'. */
  lemma BoldSkipsSingleStar(t: string, l: string)
    requires t != [] && '*' !in t
    requires l == [] || l[0] != '*'
    ensures ApplyRule(BoldRule, ['*'] + (t + (['*'] + l))) == ['*'] + (t + (['*'] + ApplyRule(BoldRule, l)))
  {
    var q := ['*'] + l;
    var s := ['*'] + (t + q);
    LoneStarStep(q);
    assert q[1..] == l;
    RulePlainPrefix(BoldRule, t, q);
    assert s[1] == t[0];
    LoneStarStep(s);
    assert s[1..] == t + q;
  }

  /** A raw line starting with "- " keeps the marker, and the item text is the markdown of the rest. */
  lemma ListMarkerKept(s: string)
    requires StartsWith(s, "- ")
    ensures InlineMarkdown(s) == "- " + InlineMarkdown(s[2..])
  {
    var t := s[2..];
    assert s == ['-'] + ([' '] + t);
    MarkdownCons(' ', t);
    MarkdownCons('-', [' '] + t);
  }

  /** A raw line not starting with "- " does not start with it after the rewrite either. */
  lemma ListMarkerNotCreated(s: string)
    requires !StartsWith(s, "- ")
    ensures !StartsWith(InlineMarkdown(s), "- ")
  {
    if s != [] {
      MarkdownHead(s);
      if s[0] == '-' && |s| > 1 {
        MarkdownHead(s[1..]);
        assert InlineMarkdown(s)[1] == InlineMarkdown(s[1..])[0];
      } else if s[0] == '-' {
        assert s[1..] == [];
        assert InlineMarkdown(s) == "-" + InlineMarkdown([]);
      }
    }
  }

  /**
   * The transformed line starts with "- " exactly when the raw line does, and then
   * the list item's text is the markdown of the rest of the raw line.
   */
  lemma ListMarkerOnRawLine(s: string)
    ensures StartsWith(InlineMarkdown(s), "- ") <==> StartsWith(s, "- ")
    ensures StartsWith(s, "- ") ==> InlineMarkdown(s)[2..] == InlineMarkdown(s[2..])
  {
    if StartsWith(s, "- ") {
      ListMarkerKept(s);
    } else {
      ListMarkerNotCreated(s);
    }
  }

  // ---------------------------------------------------------------- lines and lists

  /** `filter(p => p.trim())` over the lines of the copy. */
  function KeepNonBlank(lines: seq<string>): (r: seq<string>)
    ensures |r| <= |lines|
    ensures forall k :: 0 <= k < |r| ==> !IsBlank(r[k]) && r[k] in lines
    ensures forall l :: l in lines && !IsBlank(l) ==> l in r
    decreases |lines|
  {
    if lines == [] then []
    else (if IsBlank(lines[0]) then [] else [lines[0]]) + KeepNonBlank(lines[1..])
  }

  /**
   * The filter keeps the order and repetitions of the lines: it works segment by
   * segment, and a single line is kept exactly when it is not blank.
   */
  lemma {:induction false} KeepNonBlankAppend(a: seq<string>, b: seq<string>)
    ensures KeepNonBlank(a + b) == KeepNonBlank(a) + KeepNonBlank(b)
    decreases |a|
  {
    if a == [] {
      assert a + b == b;
    } else {
      assert (a + b)[0] == a[0] && (a + b)[1..] == a[1..] + b;
      KeepNonBlankAppend(a[1..], b);
    }
  }

  lemma KeepNonBlankSingle(line: string)
    ensures KeepNonBlank([line]) == if IsBlank(line) then [] else [line]
  {
    assert [line][1..] == [];
  }

  /** `displayCopy.split('\n').filter(p => p.trim())`. */
  function CopyLines(copy: string): seq<string> {
    KeepNonBlank(Split(copy, '\n'))
  }

  /**
   * The kept lines are the pieces between newlines that are not blank: each kept
   * line is such a piece, and each such piece is kept.
   */
  lemma CopyLinesShape(copy: string)
    ensures var r := CopyLines(copy);
      (forall k :: 0 <= k < |r| ==> !IsBlank(r[k]) && r[k] in Split(copy, '\n') && '\n' !in r[k]) &&
      (forall l :: l in Split(copy, '\n') && !IsBlank(l) ==> l in r)
  {
    var r := CopyLines(copy);
    forall k | 0 <= k < |r| ensures '\n' !in r[k] {
      var parts := Split(copy, '\n');
      var j :| 0 <= j < |parts| && parts[j] == r[k];
    }
  }

  /**
   * The paragraphs come in the order of the copy: the first line, when it is not
   * blank, is the first paragraph, and the paragraphs of the remaining lines follow.
   */
  lemma CopyLinesFirstLine(a: string, b: string)
    requires '\n' !in a
    ensures CopyLines(a + "\n" + b) == (if IsBlank(a) then [] else [a]) + CopyLines(b)
  {
    SplitLine(a, b, '\n');
    KeepNonBlankAppend([a], Split(b, '\n'));
    KeepNonBlankSingle(a);
  }

  /** Copy that is not all whitespace leaves at least one line. */
  lemma CopyLinesNonEmpty(copy: string)
    requires !IsBlank(copy)
    ensures CopyLines(copy) != []
  {
    var parts := Split(copy, '\n');
    SplitJoin(copy, '\n');
    if forall k :: 0 <= k < |parts| ==> IsBlank(parts[k]) {
      JoinOfBlank(parts, "\n");
      assert false;
    }
    var k :| 0 <= k < |parts| && !IsBlank(parts[k]);
    assert parts[k] in parts;
  }

  lemma {:induction false} JoinOfBlank(parts: seq<string>, sep: string)
    requires IsBlank(sep) && forall k :: 0 <= k < |parts| ==> IsBlank(parts[k])
    ensures IsBlank(Join(parts, sep))
    decreases |parts|
  {
    if |parts| > 1 {
      JoinOfBlank(parts[1..], sep);
      var j := Join(parts[1..], sep);
      var r := parts[0] + sep + j;
      forall i | 0 <= i < |r| ensures IsJsWhitespace(r[i]) {
        if i < |parts[0]| {
          assert r[i] == parts[0][i];
        } else if i < |parts[0]| + |sep| {
          assert r[i] == sep[i - |parts[0]|];
        } else {
          assert r[i] == j[i - |parts[0]| - |sep|];
        }
      }
    }
  }

  /** What the line loop appends, one piece at a time. */
  datatype Piece = OpenList | Item(text: string) | Para(text: string) | CloseList

  function PieceHtml(p: Piece): string {
    match p
    case OpenList => "<ul>"
    case Item(t) => "<li>" + t + "</li>"
    case Para(t) => "<p>" + t + "</p>"
    case CloseList => "</ul>"
  }

  function Render(ps: seq<Piece>): string {
    Concat(PieceHtml, ps)
  }

  /** Each kept line after the three replacements. */
  function Transformed(lines: seq<string>): (r: seq<string>)
    ensures |r| == |lines| && forall k :: 0 <= k < |lines| ==> r[k] == InlineMarkdown(lines[k])
  {
    seq(|lines|, k requires 0 <= k < |lines| => InlineMarkdown(lines[k]))
  }

  /** One transformed line's item or paragraph. */
  function LinePiece(parsed: string): Piece {
    if StartsWith(parsed, "- ") then Item(parsed[2..]) else Para(parsed)
  }

  /** The line loop as a state machine on `inList`, including the final close. */
  function LinePieces(lines: seq<string>, inList: bool): seq<Piece>
    decreases |lines|
  {
    if lines == [] then (if inList then [CloseList] else [])
    else
      var pc := LinePiece(lines[0]);
      if pc.Item? then (if inList then [] else [OpenList]) + [pc] + LinePieces(lines[1..], true)
      else (if inList then [CloseList] else []) + [pc] + LinePieces(lines[1..], false)
  }

  /** The marker and the item text follow from the raw line. */
  lemma LinePieceOfRawLine(line: string)
    ensures StartsWith(line, "- ") ==> LinePiece(InlineMarkdown(line)) == Item(InlineMarkdown(line[2..]))
    ensures !StartsWith(line, "- ") ==> LinePiece(InlineMarkdown(line)) == Para(InlineMarkdown(line))
  {
    ListMarkerOnRawLine(line);
  }

  /**
   * Lists are well formed: an item only inside a list, a paragraph only outside one,
   * no nesting, every list closed, an opened list begins with an item and a closed
   * list is followed by a paragraph or by the end.
   */
  predicate WellFormed(ps: seq<Piece>, open: bool)
    decreases |ps|
  {
    if ps == [] then !open
    else
      match ps[0]
      case OpenList => !open && |ps| > 1 && ps[1].Item? && WellFormed(ps[1..], true)
      case Item(_) => open && WellFormed(ps[1..], true)
      case Para(_) => !open && WellFormed(ps[1..], false)
      case CloseList => open && (|ps| == 1 || ps[1].Para?) && WellFormed(ps[1..], false)
  }

  lemma {:induction false} LinePiecesWellFormed(lines: seq<string>, inList: bool)
    ensures WellFormed(LinePieces(lines, inList), inList)
    decreases |lines|
  {
    if lines != [] {
      var pc := LinePiece(lines[0]);
      var rest := LinePieces(lines[1..], pc.Item?);
      LinePiecesWellFormed(lines[1..], pc.Item?);
      var ps := LinePieces(lines, inList);
      if pc.Item? {
        if inList {
          assert ps == [pc] + rest && ps[1..] == rest;
        } else {
          assert ps == [OpenList, pc] + rest && ps[1..] == [pc] + rest && ps[1..][1..] == rest;
        }
      } else {
        if inList {
          assert ps == [CloseList, pc] + rest && ps[1..] == [pc] + rest && ps[1..][1..] == rest;
        } else {
          assert ps == [pc] + rest && ps[1..] == rest;
        }
      }
    }
  }

  /** The items and paragraphs alone, without the list brackets. */
  function Payloads(ps: seq<Piece>): (r: seq<Piece>)
    decreases |ps|
  {
    if ps == [] then []
    else (if ps[0].Item? || ps[0].Para? then [ps[0]] else []) + Payloads(ps[1..])
  }

  /** Every kept line yields exactly one item or paragraph, in line order. */
  lemma {:induction false} OnePiecePerLine(lines: seq<string>, inList: bool)
    ensures var r := Payloads(LinePieces(lines, inList));
      |r| == |lines| && forall k :: 0 <= k < |lines| ==> r[k] == LinePiece(lines[k])
    decreases |lines|
  {
    if lines != [] {
      var next := LinePiece(lines[0]).Item?;
      var rest := LinePieces(lines[1..], next);
      LinePiecesStep(lines, 0, inList);
      assert lines[0..] == lines;
      PayloadsAppend(StepPieces(lines[0], inList), rest);
      assert Payloads(StepPieces(lines[0], inList)) == [LinePiece(lines[0])];
      OnePiecePerLine(lines[1..], next);
      var r := Payloads(LinePieces(lines, inList));
      assert r == [LinePiece(lines[0])] + Payloads(rest);
      forall k | 0 <= k < |lines| ensures r[k] == LinePiece(lines[k]) {
        if k > 0 { assert lines[1..][k - 1] == lines[k]; }
      }
    }
  }

  lemma {:induction false} PayloadsAppend(a: seq<Piece>, b: seq<Piece>)
    ensures Payloads(a + b) == Payloads(a) + Payloads(b)
    decreases |a|
  {
    if a == [] {
      assert a + b == b;
    } else {
      var head := if a[0].Item? || a[0].Para? then [a[0]] else [];
      assert (a + b)[0] == a[0] && (a + b)[1..] == a[1..] + b;
      assert Payloads(a + b) == head + Payloads(a[1..] + b);
      PayloadsAppend(a[1..], b);
    }
  }

  /** At least one line gives non-empty markup. */
  lemma LinePiecesRenderNonEmpty(lines: seq<string>, inList: bool)
    requires lines != []
    ensures Render(LinePieces(lines, inList)) != ""
  {
    var ps := LinePieces(lines, inList);
    OnePiecePerLine(lines, inList);
    var k := PayloadIndex(ps);
    ConcatAppend(PieceHtml, ps[..k + 1], ps[k + 1..]);
    assert ps[..k + 1] + ps[k + 1..] == ps;
    assert ps[..k + 1][..k] == ps[..k];
  }

  /** Where the first item or paragraph sits in a piece list that has one. */
  lemma {:induction false} PayloadIndex(ps: seq<Piece>) returns (k: nat)
    requires Payloads(ps) != []
    ensures k < |ps| && (ps[k].Item? || ps[k].Para?)
    decreases |ps|
  {
    if ps[0].Item? || ps[0].Para? {
      k := 0;
    } else {
      assert Payloads(ps) == Payloads(ps[1..]);
      var j := PayloadIndex(ps[1..]);
      k := j + 1;
    }
  }

  // ---------------------------------------------------------------- sections

  const Bullet: string := " \U{2022} "

  /** `[role, timeline].filter(Boolean)`. */
  function NonEmptyStrings(ss: seq<string>): (r: seq<string>)
    ensures forall k :: 0 <= k < |r| ==> r[k] != "" && r[k] in ss
    decreases |ss|
  {
    if ss == [] then []
    else (if ss[0] != "" then [ss[0]] else []) + NonEmptyStrings(ss[1..])
  }

  function Meta(pd: ProjectData): string {
    Join(NonEmptyStrings([pd.role, pd.timeline]), Bullet)
  }

  /** The meta line is whichever of role and timeline is set, both joined by " • " when both are. */
  lemma MetaCases(pd: ProjectData)
    ensures pd.role != "" && pd.timeline != "" ==> Meta(pd) == pd.role + Bullet + pd.timeline
    ensures pd.role == "" ==> Meta(pd) == pd.timeline
    ensures pd.timeline == "" ==> Meta(pd) == pd.role
  {
    var ss := [pd.role, pd.timeline];
    assert ss[1..] == [pd.timeline] && ss[1..][1..] == [];
    var tail := if pd.timeline != "" then [pd.timeline] else [];
    assert NonEmptyStrings([pd.timeline]) == tail;
    var all := (if pd.role != "" then [pd.role] else []) + tail;
    assert NonEmptyStrings(ss) == all;
    if pd.role != "" && pd.timeline != "" {
      assert all == [pd.role, pd.timeline] && all[1..] == [pd.timeline];
      assert Join([pd.timeline], Bullet) == pd.timeline;
      assert Join(all, Bullet) == pd.role + Bullet + Join([pd.timeline], Bullet);
    } else if pd.role != "" {
      assert all == [pd.role];
    } else if pd.timeline != "" {
      assert all == [pd.timeline];
    } else {
      assert all == [];
    }
  }

  function TitleHtml(pd: ProjectData): string {
    "<h1>" + OrElse(pd.name, "Untitled Project") + "</h1>"
  }

  function MetaHtml(pd: ProjectData): string {
    if pd.role != "" || pd.timeline != "" then "<h2>" + Meta(pd) + "</h2>" else ""
  }

  /** One `<li>` per metric; the export's fallback for a missing field is the empty string. */
  function MetricItem(m: Metric): string {
    "<li><strong>" + m.value + "</strong> " + m.labelText + "</li>"
  }

  const MetricsOpen: string := "<h3>Key Outcomes</h3><ul>"
  const MetricsClose: string := "</ul><br/>"

  function MetricsHtml(valid: seq<Metric>): string {
    if |valid| > 0 then MetricsOpen + Concat(MetricItem, valid) + MetricsClose else ""
  }

  function ImageTag(src: string): string {
    "<img src=\"" + src + "\" />"
  }

  function ImagesHtml(images: Option<seq<string>>): string {
    if images.Some? && |images.value| > 0 then Concat(ImageTag, images.value) + "<br/>" else ""
  }

  function LinkHtml(url: string, labelText: string): string {
    if url == "" then ""
    else
      "<p style=\"text-align: center;\"><a href=\"" + url + "\"><strong>" + OrElse(labelText, "View Link") +
      "</strong></a></p>"
  }

  /** The frame template around an embed's address, indentation included. */
  const EmbedOpen: string :=
    "<div style=\"margin-top: 1rem; border: 1px solid var(--color-border); border-radius: 8px; " +
    "overflow: hidden; height: 600px; max-height: 80vh;\">\n                <iframe src=\""
  const EmbedClose: string :=
    "\" style=\"width: 100%; height: 100%; border: none;\" allowfullscreen></iframe>\n            </div><br/>"

  function EmbedHtml(url: string): string {
    if url == "" then "" else EmbedOpen + url + EmbedClose
  }

  function HeadingHtml(heading: string): string {
    if heading != "" then "<h3>" + heading + "</h3>" else ""
  }

  function CopyHtml(copy: string): string {
    if copy != "" then Render(LinePieces(Transformed(CopyLines(copy)), false)) else ""
  }

  function TextHtml(heading: string, copy: string): string {
    if heading == "" && copy == "" then "" else HeadingHtml(heading) + CopyHtml(copy)
  }

  /** What one block appends. */
  function BlockHtml(b: Block): string {
    match b
    case Text(_, heading, _, _) => TextHtml(heading, DisplayCopy(b))
    case Image(_, images, _) => ImagesHtml(images)
    case Link(_, labelText, url) => LinkHtml(url, labelText)
    case Embed(_, url) => EmbedHtml(url)
    case Other(_) => ""
  }

  /** The whole export: title, meta line, key outcomes, then the blocks in list order. */
  function MediumHtml(pd: ProjectData, bs: seq<Block>, ms: seq<Metric>): string {
    TitleHtml(pd) + MetaHtml(pd) + MetricsHtml(ValidMetrics(ms)) + Concat(BlockHtml, bs)
  }

  // ---------------------------------------------------------------- properties

  /** The export always opens with the title heading. */
  lemma StartsWithTitle(pd: ProjectData, bs: seq<Block>, ms: seq<Metric>)
    ensures StartsWith(MediumHtml(pd, bs, ms), "<h1>" + OrElse(pd.name, "Untitled Project") + "</h1>")
  {
    var t := TitleHtml(pd);
    var a := t + MetaHtml(pd);
    var b := a + MetricsHtml(ValidMetrics(ms));
    PrefixOfAppend(t, MetaHtml(pd));
    PrefixOfAppend(a, MetricsHtml(ValidMetrics(ms)));
    PrefixOfAppend(b, Concat(BlockHtml, bs));
  }

  lemma PrefixOfAppend(a: string, b: string)
    ensures (a + b)[..|a|] == a
  {
  }

  /**
   * The `<h2>` appears exactly when role or timeline is set, and holds the one
   * that is set, or both joined by " • ".
   */
  lemma MetaLine(pd: ProjectData)
    ensures MetaHtml(pd) != "" <==> pd.role != "" || pd.timeline != ""
    ensures pd.role != "" && pd.timeline != "" ==> MetaHtml(pd) == "<h2>" + pd.role + Bullet + pd.timeline + "</h2>"
    ensures pd.role == "" && pd.timeline != "" ==> MetaHtml(pd) == "<h2>" + pd.timeline + "</h2>"
    ensures pd.role != "" && pd.timeline == "" ==> MetaHtml(pd) == "<h2>" + pd.role + "</h2>"
  {
    MetaCases(pd);
  }

  /** The key-outcomes section appears exactly when some metric has a value or a label. */
  lemma MetricsSectionIff(ms: seq<Metric>)
    ensures MetricsHtml(ValidMetrics(ms)) != "" <==> exists k :: 0 <= k < |ms| && IsValidMetric(ms[k])
  {
    ValidMetricsEmptyIff(ms);
  }

  /**
   * A block emits something exactly when it passes its guard, except for a text
   * block with no heading whose copy is only whitespace: its lines are all dropped.
   */
  lemma BlockHtmlNonEmptyIff(b: Block)
    ensures BlockHtml(b) != "" <==> Shown(b) && !(b.Text? && b.heading == "" && IsBlank(DisplayCopy(b)))
  {
    match b
    case Text(_, heading, _, _) => TextHtmlNonEmptyIff(heading, DisplayCopy(b));
    case Image(_, images, _) =>
    case Link(_, _, url) =>
    case Embed(_, url) =>
    case Other(_) =>
  }

  lemma TextHtmlNonEmptyIff(heading: string, copy: string)
    ensures TextHtml(heading, copy) != "" <==> (heading != "" || copy != "") && !(heading == "" && IsBlank(copy))
  {
    if copy != "" && !IsBlank(copy) {
      CopyLinesNonEmpty(copy);
      LinePiecesRenderNonEmpty(Transformed(CopyLines(copy)), false);
      assert CopyHtml(copy) != "";
    }
    if IsBlank(copy) && copy != "" {
      BlankCopyHasNoLines(copy);
      assert Transformed(CopyLines(copy)) == [];
      assert CopyHtml(copy) == "";
    }
  }

  /** Copy made only of whitespace keeps no line at all. */
  lemma BlankCopyHasNoLines(copy: string)
    requires IsBlank(copy)
    ensures CopyLines(copy) == []
  {
    var ls := CopyLines(copy);
    if ls != [] {
      var parts := Split(copy, '\n');
      assert ls[0] in parts;
      var k :| 0 <= k < |parts| && parts[k] == ls[0];
      SplitPieceIsBlank(copy, k);
    }
  }

  /** A piece of a split of blank text is blank. */
  lemma SplitPieceIsBlank(s: string, k: nat)
    requires IsBlank(s) && k < |Split(s, '\n')|
    ensures IsBlank(Split(s, '\n')[k])
  {
    var piece := Split(s, '\n')[k];
    SplitPieces(s, '\n', k);
    forall i | 0 <= i < |piece| ensures IsJsWhitespace(piece[i]) {
      assert piece[i] in s;
      var j :| 0 <= j < |s| && s[j] == piece[i];
    }
  }

  /** Every character of a split piece comes from the original string. */
  lemma {:induction false} SplitPieces(s: string, sep: char, k: nat)
    requires k < |Split(s, sep)|
    ensures forall c :: c in Split(s, sep)[k] ==> c in s
    decreases |s|
  {
    if s != [] {
      if s[0] == sep {
        if k > 0 { SplitPieces(s[1..], sep, k - 1); }
      } else {
        SplitPieces(s[1..], sep, k);
      }
    }
  }

  // ---------------------------------------------------------------- the exporter

  /** One step of the line loop: the bracket it may emit, then the line's own piece. */
  function StepPieces(line: string, inList: bool): seq<Piece> {
    var pc := LinePiece(line);
    if pc.Item? then (if inList then [] else [OpenList]) + [pc]
    else (if inList then [CloseList] else []) + [pc]
  }

  lemma LinePiecesStep(lines: seq<string>, i: nat, inList: bool)
    requires i < |lines|
    ensures LinePieces(lines[i..], inList) ==
      StepPieces(lines[i], inList) + LinePieces(lines[i + 1..], LinePiece(lines[i]).Item?)
  {
    assert lines[i..][0] == lines[i] && lines[i..][1..] == lines[i + 1..];
  }

  lemma PiecesAssoc(a: seq<Piece>, b: seq<Piece>, c: seq<Piece>)
    ensures (a + b) + c == a + (b + c)
  {
  }

  lemma RenderSnoc(ps: seq<Piece>, p: Piece)
    ensures Render(ps + [p]) == Render(ps) + PieceHtml(p)
  {
    assert (ps + [p])[..|ps|] == ps;
  }

  /** The line loop of one text section. */
  method AppendCopy(html: string, lines: seq<string>) returns (out: string)
    ensures out == html + Render(LinePieces(Transformed(lines), false))
  {
    out := html;
    var inList := false;
    ghost var parsedLines := Transformed(lines);
    ghost var done: seq<Piece> := [];
    var i := 0;
    while i < |lines|
      invariant 0 <= i <= |lines|
      invariant done + LinePieces(parsedLines[i..], inList) == LinePieces(parsedLines, false)
      invariant out == html + Render(done)
    {
      LinePiecesStep(parsedLines, i, inList);
      ghost var d0, in0 := done, inList;
      var parsed := InlineMarkdown(lines[i]);
      assert parsed == parsedLines[i];
      out, done, inList := AppendLine(html, out, done, parsed, inList);
      PiecesAssoc(d0, StepPieces(parsed, in0), LinePieces(parsedLines[i + 1..], inList));
      i := i + 1;
    }
    if inList {
      out, done := AppendPiece(html, out, done, CloseList);
    }
    assert done == LinePieces(parsedLines, false);
  }

  /** One pass of the line loop: close or open the list as the line requires, then the line. */
  method AppendLine(html: string, out: string, ghost done: seq<Piece>, parsed: string, inList: bool)
    returns (out': string, ghost done': seq<Piece>, inList': bool)
    requires out == html + Render(done)
    ensures done' == done + StepPieces(parsed, inList) && out' == html + Render(done')
    ensures inList' == LinePiece(parsed).Item?
  {
    out', done', inList' := out, done, inList;
    if StartsWith(parsed, "- ") {
      if !inList' {
        out', done' := AppendPiece(html, out', done', OpenList);
        inList' := true;
      }
      out', done' := AppendPiece(html, out', done', Item(parsed[2..]));
    } else {
      if inList' {
        out', done' := AppendPiece(html, out', done', CloseList);
        inList' := false;
      }
      out', done' := AppendPiece(html, out', done', Para(parsed));
    }
  }

  /** `html += ...` for one piece, keeping the rendered trace in step. */
  method AppendPiece(html: string, out: string, ghost done: seq<Piece>, p: Piece)
    returns (out': string, ghost done': seq<Piece>)
    requires out == html + Render(done)
    ensures out' == out + PieceHtml(p)
    ensures done' == done + [p] && out' == html + Render(done')
  {
    match p {
      case OpenList => out' := out + "<ul>";
      case Item(t) => out' := out + ("<li>" + t + "</li>");
      case Para(t) => out' := out + ("<p>" + t + "</p>");
      case CloseList => out' := out + "</ul>";
    }
    done' := done + [p];
    RenderSnoc(done, p);
    AppendAssoc(html, Render(done), PieceHtml(p));
  }

  /** The image loop: one tag per image, then a break. */
  method AppendImages(html: string, images: seq<string>) returns (out: string)
    requires |images| > 0
    ensures out == html + (Concat(ImageTag, images) + "<br/>")
  {
    out := html;
    var i := 0;
    while i < |images|
      invariant 0 <= i <= |images|
      invariant out == html + Concat(ImageTag, images[..i])
    {
      assert images[..i + 1][..i] == images[..i];
      AppendAssoc(html, Concat(ImageTag, images[..i]), ImageTag(images[i]));
      out := out + ("<img src=\"" + images[i] + "\" />");
      i := i + 1;
    }
    assert images[..|images|] == images;
    AppendAssoc(html, Concat(ImageTag, images), "<br/>");
    out := out + "<br/>";
  }

  /** A text section: nothing unless heading or copy is set, then the heading and the lines. */
  method AppendText(html: string, heading: string, displayCopy: string) returns (out: string)
    ensures out == html + TextHtml(heading, displayCopy)
  {
    out := html;
    if heading == "" && displayCopy == "" {
      return;
    }
    if heading != "" {
      out := out + ("<h3>" + heading + "</h3>");
    }
    if displayCopy != "" {
      out := AppendCopy(out, CopyLines(displayCopy));
    }
    AppendAssoc(html, HeadingHtml(heading), CopyHtml(displayCopy));
  }

  /** One pass of the block loop. */
  method AppendBlock(html: string, block: Block) returns (out: string)
    ensures out == html + BlockHtml(block)
  {
    out := html;
    match block {
      case Text(_, heading, _, _) =>
        out := AppendText(out, heading, DisplayCopy(block));
      case Image(_, images, _) =>
        if images.Some? && |images.value| > 0 {
          out := AppendImages(out, images.value);
        }
      case Link(_, labelText, url) =>
        out := out + LinkHtml(url, labelText);
      case Embed(_, url) =>
        out := out + EmbedHtml(url);
      case Other(_) =>
    }
  }

  /** `generateMediumHtml(projectData, blocks, metricsData)`. */
  method GenerateMediumHtml(pd: ProjectData, bs: seq<Block>, ms: seq<Metric>) returns (html: string)
    ensures html == MediumHtml(pd, bs, ms)
  {
    var validMetrics := ValidMetrics(ms);
    html := "<h1>" + OrElse(pd.name, "Untitled Project") + "</h1>";
    if pd.role != "" || pd.timeline != "" {
      var meta := Join(NonEmptyStrings([pd.role, pd.timeline]), Bullet);
      html := html + ("<h2>" + meta + "</h2>");
    }
    if |validMetrics| > 0 {
      html := AppendMetrics(html, validMetrics);
    }
    html := AppendBlocks(html, bs);
  }

  /** The block loop. */
  method AppendBlocks(html: string, bs: seq<Block>) returns (out: string)
    ensures out == html + Concat(BlockHtml, bs)
  {
    out := html;
    var j := 0;
    while j < |bs|
      invariant 0 <= j <= |bs|
      invariant out == html + Concat(BlockHtml, bs[..j])
    {
      assert bs[..j + 1][..j] == bs[..j];
      AppendAssoc(html, Concat(BlockHtml, bs[..j]), BlockHtml(bs[j]));
      out := AppendBlock(out, bs[j]);
      j := j + 1;
    }
    assert bs[..|bs|] == bs;
  }

  /** The key-outcomes loop: the list opens, one item per valid metric, the list closes. */
  method AppendMetrics(html: string, validMetrics: seq<Metric>) returns (out: string)
    requires |validMetrics| > 0
    ensures out == html + MetricsHtml(validMetrics)
  {
    out := html + MetricsOpen;
    var i := 0;
    while i < |validMetrics|
      invariant 0 <= i <= |validMetrics|
      invariant out == (html + MetricsOpen) + Concat(MetricItem, validMetrics[..i])
    {
      assert validMetrics[..i + 1][..i] == validMetrics[..i];
      AppendAssoc(html + MetricsOpen, Concat(MetricItem, validMetrics[..i]), MetricItem(validMetrics[i]));
      out := out + MetricItem(validMetrics[i]);
      i := i + 1;
    }
    assert validMetrics[..|validMetrics|] == validMetrics;
    out := out + MetricsClose;
    AppendAssoc(html + MetricsOpen, Concat(MetricItem, validMetrics), MetricsClose);
    AppendAssoc(html, MetricsOpen, Concat(MetricItem, validMetrics) + MetricsClose);
    assert MetricsHtml(validMetrics) == MetricsOpen + (Concat(MetricItem, validMetrics) + MetricsClose);
  }
}
