/**
 * The embed block form's address handling. What the user pastes is
 * normalised before it is stored: the `src` value is lifted out of a pasted
 * `<iframe>` tag, and a raw Figma file, design or prototype link is rewritten
 * into Figma's embed address around its percent-encoded form. Anything else is
 * stored as typed.
 */
module EmbedBlock {
  import opened Wrappers
  import opened Text
  import opened Blocks
  import ExportToMedium
  import EditorForm

  // ---------------------------------------------------------------- encodeURIComponent

  /** The characters `encodeURIComponent` leaves alone: letters, digits and `-_.!~*'()`. */
  predicate IsUnreserved(c: char) {
    ('A' <= c <= 'Z') || ('a' <= c <= 'z') || ('0' <= c <= '9') ||
    c == '-' || c == '_' || c == '.' || c == '!' || c == '~' || c == '*' || c == '\'' || c == '(' || c == ')'
  }

  type Byte = x: int | 0 <= x < 256

  /** The UTF-8 encoding of one Unicode scalar value. */
  function Utf8(c: char): (r: seq<Byte>)
    ensures 1 <= |r| <= 4
    ensures (c as int < 0x80) <==> |r| == 1
  {
    var n := c as int;
    if n < 0x80 then [n]
    else if n < 0x800 then [0xC0 + n / 0x40, 0x80 + n % 0x40]
    else if n < 0x1_0000 then [0xE0 + n / 0x1000, 0x80 + (n / 0x40) % 0x40, 0x80 + n % 0x40]
    else [0xF0 + n / 0x4_0000, 0x80 + (n / 0x1000) % 0x40, 0x80 + (n / 0x40) % 0x40, 0x80 + n % 0x40]
  }

  const HexDigits: string := "0123456789ABCDEF"

  /** `%XY` for every byte, with upper-case hexadecimal digits. */
  function PercentBytes(bs: seq<Byte>): (r: string)
    ensures |r| == 3 * |bs|
    ensures forall k :: 0 <= k < |r| ==> r[k] == '%' || r[k] in HexDigits
    decreases |bs|
  {
    if bs == [] then ""
    else ['%', HexDigits[bs[0] / 16], HexDigits[bs[0] % 16]] + PercentBytes(bs[1..])
  }

  function EncodeChar(c: char): string {
    if IsUnreserved(c) then [c] else PercentBytes(Utf8(c))
  }

  /**
   * `encodeURIComponent`: percent-encoding in the sense of section 2.1 of
   * RFC 3986. Every character of the result is unreserved or `%`, so in
   * particular the result holds no `:`, `/`, `<` or `"`.
   */
  function EncodeUriComponent(s: string): (r: string)
    ensures forall k :: 0 <= k < |r| ==> IsUnreserved(r[k]) || r[k] == '%'
    ensures |r| >= |s|
    decreases |s|
  {
    if s == [] then ""
    else
      var head := EncodeChar(s[0]);
      assert forall k :: 0 <= k < |head| ==> IsUnreserved(head[k]) || head[k] == '%' by {
        if !IsUnreserved(s[0]) {
          assert forall d :: d in HexDigits ==> IsUnreserved(d);
        }
      }
      head + EncodeUriComponent(s[1..])
  }

  /** Text made of unreserved characters only is encoded as itself. */
  lemma {:induction false} EncodeKeepsUnreserved(s: string)
    requires forall k :: 0 <= k < |s| ==> IsUnreserved(s[k])
    ensures EncodeUriComponent(s) == s
    decreases |s|
  {
    if s != [] {
      EncodeKeepsUnreserved(s[1..]);
    }
  }

  /** Encoding a concatenation encodes the two parts one after the other. */
  lemma {:induction false} EncodeAppend(a: string, b: string)
    ensures EncodeUriComponent(a + b) == EncodeUriComponent(a) + EncodeUriComponent(b)
    decreases |a|
  {
    if a == [] {
      assert a + b == b;
    } else {
      assert (a + b)[0] == a[0] && (a + b)[1..] == a[1..] + b;
      EncodeAppend(a[1..], b);
    }
  }

  /** The URL delimiters of a link are escaped: `:` becomes `%3A` and `/` becomes `%2F`. */
  lemma EncodeDelimiters()
    ensures EncodeUriComponent(":") == "%3A"
    ensures EncodeUriComponent("/") == "%2F"
  {
    assert Utf8(':') == [58] && Utf8('/') == [47];
    assert PercentBytes([58]) == ['%', HexDigits[3], HexDigits[10]] + PercentBytes([]);
    assert PercentBytes([47]) == ['%', HexDigits[2], HexDigits[15]] + PercentBytes([]);
  }

  // ---------------------------------------------------------------- iframe src

  const IframeOpen: string := "<iframe"
  const SrcAttr: string := "src=\""

  /**
   * The capture of `/src="([^"]+)"/` if the match starts at i: the text after
   * `src="` up to the next quote, when that text is not empty and a quote does
   * follow it.
   */
  function SrcValueAt(s: string, i: nat): Option<string>
    requires i <= |s|
  {
    if StartsWith(s[i..], SrcAttr) then
      var q := ExportToMedium.IndexOf(s, '"', i + |SrcAttr|);
      if i + |SrcAttr| < q < |s| then Some(s[i + |SrcAttr|..q]) else None
    else None
  }

  /** The capture at i is exactly a non-empty quote-free value between `src="` and a quote. */
  lemma SrcValueAtIff(s: string, i: nat, v: string)
    requires i <= |s|
    ensures SrcValueAt(s, i) == Some(v) <==>
      v != "" && (forall k :: 0 <= k < |v| ==> v[k] != '"') && StartsWith(s[i..], SrcAttr + v + "\"")
  {
    var a := i + |SrcAttr|;
    if SrcValueAt(s, i) == Some(v) {
      var q := ExportToMedium.IndexOf(s, '"', a);
      ExportToMedium.IndexOfFirst(s, '"', a);
      assert v == s[a..q];
      assert s[i..][..|SrcAttr| + |v| + 1] == s[i..][..|SrcAttr|] + s[a..q] + [s[q]];
    }
    if v != "" && (forall k :: 0 <= k < |v| ==> v[k] != '"') && StartsWith(s[i..], SrcAttr + v + "\"") {
      var w := SrcAttr + v + "\"";
      assert StartsWith(s[i..], SrcAttr) by {
        assert s[i..][..|SrcAttr|] == w[..|SrcAttr|];
      }
      var q := ExportToMedium.IndexOf(s, '"', a);
      forall n | a <= n < a + |v| ensures s[n] != '"' {
        assert s[n] == w[|SrcAttr| + (n - a)] == v[n - a];
      }
      assert s[a + |v|] == w[|SrcAttr| + |v|];
      ExportToMedium.IndexOfAt(s, '"', a, a + |v|);
      assert q == a + |v|;
      assert s[a..q] == v by {
        forall m | 0 <= m < |v| ensures s[a..q][m] == v[m] {
          assert s[a + m] == w[|SrcAttr| + m];
        }
      }
    }
  }

  /** `String.prototype.match` without the `g` flag: the leftmost position at or after `from` where the pattern matches. */
  function FindSrc(s: string, from: nat): (r: Option<nat>)
    requires from <= |s|
    ensures r.Some? ==>
      from <= r.value <= |s| && SrcValueAt(s, r.value).Some? &&
      (forall i :: from <= i < r.value ==> SrcValueAt(s, i).None?)
    ensures r.None? ==> forall i :: from <= i <= |s| ==> SrcValueAt(s, i).None?
    decreases |s| - from
  {
    if SrcValueAt(s, from).Some? then Some(from)
    else if from == |s| then None
    else FindSrc(s, from + 1)
  }

  /** `match[1]` of the leftmost match, if there is one. */
  function FirstSrcValue(s: string): Option<string> {
    match FindSrc(s, 0)
    case Some(i) => SrcValueAt(s, i)
    case None => None
  }

  // ---------------------------------------------------------------- figma links

  const HttpsScheme: string := "https://"
  const FigmaFile: string := "figma.com/file/"
  const FigmaDesign: string := "figma.com/design/"
  const FigmaProto: string := "figma.com/proto/"

  /** `[\w.-]`. */
  predicate IsHostChar(c: char) {
    ('A' <= c <= 'Z') || ('a' <= c <= 'z') || ('0' <= c <= '9') || c == '_' || c == '.' || c == '-'
  }

  /** `([\w.-]+\.)?`: nothing, or at least one host character followed by a dot. */
  predicate IsSubdomain(h: string) {
    h == [] || (|h| >= 2 && h[|h| - 1] == '.' && forall k :: 0 <= k < |h| ==> IsHostChar(h[k]))
  }

  predicate FigmaPathAt(s: string, j: nat)
    requires j <= |s|
  {
    StartsWith(s[j..], FigmaFile) || StartsWith(s[j..], FigmaDesign) || StartsWith(s[j..], FigmaProto)
  }

  /** `https://([\w.-]+\.)?figma\.com\/(file|design|proto)\/` matches at position i. */
  predicate FigmaLinkAt(s: string, i: nat)
    requires i <= |s|
  {
    StartsWith(s[i..], HttpsScheme) &&
    exists j :: i + |HttpsScheme| <= j <= |s| && IsSubdomain(s[i + |HttpsScheme|..j]) && FigmaPathAt(s, j)
  }

  predicate HasFigmaLink(s: string) {
    exists i :: 0 <= i <= |s| && FigmaLinkAt(s, i)
  }

  const FigmaEmbedBase: string := "https://www.figma.com/"
  const FigmaEmbedQuery: string := "embed?embed_host=share&url="

  /** The prefix of every rewritten link, `https://www.figma.com/embed?embed_host=share&url=`. */
  function FigmaEmbedPrefix(): string {
    FigmaEmbedBase + FigmaEmbedQuery
  }

  // ---------------------------------------------------------------- normalisation

  /**
   * `handleUrlChange`'s rewriting of the pasted value: the iframe branch first
   * (which never falls through to the Figma rewrite), then the Figma rewrite,
   * else the value as typed.
   */
  function NormalizeEmbedUrl(val: string): string {
    if Contains(val, IframeOpen) && Contains(val, SrcAttr) then
      match FirstSrcValue(val)
      case Some(v) => v
      case None => val
    else if HasFigmaLink(val) then FigmaEmbedPrefix() + EncodeUriComponent(val)
    else val
  }

  /**
   * A pasted iframe tag yields the value of its first `src="..."` with a non-empty
   * value, and the text is kept as typed when there is none; in both cases the
   * Figma rewrite is not attempted.
   */
  lemma IframeBranch(val: string)
    requires Contains(val, IframeOpen) && Contains(val, SrcAttr)
    ensures FindSrc(val, 0).Some? ==>
      var i := FindSrc(val, 0).value;
      var v := NormalizeEmbedUrl(val);
      v != "" && (forall k :: 0 <= k < |v| ==> v[k] != '"') && StartsWith(val[i..], SrcAttr + v + "\"") &&
      forall i' :: 0 <= i' < i ==> SrcValueAt(val, i').None?
    ensures FindSrc(val, 0).None? ==> NormalizeEmbedUrl(val) == val
  {
    if FindSrc(val, 0).Some? {
      var i := FindSrc(val, 0).value;
      SrcValueAtIff(val, i, SrcValueAt(val, i).value);
    }
  }

  /**
   * Outside the iframe branch, a value that holds a Figma link becomes the embed
   * prefix and the encoded value, and any other value is stored as typed.
   */
  lemma FigmaBranch(val: string)
    requires !(Contains(val, IframeOpen) && Contains(val, SrcAttr))
    ensures HasFigmaLink(val) ==> NormalizeEmbedUrl(val) == FigmaEmbedPrefix() + EncodeUriComponent(val)
    ensures !HasFigmaLink(val) ==> NormalizeEmbedUrl(val) == val
  {
  }

  /** The only slashes of the embed prefix are the two of the scheme and the one after the host. */
  lemma EmbedBaseSlashes()
    ensures forall p :: 0 <= p < |FigmaEmbedBase| && FigmaEmbedBase[p] == '/' ==> p == 6 || p == 7 || p == 21
    ensures forall p :: 0 <= p < |FigmaEmbedBase| ==> FigmaEmbedBase[p] != '<'
  {
  }

  lemma EmbedQueryPlain()
    ensures forall p :: 0 <= p < |FigmaEmbedQuery| ==> FigmaEmbedQuery[p] != '/' && FigmaEmbedQuery[p] != '<'
  {
  }

  /** Where a rewritten link has a slash, and that it has no `<`. */
  lemma RewrittenShape(val: string, s: string)
    requires s == FigmaEmbedPrefix() + EncodeUriComponent(val)
    ensures forall p :: 0 <= p < |s| && s[p] == '/' ==> p == 6 || p == 7 || p == 21
    ensures forall p :: 0 <= p < |s| ==> s[p] != '<'
  {
    var e := EncodeUriComponent(val);
    EmbedBaseSlashes();
    EmbedQueryPlain();
    var nb := |FigmaEmbedBase|;
    var nq := |FigmaEmbedQuery|;
    forall p | 0 <= p < |s| ensures (s[p] == '/' ==> p == 6 || p == 7 || p == 21) && s[p] != '<' {
      if p < nb {
        assert s[p] == FigmaEmbedBase[p];
      } else if p < nb + nq {
        assert s[p] == FigmaEmbedQuery[p - nb];
      } else {
        assert s[p] == e[p - nb - nq];
      }
    }
  }

  /** A Figma path has a slash after `figma.com` and another one 5, 6 or 7 characters further on. */
  lemma FigmaPathSlashes(s: string, j: nat)
    requires j <= |s|
    ensures FigmaPathAt(s, j) ==>
      j + 9 < |s| && s[j + 9] == '/' &&
      ((j + 14 < |s| && s[j + 14] == '/') || (j + 15 < |s| && s[j + 15] == '/') || (j + 16 < |s| && s[j + 16] == '/'))
  {
    if StartsWith(s[j..], FigmaFile) {
      assert s[j + 9] == FigmaFile[9] && s[j + 14] == FigmaFile[14];
    } else if StartsWith(s[j..], FigmaDesign) {
      assert s[j + 9] == FigmaDesign[9] && s[j + 16] == FigmaDesign[16];
    } else if StartsWith(s[j..], FigmaProto) {
      assert s[j + 9] == FigmaProto[9] && s[j + 15] == FigmaProto[15];
    }
  }

  /** With slashes only at 6, 7 and 21, no position starts a Figma path, so no Figma link matches. */
  lemma NoFigmaLink(s: string)
    requires forall p :: 0 <= p < |s| && s[p] == '/' ==> p == 6 || p == 7 || p == 21
    ensures !HasFigmaLink(s)
  {
    forall j | 0 <= j <= |s| ensures !FigmaPathAt(s, j) {
      FigmaPathSlashes(s, j);
    }
  }

  /**
   * Normalising a rewritten Figma link again leaves it unchanged: the encoded
   * inner link has neither `<` nor `/`, so neither branch fires a second time.
   */
  lemma FigmaRewriteIdempotent(val: string)
    requires !(Contains(val, IframeOpen) && Contains(val, SrcAttr)) && HasFigmaLink(val)
    ensures NormalizeEmbedUrl(NormalizeEmbedUrl(val)) == NormalizeEmbedUrl(val)
  {
    var s := FigmaEmbedPrefix() + EncodeUriComponent(val);
    assert NormalizeEmbedUrl(val) == s;
    RewrittenShape(val, s);
    AbsentFirstChar(s, IframeOpen);
    NoFigmaLink(s);
  }

  // ---------------------------------------------------------------- the handler

  /** `onUpdate(block.id, { url: val })` with the normalised value. */
  function UrlChange(block: Block, val: string): (u: BlockUpdate)
    ensures u.id == block.id
  {
    BlockUpdate(block.id, NoChange.(url := Some(NormalizeEmbedUrl(val))))
  }

  /**
   * Applied through the block store, the update sets the normalised address on
   * this embed block and changes nothing else: every other block, and every
   * other field, stays as it was.
   */
  lemma UrlChangeOnlySetsUrl(bs: seq<Block>, block: Block, val: string)
    requires block.Embed?
    ensures var u := UrlChange(block, val);
      var r := EditorForm.BlocksWithUpdate(bs, u.id, u.updates);
      |r| == |bs| &&
      forall k :: 0 <= k < |bs| ==>
        (bs[k].id != block.id ==> r[k] == bs[k]) &&
        (bs[k].id == block.id && bs[k].Embed? ==> r[k] == Embed(block.id, NormalizeEmbedUrl(val))) &&
        (bs[k].id == block.id && (bs[k].Text? || bs[k].Image? || bs[k].Other?) ==> r[k] == bs[k])
  {
  }
}
