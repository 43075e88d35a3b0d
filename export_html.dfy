/**
 * The standalone download: the Medium export wrapped in a complete HTML page
 * whose stylesheet carries the chosen theme's variables, and the file name the
 * page is saved under. Creating the Blob and clicking the anchor are not part of
 * this model; the result is the pair (file name, document text).
 */
module ExportToHtml {
  import opened Text
  import opened Blocks
  import ExportToMedium

  /** The six CSS custom properties a theme branch sets on `body`. */
  datatype ThemeVars = ThemeVars(
    colorBg: string, colorText: string, colorAccent: string, colorBorder: string,
    fontSans: string, fontSerif: string)

  const InterStack: string := "'Inter', sans-serif"

  const DarkVars: ThemeVars :=
    ThemeVars("#111827", "#F9FAFB", "#3B82F6", "#374151", InterStack, InterStack)

  const EditorialVars: ThemeVars :=
    ThemeVars("#FAF9F7", "#1A1A2E", "#E2B659", "#E0DFDD", "'DM Sans', sans-serif", "'Playfair Display', serif")

  const MinimalistVars: ThemeVars :=
    ThemeVars("#F9FAFB", "#111827", "#000000", "#E5E7EB", InterStack, InterStack)

  /** The nested conditional inside the stylesheet: two named themes, everything else minimalist. */
  function ThemeVariables(theme: string): ThemeVars {
    if theme == "dark" then DarkVars
    else if theme == "editorial" then EditorialVars
    else MinimalistVars
  }

  /**
   * "dark" and "editorial" each get their own variable set, every other theme
   * name (the stored default "minimalist" among them) gets the minimalist set,
   * and the three sets are pairwise different.
   */
  lemma ThemeSelection(theme: string)
    ensures ThemeVariables(theme) == DarkVars <==> theme == "dark"
    ensures ThemeVariables(theme) == EditorialVars <==> theme == "editorial"
    ensures ThemeVariables(theme) == MinimalistVars <==> theme != "dark" && theme != "editorial"
  {
    assert DarkVars.colorBg != EditorialVars.colorBg;
    assert DarkVars.colorBg != MinimalistVars.colorBg;
    assert EditorialVars.colorBg != MinimalistVars.colorBg;
  }

  /** `<title>` holds `name || 'Case Study'`. */
  function DocumentTitle(pd: ProjectData): (t: string)
    ensures t != ""
    ensures pd.name != "" ==> t == pd.name
    ensures pd.name == "" ==> t == "Case Study"
  {
    OrElse(pd.name, "Case Study")
  }

  // The fixed text of the page template, split where the three values go in.
  const DocOpen: string :=
    "<!DOCTYPE html>\n<html lang=\"en\">\n<head>\n    <meta charset=\"UTF-8\">\n" +
    "    <meta name=\"viewport\" content=\"width=device-width, initial-scale=1.0\">\n    <title>"
  const TitleEnd: string := "</title>"
  const StyleOpen: string := "\n    <style>"
  const StyleClose: string := "</style>\n</head>\n<body>\n    <div class=\"container\">\n        "
  const BodyClose: string := "\n    </div>\n</body>\n</html>"

  /** Everything in front of the body: the head with its title and stylesheet, then the container opening. */
  function DocumentHead(title: string, css: string): string {
    DocOpen + title + TitleEnd + StyleOpen + css + StyleClose
  }

  /**
   * The page text: the head with `title` and the stylesheet text `css`, then
   * `body` inside the container, then the closing tags.
   */
  function FullHtml(title: string, css: string, body: string): string {
    DocumentHead(title, css) + body + BodyClose
  }

  /**
   * The page is recoverable piece by piece: it opens with the head, and the text
   * between the head and the closing tail is exactly the body that went in.
   */
  lemma FullHtmlParts(title: string, css: string, body: string)
    ensures var doc := FullHtml(title, css, body);
      var head := DocumentHead(title, css);
      |head| + |BodyClose| <= |doc| &&
      doc[..|head|] == head &&
      doc[|head|..|doc| - |BodyClose|] == body &&
      doc[|doc| - |BodyClose|..] == BodyClose
  {
    var head := DocumentHead(title, css);
    var doc := FullHtml(title, css, body);
    assert doc == head + body + BodyClose;
    SliceOfThree(head, body, BodyClose);
  }

  lemma SliceOfThree(a: string, b: string, c: string)
    ensures var s := a + b + c;
      s[..|a|] == a && s[|a|..|s| - |c|] == b && s[|s| - |c|..] == c
  {
  }

  /** The head opens with the title element, which holds the document title. */
  lemma HeadShowsTitle(title: string, css: string)
    ensures StartsWith(DocumentHead(title, css), DocOpen + title + TitleEnd)
  {
    var t := DocOpen + title + TitleEnd;
    var rest := StyleOpen + css + StyleClose;
    assert DocumentHead(title, css) == t + rest;
    assert (t + rest)[..|t|] == t;
  }

  /**
   * `replace(/\s+/g, '-')`: each maximal whitespace run becomes one hyphen.
   * Scanning left to right, a whitespace character followed by more whitespace
   * is dropped and the last one of its run becomes the hyphen.
   */
  function HyphenateWhitespace(s: string): (r: string)
    ensures forall k :: 0 <= k < |r| ==> !IsJsWhitespace(r[k])
    decreases |s|
  {
    if s == [] then []
    else if !IsJsWhitespace(s[0]) then [s[0]] + HyphenateWhitespace(s[1..])
    else if |s| > 1 && IsJsWhitespace(s[1]) then HyphenateWhitespace(s[1..])
    else "-" + HyphenateWhitespace(s[1..])
  }

  const DefaultSlug: string := "case-study"

  /** The download name: the lowercased `name || 'case-study'` with whitespace runs hyphenated, plus ".html". */
  function DownloadFilename(pd: ProjectData): string {
    HyphenateWhitespace(ToLowerAscii(OrElse(pd.name, DefaultSlug))) + ".html"
  }

  /** A string with no whitespace goes through the hyphenation unchanged. */
  lemma {:induction false} HyphenateNoWhitespace(s: string)
    requires forall k :: 0 <= k < |s| ==> !IsJsWhitespace(s[k])
    ensures HyphenateWhitespace(s) == s
    decreases |s|
  {
    if s != [] {
      HyphenateNoWhitespace(s[1..]);
    }
  }

  /** A whitespace run in front of non-whitespace text collapses into a single hyphen. */
  lemma {:induction false} HyphenateRun(w: string, b: string)
    requires w != [] && IsBlank(w)
    requires b == [] || !IsJsWhitespace(b[0])
    ensures HyphenateWhitespace(w + b) == "-" + HyphenateWhitespace(b)
    decreases |w|
  {
    assert (w + b)[1..] == w[1..] + b;
    if |w| > 1 {
      assert (w + b)[1] == w[1];
      HyphenateRun(w[1..], b);
    } else {
      assert w[1..] + b == b;
    }
  }

  /**
   * Text that ends in a non-whitespace character is hyphenated independently of
   * what follows it, so the runs are replaced one by one, left to right.
   */
  lemma {:induction false} HyphenateSplit(a: string, b: string)
    requires a == [] || !IsJsWhitespace(a[|a| - 1])
    ensures HyphenateWhitespace(a + b) == HyphenateWhitespace(a) + HyphenateWhitespace(b)
    decreases |a|
  {
    if a == [] {
      assert a + b == b;
    } else {
      assert (a + b)[0] == a[0] && (a + b)[1..] == a[1..] + b;
      if IsJsWhitespace(a[0]) {
        assert |a| > 1 && (a + b)[1] == a[1];
      }
      HyphenateSplit(a[1..], b);
    }
  }

  /** The file name never contains whitespace and always ends in ".html". */
  lemma FilenameShape(pd: ProjectData)
    ensures var f := DownloadFilename(pd);
      |f| >= 5 && f[|f| - 5..] == ".html" &&
      forall k :: 0 <= k < |f| ==> !IsJsWhitespace(f[k])
  {
    var slug := HyphenateWhitespace(ToLowerAscii(OrElse(pd.name, DefaultSlug)));
    var f := DownloadFilename(pd);
    assert f == slug + ".html";
    forall k | 0 <= k < |f| ensures !IsJsWhitespace(f[k]) {
      if k >= |slug| {
        assert f[k] == ".html"[k - |slug|];
      }
    }
  }

  /** A project without a name is saved as "case-study.html". */
  lemma UnnamedFilename(pd: ProjectData)
    requires pd.name == ""
    ensures DownloadFilename(pd) == DefaultSlug + ".html"
  {
    assert OrElse(pd.name, DefaultSlug) == DefaultSlug;
    DefaultSlugIsPlain();
    LowerOfLower(DefaultSlug);
    HyphenateNoWhitespace(DefaultSlug);
  }

  /** The fallback slug has neither upper-case letters nor whitespace. */
  lemma DefaultSlugIsPlain()
    ensures forall k :: 0 <= k < |DefaultSlug| ==> !('A' <= DefaultSlug[k] <= 'Z') && !IsJsWhitespace(DefaultSlug[k])
  {
  }

  /** Lowercasing text that has no upper-case ASCII letter changes nothing. */
  lemma {:induction false} LowerOfLower(s: string)
    requires forall k :: 0 <= k < |s| ==> !('A' <= s[k] <= 'Z')
    ensures ToLowerAscii(s) == s
    decreases |s|
  {
    if s != [] {
      LowerOfLower(s[1..]);
    }
  }

  /**
   * `downloadHTML` up to the download itself: the Medium export of the same
   * document becomes the body of a page titled after the project, with the
   * chosen theme's stylesheet, saved under the slug of the project name.
   */
  method DownloadHtml(pd: ProjectData, bs: seq<Block>, ms: seq<Metric>, theme: string,
                      styleSheet: ThemeVars -> string)
    returns (fileName: string, contents: string)
    ensures contents == FullHtml(DocumentTitle(pd), styleSheet(ThemeVariables(theme)),
                                 ExportToMedium.MediumHtml(pd, bs, ms))
    ensures fileName == DownloadFilename(pd)
  {
    var bodyHtml := ExportToMedium.GenerateMediumHtml(pd, bs, ms);
    var css := styleSheet(ThemeVariables(theme));
    contents := FullHtml(DocumentTitle(pd), css, bodyHtml);
    fileName := DownloadFilename(pd);
  }
}
