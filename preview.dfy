/**
 * The live preview: the hero (title and meta line), the metrics bar, and one
 * section per visible block, as a value describing what is on screen. The
 * Markdown rendering inside a text section is not part of this model; a
 * section only records which copy it hands to the renderer. The plain-text
 * clipboard payload is the Medium export with its tags stripped.
 */
module Preview {
  import opened Wrappers
  import opened Text
  import opened Blocks
  import ExportToMedium

  // ---------------------------------------------------------------- hero

  datatype Hero = Hero(title: string, meta: seq<string>)

  const Dot: string := "\U{2022}"

  /** The hero: `name || 'Untitled Project'`, then a role span, a dot span when both are set, and a timeline span. */
  function HeroOf(pd: ProjectData): Hero {
    Hero(OrElse(pd.name, "Untitled Project"),
         (if pd.role != "" then [pd.role] else []) +
         (if pd.role != "" && pd.timeline != "" then [Dot] else []) +
         (if pd.timeline != "" then [pd.timeline] else []))
  }

  /**
   * The dot separator appears exactly when both role and timeline are set, and
   * then sits between them; otherwise the meta holds whichever of the two is set.
   */
  lemma HeroMetaShape(pd: ProjectData)
    ensures var m := HeroOf(pd).meta;
      (|m| == 3 <==> pd.role != "" && pd.timeline != "") &&
      (pd.role != "" && pd.timeline != "" ==> m == [pd.role, Dot, pd.timeline]) &&
      (pd.role == "" ==> m == (if pd.timeline != "" then [pd.timeline] else [])) &&
      (pd.timeline == "" ==> m == (if pd.role != "" then [pd.role] else []))
  {
  }

  /** The hero shows the same title as the export's `<h1>`. */
  lemma HeroTitleMatchesExport(pd: ProjectData)
    ensures ExportToMedium.TitleHtml(pd) == "<h1>" + HeroOf(pd).title + "</h1>"
    ensures HeroOf(pd).title != ""
  {
  }

  /** Read with a space between the spans, the hero meta is the export's meta line. */
  lemma HeroMetaMatchesExport(pd: ProjectData)
    ensures Join(HeroOf(pd).meta, " ") == ExportToMedium.Meta(pd)
  {
    ExportToMedium.MetaCases(pd);
    var m := HeroOf(pd).meta;
    if pd.role != "" && pd.timeline != "" {
      assert m == [pd.role, Dot, pd.timeline];
      assert m[1..] == [Dot, pd.timeline] && m[1..][1..] == [pd.timeline];
      assert Join([pd.timeline], " ") == pd.timeline;
      assert Join([Dot, pd.timeline], " ") == Dot + " " + pd.timeline;
      assert ExportToMedium.Bullet == " " + Dot + " ";
    } else if pd.role != "" {
      assert m == [pd.role];
    } else if pd.timeline != "" {
      assert m == [pd.timeline];
    }
  }

  // ---------------------------------------------------------------- metrics bar

  datatype Cell = Cell(value: string, caption: string)

  /** A metric cell: `value || '-'` over `label || 'Metric'`. */
  function MetricCell(m: Metric): (c: Cell)
    ensures c.value != "" && c.caption != ""
    ensures m.value != "" ==> c.value == m.value
    ensures m.labelText != "" ==> c.caption == m.labelText
  {
    Cell(OrElse(m.value, "-"), OrElse(m.labelText, "Metric"))
  }

  function MetricCells(ms: seq<Metric>): (r: seq<Cell>)
    ensures |r| == |ms|
    ensures forall k :: 0 <= k < |ms| ==> r[k] == MetricCell(ms[k])
  {
    seq(|ms|, k requires 0 <= k < |ms| => MetricCell(ms[k]))
  }

  /** The bar is rendered only when `validMetrics.length > 0`. */
  function MetricsBar(ms: seq<Metric>): Option<seq<Cell>> {
    var valid := ValidMetrics(ms);
    if |valid| > 0 then Some(MetricCells(valid)) else None
  }

  /**
   * The bar appears exactly when some metric has a value or a label, which is
   * also when the export writes its key-outcomes list, and then holds one cell
   * per such metric, in order.
   */
  lemma MetricsBarIff(ms: seq<Metric>)
    ensures MetricsBar(ms).Some? <==> exists k :: 0 <= k < |ms| && IsValidMetric(ms[k])
    ensures MetricsBar(ms).Some? <==> ExportToMedium.MetricsHtml(ValidMetrics(ms)) != ""
    ensures MetricsBar(ms).Some? ==> |MetricsBar(ms).value| == |ValidMetrics(ms)|
  {
    ValidMetricsEmptyIff(ms);
    ExportToMedium.MetricsSectionIff(ms);
  }

  // ---------------------------------------------------------------- sections

  /**
   * What a visible block puts on screen. A text section shows its heading only
   * when set and hands its copy to the Markdown renderer only when set.
   */
  datatype Section =
    | TextSection(heading: Option<string>, markdown: Option<string>)
    | Gallery(images: seq<string>)
    | LinkButton(href: string, caption: string)
    | EmbedFrame(src: string)

  function Present(s: string): Option<string> {
    if s != "" then Some(s) else None
  }

  /** The `blocks.map` callback: a section, or `null` for a block that is not shown. */
  function PreviewBlock(b: Block): Option<Section> {
    match b
    case Text(_, heading, _, _) =>
      var copy := DisplayCopy(b);
      if heading == "" && copy == "" then None else Some(TextSection(Present(heading), Present(copy)))
    case Image(_, images, _) =>
      if images.Some? && |images.value| > 0 then Some(Gallery(images.value)) else None
    case Link(_, labelText, url) =>
      if url != "" then Some(LinkButton(url, OrElse(labelText, "View Link"))) else None
    case Embed(_, url) =>
      if url != "" then Some(EmbedFrame(url)) else None
    case Other(_) => None
  }

  /** One entry per block, in list order. */
  function PreviewSections(bs: seq<Block>): (r: seq<Option<Section>>)
    ensures |r| == |bs|
    ensures forall k :: 0 <= k < |bs| ==> r[k] == PreviewBlock(bs[k])
  {
    seq(|bs|, k requires 0 <= k < |bs| => PreviewBlock(bs[k]))
  }

  /**
   * A text section is hidden when heading and effective copy are both empty;
   * otherwise its heading appears only when set and the copy it renders is the
   * generated copy, or the notes when nothing was generated.
   */
  lemma TextSectionRules(b: Block)
    requires b.Text?
    ensures PreviewBlock(b).None? <==> b.heading == "" && b.generatedContent == "" && b.content == ""
    ensures PreviewBlock(b).Some? ==>
      var s := PreviewBlock(b).value;
      s.TextSection? &&
      (s.heading.Some? <==> b.heading != "") && (s.heading.Some? ==> s.heading.value == b.heading) &&
      (s.markdown.Some? <==> DisplayCopy(b) != "") &&
      (s.markdown.Some? ==> s.markdown.value == (if b.generatedContent != "" then b.generatedContent else b.content))
  {
  }

  /**
   * Images show only when the list is present and non-empty; links and embeds
   * only with a non-empty address, a link captioned by its label or "View Link".
   */
  lemma OtherSectionRules(b: Block)
    ensures b.Image? ==> (PreviewBlock(b).Some? <==> b.images.Some? && |b.images.value| > 0)
    ensures b.Image? && PreviewBlock(b).Some? ==> PreviewBlock(b).value == Gallery(b.images.value)
    ensures b.Link? ==> (PreviewBlock(b).Some? <==> b.url != "")
    ensures b.Link? && PreviewBlock(b).Some? ==>
      PreviewBlock(b).value.href == b.url &&
      PreviewBlock(b).value.caption == (if b.labelText != "" then b.labelText else "View Link")
    ensures b.Embed? ==> (PreviewBlock(b).Some? <==> b.url != "")
    ensures b.Embed? && PreviewBlock(b).Some? ==> PreviewBlock(b).value == EmbedFrame(b.url)
    ensures b.Other? ==> PreviewBlock(b).None?
  {
  }

  /**
   * Block by block, the preview and the export apply the same guard: a block is
   * previewed exactly when the export's guard lets it through, and everything
   * the export writes comes from a previewed block. The one block that passes
   * the guard yet adds no HTML is a text block without heading whose copy is
   * only whitespace: the export drops every blank line.
   */
  lemma VisibilityParity(b: Block)
    ensures PreviewBlock(b).Some? <==> Shown(b)
    ensures ExportToMedium.BlockHtml(b) != "" ==> PreviewBlock(b).Some?
    ensures PreviewBlock(b).Some? && ExportToMedium.BlockHtml(b) == "" <==>
      b.Text? && b.heading == "" && DisplayCopy(b) != "" && IsBlank(DisplayCopy(b))
  {
    ExportToMedium.BlockHtmlNonEmptyIff(b);
  }

  // ---------------------------------------------------------------- clipboard text

  /** After a `<`: everything up to and including the next `>`, or the rest when none follows. */
  function SkipTag(s: string): (r: string)
    ensures |r| <= |s|
    ensures r == s[|s| - |r|..]
    decreases |s|
  {
    if s == [] then []
    else if s[0] == '>' then s[1..]
    else SkipTag(s[1..])
  }

  /** `html.replace(/<[^>]*>?/gm, '')`: every `<` together with the tag text it opens is removed. */
  function StripTags(s: string): (r: string)
    ensures |r| <= |s|
    ensures forall k :: 0 <= k < |r| ==> r[k] != '<'
    decreases |s|
  {
    if s == [] then []
    else if s[0] == '<' then StripTags(SkipTag(s[1..]))
    else [s[0]] + StripTags(s[1..])
  }

  /** Text without `<` is its own plain text. */
  lemma {:induction false} StripTagsKeepsPlain(s: string)
    requires forall k :: 0 <= k < |s| ==> s[k] != '<'
    ensures StripTags(s) == s
    decreases |s|
  {
    if s != [] {
      StripTagsKeepsPlain(s[1..]);
    }
  }

  /** Stripping twice is stripping once. */
  lemma StripTagsIdempotent(s: string)
    ensures StripTags(StripTags(s)) == StripTags(s)
  {
    StripTagsKeepsPlain(StripTags(s));
  }

  /** A complete tag disappears from the plain text, whatever follows it. */
  lemma {:induction false} StripTagsDropsTag(t: string, rest: string)
    requires forall k :: 0 <= k < |t| ==> t[k] != '>'
    ensures StripTags("<" + t + ">" + rest) == StripTags(rest)
  {
    var s := "<" + t + ">" + rest;
    assert s[1..] == t + (">" + rest);
    SkipToClose(t, rest);
  }

  lemma {:induction false} SkipToClose(t: string, rest: string)
    requires forall k :: 0 <= k < |t| ==> t[k] != '>'
    ensures SkipTag(t + (">" + rest)) == rest
    decreases |t|
  {
    if t == [] {
      assert t + (">" + rest) == ">" + rest;
    } else {
      assert (t + (">" + rest))[1..] == t[1..] + (">" + rest);
      SkipToClose(t[1..], rest);
    }
  }

  /** Plain text in front of the markup passes through untouched. */
  lemma {:induction false} StripTagsPlainPrefix(a: string, b: string)
    requires forall k :: 0 <= k < |a| ==> a[k] != '<'
    ensures StripTags(a + b) == a + StripTags(b)
    decreases |a|
  {
    if a == [] {
      assert a + b == b;
    } else {
      assert (a + b)[1..] == a[1..] + b;
      StripTagsPlainPrefix(a[1..], b);
    }
  }

  /** The payload copied as plain text next to the HTML. */
  function ClipboardText(pd: ProjectData, bs: seq<Block>, ms: seq<Metric>): (r: string)
    ensures forall k :: 0 <= k < |r| ==> r[k] != '<'
  {
    StripTags(ExportToMedium.MediumHtml(pd, bs, ms))
  }

  /** A title without angle brackets survives as the first line of the plain text. */
  lemma PlainTitle(pd: ProjectData)
    requires forall k :: 0 <= k < |pd.name| ==> pd.name[k] != '<'
    ensures StripTags(ExportToMedium.TitleHtml(pd)) == OrElse(pd.name, "Untitled Project")
  {
    var n := OrElse(pd.name, "Untitled Project");
    if pd.name == "" {
      UntitledIsPlain();
    }
    var close := "</h1>";
    assert ExportToMedium.TitleHtml(pd) == "<" + "h1" + ">" + (n + close);
    StripTagsDropsTag("h1", n + close);
    StripTagsPlainPrefix(n, close);
    ClosingTagIsDropped();
  }

  lemma UntitledIsPlain()
    ensures forall k :: 0 <= k < |"Untitled Project"| ==> "Untitled Project"[k] != '<'
  {
  }

  lemma ClosingTagIsDropped()
    ensures StripTags("</h1>") == ""
  {
    assert "</h1>" == "<" + "/h1" + ">" + "";
    StripTagsDropsTag("/h1", "");
  }
}
