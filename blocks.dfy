/**
 * The case-study document: project metadata, key metrics and the ordered list of
 * typed content blocks, with the field-level rules every consumer shares.
 *
 * JavaScript's `x || fallback` treats `''`, `null` and `undefined` alike, so text
 * fields are plain strings with `""` standing for "absent". An image block's
 * `images` and `caption` can be missing in stored data, and the code tests for
 * that separately, so those two are `Option`s.
 */
module Blocks {
  import opened Wrappers

  datatype ProjectData = ProjectData(name: string, role: string, timeline: string)

  datatype Metric = Metric(value: string, labelText: string)

  /** The `type` tag of the four block kinds the editor can create. */
  datatype Kind = TextKind | ImageKind | LinkKind | EmbedKind

  datatype Block =
    | Text(id: string, heading: string, content: string, generatedContent: string)
    | Image(id: string, images: Option<seq<string>>, caption: Option<string>)
    | Link(id: string, labelText: string, url: string)
    | Embed(id: string, url: string)
      /** A stored block whose `type` is none of the four. */
    | Other(id: string)

  /**
   * The partial object handed to `updateBlock`: each present field overrides
   * the block's own. Only the fields the block forms send are represented.
   */
  datatype Patch = Patch(
    heading: Option<string>,
    content: Option<string>,
    generatedContent: Option<string>,
    images: Option<seq<string>>,
    caption: Option<string>,
    labelText: Option<string>,
    url: Option<string>)

  const NoChange: Patch := Patch(None, None, None, None, None, None, None)

  /** The arguments a block form passes to `onUpdate`: its block's id and a partial object. */
  datatype BlockUpdate = BlockUpdate(id: string, updates: Patch)

  /** `{ ...p, ...q }`: the fields of q win, the others come from p. */
  function CombinePatches(p: Patch, q: Patch): Patch {
    Patch(
      if q.heading.Some? then q.heading else p.heading,
      if q.content.Some? then q.content else p.content,
      if q.generatedContent.Some? then q.generatedContent else p.generatedContent,
      if q.images.Some? then q.images else p.images,
      if q.caption.Some? then q.caption else p.caption,
      if q.labelText.Some? then q.labelText else p.labelText,
      if q.url.Some? then q.url else p.url)
  }

  /** `{ ...b, ...updates }` restricted to the fields the block's kind has. */
  function ApplyPatch(b: Block, p: Patch): Block {
    match b
    case Text(id, h, c, g) => Text(id, p.heading.GetOr(h), p.content.GetOr(c), p.generatedContent.GetOr(g))
    case Image(id, imgs, cap) =>
      Image(id, if p.images.Some? then p.images else imgs, if p.caption.Some? then p.caption else cap)
    case Link(id, l, u) => Link(id, p.labelText.GetOr(l), p.url.GetOr(u))
    case Embed(id, u) => Embed(id, p.url.GetOr(u))
    case Other(id) => Other(id)
  }

  /** Which constructor a block was built with, so "same kind" can be stated. */
  predicate SameKind(a: Block, b: Block) {
    (a.Text? && b.Text?) || (a.Image? && b.Image?) || (a.Link? && b.Link?) ||
    (a.Embed? && b.Embed?) || (a.Other? && b.Other?)
  }

  /** A merge keeps the identity and the kind of the block it is applied to. */
  lemma ApplyPatchKeepsIdentity(b: Block, p: Patch)
    ensures ApplyPatch(b, p).id == b.id && SameKind(ApplyPatch(b, p), b)
  {
  }

  /** Merging the same partial object again changes nothing more. */
  lemma ApplyPatchIdempotent(b: Block, p: Patch)
    ensures ApplyPatch(ApplyPatch(b, p), p) == ApplyPatch(b, p)
  {
  }

  /** Two successive merges are one merge of the combined partial objects. */
  lemma ApplyPatchCompose(b: Block, p: Patch, q: Patch)
    ensures ApplyPatch(ApplyPatch(b, p), q) == ApplyPatch(b, CombinePatches(p, q))
  {
  }

  /** What a text block shows: `generatedContent || content`. */
  function DisplayCopy(b: Block): (copy: string)
    requires b.Text?
    ensures b.generatedContent != "" ==> copy == b.generatedContent
    ensures b.generatedContent == "" ==> copy == b.content
  {
    if b.generatedContent != "" then b.generatedContent else b.content
  }

  /** `m.value || m.label`: a metric worth showing. */
  predicate IsValidMetric(m: Metric) {
    m.value != "" || m.labelText != ""
  }

  /** `metricsData.filter(m => m.value || m.label)`. (`label` is a Dafny keyword, hence `labelText`.) */
  function ValidMetrics(ms: seq<Metric>): (r: seq<Metric>)
    ensures |r| <= |ms|
    ensures forall k :: 0 <= k < |r| ==> IsValidMetric(r[k]) && r[k] in ms
    ensures forall m :: m in ms && IsValidMetric(m) ==> m in r
    decreases |ms|
  {
    if ms == [] then []
    else (if IsValidMetric(ms[0]) then [ms[0]] else []) + ValidMetrics(ms[1..])
  }

  /**
   * The filter keeps order and multiplicity: it works segment by segment, and a
   * single metric is kept exactly when it has a value or a label.
   */
  lemma {:induction false} ValidMetricsAppend(a: seq<Metric>, b: seq<Metric>)
    ensures ValidMetrics(a + b) == ValidMetrics(a) + ValidMetrics(b)
    decreases |a|
  {
    if a == [] {
      assert a + b == b;
    } else {
      assert (a + b)[0] == a[0] && (a + b)[1..] == a[1..] + b;
      ValidMetricsAppend(a[1..], b);
    }
  }

  lemma ValidMetricsSingle(m: Metric)
    ensures ValidMetrics([m]) == if IsValidMetric(m) then [m] else []
  {
    assert [m][1..] == [];
  }

  /** The list of valid metrics is empty exactly when no metric is valid. */
  lemma ValidMetricsEmptyIff(ms: seq<Metric>)
    ensures ValidMetrics(ms) == [] <==> forall k :: 0 <= k < |ms| ==> !IsValidMetric(ms[k])
  {
    if ValidMetrics(ms) == [] {
      forall k | 0 <= k < |ms| ensures !IsValidMetric(ms[k]) {
        assert ms[k] in ms;
      }
    }
  }

  /** The block ids in list order. */
  function Ids(bs: seq<Block>): (r: seq<string>)
    ensures |r| == |bs|
    ensures forall k :: 0 <= k < |bs| ==> r[k] == bs[k].id
    decreases |bs|
  {
    if bs == [] then [] else [bs[0].id] + Ids(bs[1..])
  }

  /** No id occurs twice: block identity is the join key for merging and reordering. */
  predicate DistinctIds(bs: seq<Block>) {
    forall i, j :: 0 <= i < j < |bs| ==> bs[i].id != bs[j].id
  }

  /** Distinctness depends only on the id sequence. */
  lemma DistinctIdsFromIds(a: seq<Block>, b: seq<Block>)
    requires Ids(a) == Ids(b) && DistinctIds(a)
    ensures DistinctIds(b)
  {
    forall i, j | 0 <= i < j < |b| ensures b[i].id != b[j].id {
      assert Ids(a)[i] == a[i].id && Ids(a)[j] == a[j].id;
    }
  }

  /** The visibility rule the preview and the export both apply to a block. */
  predicate Shown(b: Block) {
    match b
    case Text(_, h, _, _) => h != "" || DisplayCopy(b) != ""
    case Image(_, imgs, _) => imgs.Some? && |imgs.value| > 0
    case Link(_, _, u) => u != ""
    case Embed(_, u) => u != ""
    case Other(_) => false
  }
}
