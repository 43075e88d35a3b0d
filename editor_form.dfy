/**
 * The editor's block store and metrics list. Each handler computes a new list from
 * the current one (the pure functions below) and hands it to the App's setter (the
 * methods at the end, which replace only the field that setter owns).
 */
module EditorForm {
  import opened Wrappers
  import opened Text
  import opened Blocks
  import opened Seqs
  import CaseStudyApp

  // ---------------------------------------------------------------- blocks

  /** `block-${Date.now()}`, with the clock reading passed in. */
  function NewBlockId(now: nat): string {
    "block-" + NatToString(now)
  }

  /** The block `addBlock(kind)` creates: the kind's fields, all empty. */
  function EmptyBlock(kind: Kind, id: string): Block {
    match kind
    case TextKind => Text(id, "", "", "")
    case ImageKind => Image(id, Some([]), None)
    case LinkKind => Link(id, "", "")
    case EmbedKind => Embed(id, "")
  }

  predicate IsOfKind(b: Block, kind: Kind) {
    match kind
    case TextKind => b.Text?
    case ImageKind => b.Image?
    case LinkKind => b.Link?
    case EmbedKind => b.Embed?
  }

  /** Every text field empty and an empty image list: what a freshly added block holds. */
  predicate IsFreshBlock(b: Block) {
    match b
    case Text(_, h, c, g) => h == "" && c == "" && g == ""
    case Image(_, imgs, cap) => imgs == Some([]) && cap.None?
    case Link(_, l, u) => l == "" && u == ""
    case Embed(_, u) => u == ""
    case Other(_) => false
  }

  /** `[...blocks, newBlock]`: one empty block of the kind at the end, the old list a prefix. */
  function BlocksWithAdded(bs: seq<Block>, kind: Kind, id: string): (r: seq<Block>)
    ensures |r| == |bs| + 1 && r[..|bs|] == bs
    ensures r[|bs|].id == id && IsOfKind(r[|bs|], kind) && IsFreshBlock(r[|bs|])
  {
    bs + [EmptyBlock(kind, id)]
  }

  /** A fresh id keeps the ids distinct. */
  lemma AddKeepsIdsDistinct(bs: seq<Block>, kind: Kind, id: string)
    requires DistinctIds(bs) && id !in Ids(bs)
    ensures DistinctIds(BlocksWithAdded(bs, kind, id))
  {
    var r := BlocksWithAdded(bs, kind, id);
    forall i, j | 0 <= i < j < |r| ensures r[i].id != r[j].id {
      if j == |bs| {
        assert Ids(bs)[i] == r[i].id;
      }
    }
  }

  /** Two blocks added within the same millisecond get the same id. */
  lemma SameTickCollides(bs: seq<Block>, k1: Kind, k2: Kind, now: nat)
    ensures var r := BlocksWithAdded(BlocksWithAdded(bs, k1, NewBlockId(now)), k2, NewBlockId(now));
      |r| == |bs| + 2 && r[|bs|].id == r[|bs| + 1].id && !DistinctIds(r)
  {
  }

  /** `blocks.map(b => b.id === id ? { ...b, ...updates } : b)`. */
  function BlocksWithUpdate(bs: seq<Block>, id: string, p: Patch): (r: seq<Block>)
    ensures |r| == |bs|
    ensures forall k :: 0 <= k < |bs| ==>
      r[k].id == bs[k].id && SameKind(r[k], bs[k]) &&
      (bs[k].id != id ==> r[k] == bs[k]) &&
      (bs[k].id == id ==> r[k] == ApplyPatch(bs[k], p))
    decreases |bs|
  {
    if bs == [] then []
    else
      var rest := BlocksWithUpdate(bs[1..], id, p);
      var b := if bs[0].id == id then ApplyPatch(bs[0], p) else bs[0];
      ApplyPatchKeepsIdentity(bs[0], p);
      [b] + rest
  }

  /** An update keeps the id sequence, and with an unknown id it changes nothing. */
  lemma UpdateKeepsIds(bs: seq<Block>, id: string, p: Patch)
    ensures Ids(BlocksWithUpdate(bs, id, p)) == Ids(bs)
    ensures id !in Ids(bs) ==> BlocksWithUpdate(bs, id, p) == bs
  {
    var r := BlocksWithUpdate(bs, id, p);
    if id !in Ids(bs) {
      forall k | 0 <= k < |bs| ensures r[k] == bs[k] {
        assert Ids(bs)[k] == bs[k].id;
      }
    }
  }

  /** Two updates of one block are one update with the combined partial object. */
  lemma UpdateTwice(bs: seq<Block>, id: string, p: Patch, q: Patch)
    ensures BlocksWithUpdate(BlocksWithUpdate(bs, id, p), id, q) == BlocksWithUpdate(bs, id, CombinePatches(p, q))
  {
    var r1 := BlocksWithUpdate(BlocksWithUpdate(bs, id, p), id, q);
    var r2 := BlocksWithUpdate(bs, id, CombinePatches(p, q));
    forall k | 0 <= k < |bs| ensures r1[k] == r2[k] {
      ApplyPatchCompose(bs[k], p, q);
    }
  }

  /** `blocks.filter(b => b.id !== id)`. */
  function BlocksWithout(bs: seq<Block>, id: string): (r: seq<Block>)
    ensures |r| <= |bs|
    ensures forall b :: b in r <==> b in bs && b.id != id
    decreases |bs|
  {
    if bs == [] then []
    else (if bs[0].id != id then [bs[0]] else []) + BlocksWithout(bs[1..], id)
  }

  /** Removal works piecewise, so the surviving blocks keep their relative order. */
  lemma {:induction false} RemoveDistributes(a: seq<Block>, b: seq<Block>, id: string)
    ensures BlocksWithout(a + b, id) == BlocksWithout(a, id) + BlocksWithout(b, id)
    decreases |a|
  {
    if a == [] {
      assert a + b == b;
    } else {
      assert (a + b)[1..] == a[1..] + b;
      RemoveDistributes(a[1..], b, id);
    }
  }

  /** Removing an id that no block has returns an equal list. */
  lemma {:induction false} RemoveAbsentIsIdentity(bs: seq<Block>, id: string)
    requires id !in Ids(bs)
    ensures BlocksWithout(bs, id) == bs
    decreases |bs|
  {
    if bs != [] {
      assert Ids(bs)[0] == bs[0].id;
      assert Ids(bs[1..]) == Ids(bs)[1..];
      RemoveAbsentIsIdentity(bs[1..], id);
    }
  }

  /** Removal keeps distinct ids distinct. */
  lemma {:induction false} RemoveKeepsIdsDistinct(bs: seq<Block>, id: string)
    requires DistinctIds(bs)
    ensures DistinctIds(BlocksWithout(bs, id))
    decreases |bs|
  {
    if bs != [] {
      var rest := BlocksWithout(bs[1..], id);
      assert DistinctIds(bs[1..]) by {
        forall i, j | 0 <= i < j < |bs[1..]| ensures bs[1..][i].id != bs[1..][j].id {
          assert bs[1..][i] == bs[i + 1] && bs[1..][j] == bs[j + 1];
        }
      }
      RemoveKeepsIdsDistinct(bs[1..], id);
      if bs[0].id != id {
        forall j | 0 <= j < |rest| ensures rest[j].id != bs[0].id {
          assert rest[j] in bs[1..];
          var k :| 0 <= k < |bs[1..]| && bs[1..][k] == rest[j];
          assert bs[k + 1] == rest[j];
        }
        ConsKeepsIdsDistinct(bs[0], rest);
      }
    }
  }

  lemma ConsKeepsIdsDistinct(b: Block, rest: seq<Block>)
    requires DistinctIds(rest) && forall j :: 0 <= j < |rest| ==> rest[j].id != b.id
    ensures DistinctIds([b] + rest)
  {
    var r := [b] + rest;
    forall i, j | 0 <= i < j < |r| ensures r[i].id != r[j].id {
      assert r[j] == rest[j - 1];
      if i > 0 { assert r[i] == rest[i - 1]; }
    }
  }

  /** Taking one block out keeps the others distinct, and none of them has its id. */
  lemma RemoveAtKeepsIdsDistinct(bs: seq<Block>, i: nat)
    requires i < |bs| && DistinctIds(bs)
    ensures var r := RemoveAt(bs, i);
      DistinctIds(r) && forall k :: 0 <= k < |r| ==> r[k].id != bs[i].id
  {
    var r := RemoveAt(bs, i);
    forall a, b | 0 <= a < b < |r| ensures r[a].id != r[b].id {
      var oa := if a < i then a else a + 1;
      var ob := if b < i then b else b + 1;
      assert r[a] == bs[oa] && r[b] == bs[ob];
    }
    forall k | 0 <= k < |r| ensures r[k].id != bs[i].id {
      var ok := if k < i then k else k + 1;
      assert r[k] == bs[ok];
    }
  }

  /** Putting in a block whose id is new keeps the ids distinct. */
  lemma InsertAtKeepsIdsDistinct(bs: seq<Block>, i: nat, x: Block)
    requires i <= |bs| && DistinctIds(bs)
    requires forall k :: 0 <= k < |bs| ==> bs[k].id != x.id
    ensures DistinctIds(InsertAt(bs, i, x))
  {
    var r := InsertAt(bs, i, x);
    forall a, b | 0 <= a < b < |r| ensures r[a].id != r[b].id {
      if a != i && b != i {
        var oa := if a < i then a else a - 1;
        var ob := if b < i then b else b - 1;
        assert r[a] == bs[oa] && r[b] == bs[ob];
      } else if a == i {
        assert r[b] == bs[b - 1];
      } else {
        assert r[a] == bs[a];
      }
    }
  }

  lemma InsertRemoveAt<T>(s: seq<T>, i: nat)
    requires i < |s|
    ensures InsertAt(RemoveAt(s, i), i, s[i]) == s
  {
  }

  /** `findIndex(b => b.id === id)`: the first index with that id, or -1. */
  function FindIndex(bs: seq<Block>, id: string): (k: int)
    ensures -1 <= k < |bs|
    ensures k == -1 <==> id !in Ids(bs)
    ensures k >= 0 ==> bs[k].id == id && forall j :: 0 <= j < k ==> bs[j].id != id
    decreases |bs|
  {
    if bs == [] then -1
    else if bs[0].id == id then 0
    else
      var k := FindIndex(bs[1..], id);
      assert Ids(bs) == [bs[0].id] + Ids(bs[1..]);
      if k == -1 then -1 else k + 1
  }

  /**
   * `handleDragEnd`: with distinct ids the dragged block moves to the old index of
   * the block it is dropped on. A drop outside any target (`over` null) throws on
   * `over.id` before any state is set, so the list stays as it was.
   */
  function Reordered(bs: seq<Block>, activeId: string, overId: Option<string>): (r: seq<Block>)
    requires activeId in Ids(bs)
    requires overId.Some? ==> overId.value in Ids(bs)
    ensures |r| == |bs| && multiset(r) == multiset(bs)
    ensures (overId.None? || overId.value == activeId) ==> r == bs
    ensures overId.Some? && overId.value != activeId ==>
      var from, to := FindIndex(bs, activeId), FindIndex(bs, overId.value);
      r[to] == bs[from] && RemoveAt(r, to) == RemoveAt(bs, from)
  {
    if overId.None? || activeId == overId.value then bs
    else ArrayMove(bs, FindIndex(bs, activeId), FindIndex(bs, overId.value))
  }

  /** A reorder moves one block, so it keeps distinct ids distinct. */
  lemma ReorderKeepsIdsDistinct(bs: seq<Block>, activeId: string, overId: Option<string>)
    requires DistinctIds(bs) && activeId in Ids(bs)
    requires overId.Some? ==> overId.value in Ids(bs)
    ensures DistinctIds(Reordered(bs, activeId, overId))
  {
    if overId.Some? && overId.value != activeId {
      var from, to := FindIndex(bs, activeId), FindIndex(bs, overId.value);
      var r := Reordered(bs, activeId, overId);
      InsertRemoveAt(r, to);
      assert r == InsertAt(RemoveAt(bs, from), to, bs[from]);
      RemoveAtKeepsIdsDistinct(bs, from);
      InsertAtKeepsIdsDistinct(RemoveAt(bs, from), to, bs[from]);
    }
  }

  // ---------------------------------------------------------------- metrics

  const MaxMetrics: nat := 6

  const EmptyMetric: Metric := Metric("", "")

  /** `addMetric`: one empty metric more while there are fewer than six. */
  function MetricsWithAdded(ms: seq<Metric>): (r: seq<Metric>)
    ensures |ms| < MaxMetrics ==> r == ms + [EmptyMetric]
    ensures |ms| >= MaxMetrics ==> r == ms
    ensures |r| <= MaxMetrics || r == ms
  {
    if |ms| < MaxMetrics then ms + [EmptyMetric] else ms
  }

  /** Adding repeatedly never takes the list past six entries. */
  lemma {:induction false} AddMetricBounded(ms: seq<Metric>, n: nat)
    requires |ms| <= MaxMetrics
    ensures |AddMetricTimes(ms, n)| == if |ms| + n <= MaxMetrics then |ms| + n else MaxMetrics
    decreases n
  {
    if n > 0 {
      AddMetricBounded(MetricsWithAdded(ms), n - 1);
    }
  }

  function AddMetricTimes(ms: seq<Metric>, n: nat): seq<Metric>
    decreases n
  {
    if n == 0 then ms else AddMetricTimes(MetricsWithAdded(ms), n - 1)
  }

  /** `removeMetric(index)`: every other entry stays, in order. */
  function MetricsWithout(ms: seq<Metric>, index: int): (r: seq<Metric>)
    ensures 0 <= index < |ms| ==> (|r| == |ms| - 1 &&
      (forall k :: 0 <= k < index ==> r[k] == ms[k]) &&
      (forall k :: index <= k < |r| ==> r[k] == ms[k + 1]))
    ensures !(0 <= index < |ms|) ==> r == ms
  {
    WithoutIndex(ms, index)
  }

  datatype MetricField = ValueField | LabelField

  /** `newMetrics[index][field] = value`: entry `index` gets the new field value, nothing else changes. */
  function MetricsWithChange(ms: seq<Metric>, index: nat, field: MetricField, value: string): (r: seq<Metric>)
    requires index < |ms|
    ensures |r| == |ms|
    ensures forall k :: 0 <= k < |ms| && k != index ==> r[k] == ms[k]
    ensures field == ValueField ==> r[index].value == value && r[index].labelText == ms[index].labelText
    ensures field == LabelField ==> r[index].labelText == value && r[index].value == ms[index].value
  {
    var m := ms[index];
    ms[index := if field == ValueField then m.(value := value) else m.(labelText := value)]
  }

  datatype ProjectField = NameField | RoleField | TimelineField

  /** `handleProjectChange`: `{ ...prev, [name]: value }`. */
  function ProjectWithChange(pd: ProjectData, field: ProjectField, value: string): (r: ProjectData)
    ensures field == NameField ==> r == pd.(name := value)
    ensures field == RoleField ==> r == pd.(role := value)
    ensures field == TimelineField ==> r == pd.(timeline := value)
  {
    match field
    case NameField => pd.(name := value)
    case RoleField => pd.(role := value)
    case TimelineField => pd.(timeline := value)
  }

  // ---------------------------------------------------------------- handlers

  method AddBlock(app: CaseStudyApp.App, kind: Kind, now: nat)
    requires app.Valid() && NewBlockId(now) !in Ids(app.blocks)
    modifies app`blocks
    ensures app.Valid()
    ensures app.blocks == BlocksWithAdded(old(app.blocks), kind, NewBlockId(now))
  {
    AddKeepsIdsDistinct(app.blocks, kind, NewBlockId(now));
    app.blocks := BlocksWithAdded(app.blocks, kind, NewBlockId(now));
  }

  method UpdateBlock(app: CaseStudyApp.App, id: string, updates: Patch)
    requires app.Valid()
    modifies app`blocks
    ensures app.Valid()
    ensures app.blocks == BlocksWithUpdate(old(app.blocks), id, updates)
  {
    UpdateKeepsIds(app.blocks, id, updates);
    var r := BlocksWithUpdate(app.blocks, id, updates);
    DistinctIdsFromIds(app.blocks, r);
    app.blocks := r;
  }

  method RemoveBlock(app: CaseStudyApp.App, id: string)
    requires app.Valid()
    modifies app`blocks
    ensures app.Valid()
    ensures app.blocks == BlocksWithout(old(app.blocks), id)
  {
    RemoveKeepsIdsDistinct(app.blocks, id);
    app.blocks := BlocksWithout(app.blocks, id);
  }

  method HandleDragEnd(app: CaseStudyApp.App, activeId: string, overId: Option<string>)
    requires app.Valid() && activeId in Ids(app.blocks)
    requires overId.Some? ==> overId.value in Ids(app.blocks)
    modifies app`blocks
    ensures app.Valid()
    ensures app.blocks == Reordered(old(app.blocks), activeId, overId)
  {
    ReorderKeepsIdsDistinct(app.blocks, activeId, overId);
    if overId.Some? && activeId != overId.value {
      app.blocks := Reordered(app.blocks, activeId, overId);
    }
  }

  method AddMetric(app: CaseStudyApp.App)
    modifies app`metrics
    ensures app.metrics == MetricsWithAdded(old(app.metrics))
  {
    if |app.metrics| < MaxMetrics {
      app.metrics := app.metrics + [EmptyMetric];
    }
  }

  method RemoveMetric(app: CaseStudyApp.App, index: int)
    modifies app`metrics
    ensures app.metrics == MetricsWithout(old(app.metrics), index)
  {
    app.metrics := MetricsWithout(app.metrics, index);
  }

  method HandleMetricChange(app: CaseStudyApp.App, index: nat, field: MetricField, value: string)
    requires index < |app.metrics|
    modifies app`metrics
    ensures app.metrics == MetricsWithChange(old(app.metrics), index, field, value)
  {
    app.metrics := MetricsWithChange(app.metrics, index, field, value);
  }

  method HandleProjectChange(app: CaseStudyApp.App, field: ProjectField, value: string)
    modifies app`projectData
    ensures app.projectData == ProjectWithChange(old(app.projectData), field, value)
  {
    app.projectData := ProjectWithChange(app.projectData, field, value);
  }
}
