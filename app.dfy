/**
 * The application state: which screen shows, the generation flag, the API key,
 * the chosen model and theme, and the document (project data, blocks, metrics).
 * Saved values from the browser's store arrive as parameters; writing them back
 * is not modelled.
 */
module CaseStudyApp {
  import opened Wrappers
  import opened Text
  import opened Blocks
  import AiService

  datatype ViewMode = EditMode | PreviewMode

  const DefaultModel: string := "gemini-1.5-flash"
  const DefaultTheme: string := "minimalist"

  const NameRequired: string := "Please provide at least a Project Name."
  const GenerateFailed: string := "Failed to generate case study. Please check your API key and try again.\n"

  function DefaultProjectData(): ProjectData {
    ProjectData("", "", "")
  }

  function DefaultMetrics(): (r: seq<Metric>)
    ensures |r| == 1 && !IsValidMetric(r[0])
  {
    [Metric("", "")]
  }

  const OverviewPrefix: string := "block-overview-"
  const ProblemPrefix: string := "block-problem-"
  const ProcessPrefix: string := "block-process-"
  const SolutionPrefix: string := "block-solution-"
  const SolutionImagePrefix: string := "block-solution-img-"
  const ResultsPrefix: string := "block-results-"

  /** The starter outline; every id ends in the same clock reading `ts`. */
  function DefaultBlocks(ts: nat): seq<Block> {
    var n := NatToString(ts);
    [ Text(OverviewPrefix + n, "Overview", "", ""),
      Text(ProblemPrefix + n, "The Challenge", "", ""),
      Text(ProcessPrefix + n, "Process & Discovery", "", ""),
      Text(SolutionPrefix + n, "The Solution", "", ""),
      Image(SolutionImagePrefix + n, Some([]), None),
      Text(ResultsPrefix + n, "Results & Impact", "", "") ]
  }

  /**
   * The starter outline has six blocks, five empty text sections and an empty
   * gallery in fifth place, and its ids are distinct for every clock reading.
   */
  lemma DefaultBlocksShape(ts: nat)
    ensures var r := DefaultBlocks(ts);
      |r| == 6 && DistinctIds(r) && r[4] == Image(r[4].id, Some([]), None) &&
      (forall k :: 0 <= k < 6 && k != 4 ==> r[k].Text? && r[k].content == "" && r[k].generatedContent == "") &&
      r[0].heading == "Overview" && r[1].heading == "The Challenge" &&
      r[2].heading == "Process & Discovery" && r[3].heading == "The Solution" &&
      r[5].heading == "Results & Impact"
  {
    var r := DefaultBlocks(ts);
    var n := NatToString(ts);
    PrefixLetters();
    forall i, j | 0 <= i < j < 6 ensures r[i].id != r[j].id {
      var p, q := IdPrefix(i), IdPrefix(j);
      assert r[i].id == p + n && r[j].id == q + n;
      var c := if i == 1 && j == 2 then 9 else if i == 3 && j == 4 then 15 else 6;
      assert (p + n)[c] != (q + n)[c];
    }
  }

  /** The id prefixes of the starter outline, in outline order. */
  function IdPrefix(k: nat): string
    requires k < 6
  {
    [OverviewPrefix, ProblemPrefix, ProcessPrefix, SolutionPrefix, SolutionImagePrefix, ResultsPrefix][k]
  }

  /**
   * The letters that tell the prefixes apart: the seventh letter, except that
   * "problem" and "process" differ at index 9, and "block-solution-" is a prefix
   * of "block-solution-img-", whose letter 'i' at index 15 meets a digit.
   */
  lemma PrefixLetters()
    ensures |OverviewPrefix| == 15 && |ProblemPrefix| == 14 && |ProcessPrefix| == 14
    ensures |SolutionPrefix| == 15 && |SolutionImagePrefix| == 19 && |ResultsPrefix| == 14
    ensures OverviewPrefix[6] == 'o' && ProblemPrefix[6] == 'p' && ProcessPrefix[6] == 'p'
    ensures SolutionPrefix[6] == 's' && SolutionImagePrefix[6] == 's' && ResultsPrefix[6] == 'r'
    ensures ProblemPrefix[9] == 'b' && ProcessPrefix[9] == 'c' && SolutionImagePrefix[15] == 'i'
  {
  }

  /**
   * The browser store as read on start-up: `""` for a missing plain setting,
   * `None` for a missing document part, otherwise that part as `JSON.parse` read it.
   */
  datatype Saved = Saved(
    aiModel: string,
    theme: string,
    projectData: Option<ProjectData>,
    blocks: Option<seq<Block>>,
    metrics: Option<seq<Metric>>)

  /** `blocks.map(b => b.type === 'text' ? { ...b, generatedContent: b.content } : b)`. */
  function NoKeyBlocks(bs: seq<Block>): (r: seq<Block>)
    ensures |r| == |bs| && Ids(r) == Ids(bs)
    ensures forall k :: 0 <= k < |bs| ==>
      SameKind(r[k], bs[k]) &&
      (bs[k].Text? ==> r[k] == bs[k].(generatedContent := bs[k].content)) &&
      (!bs[k].Text? ==> r[k] == bs[k])
    decreases |bs|
  {
    if bs == [] then []
    else
      var b := if bs[0].Text? then bs[0].(generatedContent := bs[0].content) else bs[0];
      [b] + NoKeyBlocks(bs[1..])
  }

  /** Without a key every text block then shows its raw notes, and doing it twice changes nothing more. */
  lemma NoKeyBlocksShowNotes(bs: seq<Block>)
    ensures var r := NoKeyBlocks(bs);
      NoKeyBlocks(r) == r &&
      forall k :: 0 <= k < |r| && r[k].Text? ==> DisplayCopy(r[k]) == bs[k].content
  {
    var r := NoKeyBlocks(bs);
    assert forall k :: 0 <= k < |r| ==> NoKeyBlocks(r)[k] == r[k];
  }

  // ----------------------------------------------------------- calling the service

  /** A JavaScript value passed as an argument to the service. */
  datatype JsArg = JsString(s: string) | JsProject(p: ProjectData) | JsBlocks(bs: seq<Block>)

  const NotAFunction: string := "blocks.filter is not a function"

  /**
   * Calling `generateCaseStudyText(apiKey, projectData, blocks)` with `args`:
   * parameters bind by position and extra arguments are dropped. Unless the third
   * argument is an array, `blocks.filter` throws a TypeError straight away.
   */
  function InvokeService(args: seq<JsArg>, reply: AiService.Reply, parse: string -> Option<AiService.Json>)
    : (r: Result<seq<Block>, string>)
    requires |args| >= 3
    ensures !args[2].JsBlocks? ==> r == Failure(NotAFunction)
    ensures args[0].JsString? && args[1].JsProject? && args[2].JsBlocks? ==>
      r == AiService.GenerateCaseStudyText(args[0].s, args[1].p, args[2].bs, reply, parse)
  {
    match args[2]
    case JsBlocks(bs) =>
      // a key or project of another type only reaches the request, which the outcome does not read
      var key := if args[0].JsString? then args[0].s else "";
      var pd := if args[1].JsProject? then args[1].p else ProjectData("undefined", "undefined", "undefined");
      AiService.GenerateCaseStudyText(key, pd, bs, reply, parse)
    case _ => Failure(NotAFunction)
  }

  /** The arguments as the click handler passes them: `(apiKey, aiModel, projectData, blocks)`. */
  function CallAsWritten(apiKey: string, aiModel: string, pd: ProjectData, bs: seq<Block>): seq<JsArg> {
    [JsString(apiKey), JsString(aiModel), JsProject(pd), JsBlocks(bs)]
  }

  /** The arguments in the order the service declares them: `(apiKey, projectData, blocks)`. */
  function CallCorrected(apiKey: string, pd: ProjectData, bs: seq<Block>): seq<JsArg> {
    [JsString(apiKey), JsProject(pd), JsBlocks(bs)]
  }

  /** As written, the key path fails whatever the provider answers: the project object lands in `blocks`. */
  lemma AsWrittenAlwaysFails(
    apiKey: string, aiModel: string, pd: ProjectData, bs: seq<Block>,
    reply: AiService.Reply, parse: string -> Option<AiService.Json>)
    ensures InvokeService(CallAsWritten(apiKey, aiModel, pd, bs), reply, parse) == Failure(NotAFunction)
  {
  }

  /**
   * With the arguments in declared order the key path can succeed: an empty reply
   * that the parser reads as `[]` brings the blocks back unchanged.
   */
  lemma CorrectedCallCanSucceed(apiKey: string, pd: ProjectData, bs: seq<Block>, parse: string -> Option<AiService.Json>)
    requires parse("[]") == Some(AiService.JArray([]))
    ensures InvokeService(CallCorrected(apiKey, pd, bs), AiService.Replied(""), parse) == Success(bs)
  {
    AiService.EmptyReplyKeepsBlocks(apiKey, pd, bs, parse);
  }

  // ----------------------------------------------------------- the component

  class App {
    var viewMode: ViewMode
    var isGenerating: bool
    var apiKey: string
    var aiModel: string
    var theme: string
    var projectData: ProjectData
    var blocks: seq<Block>
    var metrics: seq<Metric>

    /** Block ids are unique: the merge and the reorder look blocks up by id. */
    ghost predicate Valid()
      reads this
    {
      DistinctIds(blocks)
    }

    /** The initial state: saved values where the store has them, defaults otherwise. */
    constructor (saved: Saved, now: nat)
      requires saved.blocks.Some? ==> DistinctIds(saved.blocks.value)
      ensures Valid()
      ensures viewMode == EditMode && !isGenerating && apiKey == ""
      ensures aiModel == OrElse(saved.aiModel, DefaultModel)
      ensures theme == OrElse(saved.theme, DefaultTheme)
      ensures projectData == saved.projectData.GetOr(DefaultProjectData())
      ensures blocks == saved.blocks.GetOr(DefaultBlocks(now))
      ensures metrics == saved.metrics.GetOr(DefaultMetrics())
    {
      DefaultBlocksShape(now);
      viewMode := EditMode;
      isGenerating := false;
      apiKey := "";
      aiModel := OrElse(saved.aiModel, DefaultModel);
      theme := OrElse(saved.theme, DefaultTheme);
      projectData := saved.projectData.GetOr(DefaultProjectData());
      blocks := saved.blocks.GetOr(DefaultBlocks(now));
      metrics := saved.metrics.GetOr(DefaultMetrics());
    }

    /** The header button: switch between editor and preview. */
    method ToggleViewMode()
      modifies this`viewMode
      ensures viewMode == if old(viewMode) == EditMode then PreviewMode else EditMode
    {
      viewMode := if viewMode == EditMode then PreviewMode else EditMode;
    }

    /**
     * `handleClearData`: once confirmed, a fresh document with new ids; the theme,
     * the model and the key stay.
     */
    method HandleClearData(confirmed: bool, now: nat)
      requires Valid()
      modifies this`projectData, this`blocks, this`metrics
      ensures Valid()
      ensures confirmed ==>
        projectData == DefaultProjectData() && blocks == DefaultBlocks(now) && metrics == DefaultMetrics()
      ensures !confirmed ==>
        projectData == old(projectData) && blocks == old(blocks) && metrics == old(metrics)
    {
      if confirmed {
        DefaultBlocksShape(now);
        projectData := DefaultProjectData();
        blocks := DefaultBlocks(now);
        metrics := DefaultMetrics();
      }
    }

    /**
     * `handleGenerate`, with the service's outcome decided by `reply` and `parse`
     * and the arguments passed in declared order. Returns the alert it shows, if any.
     */
    method HandleGenerate(reply: AiService.Reply, parse: string -> Option<AiService.Json>)
      returns (alert: Option<string>)
      requires Valid()
      modifies this`blocks, this`viewMode, this`isGenerating
      ensures Valid()
      ensures projectData.name == "" ==>
        alert == Some(NameRequired) && blocks == old(blocks) && viewMode == old(viewMode) &&
        isGenerating == old(isGenerating)
      ensures projectData.name != "" && apiKey == "" ==>
        alert.None? && blocks == NoKeyBlocks(old(blocks)) && viewMode == PreviewMode &&
        isGenerating == old(isGenerating)
      ensures projectData.name != "" && apiKey != "" ==>
        !isGenerating &&
        match AiService.GenerateCaseStudyText(apiKey, projectData, old(blocks), reply, parse)
        case Success(updated) => alert.None? && blocks == updated && viewMode == PreviewMode
        case Failure(message) =>
          alert == Some(GenerateFailed + message) && blocks == old(blocks) && viewMode == old(viewMode)
    {
      if projectData.name == "" {
        return Some(NameRequired);
      }
      if apiKey == "" {
        var mapped := NoKeyBlocks(blocks);
        DistinctIdsFromIds(blocks, mapped);
        blocks := mapped;
        viewMode := PreviewMode;
        return None;
      }
      isGenerating := true;
      var outcome := InvokeService(CallCorrected(apiKey, projectData, blocks), reply, parse);
      match outcome {
        case Success(updated) =>
          DistinctIdsFromIds(blocks, updated);
          blocks := updated;
          viewMode := PreviewMode;
          alert := None;
        case Failure(message) =>
          alert := Some(GenerateFailed + message);
      }
      isGenerating := false;
    }
  }
}
