/**
 * The text-expansion service: it builds one prompt from the text blocks, sends it
 * to the message-completion endpoint, cleans the reply of code fences, parses it as
 * JSON and merges the returned `generatedContent` values back into the blocks by id.
 *
 * The network call is not modelled: the reply is an input (`Reply`), and
 * `JSON.parse` is an input too (`parse`), a partial function from text to a JSON
 * value, `None` standing for a syntax error.
 */
module AiService {
  import opened Wrappers
  import opened Text
  import opened Blocks

  // ---------------------------------------------------------------- request

  /** `blocks.filter(b => b.type === 'text')`. */
  function TextBlocks(bs: seq<Block>): (r: seq<Block>)
    ensures |r| <= |bs|
    ensures forall k :: 0 <= k < |r| ==> r[k].Text? && r[k] in bs
    ensures forall b :: b in bs && b.Text? ==> b in r
    decreases |bs|
  {
    if bs == [] then []
    else (if bs[0].Text? then [bs[0]] else []) + TextBlocks(bs[1..])
  }

  /** Selection distributes over concatenation, so list order is kept. */
  lemma {:induction false} TextBlocksAppend(a: seq<Block>, b: seq<Block>)
    ensures TextBlocks(a + b) == TextBlocks(a) + TextBlocks(b)
    decreases |a|
  {
    if a == [] {
      assert a + b == b;
    } else {
      assert (a + b)[1..] == a[1..] + b;
      TextBlocksAppend(a[1..], b);
    }
  }

  /** Selecting twice selects nothing more. */
  lemma {:induction false} TextBlocksIdempotent(bs: seq<Block>)
    ensures TextBlocks(TextBlocks(bs)) == TextBlocks(bs)
    decreases |bs|
  {
    if bs != [] {
      TextBlocksIdempotent(bs[1..]);
      var head := if bs[0].Text? then [bs[0]] else [];
      TextBlocksAppend(head, TextBlocks(bs[1..]));
      assert TextBlocks(head) == head;
    }
  }

  /** One block's entry in the prompt: "Block ID / Heading / Notes" on three lines. */
  function Note(b: Block): string
    requires b.Text?
  {
    "Block ID: " + b.id + "\nHeading: " + b.heading + "\nNotes: " + b.content
  }

  function Notes(bs: seq<Block>): (r: seq<string>)
    requires forall k :: 0 <= k < |bs| ==> bs[k].Text?
    ensures |r| == |bs| && forall k :: 0 <= k < |bs| ==> r[k] == Note(bs[k])
    decreases |bs|
  {
    if bs == [] then [] else [Note(bs[0])] + Notes(bs[1..])
  }

  /** `formattedNotes`: the notes of the text blocks, joined by blank lines. */
  function FormattedNotes(bs: seq<Block>): string {
    Join(Notes(TextBlocks(bs)), "\n\n")
  }

  lemma {:induction false} JoinSnoc(parts: seq<string>, x: string, sep: string)
    ensures Join(parts + [x], sep) == if parts == [] then x else Join(parts, sep) + sep + x
    decreases |parts|
  {
    if |parts| == 1 {
      assert parts + [x] == [parts[0], x];
    } else if |parts| > 1 {
      assert (parts + [x])[1..] == parts[1..] + [x];
      JoinSnoc(parts[1..], x, sep);
    }
  }

  /**
   * Appending a block to the document grows the notes by that block's entry when it
   * is a text block, after a blank line when there were notes already, and leaves
   * them as they were otherwise.
   */
  lemma FormattedNotesSnoc(bs: seq<Block>, b: Block)
    ensures FormattedNotes(bs + [b]) ==
      if !b.Text? then FormattedNotes(bs)
      else if TextBlocks(bs) == [] then Note(b)
      else FormattedNotes(bs) + "\n\n" + Note(b)
  {
    var t := TextBlocks(bs);
    TextBlocksAppend(bs, [b]);
    assert TextBlocks([b]) == if b.Text? then [b] else [] by {
      assert ([b])[1..] == [];
    }
    if b.Text? {
      assert TextBlocks(bs + [b]) == t + [b];
      var n := Notes(t);
      NotesSnoc(t, b);
      JoinSnoc(n, Note(b), "\n\n");
    } else {
      assert TextBlocks(bs + [b]) == t;
    }
  }

  lemma {:induction false} NotesSnoc(t: seq<Block>, b: Block)
    requires b.Text? && forall k :: 0 <= k < |t| ==> t[k].Text?
    ensures Notes(t + [b]) == Notes(t) + [Note(b)]
    ensures Notes(t) == [] <==> t == []
  {
    assert forall k :: 0 <= k < |t + [b]| ==> (t + [b])[k].Text? by {
      forall k | 0 <= k < |t + [b]| ensures (t + [b])[k].Text? {
        if k < |t| {
          assert (t + [b])[k] == t[k];
        }
      }
    }
    var l, r := Notes(t + [b]), Notes(t) + [Note(b)];
    assert |l| == |r|;
    forall k | 0 <= k < |l| ensures l[k] == r[k] {
      if k < |t| {
        assert (t + [b])[k] == t[k];
      } else {
        assert (t + [b])[k] == b;
      }
    }
  }

  /** A document without text blocks contributes no notes at all. */
  lemma {:induction false} FormattedNotesWithoutText(bs: seq<Block>)
    requires forall k :: 0 <= k < |bs| ==> !bs[k].Text?
    ensures FormattedNotes(bs) == ""
    decreases |bs|
  {
    if bs != [] {
      FormattedNotesWithoutText(bs[1..]);
      assert TextBlocks(bs) == TextBlocks(bs[1..]);
    }
  }

  const Endpoint: string := "/api/anthropic/v1/messages"
  const ModelName: string := "claude-3-5-sonnet-20241022"
  const MaxTokens: nat := 2000
  const SystemInstruction: string :=
    "You are an expert UX design portfolio copywriter. Follow instructions exactly and return ONLY valid JSON."
  const PromptIntro: string :=
    "\nI am providing notes for a UX design case study. Please expand these notes into polished, professional copy for a portfolio.\n\nPROJECT CONTEXT:\n"
  const PromptRules: string :=
    "\n\nRULES:\n"
    + "1. Preserve facts: NEVER invent, round, or modify any numbers, names, or specific claims that I provided.\n"
    + "2. POV: Write in the first person (\"I\" / \"we\").\n"
    + "3. Tone: Professional but human, confident, no fluff. Do not use buzzwords.\n"
    + "4. Length: Proportional expansion. If I wrote 1 sentence, expand to 2-3 sentences. If I wrote a full paragraph, refine it rather than expanding.\n"
    + "5. Provide the output in strictly valid JSON format. The JSON should be an array of objects, where each object has \"id\" and \"generatedContent\".\n"
    + "Do not wrap the JSON in markdown blocks, just return the raw JSON array string.\n"

  /** What the service posts: endpoint, key header, model, token cap, system text and prompt. */
  datatype Request = Request(
    url: string, apiKey: string, model: string, maxTokens: nat, system: string, prompt: string)

  function Prompt(pd: ProjectData, notes: string): string {
    PromptIntro + "Name: " + pd.name + "\nRole: " + pd.role + "\nTimeline: " + pd.timeline
    + "\n\nNOTES TO EXPAND BY BLOCK ID:\n" + notes + PromptRules
  }

  function BuildRequest(apiKey: string, pd: ProjectData, bs: seq<Block>): Request {
    Request(Endpoint, apiKey, ModelName, MaxTokens, SystemInstruction, Prompt(pd, FormattedNotes(bs)))
  }

  /** Only the text blocks reach the model: dropping every other block sends the same request. */
  lemma RequestSeesOnlyTextBlocks(apiKey: string, pd: ProjectData, bs: seq<Block>)
    ensures BuildRequest(apiKey, pd, bs) == BuildRequest(apiKey, pd, TextBlocks(bs))
  {
    TextBlocksIdempotent(bs);
  }

  // ---------------------------------------------------------------- reply

  /**
   * An element of the parsed array. `Entry` is an object with a string `id`;
   * `NoId` is any other non-null value (its `id` is `undefined` and never equals a
   * block id); `NullItem` is `null`, whose `.id` throws a TypeError.
   */
  datatype Item = Entry(id: string, generatedContent: string) | NoId | NullItem

  /** A parsed JSON value: an array, or anything else (which has no `find`). */
  datatype Json = JArray(items: seq<Item>) | JOther

  /** The provider's answer, as far as the service looks at it. */
  datatype Reply =
      /** `fetch` rejected, or an ok response had a body that is not JSON: the error propagates. */
    | Rejected(message: string)
      /** `!response.ok`; `providerMessage` is `errorData.error.message`, `""` when absent. */
    | NotOk(status: nat, statusText: string, providerMessage: string)
      /** `data.content[0].text`, `""` when absent. */
    | Replied(text: string)

  datatype FindOutcome = Found(text: string) | Missing | Throws

  /** `items.find(g => g.id === id)`, including the TypeError a `null` element raises. */
  function Find(items: seq<Item>, id: string): (r: FindOutcome)
    ensures r.Found? ==> exists k :: 0 <= k < |items| && items[k] == Entry(id, r.text)
    ensures r.Missing? ==> forall k :: 0 <= k < |items| ==> items[k] != NullItem && !(items[k].Entry? && items[k].id == id)
    decreases |items|
  {
    if items == [] then Missing
    else match items[0]
      case NullItem => Throws
      case NoId => Find(items[1..], id)
      case Entry(eid, text) => if eid == id then Found(text) else Find(items[1..], id)
  }

  /** `find` answers with the first matching entry. */
  lemma {:induction false} FindFirst(items: seq<Item>, id: string, k: nat)
    requires k < |items| && items[k].Entry? && items[k].id == id
    requires forall j :: 0 <= j < k ==> items[j].NoId? || (items[j].Entry? && items[j].id != id)
    ensures Find(items, id) == Found(items[k].generatedContent)
    decreases k
  {
    if k > 0 {
      FindFirst(items[1..], id, k - 1);
    }
  }

  /** One block of `blocks.map(...)`: only text blocks consult the mapping. */
  function MergeBlock(b: Block, mapping: Json): Option<Block> {
    if !b.Text? then Some(b)
    else if mapping.JOther? then None
    else match Find(mapping.items, b.id)
      case Throws => None
      case Missing => Some(b)
      case Found(g) => Some(b.(generatedContent := g))
  }

  /** The id-keyed merge; `None` when it throws (so the whole reply is rejected). */
  function Merge(bs: seq<Block>, mapping: Json): (r: Option<seq<Block>>)
    ensures r.Some? ==> |r.value| == |bs|
    ensures r.Some? <==> forall k :: 0 <= k < |bs| ==> MergeBlock(bs[k], mapping).Some?
    ensures r.Some? ==> forall k :: 0 <= k < |bs| ==> r.value[k] == MergeBlock(bs[k], mapping).value
    decreases |bs|
  {
    if bs == [] then Some([])
    else
      match MergeBlock(bs[0], mapping)
      case None => None
      case Some(b) =>
        match Merge(bs[1..], mapping)
        case None =>
          assert forall k :: 1 <= k < |bs| ==> bs[1..][k - 1] == bs[k];
          None
        case Some(rest) =>
          assert forall k :: 1 <= k < |bs| ==> bs[1..][k - 1] == bs[k];
          Some([b] + rest)
  }

  /**
   * A successful merge keeps length, ids and order; every non-text block and every
   * text block without a matching entry is returned as it was; a matched text block
   * changes only `generatedContent`, taken from the first matching entry.
   */
  lemma MergeShape(bs: seq<Block>, mapping: Json)
    requires Merge(bs, mapping).Some?
    ensures var r := Merge(bs, mapping).value;
      |r| == |bs| && Ids(r) == Ids(bs) &&
      forall k :: 0 <= k < |bs| ==>
        SameKind(r[k], bs[k]) &&
        (!bs[k].Text? ==> r[k] == bs[k]) &&
        (bs[k].Text? ==> match Find(mapping.items, bs[k].id)
                         case Found(g) => r[k] == bs[k].(generatedContent := g)
                         case Missing => r[k] == bs[k]
                         case Throws => false)
  {
    var r := Merge(bs, mapping).value;
    forall k | 0 <= k < |bs|
      ensures r[k].id == bs[k].id && SameKind(r[k], bs[k]) && (!bs[k].Text? ==> r[k] == bs[k])
      ensures bs[k].Text? ==> match Find(mapping.items, bs[k].id)
                              case Found(g) => r[k] == bs[k].(generatedContent := g)
                              case Missing => r[k] == bs[k]
                              case Throws => false
    {
      MergeBlockShape(bs[k], mapping);
    }
    assert forall k :: 0 <= k < |bs| ==> Ids(r)[k] == Ids(bs)[k];
  }

  /** One block of a successful merge: same id and kind, and only `generatedContent` can change. */
  lemma MergeBlockShape(b: Block, mapping: Json)
    requires MergeBlock(b, mapping).Some?
    ensures var r := MergeBlock(b, mapping).value;
      r.id == b.id && SameKind(r, b) && (!b.Text? ==> r == b) &&
      (b.Text? ==> match Find(mapping.items, b.id)
                   case Found(g) => r == b.(generatedContent := g)
                   case Missing => r == b
                   case Throws => false)
  {
  }

  /** Merging the same mapping again changes nothing. */
  lemma MergeIdempotent(bs: seq<Block>, mapping: Json)
    requires Merge(bs, mapping).Some?
    ensures Merge(Merge(bs, mapping).value, mapping) == Merge(bs, mapping)
  {
    var r := Merge(bs, mapping).value;
    forall k | 0 <= k < |r| ensures MergeBlock(r[k], mapping) == Some(r[k]) {
      assert MergeBlock(bs[k], mapping).Some?;
    }
    var r2 := Merge(r, mapping).value;
    assert r2 == r;
  }

  /** The merge throws exactly when some text block's lookup throws. */
  lemma MergeFailsIff(bs: seq<Block>, mapping: Json)
    ensures Merge(bs, mapping).None? <==>
      exists k :: 0 <= k < |bs| && bs[k].Text? &&
        (mapping.JOther? || Find(mapping.items, bs[k].id).Throws?)
  {
    if Merge(bs, mapping).None? {
      var k :| 0 <= k < |bs| && MergeBlock(bs[k], mapping).None?;
    }
  }

  /** An array with no `null` element never makes the merge throw. */
  lemma {:induction false} MergeTotalWithoutNull(bs: seq<Block>, items: seq<Item>)
    requires forall j :: 0 <= j < |items| ==> items[j] != NullItem
    ensures Merge(bs, JArray(items)).Some?
  {
    forall k | 0 <= k < |bs| ensures MergeBlock(bs[k], JArray(items)).Some? {
      FindNeverThrows(items, bs[k].id);
    }
  }

  lemma {:induction false} FindNeverThrows(items: seq<Item>, id: string)
    requires forall j :: 0 <= j < |items| ==> items[j] != NullItem
    ensures !Find(items, id).Throws?
    decreases |items|
  {
    if items != [] {
      FindNeverThrows(items[1..], id);
    }
  }

  /** The empty array leaves every block as it was. */
  lemma MergeEmptyIsIdentity(bs: seq<Block>)
    ensures Merge(bs, JArray([])) == Some(bs)
  {
    var r := Merge(bs, JArray([]));
    assert r.Some?;
    assert r.value == bs;
  }

  /** Without text blocks, `find` never runs, so even a non-array value is accepted. */
  lemma MergeWithoutTextBlocks(bs: seq<Block>, mapping: Json)
    requires forall k :: 0 <= k < |bs| ==> !bs[k].Text?
    ensures Merge(bs, mapping) == Some(bs)
  {
    var r := Merge(bs, mapping);
    assert r.Some?;
    assert r.value == bs;
  }

  // ---------------------------------------------------------------- cleanup

  /**
   * `textOutput.replace(/```json\\n/g, '').replace(/```/g, '').trim()`. The first
   * pattern is a backtick fence, `json`, a backslash and the letter `n` (not a line
   * break), so only the bare fence removal and the trim act on a usual reply.
   */
  function Cleanup(text: string): (r: string)
    ensures !Contains(r, Fence)
    ensures r == [] || (!IsJsWhitespace(r[0]) && !IsJsWhitespace(r[|r| - 1]))
  {
    var withoutTag := ReplaceAll(text, "```json\\n", "");
    var withoutFences := ReplaceAll(withoutTag, Fence, "");
    RemoveFenceLeavesNone(withoutTag);
    TrimPreservesAbsence(withoutFences, Fence);
    TrimEnds(withoutFences);
    Trim(withoutFences)
  }

  /** A reply already free of fences and outer whitespace passes through cleanup unchanged. */
  lemma CleanupOfCleanText(text: string)
    requires !Contains(text, Fence)
    requires text == [] || (!IsJsWhitespace(text[0]) && !IsJsWhitespace(text[|text| - 1]))
    ensures Cleanup(text) == text
  {
    assert Fence <= "```json\\n";
    LongerPatternAbsent(text, Fence, "```json\\n");
    NoPatternNoReplace(text, "```json\\n");
    NoPatternNoReplace(text, Fence);
    TrimOfTrimmed(text);
  }

  lemma {:induction false} LongerPatternAbsent(s: string, p: string, q: string)
    requires p <= q && !Contains(s, p)
    ensures !Contains(s, q)
    decreases |s|
  {
    if |q| <= |s| {
      assert s[..|q|][..|p|] == s[..|p|];
    }
    if |s| > 0 {
      LongerPatternAbsent(s[1..], p, q);
    }
  }

  lemma {:induction false} NoPatternNoReplace(s: string, pat: string)
    requires pat != [] && !Contains(s, pat)
    ensures ReplaceAll(s, pat, "") == s
    decreases |s|
  {
    if |s| >= |pat| {
      NoPatternNoReplace(s[1..], pat);
    }
  }

  lemma TrimOfTrimmed(s: string)
    requires s == [] || (!IsJsWhitespace(s[0]) && !IsJsWhitespace(s[|s| - 1]))
    ensures Trim(s) == s
  {
  }

  // ---------------------------------------------------------------- outcome

  const InvalidFormat: string := "The AI returned an invalid format. Please try again."

  /** The message thrown for a non-ok response. */
  function RequestErrorMessage(status: nat, statusText: string, providerMessage: string): (m: string)
    ensures providerMessage != "" ==> m == providerMessage
    ensures providerMessage == "" ==> m == "API Error: " + NatToString(status) + " " + statusText
  {
    if providerMessage != "" then providerMessage
    else "API Error: " + NatToString(status) + " " + statusText
  }

  /**
   * `generateCaseStudyText(apiKey, projectData, blocks)` by its declared parameters:
   * the blocks it resolves to, or the message of the error it throws.
   */
  function GenerateCaseStudyText(
    apiKey: string, pd: ProjectData, bs: seq<Block>, reply: Reply, parse: string -> Option<Json>)
    : (r: Result<seq<Block>, string>)
    ensures r.Success? ==> reply.Replied? && |r.value| == |bs| && Ids(r.value) == Ids(bs)
  {
    match reply
    case Rejected(message) => Failure(message)
    case NotOk(status, statusText, providerMessage) =>
      Failure(RequestErrorMessage(status, statusText, providerMessage))
    case Replied(text) =>
      var textOutput := if text != "" then text else "[]";
      match parse(Cleanup(textOutput))
      case None => Failure(InvalidFormat)
      case Some(mapping) =>
        match Merge(bs, mapping)
        case None => Failure(InvalidFormat)
        case Some(updated) => MergeShape(bs, mapping); Success(updated)
  }

  /**
   * A delivered reply whose cleaned text parses to `mapping` succeeds exactly when
   * the merge does, with the merged blocks; otherwise, a `null` reached by a lookup
   * or a non-array mapping among them, it fails with the invalid-format error.
   */
  lemma RepliedOutcome(
    apiKey: string, pd: ProjectData, bs: seq<Block>, text: string, parse: string -> Option<Json>, mapping: Json)
    requires parse(Cleanup(if text != "" then text else "[]")) == Some(mapping)
    ensures var r := GenerateCaseStudyText(apiKey, pd, bs, Replied(text), parse);
      (r.Success? <==> Merge(bs, mapping).Some?) &&
      (r.Success? ==> r.value == Merge(bs, mapping).value) &&
      (r.Failure? ==> r.error == InvalidFormat)
  {
  }

  /** With a parser that reads "[]" as the empty array, an empty reply returns the blocks unchanged. */
  lemma EmptyReplyKeepsBlocks(apiKey: string, pd: ProjectData, bs: seq<Block>, parse: string -> Option<Json>)
    requires parse("[]") == Some(JArray([]))
    ensures GenerateCaseStudyText(apiKey, pd, bs, Replied(""), parse) == Success(bs)
  {
    CleanupBrackets();
    MergeEmptyIsIdentity(bs);
  }

  lemma CleanupBrackets()
    ensures Cleanup("[]") == "[]"
  {
    assert !Contains("[]", Fence) by { ShortAbsence("[]", Fence); }
    CleanupOfCleanText("[]");
  }

  /** A reply that does not parse is an invalid-format error; no blocks come back. */
  lemma UnparseableReplyFails(
    apiKey: string, pd: ProjectData, bs: seq<Block>, text: string, parse: string -> Option<Json>)
    requires text != "" && parse(Cleanup(text)) == None
    ensures GenerateCaseStudyText(apiKey, pd, bs, Replied(text), parse) == Failure(InvalidFormat)
  {
  }

  /** With at least one text block, a parsed value that is not an array is an invalid-format error. */
  lemma NonArrayReplyFails(
    apiKey: string, pd: ProjectData, bs: seq<Block>, text: string, parse: string -> Option<Json>)
    requires text != "" && parse(Cleanup(text)) == Some(JOther)
    requires exists k :: 0 <= k < |bs| && bs[k].Text?
    ensures GenerateCaseStudyText(apiKey, pd, bs, Replied(text), parse) == Failure(InvalidFormat)
  {
    MergeFailsIff(bs, JOther);
  }

  /** A non-ok response fails with the provider's message, or with the status line. */
  lemma NotOkFails(
    apiKey: string, pd: ProjectData, bs: seq<Block>, status: nat, statusText: string,
    providerMessage: string, parse: string -> Option<Json>)
    ensures var r := GenerateCaseStudyText(apiKey, pd, bs, NotOk(status, statusText, providerMessage), parse);
      r.Failure? && (providerMessage != "" ==> r.error == providerMessage) &&
      (providerMessage == "" ==> StartsWith(r.error, "API Error: "))
  {
    var m := RequestErrorMessage(status, statusText, providerMessage);
    if providerMessage == "" {
      assert m == "API Error: " + (NatToString(status) + " " + statusText);
    }
  }
}
