/** The outline entry of a block in the editor's sortable list: its title. */
module SortableBlock {
  import opened Wrappers
  import opened Text
  import opened Blocks
  import Preview

  const LinkIcon: string := "\U{1F517} "

  /** `getTitle`: the heading, a fixed name per kind, or the link's label behind the link icon. */
  function Title(b: Block): (t: string)
    ensures t != ""
  {
    match b
    case Text(_, heading, _, _) => OrElse(heading, "Untitled Text Section")
    case Image(_, _, _) => "Image Gallery"
    case Link(_, labelText, _) => if labelText != "" then LinkIcon + labelText else "External Link"
    case Embed(_, _) => "Live Embed"
    case Other(_) => "Unknown Block"
  }

  /**
   * A link's title carries the link icon exactly when it has a label, and is
   * then the icon followed by that label; a text block's title is its heading
   * when set, which is also the heading its preview section shows.
   */
  lemma TitleRules(b: Block)
    ensures b.Link? ==> (StartsWith(Title(b), LinkIcon) <==> b.labelText != "")
    ensures b.Link? && b.labelText != "" ==> Title(b)[|LinkIcon|..] == b.labelText
    ensures b.Text? && b.heading != "" ==>
      Title(b) == b.heading && Preview.PreviewBlock(b) == Some(Preview.TextSection(Some(Title(b)), Preview.Present(DisplayCopy(b))))
    ensures b.Text? && b.heading == "" ==> Title(b) == "Untitled Text Section"
  {
    if b.Link? && b.labelText == "" {
      assert "External Link"[0] != LinkIcon[0];
    }
  }
}
