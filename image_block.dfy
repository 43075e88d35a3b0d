/**
 * The image gallery form. Each handler builds the partial object it hands to
 * `onUpdate` for its own block: the image list after a removal or an upload,
 * or the new caption. Reading the chosen files into data URLs is not part of
 * this model; an upload receives those data URLs, in file order.
 */
module ImageBlock {
  import opened Wrappers
  import opened Blocks
  import Seqs
  import EditorForm

  /** A partial object that sets only the image list. */
  predicate OnlyImages(p: Patch) {
    p == NoChange.(images := p.images) && p.images.Some?
  }

  /**
   * `removeImage(i)`: the list without its entry at i, the others in order; an
   * index outside the list leaves it as it is. The button only exists for an
   * image that is shown, so the list is present.
   */
  function RemoveImage(block: Block, index: int): (u: BlockUpdate)
    requires block.Image? && block.images.Some?
    ensures u.id == block.id && OnlyImages(u.updates)
    ensures var imgs := block.images.value; var r := u.updates.images.value;
      (0 <= index < |imgs| ==> |r| == |imgs| - 1 && r[..index] == imgs[..index] && r[index..] == imgs[index + 1..]) &&
      (!(0 <= index < |imgs|) ==> r == imgs)
  {
    var r := Seqs.WithoutIndex(block.images.value, index);
    BlockUpdate(block.id, NoChange.(images := Some(r)))
  }

  /** The `handleFiles` update: the current images, or none when missing, followed by the uploads in file order. */
  function AppendUploads(block: Block, uploaded: seq<string>): (u: BlockUpdate)
    requires block.Image?
    ensures u.id == block.id && OnlyImages(u.updates)
    ensures var r := u.updates.images.value;
      |r| == |block.images.GetOr([])| + |uploaded| &&
      r[..|block.images.GetOr([])|] == block.images.GetOr([]) &&
      r[|block.images.GetOr([])|..] == uploaded
  {
    var r := block.images.GetOr([]) + uploaded;
    assert r[..|block.images.GetOr([])|] == block.images.GetOr([]);
    BlockUpdate(block.id, NoChange.(images := Some(r)))
  }

  /** The caption field: `{ caption: value }`. */
  function CaptionChange(block: Block, value: string): (u: BlockUpdate)
    ensures u.id == block.id && u.updates == NoChange.(caption := Some(value))
  {
    BlockUpdate(block.id, NoChange.(caption := Some(value)))
  }

  /** Two uploads in a row leave the same list as one upload of both batches. */
  lemma UploadsAccumulate(block: Block, first: seq<string>, second: seq<string>)
    requires block.Image?
    ensures var after := ApplyPatch(block, AppendUploads(block, first).updates);
      after.Image? &&
      AppendUploads(after, second).updates == AppendUploads(block, first + second).updates
  {
    var before := block.images.GetOr([]);
    assert (before + first) + second == before + (first + second);
  }

  /** Removing the image that was just uploaded restores the list from before the upload. */
  lemma RemoveUndoesUpload(block: Block, image: string)
    requires block.Image?
    ensures var after := ApplyPatch(block, AppendUploads(block, [image]).updates);
      after.Image? && after.images.Some? &&
      RemoveImage(after, |block.images.GetOr([])|).updates.images == Some(block.images.GetOr([]))
  {
    var before := block.images.GetOr([]);
    var imgs := before + [image];
    var after := ApplyPatch(block, AppendUploads(block, [image]).updates);
    assert after.images == Some(imgs);
    var r := RemoveImage(after, |before|).updates.images.value;
    assert imgs[..|before|] == before;
    assert |r| == |before| && r[..|before|] == before;
    assert r == r[..|r|];
  }

  /**
   * Through the block store, an image-list update replaces the list of the
   * image block with that id and keeps its caption; every other block is
   * unchanged.
   */
  lemma ImagesUpdateEffect(bs: seq<Block>, u: BlockUpdate)
    requires OnlyImages(u.updates)
    ensures var r := EditorForm.BlocksWithUpdate(bs, u.id, u.updates);
      |r| == |bs| &&
      forall k :: 0 <= k < |bs| ==>
        (bs[k].id == u.id && bs[k].Image? ==> r[k] == bs[k].(images := u.updates.images)) &&
        (!(bs[k].id == u.id && bs[k].Image?) ==> r[k] == bs[k])
  {
  }

  /** Through the block store, a caption update changes only the caption of the image block with that id. */
  lemma CaptionUpdateEffect(bs: seq<Block>, block: Block, value: string)
    ensures var u := CaptionChange(block, value);
      var r := EditorForm.BlocksWithUpdate(bs, u.id, u.updates);
      |r| == |bs| &&
      forall k :: 0 <= k < |bs| ==>
        (bs[k].id == block.id && bs[k].Image? ==> r[k] == bs[k].(caption := Some(value))) &&
        (!(bs[k].id == block.id && bs[k].Image?) ==> r[k] == bs[k])
  {
  }
}
