/**
 * `ImageEditBlock`: the editor of an image block. It keeps a local `image`
 * (the URL) seeded from `properties.image`, resets it when the incoming
 * `properties.image` changes, and sends `{ ...props, properties:
 * { ...props.properties, image } }` to `updateBlock` whenever the local
 * image changes, and once when it mounts. A preview is shown while the URL
 * is not empty. Each React effect is one synchronous step of a method here.
 */
module ImageEditBlock {
  import opened Wrappers
  import opened BlockTree
  import opened EditableBlocksContext
  import opened EditWrapper

  /** The update the image effect sends. */
  function ImageUpdate(props: Block, image: string): (u: Block)
    ensures DiffersOnlyInProperty(u, props, "image")
    ensures TextProperty(u, "image") == image
  {
    WithProperty(props, "image", image)
  }

  /**
   * Sending the image update of the block at `p` to the mutator changes
   * that block's `properties.image` and nothing else in the tree.
   */
  lemma ImageEditChangesOnlyImage(bs: seq<Block>, p: Path, image: string)
    requires Unique(bs) && NodeAt(bs, p).Some?
    ensures var b, r := NodeAt(bs, p).value, UpdateBlockById(bs, ImageUpdate(NodeAt(bs, p).value, image));
      r == ReplaceAt(bs, p, ImageUpdate(b, image)) && Unique(r) &&
      NodeAt(r, p).Some? && DiffersOnlyInProperty(NodeAt(r, p).value, b, "image") &&
      TextProperty(NodeAt(r, p).value, "image") == image
  {
    UpdateExistingBlock(bs, p, ImageUpdate(NodeAt(bs, p).value, image));
  }

  class ImageEditBlock {
    /** The props of the latest render. */
    var props: Block
    /** The local `image` state. */
    var image: string
    /** The provider `useEditableBlocks` returned. */
    const provider: EditableBlocksProvider

    /**
     * Mount: `useState(props.properties.image || "")`; the reset effect
     * sets the same value, and the image effect sends the update once.
     */
    constructor (initialProps: Block, ctx: EditableBlocksProvider)
      modifies ctx
      ensures props == initialProps && provider == ctx
      ensures image == TextProperty(initialProps, "image")
      ensures ctx.editableBlocks == UpdateBlockById(old(ctx.editableBlocks), ImageUpdate(initialProps, image))
    {
      props := initialProps;
      provider := ctx;
      image := TextProperty(initialProps, "image");
      new;
      provider.UpdateBlock(ImageUpdate(props, image));
    }

    /**
     * Typing in the URL input: `setImage(e.target.value)`. React re-renders only when the
     * value differs, and then the image effect sends the update.
     */
    method Type(value: string)
      modifies this, provider
      ensures props == old(props) && image == value
      ensures provider.editableBlocks ==
        if value == old(image) then old(provider.editableBlocks)
        else UpdateBlockById(old(provider.editableBlocks), ImageUpdate(props, value))
    {
      if value != image {
        image := value;
        provider.UpdateBlock(ImageUpdate(props, image));
      }
    }

    /**
     * A re-render with new props. When `properties.image` changed, the
     * reset effect sets the local image to it (or ""); when that changes
     * the local image, the image effect sends the update built from the
     * new props. The echo of the editor's own update changes nothing.
     */
    method ReceiveProps(next: Block)
      modifies this, provider
      ensures props == next
      ensures image ==
        if RawProperty(next, "image") != RawProperty(old(props), "image") then TextProperty(next, "image")
        else old(image)
      ensures provider.editableBlocks ==
        if image == old(image) then old(provider.editableBlocks)
        else UpdateBlockById(old(provider.editableBlocks), ImageUpdate(next, image))
      ensures next == ImageUpdate(old(props), old(image)) ==>
        image == old(image) && provider.editableBlocks == old(provider.editableBlocks)
    {
      var previous := RawProperty(props, "image");
      props := next;
      if RawProperty(next, "image") != previous {
        var reset := TextProperty(next, "image");
        if reset != image {
          image := reset;
          provider.UpdateBlock(ImageUpdate(props, image));
        }
      }
    }

    /** The wrapper's menu item: `updateBlock({ ...props, visible })` with the negated flag. */
    method ClickVisibility()
      modifies provider
      ensures provider.editableBlocks == UpdateBlockById(old(provider.editableBlocks), VisibilityUpdate(props))
    {
      provider.UpdateBlock(VisibilityUpdate(props));
    }

    /** The URL input is disabled while the block is hidden. */
    function InputDisabled(): (d: bool)
      reads this
      ensures d <==> !IsVisible(props)
    {
      !IsVisible(props)
    }

    /** `{image && <img src={image} />}`: the preview, shown only for a non-empty URL. */
    function Preview(): (src: Option<string>)
      reads this
      ensures src.Some? <==> image != ""
      ensures src.Some? ==> src.value == image
    {
      if image != "" then Some(image) else None
    }

    /** The wrapper, with its button inset. */
    function Wrapper(): (w: WrapperView)
      reads this
      ensures Dimmed(w) <==> !IsVisible(props)
      ensures w.buttonPosition == InsetButtonClass
    {
      EditBlockWrapper(IsVisible(props), true)
    }
  }
}
