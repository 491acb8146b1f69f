/**
 * `TextEditBlock`: the editor of a text block. It keeps a local `content`
 * seeded from `properties.content`, resets it when the incoming
 * `properties.content` changes, and sends `{ ...props, properties:
 * { ...props.properties, content } }` to `updateBlock` whenever the local
 * content changes, and once when it mounts. Each React effect is one
 * synchronous step of a method here.
 */
module TextEditBlock {
  import opened Wrappers
  import opened BlockTree
  import opened EditableBlocksContext
  import opened EditWrapper

  /** The update the content effect sends. */
  function ContentUpdate(props: Block, content: string): (u: Block)
    ensures DiffersOnlyInProperty(u, props, "content")
    ensures TextProperty(u, "content") == content
  {
    WithProperty(props, "content", content)
  }

  /**
   * Sending the content update of the block at `p` to the mutator changes
   * that block's `properties.content` and nothing else in the tree.
   */
  lemma ContentEditChangesOnlyContent(bs: seq<Block>, p: Path, content: string)
    requires Unique(bs) && NodeAt(bs, p).Some?
    ensures var b, r := NodeAt(bs, p).value, UpdateBlockById(bs, ContentUpdate(NodeAt(bs, p).value, content));
      r == ReplaceAt(bs, p, ContentUpdate(b, content)) && Unique(r) &&
      NodeAt(r, p).Some? && DiffersOnlyInProperty(NodeAt(r, p).value, b, "content") &&
      TextProperty(NodeAt(r, p).value, "content") == content
  {
    UpdateExistingBlock(bs, p, ContentUpdate(NodeAt(bs, p).value, content));
  }

  class TextEditBlock {
    /** The props of the latest render. */
    var props: Block
    /** The local `content` state. */
    var content: string
    /** The provider `useEditableBlocks` returned. */
    const provider: EditableBlocksProvider

    /**
     * Mount: `useState(props.properties.content || "")`; the reset effect
     * sets the same value, and the content effect sends the update once.
     */
    constructor (initialProps: Block, ctx: EditableBlocksProvider)
      modifies ctx
      ensures props == initialProps && provider == ctx
      ensures content == TextProperty(initialProps, "content")
      ensures ctx.editableBlocks == UpdateBlockById(old(ctx.editableBlocks), ContentUpdate(initialProps, content))
    {
      props := initialProps;
      provider := ctx;
      content := TextProperty(initialProps, "content");
      new;
      provider.UpdateBlock(ContentUpdate(props, content));
    }

    /**
     * Typing: `setContent(e.target.value)`. React re-renders only when the
     * value differs, and then the content effect sends the update.
     */
    method Type(value: string)
      modifies this, provider
      ensures props == old(props) && content == value
      ensures provider.editableBlocks ==
        if value == old(content) then old(provider.editableBlocks)
        else UpdateBlockById(old(provider.editableBlocks), ContentUpdate(props, value))
    {
      if value != content {
        content := value;
        provider.UpdateBlock(ContentUpdate(props, content));
      }
    }

    /**
     * A re-render with new props. When `properties.content` changed, the
     * reset effect sets the local content to it (or ""); when that changes
     * the local content, the content effect sends the update built from the
     * new props. The echo of the editor's own update changes nothing.
     */
    method ReceiveProps(next: Block)
      modifies this, provider
      ensures props == next
      ensures content ==
        if RawProperty(next, "content") != RawProperty(old(props), "content") then TextProperty(next, "content")
        else old(content)
      ensures provider.editableBlocks ==
        if content == old(content) then old(provider.editableBlocks)
        else UpdateBlockById(old(provider.editableBlocks), ContentUpdate(next, content))
      ensures next == ContentUpdate(old(props), old(content)) ==>
        content == old(content) && provider.editableBlocks == old(provider.editableBlocks)
    {
      var previous := RawProperty(props, "content");
      props := next;
      if RawProperty(next, "content") != previous {
        var reset := TextProperty(next, "content");
        if reset != content {
          content := reset;
          provider.UpdateBlock(ContentUpdate(props, content));
        }
      }
    }

    /** The wrapper's menu item: `updateBlock({ ...props, visible })` with the negated flag. */
    method ClickVisibility()
      modifies provider
      ensures provider.editableBlocks == UpdateBlockById(old(provider.editableBlocks), VisibilityUpdate(props))
    {
      provider.UpdateBlock(VisibilityUpdate(props));
    }

    /** The textarea is disabled while the block is hidden. */
    function TextareaDisabled(): (d: bool)
      reads this
      ensures d <==> !IsVisible(props)
    {
      !IsVisible(props)
    }

    /** The wrapper, with its button inset. */
    function Wrapper(): (w: WrapperView)
      reads this
      ensures Dimmed(w) <==> !IsVisible(props)
      ensures w.buttonPosition == InsetButtonClass
    {
      EditBlockWrapper(IsVisible(props), true)
    }
  }
}
