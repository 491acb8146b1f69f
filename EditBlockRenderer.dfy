/**
 * The edit renderer of the dashboard (`edit-blocks/EditBlockRenderer.tsx`)
 * and the row editor (`edit-blocks/RowEditBlock.tsx`), which renders its
 * nested blocks with the same edit renderer.
 *
 * Each input block yields exactly one slot. There is no visibility
 * filtering: hidden blocks get their editor too (the wrapper dims them).
 * An unknown tag yields an inline diagnostic that names the type.
 * Editors receive a shallow copy of the block and no `pageStyles`.
 */
module EditRenderer {
  import opened Wrappers
  import opened BlockTree
  import opened EditableBlocksContext
  import opened EditWrapper

  /** The editors the switch dispatches to. */
  datatype EditorKind = GroupEditor | ImageEditor | ItineraryEditor | TextEditor | GalleryEditor | RsvpEditor | RowEditor

  /** The `case` label under which each editor is reached. */
  function EditorTag(k: EditorKind): (tag: string) {
    match k
    case GroupEditor => "group"
    case ImageEditor => "image"
    case ItineraryEditor => "itinerary"
    case TextEditor => "text"
    case GalleryEditor => "gallery"
    case RsvpEditor => "rsvp"
    case RowEditor => "row"
  }

  /** The type tags the switch recognises. */
  const EditTags: set<string> := {"group", "image", "itinerary", "text", "gallery", "rsvp", "row"}

  /** One slot of the rendered editor list. */
  datatype EditView =
      /** An editor whose inside is not modelled here, with the props it receives. */
    | Editor(kind: EditorKind, props: Block)
      /**
       * `RowEditBlock`: its wrapper, the block its menu item sends to
       * `updateBlock` (its only update), and the edit renderer applied to
       * `properties.blocks`.
       */
    | RowEdit(kind: EditorKind, props: Block, wrapper: WrapperView, onToggle: Block, children: seq<EditView>)
      /** `<i>Edit block <b>{type}</b> not found please contact us.</i>` */
    | EditNotFound(typeName: string)

  /** The text of the diagnostic for the type `t`. */
  function EditNotFoundText(t: string): (text: string) {
    "Edit block " + t + " not found please contact us."
  }

  /** The diagnostic names the type: the type can be read back from the text. */
  lemma EditNotFoundTextNamesType(t: string)
    ensures var text := EditNotFoundText(t);
      |text| == |t| + 40 && text[11..|text| - 29] == t
  {
  }

  /** `<EditBlockRenderer blocks={...} />`: nothing for a missing list, one slot per block otherwise. */
  function EditBlockRenderer(blocks: Nested): (r: seq<EditView>)
    ensures blocks.NoBlocks? ==> r == []
    ensures blocks.Blocks? ==> |r| == |blocks.blocks|
    decreases blocks, 1
  {
    match blocks
    case NoBlocks => []
    case Blocks(bs) => EditBlocks(bs)
  }

  /**
   * `<EditBlockRenderer blocks={...} />` on the page's own list, whose
   * entries may be `null`: `{ ...null }` is `{}` and `block?.type` is
   * `undefined`, so a `null` entry reaches the diagnostic with an empty name.
   */
  function EditEntries(entries: Option<seq<Option<Block>>>): (r: seq<EditView>)
    ensures entries.None? ==> r == []
    ensures entries.Some? ==> |r| == |entries.value|
    ensures entries.Some? ==> forall i :: 0 <= i < |r| ==>
      (entries.value[i].None? ==> r[i] == EditNotFound("")) &&
      (entries.value[i].Some? ==> r[i] == EditBlock(entries.value[i].value))
  {
    match entries
    case None => []
    case Some(es) => seq(|es|, i requires 0 <= i < |es| => EditEntry(es[i]))
  }

  /** The callback of the `map` on an entry that may be `null`. */
  function EditEntry(entry: Option<Block>): (r: EditView)
    ensures entry.None? ==> r == EditNotFound("")
    ensures entry.Some? ==> r == EditBlock(entry.value)
  {
    match entry
    case None => EditNotFound("")
    case Some(b) => EditBlock(b)
  }

  /** On a list without `null` entries the page's renderer is the one rows use. */
  lemma EditEntriesWithoutNulls(bs: seq<Block>)
    ensures EditEntries(Some(seq(|bs|, i requires 0 <= i < |bs| => Some(bs[i])))) == EditBlocks(bs)
  {
  }

  /** The diagnostic for a `null` entry names no type. */
  lemma NullEntryDiagnostic()
    ensures EditNotFoundText(EditEntry(None).typeName) == "Edit block  not found please contact us."
  {
  }

  /** The `map` over a present list. */
  function EditBlocks(bs: seq<Block>): (r: seq<EditView>)
    ensures |r| == |bs|
    decreases bs, 0
  {
    seq(|bs|, i requires 0 <= i < |bs| => EditBlock(bs[i]))
  }

  /** The callback of the `map`: the switch on `block.type`, with `{ ...block }` as props. */
  function EditBlock(b: Block): (r: EditView)
    ensures r.EditNotFound? <==> b.tag !in EditTags
    ensures r.EditNotFound? ==> r.typeName == b.tag
    ensures !r.EditNotFound? ==> EditorTag(r.kind) == b.tag && r.props == b
    ensures r.RowEdit? <==> b.tag == "row"
    decreases b, 2
  {
    var nextProps := b;
    match b.tag
    case "group" => Editor(GroupEditor, nextProps)
    case "image" => Editor(ImageEditor, nextProps)
    case "itinerary" => Editor(ItineraryEditor, nextProps)
    case "text" => Editor(TextEditor, nextProps)
    case "gallery" => Editor(GalleryEditor, nextProps)
    case "rsvp" => Editor(RsvpEditor, nextProps)
    case "row" => RowEditBlock(nextProps)
    case _ => EditNotFound(b.tag)
  }

  /**
   * `RowEditBlock`: a wrapper whose visibility is the row's own `visible`,
   * around the edit renderer (imported as `BlockRenderer`) on
   * `properties.blocks`. Its only update is the one its menu item sends:
   * the row with `visible` replaced, its nested blocks as received.
   */
  function RowEditBlock(props: Block): (r: EditView)
    ensures r.RowEdit? && r.kind == RowEditor && r.props == props
    ensures r.wrapper == EditBlockWrapper(IsVisible(props), false)
    ensures DiffersOnlyInVisible(r.onToggle, props) && IsVisible(r.onToggle) == !IsVisible(props)
    ensures r.onToggle.nested == props.nested
    ensures r.children == EditBlockRenderer(props.nested)
    decreases props, 1
  {
    RowEdit(RowEditor, props, EditBlockWrapper(IsVisible(props), false), VisibilityUpdate(props),
      EditBlockRenderer(props.nested))
  }

  /**
   * Clicking the menu of the row editor at `p` and sending what it gives
   * to the mutator flips that row's `visible` and changes nothing else in the
   * tree: not its nested blocks, not any other block.
   */
  lemma RowToggleChangesOnlyVisible(bs: seq<Block>, p: Path)
    requires Unique(bs) && NodeAt(bs, p).Some? && NodeAt(bs, p).value.tag == "row"
    ensures var b := NodeAt(bs, p).value;
      EditBlock(b).RowEdit? &&
      var r := UpdateBlockById(bs, EditBlock(b).onToggle);
      r == ReplaceAt(bs, p, VisibilityUpdate(b)) && Unique(r) &&
      NodeAt(r, p).Some? && DiffersOnlyInVisible(NodeAt(r, p).value, b) &&
      IsVisible(NodeAt(r, p).value) == !IsVisible(b)
  {
    var b := NodeAt(bs, p).value;
    assert EditBlock(b).onToggle == VisibilityUpdate(b);
    VisibilityEditChangesOnlyVisible(bs, p);
  }

  /** There is no filtering: whatever `visible` holds, a block reaches the same editor. */
  lemma EditIgnoresVisibility(b: Block, visible: Option<bool>)
    ensures var r, r' := EditBlock(b), EditBlock(b.(visible := visible));
      r.EditNotFound? == r'.EditNotFound? && (!r.EditNotFound? ==> r.kind == r'.kind)
  {
  }

  // ---------------------------------------------------------------------
  // The editor tree, position by position

  /** The slot at path `p`, descending through row editors. */
  function EditViewAt(vs: seq<EditView>, p: Path): (slot: Option<EditView>)
    decreases p
  {
    if p == [] || p[0] >= |vs| then None
    else if |p| == 1 then Some(vs[p[0]])
    else match vs[p[0]]
      case RowEdit(_, _, _, _, children) => EditViewAt(children, p[1..])
      case _ => None
  }

  /** Every strict ancestor of the block at `p` is a row, whatever its visibility. */
  predicate RowPath(bs: seq<Block>, p: Path)
    requires NodeAt(bs, p).Some?
    decreases p
  {
    |p| == 1 || (bs[p[0]].tag == "row" && RowPath(bs[p[0]].nested.blocks, p[1..]))
  }

  /**
   * The editor tree has a slot at `p` exactly when the tree has a block
   * there below rows only, hidden or not, and that slot is the block's
   * own editor with the block's fields as props.
   */
  lemma {:induction false} EditAtPath(bs: seq<Block>, p: Path)
    ensures EditViewAt(EditBlocks(bs), p).Some? <==> NodeAt(bs, p).Some? && RowPath(bs, p)
    ensures EditViewAt(EditBlocks(bs), p).Some? ==> EditViewAt(EditBlocks(bs), p) == Some(EditBlock(NodeAt(bs, p).value))
    decreases p
  {
    if p != [] && p[0] < |bs| && |p| > 1 {
      var b := bs[p[0]];
      if b.tag == "row" && b.nested.Blocks? {
        EditAtPath(b.nested.blocks, p[1..]);
      }
    }
  }
}
