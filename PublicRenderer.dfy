/**
 * The read renderer of the public pages (`blocks/BlockRenderer.tsx`) and
 * its two composite components (`blocks/GroupBlock.tsx`, `blocks/RowBlock.tsx`),
 * as functions from the tree to the list of slots React renders.
 *
 * Each input block yields exactly one slot: `null` when the block is not
 * visible, the component chosen by its type tag otherwise, or the inline
 * "not found" notice for a tag the switch does not know. Group and row
 * render a `div` that recurses into `properties.blocks` with the same
 * renderer and the same `pageStyles`.
 */
module PublicRenderer {
  import opened Wrappers
  import opened BlockTree

  /** The components the switch dispatches to. */
  datatype Kind = Group | Image | Itinerary | Text | Gallery | Rsvp | Row

  /** The `case` label under which each component is reached. */
  function KindTag(k: Kind): (tag: string) {
    match k
    case Group => "group"
    case Image => "image"
    case Itinerary => "itinerary"
    case Text => "text"
    case Gallery => "gallery"
    case Rsvp => "rsvp"
    case Row => "row"
  }

  /** The type tags the switch recognises. */
  const ReadTags: set<string> := {"group", "image", "itinerary", "text", "gallery", "rsvp", "row"}

  /** One slot of the rendered list. */
  datatype View =
      /** `return null` for a block that is not visible. */
    | NullSlot
      /** A leaf component (image, itinerary, text, gallery, rsvp) with the props it receives. */
    | Component(kind: Kind, props: BlockProps)
      /** `<div id={props.id} className={pageStyles[props.class]}>` of a group or row, around its rendered children. */
    | Container(kind: Kind, id: string, className: Option<string>, children: seq<View>)
      /** `<i>Block <b>{type}</b> not found please contact us.</i>` */
    | NotFound(typeName: string)

  /** The text of the fallback notice for the type `t`. */
  function NotFoundText(t: string): (text: string) {
    "Block " + t + " not found please contact us."
  }

  /** The notice names the type: the type can be read back from the text. */
  lemma NotFoundTextNamesType(t: string)
    ensures var text := NotFoundText(t);
      |text| == |t| + 35 && text[6..|text| - 29] == t
  {
  }

  /**
   * `<BlockRenderer blocks={...} pageStyles={...} />`: nothing for a missing
   * list (`props.blocks?.map`), one slot per block otherwise.
   */
  function BlockRenderer(blocks: Nested, pageStyles: PageStyles): (r: seq<View>)
    ensures blocks.NoBlocks? ==> r == []
    ensures blocks.Blocks? ==> |r| == |blocks.blocks|
    decreases blocks, 1
  {
    match blocks
    case NoBlocks => []
    case Blocks(bs) => RenderBlocks(bs, pageStyles)
  }

  /** The `map` over a present list. */
  function RenderBlocks(bs: seq<Block>, pageStyles: PageStyles): (r: seq<View>)
    ensures |r| == |bs|
    decreases bs, 0
  {
    seq(|bs|, i requires 0 <= i < |bs| => RenderBlock(bs[i], pageStyles))
  }

  /**
   * The callback of the `map`: the visibility check comes first, then the
   * switch on `block.type`; every component receives `{ pageStyles, ...block }`.
   */
  function RenderBlock(b: Block, pageStyles: PageStyles): (r: View)
    ensures r.NullSlot? <==> !IsVisible(b)
    ensures r.NotFound? <==> IsVisible(b) && b.tag !in ReadTags
    ensures r.NotFound? ==> r.typeName == b.tag
    ensures (r.Component? || r.Container?) ==> KindTag(r.kind) == b.tag
    ensures r.Container? <==> IsVisible(b) && (b.tag == "group" || b.tag == "row")
    ensures r.Component? ==> r.props == BlockProps(pageStyles, b)
    ensures r.Container? ==> r.id == b.id && r.className == StyleLookup(pageStyles, b.styleClass)
    decreases b, 2
  {
    var nextProps := BlockProps(pageStyles, b);
    if !IsVisible(b) then NullSlot
    else match b.tag
      case "group" => GroupBlock(nextProps)
      case "image" => Component(Image, nextProps)
      case "itinerary" => Component(Itinerary, nextProps)
      case "text" => Component(Text, nextProps)
      case "gallery" => Component(Gallery, nextProps)
      case "rsvp" => Component(Rsvp, nextProps)
      case "row" => RowBlock(nextProps)
      case _ => NotFound(b.tag)
  }

  /** `GroupBlock`: a `div` with the block's id and class, around the same renderer on `properties.blocks`. */
  function GroupBlock(props: BlockProps): (r: View)
    ensures r.Container? && r.kind == Group && r.id == props.block.id
    ensures r.className == StyleLookup(props.pageStyles, props.block.styleClass)
    ensures r.children == BlockRenderer(props.block.nested, props.pageStyles)
    decreases props.block, 1
  {
    Container(Group, props.block.id, StyleLookup(props.pageStyles, props.block.styleClass),
      BlockRenderer(props.block.nested, props.pageStyles))
  }

  /** `RowBlock`: the same shape as `GroupBlock`. */
  function RowBlock(props: BlockProps): (r: View)
    ensures r.Container? && r.kind == Row && r.id == props.block.id
    ensures r.className == StyleLookup(props.pageStyles, props.block.styleClass)
    ensures r.children == BlockRenderer(props.block.nested, props.pageStyles)
    decreases props.block, 1
  {
    Container(Row, props.block.id, StyleLookup(props.pageStyles, props.block.styleClass),
      BlockRenderer(props.block.nested, props.pageStyles))
  }

  // ---------------------------------------------------------------------
  // The rendered tree, position by position

  /** The slot at path `p` of a rendered list, descending through containers. */
  function ViewAt(vs: seq<View>, p: Path): (slot: Option<View>)
    decreases p
  {
    if p == [] || p[0] >= |vs| then None
    else if |p| == 1 then Some(vs[p[0]])
    else match vs[p[0]]
      case Container(_, _, _, children) => ViewAt(children, p[1..])
      case _ => None
  }

  /** Every strict ancestor of the block at `p` is a visible group or row. */
  predicate ShownPath(bs: seq<Block>, p: Path)
    requires NodeAt(bs, p).Some?
    decreases p
  {
    |p| == 1 ||
    (var b := bs[p[0]];
     IsVisible(b) && (b.tag == "group" || b.tag == "row") && ShownPath(b.nested.blocks, p[1..]))
  }

  /** The block at `p` and every block above it are visible. */
  predicate VisibleAlong(bs: seq<Block>, p: Path)
    requires NodeAt(bs, p).Some?
    decreases p
  {
    IsVisible(bs[p[0]]) && (|p| == 1 || VisibleAlong(bs[p[0]].nested.blocks, p[1..]))
  }

  /**
   * The rendered tree has a slot at `p` exactly when the tree has a block
   * there whose ancestors are all visible groups or rows, and that slot is
   * the block's own rendering with the top-level `pageStyles`: depth does
   * not change how a block is rendered.
   */
  lemma {:induction false} RenderAtPath(bs: seq<Block>, pageStyles: PageStyles, p: Path)
    ensures ViewAt(RenderBlocks(bs, pageStyles), p).Some? <==> NodeAt(bs, p).Some? && ShownPath(bs, p)
    ensures ViewAt(RenderBlocks(bs, pageStyles), p).Some? ==>
      ViewAt(RenderBlocks(bs, pageStyles), p) == Some(RenderBlock(NodeAt(bs, p).value, pageStyles))
    decreases p
  {
    if p != [] && p[0] < |bs| && |p| > 1 {
      var b := bs[p[0]];
      if IsVisible(b) && (b.tag == "group" || b.tag == "row") && b.nested.Blocks? {
        RenderAtPath(b.nested.blocks, pageStyles, p[1..]);
      }
    }
  }

  /**
   * Hidden blocks are dropped at every depth: any slot that is not `null`
   * comes from a block that is visible and whose ancestors are all visible.
   */
  lemma {:induction false} RenderedBlocksAreVisible(bs: seq<Block>, pageStyles: PageStyles, p: Path)
    requires ViewAt(RenderBlocks(bs, pageStyles), p).Some?
    requires !ViewAt(RenderBlocks(bs, pageStyles), p).value.NullSlot?
    ensures NodeAt(bs, p).Some? && VisibleAlong(bs, p)
    decreases p
  {
    RenderAtPath(bs, pageStyles, p);
    if |p| > 1 {
      var b := bs[p[0]];
      RenderedBlocksAreVisible(b.nested.blocks, pageStyles, p[1..]);
    }
  }

  /**
   * At any depth a component receives the top-level `pageStyles` and the
   * block at its position, and a container carries that block's id and its
   * class looked up in the top-level table.
   */
  lemma PropsAtEveryDepth(bs: seq<Block>, pageStyles: PageStyles, p: Path)
    requires ViewAt(RenderBlocks(bs, pageStyles), p).Some?
    ensures NodeAt(bs, p).Some?
    ensures var v, b := ViewAt(RenderBlocks(bs, pageStyles), p).value, NodeAt(bs, p).value;
      (v.Component? ==> v.props.pageStyles == pageStyles && v.props.block == b) &&
      (v.Container? ==> v.id == b.id && v.className == StyleLookup(pageStyles, b.styleClass))
  {
    RenderAtPath(bs, pageStyles, p);
  }
}
