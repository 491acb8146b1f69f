/**
 * The older read renderer (`components/BlockRenderer.tsx`): one slot per
 * entry, with no visibility check, a tag set that knows `schedule` and
 * `location` but not `row`, and a fixed "No block found" fallback that also
 * catches `null` entries (`block?.type`). Its composite components are not
 * part of this model, so every recognised block is a component slot
 * holding the props it receives.
 */
module LegacyRenderer {
  import opened Wrappers
  import opened BlockTree

  /** The components the switch dispatches to. */
  datatype LegacyKind = Group | Image | Schedule | Itinerary | Location | Text | Gallery | Rsvp

  /** The `case` label under which each component is reached. */
  function LegacyKindTag(k: LegacyKind): (tag: string) {
    match k
    case Group => "group"
    case Image => "image"
    case Schedule => "schedule"
    case Itinerary => "itinerary"
    case Location => "location"
    case Text => "text"
    case Gallery => "gallery"
    case Rsvp => "rsvp"
  }

  /** The type tags the switch recognises. */
  const LegacyTags: set<string> := {"group", "image", "schedule", "itinerary", "location", "text", "gallery", "rsvp"}

  /** The fixed text of the fallback `<div>`. */
  const NoBlockFoundText := "No block found"

  /** One slot: a component with `{ pageStyles, ...block }`, or the fallback `div`. */
  datatype LegacyView =
    | LegacyComponent(kind: LegacyKind, props: BlockProps)
    | NoBlockFound

  /** The fallback's text: it is the same whatever the entry was, so it never names a type. */
  function LegacyViewText(v: LegacyView): (text: Option<string>) {
    if v.NoBlockFound? then Some(NoBlockFoundText) else None
  }

  /**
   * `<BlockRenderer blocks={...} pageStyles={...} />`: nothing for a missing
   * list, one slot per entry otherwise; an entry may be `null`.
   */
  function LegacyBlockRenderer(blocks: Option<seq<Option<Block>>>, pageStyles: PageStyles): (r: seq<LegacyView>)
    ensures blocks.None? ==> r == []
    ensures blocks.Some? ==> |r| == |blocks.value|
    ensures blocks.Some? ==> forall i :: 0 <= i < |r| ==> r[i] == LegacyRenderEntry(blocks.value[i], pageStyles)
  {
    match blocks
    case None => []
    case Some(entries) => seq(|entries|, i requires 0 <= i < |entries| => LegacyRenderEntry(entries[i], pageStyles))
  }

  /** The callback of the `map`: the switch on `block?.type`, no visibility check. */
  function LegacyRenderEntry(entry: Option<Block>, pageStyles: PageStyles): (r: LegacyView)
    ensures r.NoBlockFound? <==> entry.None? || entry.value.tag !in LegacyTags
    ensures r.LegacyComponent? ==> LegacyKindTag(r.kind) == entry.value.tag
    ensures r.LegacyComponent? ==> r.props == BlockProps(pageStyles, entry.value)
  {
    match entry
    case None => NoBlockFound
    case Some(b) =>
      var nextProps := BlockProps(pageStyles, b);
      match b.tag
      case "group" => LegacyComponent(Group, nextProps)
      case "image" => LegacyComponent(Image, nextProps)
      case "schedule" => LegacyComponent(Schedule, nextProps)
      case "itinerary" => LegacyComponent(Itinerary, nextProps)
      case "location" => LegacyComponent(Location, nextProps)
      case "text" => LegacyComponent(Text, nextProps)
      case "gallery" => LegacyComponent(Gallery, nextProps)
      case "rsvp" => LegacyComponent(Rsvp, nextProps)
      case _ => NoBlockFound
  }

  /**
   * There is no visibility filtering: a block and the same block with any
   * other `visible` value reach the same component (or both the fallback).
   */
  lemma LegacyIgnoresVisibility(b: Block, visible: Option<bool>, pageStyles: PageStyles)
    ensures var r, r' := LegacyRenderEntry(Some(b), pageStyles), LegacyRenderEntry(Some(b.(visible := visible)), pageStyles);
      r.NoBlockFound? == r'.NoBlockFound? && (r.LegacyComponent? ==> r.kind == r'.kind)
  {
  }

  /** A `row` block, which the public renderer knows, falls to the fallback here. */
  lemma LegacyRowNotRecognised(b: Block, pageStyles: PageStyles)
    requires b.tag == "row"
    ensures LegacyRenderEntry(Some(b), pageStyles) == NoBlockFound
    ensures LegacyViewText(LegacyRenderEntry(Some(b), pageStyles)) == Some("No block found")
  {
  }
}
