/**
 * `EditBlockWrapper`: the frame around every block editor. Its look is a
 * function of `isVisible` and `insetButton`; its one menu item calls back
 * with the negation of `isVisible`. Each editor wires that callback to
 * `updateBlock({ ...props, visible })`, which is `VisibilityUpdate` here.
 */
module EditWrapper {
  import opened Wrappers
  import opened BlockTree
  import opened EditableBlocksContext

  /** The class of the children's `div` while the block is visible. */
  const VisibleChildClass := "opacity-100"
  /** The class of the children's `div` while the block is hidden: dimmed and not interactive. */
  const HiddenChildClass := "opacity-70 diagonal-lines pointer-events-none"
  /** The position classes of the menu button, inset and offset. */
  const InsetButtonClass := "top-0 right-0"
  const OffsetButtonClass := "-top-4 -right-4"

  /** What the wrapper shows. */
  datatype WrapperView = WrapperView(childClass: string, buttonPosition: string, menuLabel: string)

  /** The children are dimmed and do not take pointer events. */
  predicate Dimmed(w: WrapperView) {
    w.childClass == HiddenChildClass
  }

  function EditBlockWrapper(isVisible: bool, insetButton: bool): (w: WrapperView)
    ensures Dimmed(w) <==> !isVisible
    ensures w.buttonPosition == (if insetButton then InsetButtonClass else OffsetButtonClass)
    ensures w.menuLabel == (if isVisible then "Hide" else "Show")
  {
    WrapperView(
      if isVisible then VisibleChildClass else HiddenChildClass,
      if insetButton then InsetButtonClass else OffsetButtonClass,
      if isVisible then "Hide" else "Show")
  }

  /** The value the menu item passes to `onClickVisibility`: `!props.isVisible`. */
  function MenuItemValue(isVisible: bool): (v: bool)
    ensures v != isVisible
  {
    !isVisible
  }

  /** The label says what the click does: "Hide" exactly when the click makes the block hidden. */
  lemma MenuLabelMatchesAction(isVisible: bool, insetButton: bool)
    ensures EditBlockWrapper(isVisible, insetButton).menuLabel == "Hide" <==> !MenuItemValue(isVisible)
    ensures EditBlockWrapper(isVisible, insetButton).menuLabel == "Show" <==> MenuItemValue(isVisible)
  {
  }

  /**
   * The update an editor sends when its menu item is clicked:
   * `updateBlock({ ...props, visible })` with `visible` from the wrapper,
   * whose `isVisible` is the block's own `visible`.
   */
  function VisibilityUpdate(props: Block): (u: Block)
    ensures DiffersOnlyInVisible(u, props)
    ensures IsVisible(u) == !IsVisible(props)
  {
    WithVisible(props, MenuItemValue(IsVisible(props)))
  }

  /**
   * Toggling twice gives back a block equal to the original when `visible`
   * was set; an absent `visible` (shown as hidden) becomes `false`.
   */
  lemma VisibilityUpdateTwice(props: Block)
    ensures props.visible.Some? ==> VisibilityUpdate(VisibilityUpdate(props)) == props
    ensures props.visible.None? ==> VisibilityUpdate(VisibilityUpdate(props)) == props.(visible := Some(false))
  {
    var once := VisibilityUpdate(props);
    assert once == props.(visible := Some(!IsVisible(props)));
    assert VisibilityUpdate(once) == props.(visible := Some(IsVisible(props)));
    match props.visible {
      case Some(x) => assert IsVisible(props) == x;
      case None =>
    }
  }

  /**
   * Sending the visibility update of the block at `p` to the mutator
   * changes that block's `visible` (negated) and nothing else in the tree.
   */
  lemma VisibilityEditChangesOnlyVisible(bs: seq<Block>, p: Path)
    requires Unique(bs) && NodeAt(bs, p).Some?
    ensures var b, r := NodeAt(bs, p).value, UpdateBlockById(bs, VisibilityUpdate(NodeAt(bs, p).value));
      r == ReplaceAt(bs, p, VisibilityUpdate(b)) && Unique(r) &&
      NodeAt(r, p).Some? && DiffersOnlyInVisible(NodeAt(r, p).value, b) &&
      IsVisible(NodeAt(r, p).value) == !IsVisible(b)
  {
    UpdateExistingBlock(bs, p, VisibilityUpdate(NodeAt(bs, p).value));
  }
}
