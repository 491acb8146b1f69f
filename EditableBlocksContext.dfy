/**
 * The editable-blocks context: the tree mutator `updateBlockById`, the
 * provider's `updateBlock` that applies it to the page's working copy of the
 * tree, and `useEditableBlocks`, which fails outside a provider.
 */
module EditableBlocksContext {
  import opened Wrappers
  import opened BlockTree

  /**
   * `updateBlockById(blocks, updatedBlock)`: `blocks.map(...)` with one
   * result block per input block, each given by `UpdateOne`.
   */
  function UpdateBlockById(bs: seq<Block>, u: Block): (r: seq<Block>)
    ensures |r| == |bs|
    decreases bs
  {
    seq(|bs|, i requires 0 <= i < |bs| => UpdateOne(bs[i], u))
  }

  /**
   * The callback of that `map`: a block with the update's id is replaced by
   * the update as it is; any other block with a nested list is rebuilt with
   * that list updated; any other block is returned as it is.
   */
  function UpdateOne(b: Block, u: Block): (r: Block)
    ensures b.id == u.id ==> r == u
    ensures b.id != u.id ==> SameFields(r, b) && (r.nested.Blocks? <==> b.nested.Blocks?)
    decreases b
  {
    if b.id == u.id then u
    else match b.nested
      case Blocks(children) => b.(nested := Blocks(UpdateBlockById(children, u)))
      case NoBlocks => b
  }

  /** Some strict ancestor of the block at `p` has the id `id`. */
  predicate MatchAbove(bs: seq<Block>, p: Path, id: string)
    requires NodeAt(bs, p).Some?
    decreases p
  {
    |p| > 1 && (bs[p[0]].id == id || MatchAbove(bs[p[0]].nested.blocks, p[1..], id))
  }

  // ---------------------------------------------------------------------
  // Properties of the mutator

  /** A tree in which the update's id does not occur comes back equal. */
  lemma {:induction false} UpdateNoMatch(bs: seq<Block>, u: Block)
    requires !Occurs(u.id, bs)
    ensures UpdateBlockById(bs, u) == bs
    decreases bs
  {
    forall i | 0 <= i < |bs| ensures UpdateOne(bs[i], u) == bs[i] {
      UpdateOneNoMatch(bs[i], u);
    }
  }

  lemma {:induction false} UpdateOneNoMatch(b: Block, u: Block)
    requires !OccursIn(u.id, b)
    ensures UpdateOne(b, u) == b
    decreases b
  {
    if b.nested.Blocks? {
      UpdateNoMatch(b.nested.blocks, u);
    }
  }

  /** Applying the same update twice gives the tree applying it once gives. */
  lemma {:induction false} UpdateIdempotent(bs: seq<Block>, u: Block)
    ensures UpdateBlockById(UpdateBlockById(bs, u), u) == UpdateBlockById(bs, u)
    decreases bs
  {
    forall i | 0 <= i < |bs| ensures UpdateOne(UpdateOne(bs[i], u), u) == UpdateOne(bs[i], u) {
      UpdateOneIdempotent(bs[i], u);
    }
  }

  lemma {:induction false} UpdateOneIdempotent(b: Block, u: Block)
    ensures UpdateOne(UpdateOne(b, u), u) == UpdateOne(b, u)
    decreases b
  {
    if b.id != u.id && b.nested.Blocks? {
      UpdateIdempotent(b.nested.blocks, u);
    }
  }

  /**
   * What happens at any position, whatever its depth, when no ancestor on
   * the way matched: a block with the update's id is replaced by the update
   * wholesale (its own nested list included), and any other block keeps
   * every field, with a nested list exactly when it had one, of the same
   * length. Because the premise does not exclude matches elsewhere, every
   * matching block is replaced, not only the first.
   */
  lemma {:induction false} UpdateAtPath(bs: seq<Block>, p: Path, u: Block)
    requires NodeAt(bs, p).Some? && !MatchAbove(bs, p, u.id)
    ensures NodeAt(UpdateBlockById(bs, u), p).Some?
    ensures var b, r := NodeAt(bs, p).value, NodeAt(UpdateBlockById(bs, u), p).value;
      if b.id == u.id then r == u
      else SameFields(r, b) && (r.nested.Blocks? <==> b.nested.Blocks?) &&
           (b.nested.Blocks? ==> |r.nested.blocks| == |b.nested.blocks|)
    decreases p
  {
    if |p| > 1 {
      UpdateAtPath(bs[p[0]].nested.blocks, p[1..], u);
    }
  }

  /**
   * With ids unique across the tree and the update's id present at `p`, the
   * mutator is exactly the replacement of that one block, at its position
   * and depth, with every other block left as it was.
   */
  lemma {:induction false} UpdateMatchesReplaceAt(bs: seq<Block>, p: Path, u: Block)
    requires Unique(bs) && NodeAt(bs, p).Some? && NodeAt(bs, p).value.id == u.id
    ensures UpdateBlockById(bs, u) == ReplaceAt(bs, p, u)
    decreases p
  {
    var i := p[0];
    NodeAtOccurs(bs, p);
    var r := UpdateBlockById(bs, u);
    var s := ReplaceAt(bs, p, u);
    forall j | 0 <= j < |bs| ensures r[j] == s[j] {
      if j != i {
        assert !OccursIn(u.id, bs[j]);
        UpdateOneNoMatch(bs[j], u);
        assert s[j] == bs[j];
      } else if |p| > 1 {
        assert bs[i].nested.Blocks?;
        var children := bs[i].nested.blocks;
        assert r[j] == UpdateOne(bs[i], u);
        NodeAtOccurs(children, p[1..]);
        assert Occurs(u.id, children);
        assert UniqueIn(bs[i]);
        assert bs[i].id != u.id;
        UpdateMatchesReplaceAt(children, p[1..], u);
        assert r[j] == bs[i].(nested := Blocks(UpdateBlockById(children, u)));
        assert s[j] == bs[i].(nested := Blocks(ReplaceAt(children, p[1..], u)));
      } else {
        assert r[j] == u && s[j] == u;
      }
    }
  }

  /**
   * What every editor sends is a copy of a block already in the tree with
   * its id and nested list unchanged. With unique ids, applying it replaces
   * exactly that block, at its position and depth; blocks neither above nor
   * below it are untouched, the blocks above it keep every field, and ids
   * stay unique.
   */
  lemma UpdateExistingBlock(bs: seq<Block>, p: Path, u: Block)
    requires Unique(bs) && NodeAt(bs, p).Some?
    requires u.id == NodeAt(bs, p).value.id && u.nested == NodeAt(bs, p).value.nested
    ensures UpdateBlockById(bs, u) == ReplaceAt(bs, p, u)
    ensures Unique(UpdateBlockById(bs, u))
    ensures NodeAt(UpdateBlockById(bs, u), p) == Some(u)
    ensures forall q :: !IsPrefix(p, q) && !IsPrefix(q, p) ==> NodeAt(UpdateBlockById(bs, u), q) == NodeAt(bs, q)
    ensures forall q :: IsPrefix(q, p) && 0 < |q| < |p| ==>
      NodeAt(bs, q).Some? && NodeAt(UpdateBlockById(bs, u), q).Some? &&
      SameFields(NodeAt(UpdateBlockById(bs, u), q).value, NodeAt(bs, q).value)
  {
    UpdateMatchesReplaceAt(bs, p, u);
    ReplaceAtKeepsUnique(bs, p, u);
    ReplaceAtTarget(bs, p, u);
    forall q | !IsPrefix(p, q) && !IsPrefix(q, p)
      ensures NodeAt(ReplaceAt(bs, p, u), q) == NodeAt(bs, q)
    {
      ReplaceAtElsewhere(bs, p, u, q);
    }
    forall q | IsPrefix(q, p) && 0 < |q| < |p|
      ensures NodeAt(bs, q).Some? && NodeAt(ReplaceAt(bs, p, u), q).Some? &&
        SameFields(NodeAt(ReplaceAt(bs, p, u), q).value, NodeAt(bs, q).value)
    {
      ReplaceAtAncestors(bs, p, u, q);
    }
  }

  /** A top-level text block gets new visibility and content. */
  lemma ExampleTopLevel()
    ensures
      var a := Block("a", "text", Some(true), "", map["content" := JStr("hi")], NoBlocks);
      var a' := Block("a", "text", Some(false), "", map["content" := JStr("bye")], NoBlocks);
      UpdateBlockById([a], a') == [a']
  {
  }

  /** A text block nested in a group gets new content; the group is otherwise unchanged. */
  lemma ExampleNested()
    ensures
      var t1 := Block("t1", "text", Some(true), "", map["content" := JStr("x")], NoBlocks);
      var t1' := WithProperty(t1, "content", "y");
      var g := Block("g", "group", Some(true), "", map[], Blocks([t1]));
      UpdateBlockById([g], t1') == [g.(nested := Blocks([t1']))]
  {
    var t1 := Block("t1", "text", Some(true), "", map["content" := JStr("x")], NoBlocks);
    var t1' := WithProperty(t1, "content", "y");
    var g := Block("g", "group", Some(true), "", map[], Blocks([t1]));
    assert UpdateBlockById([t1], t1') == [t1'];
  }

  // ---------------------------------------------------------------------
  // The provider

  /** The text of the error `useEditableBlocks` throws outside a provider. */
  const MissingProviderMessage := "useEditableBlocks must be used within an EditableBlocksProvider"

  /**
   * `EditableBlocksProvider` together with the working copy of the tree it
   * is handed (`editableBlocks` and `setEditableBlocks` of the page's state).
   */
  class EditableBlocksProvider {
    var editableBlocks: seq<Block>

    constructor (initial: seq<Block>)
      ensures editableBlocks == initial
    {
      editableBlocks := initial;
    }

    /** `setEditableBlocks(blocks)`: the page loads or replaces the whole tree. */
    method SetEditableBlocks(bs: seq<Block>)
      modifies this
      ensures editableBlocks == bs
    {
      editableBlocks := bs;
    }

    /**
     * `updateBlock(updatedBlock)`: `setEditableBlocks(prev => updateBlockById(prev, updatedBlock))`,
     * so each call applies to the tree the previous call left.
     */
    method UpdateBlock(u: Block)
      modifies this
      ensures editableBlocks == UpdateBlockById(old(editableBlocks), u)
    {
      editableBlocks := UpdateBlockById(editableBlocks, u);
    }
  }

  /** `useEditableBlocks()`: the nearest provider, or the error when there is none. */
  function UseEditableBlocks(context: Option<EditableBlocksProvider>): (r: Result<EditableBlocksProvider, string>)
    ensures r.Ok? <==> context.Some?
    ensures r.Ok? ==> r.value == context.value
    ensures r.Err? ==> r.error == MissingProviderMessage
  {
    match context
    case Some(provider) => Ok(provider)
    case None => Err(MissingProviderMessage)
  }
}
