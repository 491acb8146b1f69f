/**
 * The block tree: the JSON document a template or an event stores in one
 * column, as an ordered list of typed blocks, where a block of a composite
 * type carries a nested list under `properties.blocks`.
 *
 * Besides the data model this module holds what every other part shares:
 * paths that address a block at any depth, a path-based replacement used as
 * the reference definition of the tree mutator, the id-uniqueness invariant,
 * and the two record updates the editors build (`{...props, visible}` and
 * `{...props, properties: {...props.properties, key: value}}`).
 */
module BlockTree {
  import opened Wrappers

  /** A JSON value inside `properties` (numbers are integers in this model). */
  datatype Json =
    | JNull
    | JBool(b: bool)
    | JNum(n: int)
    | JStr(s: string)
    | JArray(items: seq<Json>)
    | JObject(fields: map<string, Json>)

  /**
   * One node of the tree. `tag` is the JSON field `type`, `styleClass` is the
   * JSON field `class`; `visible` is `None` when the field is absent.
   * `properties` holds every property except `blocks`, and `nested` is
   * `properties.blocks`.
   */
  datatype Block = Block(
    id: string,
    tag: string,
    visible: Option<bool>,
    styleClass: string,
    properties: map<string, Json>,
    nested: Nested)

  /** `properties.blocks`: absent, or a nested list of blocks. */
  datatype Nested = NoBlocks | Blocks(blocks: seq<Block>)

  /** JavaScript truthiness of `block.visible`: only `true` counts as visible. */
  predicate IsVisible(b: Block) {
    b.visible == Some(true)
  }

  /**
   * `block.properties[key] || ""` for a property that holds text: the string
   * when there is one, and "" when the property is absent or empty.
   */
  function TextProperty(b: Block, key: string): (r: string)
    ensures r != "" <==> key in b.properties && b.properties[key].JStr? && b.properties[key].s != ""
    ensures r != "" ==> b.properties[key] == JStr(r)
  {
    if key in b.properties && b.properties[key].JStr? then b.properties[key].s else ""
  }

  /** The raw value of a property, `undefined` being `None`. */
  function RawProperty(b: Block, key: string): (raw: Option<Json>) {
    if key in b.properties then Some(b.properties[key]) else None
  }

  /** Two blocks agree on every field except possibly their nested list. */
  predicate SameFields(a: Block, b: Block) {
    a.id == b.id && a.tag == b.tag && a.visible == b.visible &&
    a.styleClass == b.styleClass && a.properties == b.properties
  }

  /** `a` is `b` with at most the property `key` changed. */
  predicate DiffersOnlyInProperty(a: Block, b: Block, key: string) {
    a.id == b.id && a.tag == b.tag && a.visible == b.visible &&
    a.styleClass == b.styleClass && a.nested == b.nested &&
    (forall k :: k in a.properties && k != key ==> k in b.properties && a.properties[k] == b.properties[k]) &&
    (forall k :: k in b.properties && k != key ==> k in a.properties)
  }

  /** `a` is `b` with at most `visible` changed. */
  predicate DiffersOnlyInVisible(a: Block, b: Block) {
    a.id == b.id && a.tag == b.tag && a.styleClass == b.styleClass &&
    a.properties == b.properties && a.nested == b.nested
  }

  /** `{ ...block, properties: { ...block.properties, [key]: value } }`. */
  function WithProperty(b: Block, key: string, value: string): (r: Block)
    ensures DiffersOnlyInProperty(r, b, key)
    ensures RawProperty(r, key) == Some(JStr(value))
  {
    b.(properties := b.properties[key := JStr(value)])
  }

  /** `{ ...block, visible }`. */
  function WithVisible(b: Block, visible: bool): (r: Block)
    ensures DiffersOnlyInVisible(r, b)
    ensures IsVisible(r) == visible
  {
    b.(visible := Some(visible))
  }

  // ---------------------------------------------------------------------
  // What the read renderers hand to a block component

  /** `pageStyles`: the CSS-module table mapping a class name to a generated class. */
  type PageStyles = map<string, string>

  /**
   * `{ pageStyles, ...block }`: the block's own fields plus the table.
   * The block shape has no field named `pageStyles`, so the table is the parent's.
   */
  datatype BlockProps = BlockProps(pageStyles: PageStyles, block: Block)

  /** `pageStyles[key]`, `undefined` being `None`. */
  function StyleLookup(styles: PageStyles, key: string): (className: Option<string>) {
    if key in styles then Some(styles[key]) else None
  }

  // ---------------------------------------------------------------------
  // Paths into the tree

  /** A position in the tree: an index at the top level, then one index per level below. */
  type Path = seq<nat>

  /** The block at path `p`, if there is one. */
  function NodeAt(bs: seq<Block>, p: Path): (node: Option<Block>)
    decreases p
  {
    if p == [] || p[0] >= |bs| then None
    else if |p| == 1 then Some(bs[p[0]])
    else match bs[p[0]].nested
      case NoBlocks => None
      case Blocks(children) => NodeAt(children, p[1..])
  }

  /** `q` is a prefix of `p` (possibly equal to it). */
  predicate IsPrefix(q: Path, p: Path) {
    |q| <= |p| && q == p[..|q|]
  }

  /**
   * The tree with the block at `p` replaced by `nb`; every ancestor is
   * rebuilt with only its nested list changed, and nothing else moves.
   * This is the reference definition the mutator is proved against.
   */
  function ReplaceAt(bs: seq<Block>, p: Path, nb: Block): (r: seq<Block>)
    requires NodeAt(bs, p).Some?
    ensures |r| == |bs|
    decreases p
  {
    var i := p[0];
    if |p| == 1 then bs[i := nb]
    else bs[i := bs[i].(nested := Blocks(ReplaceAt(bs[i].nested.blocks, p[1..], nb)))]
  }

  /** After the replacement the block at `p` is `nb`. */
  lemma {:induction false} ReplaceAtTarget(bs: seq<Block>, p: Path, nb: Block)
    requires NodeAt(bs, p).Some?
    ensures NodeAt(ReplaceAt(bs, p, nb), p) == Some(nb)
    decreases p
  {
    if |p| > 1 {
      ReplaceAtTarget(bs[p[0]].nested.blocks, p[1..], nb);
    }
  }

  /** A block neither on the way to `p` nor below it is untouched. */
  lemma {:induction false} ReplaceAtElsewhere(bs: seq<Block>, p: Path, nb: Block, q: Path)
    requires NodeAt(bs, p).Some?
    requires !IsPrefix(p, q) && !IsPrefix(q, p)
    ensures NodeAt(ReplaceAt(bs, p, nb), q) == NodeAt(bs, q)
    decreases p
  {
    var r := ReplaceAt(bs, p, nb);
    if q[0] == p[0] {
      assert |p| > 1 && |q| > 1;
      var children := bs[p[0]].nested.blocks;
      assert !IsPrefix(p[1..], q[1..]) && !IsPrefix(q[1..], p[1..]);
      ReplaceAtElsewhere(children, p[1..], nb, q[1..]);
    }
  }

  /** Every block on the way to `p` keeps all its fields; only its nested list changes. */
  lemma {:induction false} ReplaceAtAncestors(bs: seq<Block>, p: Path, nb: Block, q: Path)
    requires NodeAt(bs, p).Some?
    requires IsPrefix(q, p) && 0 < |q| < |p|
    ensures NodeAt(bs, q).Some? && NodeAt(ReplaceAt(bs, p, nb), q).Some?
    ensures SameFields(NodeAt(ReplaceAt(bs, p, nb), q).value, NodeAt(bs, q).value)
    decreases p
  {
    assert q[0] == p[0];
    if |q| > 1 {
      assert IsPrefix(q[1..], p[1..]);
      ReplaceAtAncestors(bs[p[0]].nested.blocks, p[1..], nb, q[1..]);
    }
  }

  // ---------------------------------------------------------------------
  // Ids

  /** Some block in the subtree rooted at `b` (including `b`) has the id. */
  predicate OccursIn(id: string, b: Block)
    decreases b
  {
    b.id == id || (b.nested.Blocks? && Occurs(id, b.nested.blocks))
  }

  /** Some block at any depth of `bs` has the id. */
  predicate Occurs(id: string, bs: seq<Block>)
    decreases bs
  {
    exists i :: 0 <= i < |bs| && OccursIn(id, bs[i])
  }

  /**
   * The tree invariant: no two blocks anywhere in the tree share an id
   * (siblings' subtrees are disjoint, and no block's id reappears below it).
   */
  ghost predicate Unique(bs: seq<Block>)
    decreases bs
  {
    (forall i, j, x :: 0 <= i < j < |bs| && OccursIn(x, bs[i]) ==> !OccursIn(x, bs[j])) &&
    (forall i :: 0 <= i < |bs| ==> UniqueIn(bs[i]))
  }

  ghost predicate UniqueIn(b: Block)
    decreases b
  {
    match b.nested
    case NoBlocks => true
    case Blocks(children) => !Occurs(b.id, children) && Unique(children)
  }

  /** The block found at a path is in the subtree of the top-level block the path starts at. */
  lemma {:induction false} NodeAtOccurs(bs: seq<Block>, p: Path)
    requires NodeAt(bs, p).Some?
    ensures p[0] < |bs| && OccursIn(NodeAt(bs, p).value.id, bs[p[0]])
    decreases p
  {
    if |p| > 1 {
      var children := bs[p[0]].nested.blocks;
      NodeAtOccurs(children, p[1..]);
      assert Occurs(NodeAt(bs, p).value.id, children);
    }
  }

  /**
   * Replacing a block by one with the same id and the same nested list
   * leaves the set of ids in the subtree of the first block on the path as it was.
   */
  lemma {:induction false} ReplaceAtSameIds(bs: seq<Block>, p: Path, nb: Block, x: string)
    requires NodeAt(bs, p).Some?
    requires nb.id == NodeAt(bs, p).value.id && nb.nested == NodeAt(bs, p).value.nested
    ensures OccursIn(x, ReplaceAt(bs, p, nb)[p[0]]) <==> OccursIn(x, bs[p[0]])
    decreases p
  {
    if |p| > 1 {
      var i := p[0];
      var children := bs[i].nested.blocks;
      var newChildren := ReplaceAt(children, p[1..], nb);
      assert ReplaceAt(bs, p, nb)[i].nested == Blocks(newChildren);
      forall k | 0 <= k < |children|
        ensures OccursIn(x, newChildren[k]) <==> OccursIn(x, children[k])
      {
        if k == p[1] {
          ReplaceAtSameIds(children, p[1..], nb, x);
        } else {
          assert newChildren[k] == children[k];
        }
      }
      assert Occurs(x, newChildren) <==> Occurs(x, children);
    }
  }

  /** The same replacement keeps the uniqueness invariant. */
  lemma {:induction false} ReplaceAtKeepsUnique(bs: seq<Block>, p: Path, nb: Block)
    requires Unique(bs) && NodeAt(bs, p).Some?
    requires nb.id == NodeAt(bs, p).value.id && nb.nested == NodeAt(bs, p).value.nested
    ensures Unique(ReplaceAt(bs, p, nb))
    decreases p
  {
    var i := p[0];
    var r := ReplaceAt(bs, p, nb);
    forall x ensures OccursIn(x, r[i]) <==> OccursIn(x, bs[i]) {
      ReplaceAtSameIds(bs, p, nb, x);
    }
    if |p| > 1 {
      var children := bs[i].nested.blocks;
      ReplaceAtKeepsUnique(children, p[1..], nb);
      var newChildren := ReplaceAt(children, p[1..], nb);
      assert r[i].nested == Blocks(newChildren);
      forall k | 0 <= k < |children|
        ensures OccursIn(bs[i].id, newChildren[k]) <==> OccursIn(bs[i].id, children[k])
      {
        if k == p[1] {
          ReplaceAtSameIds(children, p[1..], nb, bs[i].id);
        } else {
          assert newChildren[k] == children[k];
        }
      }
      assert UniqueIn(r[i]);
    } else {
      assert UniqueIn(r[i]);
    }
    forall a, b, x | 0 <= a < b < |r| && OccursIn(x, r[a])
      ensures !OccursIn(x, r[b])
    {
      assert OccursIn(x, bs[a]);
    }
  }
}
