/**
 * The part of the `hcl` crate the compilers build on: expressions, blocks,
 * and the block builder whose `add_*` calls append in call order.
 *
 * A block keeps its attributes and its nested blocks as two separate
 * sequences, each in the order the builder received them.
 */
module Hcl {
  import opened Wrappers

  /** `hcl::Expression`, restricted to the variants the compilers produce. */
  datatype Expr =
    | Str(text: string)
    | Bool(flag: bool)
    | Arr(items: seq<Expr>)
    | Obj(fields: map<string, Expr>)

  /** An attribute: its key and its value expression. */
  type Attribute = (string, Expr)

  /** `hcl::Block`: a block type, ordered labels, ordered attributes, ordered nested blocks. */
  datatype Block = Block(blockType: string, labels: seq<string>, attrs: seq<Attribute>, blocks: seq<Block>)

  /** `hcl::BlockBuilder`, consumed and returned by every `add_*` call. */
  datatype Builder = Builder(blockType: string, labels: seq<string>, attrs: seq<Attribute>, blocks: seq<Block>)
  {
    /** `add_label`: appends one label. */
    function AddLabel(name: string): Builder {
      this.(labels := labels + [name])
    }

    /** `add_attribute`: appends one attribute. */
    function AddAttribute(key: string, value: Expr): Builder {
      this.(attrs := attrs + [(key, value)])
    }

    /** `add_block`: appends one nested block. */
    function AddBlock(b: Block): Builder {
      this.(blocks := blocks + [b])
    }

    /** `add_blocks`: appends nested blocks, keeping their order. */
    function AddBlocks(bs: seq<Block>): Builder {
      this.(blocks := blocks + bs)
    }

    /** `build`: the finished block. */
    function Build(): Block {
      Block(blockType, labels, attrs, blocks)
    }
  }

  /** `Block::builder(block_type)`: no labels, no attributes, no nested blocks yet. */
  function NewBuilder(blockType: string): Builder {
    Builder(blockType, [], [], [])
  }

  /** The keys of a sequence of attributes, in order. */
  function Keys(attrs: seq<Attribute>): (ks: seq<string>)
    ensures |ks| == |attrs|
    ensures forall i | 0 <= i < |attrs| :: ks[i] == attrs[i].0
  {
    if attrs == [] then [] else Keys(attrs[..|attrs| - 1]) + [attrs[|attrs| - 1].0]
  }

  /** The value of the first attribute with the given key, if there is one. */
  function Get(attrs: seq<Attribute>, key: string): (r: Option<Expr>)
    ensures r.None? <==> key !in Keys(attrs)
    ensures r.Some? ==> (key, r.value) in attrs
  {
    if attrs == [] then None
    else if attrs[0].0 == key then Some(attrs[0].1)
    else
      assert Keys(attrs) == [attrs[0].0] + Keys(attrs[1..]);
      Get(attrs[1..], key)
  }

  /** No key occurs twice. */
  predicate Distinct(ks: seq<string>) {
    forall i, j | 0 <= i < j < |ks| :: ks[i] != ks[j]
  }

  /** `xs` is `ys` with some elements left out, the rest in the same order. */
  predicate Subsequence(xs: seq<string>, ys: seq<string>)
    decreases |ys|
  {
    if xs == [] then true
    else if ys == [] then false
    else if xs[0] == ys[0] then Subsequence(xs[1..], ys[1..])
    else Subsequence(xs, ys[1..])
  }
}
