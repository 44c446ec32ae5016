/** The B-tree node record: an ordered list of keys, the owned child nodes
    (empty for a leaf) and the leaf flag. */
module Nodes {

  /** Keys are the source's `usize` values; they are only compared, never
      computed with, so `nat` models them exactly. */
  datatype Node = Node(keys: seq<nat>, children: seq<Node>, leaf: bool)

  /** The root of a freshly constructed tree: a leaf without keys or children. */
  function Empty(): (n: Node)
    ensures n.keys == [] && n.children == [] && n.leaf
  {
    Node([], [], true)
  }

  /** Builds a node from its three parts, storing each one unchanged. */
  function New(keys: seq<nat>, children: seq<Node>, leaf: bool): (n: Node)
    ensures n.keys == keys && n.children == children && n.leaf == leaf
  {
    Node(keys, children, leaf)
  }
}
