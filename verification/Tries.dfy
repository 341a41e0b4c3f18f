/** The heap of the VRP tries (trieNode in internal/rpki/store.go). A position in a trie is a
    key: the family bit followed by the address bits that lead to it. The ghost maps `nodes`
    and `held` say which object sits at each key and which VRPs it holds. */
module Tries {
  import opened Bgp

  /** A validated ROA payload. */
  datatype VRP = VRP(prefix: Prefix, maxLength: Byte, originAS: Asn)

  class TrieNode {
    var child0: TrieNode?
    var child1: TrieNode?
    var vrps: seq<VRP>

    constructor ()
      ensures child0 == null && child1 == null && vrps == []
    {
      child0, child1, vrps := null, null, [];
    }

    function Next(bit: bool): TrieNode?
      reads this`child0, this`child1
    {
      if bit then child1 else child0
    }
  }

  type Key = seq<bool>
  type Nodes = map<Key, TrieNode>
  type Held = map<Key, seq<VRP>>

  /** What a pointer to key k must be. */
  function NodeAt(nodes: Nodes, k: Key): TrieNode? {
    if k in nodes then nodes[k] else null
  }

  /** Following a bit from a node leads to the node at the longer key. */
  ghost predicate Linked(nodes: Nodes, repr: set<TrieNode>)
    requires Owned(nodes, repr)
    reads repr`child0, repr`child1
  {
    forall k, b :: k in nodes ==> nodes[k].Next(b) == NodeAt(nodes, k + [b])
  }

  ghost predicate Owned(nodes: Nodes, repr: set<TrieNode>) {
    forall k :: k in nodes ==> nodes[k] in repr
  }

  ghost predicate Distinct(nodes: Nodes) {
    forall k, l :: k in nodes && l in nodes && nodes[k] == nodes[l] ==> k == l
  }

  /** Every key but a root has its parent. */
  ghost predicate Closed(nodes: Nodes) {
    && (forall k :: k in nodes ==> |k| > 0)
    && forall k, n :: k in nodes && 1 <= n <= |k| ==> k[..n] in nodes
  }

  ghost predicate Holds(nodes: Nodes, held: Held, repr: set<TrieNode>)
    requires Owned(nodes, repr)
    reads repr`vrps
  {
    && nodes.Keys == held.Keys
    && forall k :: k in nodes ==> nodes[k].vrps == held[k]
  }

  ghost predicate IsTrie(nodes: Nodes, held: Held, repr: set<TrieNode>)
    reads repr
  {
    && Owned(nodes, repr)
    && Linked(nodes, repr)
    && Distinct(nodes)
    && Closed(nodes)
    && Holds(nodes, held, repr)
  }

  /** What a pointer that followed key k points to, and what it holds. */
  lemma AtKey(nodes: Nodes, held: Held, repr: set<TrieNode>, k: Key, node: TrieNode?)
    requires IsTrie(nodes, held, repr) && node == NodeAt(nodes, k)
    ensures nodes.Keys == held.Keys && Closed(nodes) && Owned(nodes, repr)
    ensures node != null <==> k in nodes
    ensures node != null ==> k in held && node == nodes[k] && node in repr && node.vrps == held[k]
    ensures node != null ==> forall b :: node.Next(b) == NodeAt(nodes, k + [b])
  {
  }

  /** What hangs from a key is reached through that key. */
  lemma ParentInTree(nodes: Nodes, k: Key)
    requires Closed(nodes) && |k| > 0
    ensures forall b :: k + [b] in nodes ==> k in nodes
  {
    forall b | k + [b] in nodes
      ensures k in nodes
    {
      assert (k + [b])[..|k|] == k;
    }
  }

  /** Following bits through the heap. */
  ghost function Follow(repr: set<TrieNode>, node: TrieNode?, bits: seq<bool>): TrieNode?
    reads repr
    decreases |bits|
  {
    if |bits| == 0 then node
    else if node == null || node !in repr then null
    else Follow(repr, node.Next(bits[0]), bits[1..])
  }

  /** Following the bits of a path from a node of the tree reaches the node of that path, and null
      exactly when the path is off the tree. */
  lemma {:induction false} PathReaches(nodes: Nodes, held: Held, repr: set<TrieNode>, k: Key, bits: seq<bool>)
    requires IsTrie(nodes, held, repr) && |k| > 0
    ensures Follow(repr, NodeAt(nodes, k), bits) == NodeAt(nodes, k + bits)
    decreases |bits|
  {
    hide IsTrie, Closed;
    if |bits| == 0 {
      assert k + bits == k;
    } else {
      AtKey(nodes, held, repr, k, NodeAt(nodes, k));
      assert k + [bits[0]] + bits[1..] == k + bits;
      PathReaches(nodes, held, repr, k + [bits[0]], bits[1..]);
      PrefixInTree(nodes, k, bits);
    }
  }

  /** A path in the tree is in it from the start. */
  lemma PrefixInTree(nodes: Nodes, k: Key, bits: seq<bool>)
    requires Closed(nodes) && |k| > 0
    ensures k + bits in nodes ==> k in nodes
  {
    assert (k + bits)[..|k|] == k;
  }

  lemma ClosedUnderChild(nodes: Nodes, k: Key, b: bool, node: TrieNode)
    requires Closed(nodes) && k in nodes && |k| > 0
    ensures Closed(nodes[k + [b] := node])
  {
    var c := k + [b];
    forall n | 1 <= n <= |c|
      ensures c[..n] in nodes[c := node]
    {
      if n <= |k| {
        assert c[..n] == k[..n];
      } else {
        assert c[..n] == c;
      }
    }
  }

  lemma ChildInjective(k: Key, b: bool, l: Key, c: bool)
    requires k + [b] == l + [c]
    ensures k == l && b == c
  {
    assert k == (k + [b])[..|k|] && l == (l + [c])[..|l|];
    assert b == Last(k + [b]) && c == Last(l + [c]);
  }

  lemma ClosedUnderRoot(nodes: Nodes, f: bool, node: TrieNode)
    requires Closed(nodes)
    ensures Closed(nodes[[f] := node])
  {
    assert [f][..1] == [f];
  }

  /** A node for the root of family f, which has none yet. */
  method MakeRoot(ghost nodes: Nodes, ghost held: Held, ghost repr: set<TrieNode>, f: bool) returns (root: TrieNode)
    requires IsTrie(nodes, held, repr) && [f] !in nodes
    ensures fresh(root)
    ensures IsTrie(nodes[[f] := root], held[[f] := []], repr + {root})
  {
    root := new TrieNode();
    ParentInTree(nodes, [f]);
    ClosedUnderRoot(nodes, f, root);
    forall k: Key, b | |k| > 0
      ensures k + [b] != [f]
    {
      assert |k + [b]| == |k| + 1;
    }
  }

  /** The values of a tree with one more node, an object not in it before. */
  lemma ChildJoins(nodes: Nodes, repr: set<TrieNode>, k: Key, bit: bool, child: TrieNode)
    requires Owned(nodes, repr) && Distinct(nodes) && Closed(nodes)
    requires k in nodes && child !in repr
    ensures var after := nodes[k + [bit] := child];
      Owned(after, repr + {child}) && Distinct(after) && Closed(after)
  {
    ClosedUnderChild(nodes, k, bit, child);
  }

  /** The tree is linked once the node at k points to the new child. */
  lemma ChildLinks(nodes: Nodes, repr: set<TrieNode>, k: Key, bit: bool, child: TrieNode)
    requires Closed(nodes) && k in nodes && k + [bit] !in nodes
    requires Owned(nodes[k + [bit] := child], repr)
    requires forall l, c :: l in nodes && (l != k || c != bit) ==> nodes[l].Next(c) == NodeAt(nodes, l + [c])
    requires nodes[k].Next(bit) == child && child.Next(false) == null && child.Next(true) == null
    ensures Linked(nodes[k + [bit] := child], repr)
  {
    hide Closed, Owned;
    var after := nodes[k + [bit] := child];
    ParentInTree(nodes, k + [bit]);
    forall l, c | l in after
      ensures after[l].Next(c) == NodeAt(after, l + [c])
    {
      if l + [c] == k + [bit] {
        ChildInjective(l, c, k, bit);
      } else if l == k + [bit] {
        assert l + [c] !in nodes;
      }
    }
  }

  /** A node for a bit that leads nowhere yet. */
  method MakeChild(ghost nodes: Nodes, ghost held: Held, ghost repr: set<TrieNode>, ghost k: Key, node: TrieNode, bit: bool)
    returns (child: TrieNode)
    requires IsTrie(nodes, held, repr)
    requires k in nodes && node == nodes[k] && k + [bit] !in nodes
    modifies node`child0, node`child1
    ensures fresh(child)
    ensures IsTrie(nodes[k + [bit] := child], held[k + [bit] := []], repr + {child})
  {
    hide Closed, NodeAt;
    child := new TrieNode();
    ChildJoins(nodes, repr, k, bit, child);
    if bit {
      node.child1 := child;
    } else {
      node.child0 := child;
    }
    ChildLinks(nodes, repr + {child}, k, bit, child);
  }

  /** One more VRP at the node of key k. */
  method Append(ghost nodes: Nodes, ghost held: Held, ghost repr: set<TrieNode>, ghost k: Key, node: TrieNode, v: VRP)
    requires IsTrie(nodes, held, repr)
    requires k in nodes && node == nodes[k]
    modifies node`vrps
    ensures IsTrie(nodes, held[k := held[k] + [v]], repr)
  {
    node.vrps := node.vrps + [v];
  }
}
