/** The node pool: one growing table of nodes with a free list threaded through it. */
module BforestPool {
  import opened Options
  import opened BforestNode

  function Nth(free: seq<Node>, i: nat): Option<Node> {
    if i < |free| then Some(free[i]) else None
  }

  /** The free list is the chain `free`: no node twice, each linking to the next, and every
  free node of the table is on it. */
  ghost predicate FreeList(nodes: seq<NodeData>, freelist: Option<Node>, free: seq<Node>) {
    && freelist == Nth(free, 0)
    && (forall i | 0 <= i < |free| :: free[i] < |nodes| && nodes[free[i]] == Free(Nth(free, i + 1)))
    && (forall i, j | 0 <= i < j < |free| :: free[i] != free[j])
    && (forall n | 0 <= n < |nodes| :: nodes[n].Free? ==> n in free)
  }

  class NodePool {
    var nodes: seq<NodeData>
    var freelist: Option<Node>
    const cap: nat
    ghost var free: seq<Node>

    ghost predicate Valid()
      reads this
    {
      LeafCapacity(cap) && FreeList(nodes, freelist, free)
    }

    constructor (cap: nat)
      requires LeafCapacity(cap)
      ensures Valid() && this.cap == cap && nodes == []
    {
      nodes, freelist, free := [], None, [];
      this.cap := cap;
    }

    /** Free all nodes. */
    method Clear()
      requires Valid()
      modifies this
      ensures Valid() && nodes == []
    {
      nodes, freelist, free := [], None, [];
    }

    /** Allocate a node containing `data`: the head of the free list, or a new one. */
    method AllocNode(data: NodeData) returns (node: Node)
      requires Valid() && !data.Free?
      modifies this
      ensures Valid()
      ensures node < |old(nodes)| ==> old(nodes)[node].Free? && nodes == old(nodes)[node := data]
      ensures node >= |old(nodes)| ==> node == |old(nodes)| && nodes == old(nodes) + [data]
    {
      match freelist {
        case Some(n) =>
          freelist := nodes[n].next;
          nodes := nodes[n := data];
          free := free[1..];
          node := n;
        case None =>
          node := |nodes|;
          nodes := nodes + [data];
      }
    }

    /** Free a node that is in use. */
    method FreeNode(node: Node)
      requires Valid() && node < |nodes| && !nodes[node].Free?
      modifies this
      ensures Valid() && nodes == old(nodes)[node := Free(old(freelist))]
    {
      nodes := nodes[node := Free(freelist)];
      freelist := Some(node);
      free := [node] + free;
    }

    /** Overwrite a node in use. */
    method Put(node: Node, data: NodeData)
      requires Valid() && node < |nodes| && !nodes[node].Free? && !data.Free?
      modifies this
      ensures Valid() && nodes == old(nodes)[node := data]
    {
      nodes := nodes[node := data];
    }
  }
}
