/** The accounting-group tree: mutable nodes, and the immutable picture of a subtree
    that the allocators' contracts talk about. */
module GroupNodes {
  const ROOT_GROUP_NAME := "<none>"

  /** One subtree as a value. `unmet` is the node's subtreeRequested bookkeeping, `ownRR` and `subtreeRR`
      its round-robin timestamps. */
  datatype Tree = Tree(
    quota: real,
    subtreeQuota: real,
    requested: real,
    allocation: real,
    accept: bool,
    unmet: real,
    ownRR: real,
    subtreeRR: real,
    config: real,
    isStatic: bool,
    isRoot: bool,
    kids: seq<Tree>)

  /** A group node. The links are fixed once the tree is built, so only the per-cycle
      figures are mutable; the allocator's nodeState is kept on the node itself. */
  class GroupNode {
    const name: string
    const configQuota: real
    const staticQuota: bool
    const children: seq<GroupNode>
    const rrTime: real

    var quota: real
    var subtreeQuota: real
    var requested: real
    var allocation: real
    var acceptSurplus: bool

    var subtreeRequested: real
    var subtreeRRTime: real

    ghost const repr: set<GroupNode>
    ghost const height: nat

    /** The links below this node form a tree. */
    ghost predicate Valid()
      decreases height
    {
      && this in repr
      && (forall i :: 0 <= i < |children| ==>
            && children[i].height < height
            && children[i].repr <= repr
            && this !in children[i].repr
            && children[i].Valid())
      && (forall i, j :: 0 <= i < j < |children| ==> children[i].repr !! children[j].repr)
    }

    /** The subtrees of the children are smaller, separate from one another and from the node. */
    lemma Structure()
      requires Valid()
      ensures this in repr
      ensures forall i :: 0 <= i < |children| ==>
                && children[i].Valid() && children[i].height < height && children[i].repr <= repr
                && this !in children[i].repr
      ensures forall i, j :: 0 <= i < j < |children| ==> children[i].repr !! children[j].repr
    {
    }

    ghost function View(): (t: Tree)
      requires Valid()
      reads repr
      ensures |t.kids| == |children|
      ensures forall i :: 0 <= i < |children| ==> t.kids[i] == children[i].View()
      decreases height
    {
      Tree(quota, subtreeQuota, requested, allocation, acceptSurplus, subtreeRequested,
           rrTime, subtreeRRTime, configQuota, staticQuota, name == ROOT_GROUP_NAME,
           seq(|children|, i requires 0 <= i < |children| reads repr => children[i].View()))
    }

    /** The figures of the node itself. */
    lemma Figures()
      requires Valid()
      ensures View() == Tree(quota, subtreeQuota, requested, allocation, acceptSurplus, subtreeRequested, rrTime,
                             subtreeRRTime, configQuota, staticQuota, name == ROOT_GROUP_NAME, View().kids)
    {
    }

    /** A node above already built subtrees. */
    constructor (name: string, configQuota: real, staticQuota: bool, acceptSurplus: bool, rrTime: real,
                 children: seq<GroupNode>, ghost repr: set<GroupNode>, ghost height: nat)
      requires forall i :: 0 <= i < |children| ==>
                 children[i].Valid() && children[i].height < height && children[i].repr <= repr
      requires forall i, j :: 0 <= i < j < |children| ==> children[i].repr !! children[j].repr
      ensures Valid() && this.repr == repr + {this}
      ensures this.name == name && this.children == children && this.acceptSurplus == acceptSurplus
      ensures this.configQuota == configQuota && this.staticQuota == staticQuota && this.rrTime == rrTime
    {
      this.name, this.configQuota, this.staticQuota := name, configQuota, staticQuota;
      this.acceptSurplus, this.rrTime, this.children := acceptSurplus, rrTime, children;
      this.repr, this.height := repr + {this}, height;
      quota, subtreeQuota, requested, allocation := 0.0, 0.0, 0.0, 0.0;
      subtreeRequested, subtreeRRTime := 0.0, 0.0;
    }

    /** Let the node compete like a surplus-accepting child of itself, under the given stamp. */
    method PoseAsChild(subtreeRRTime: real)
      requires Valid()
      modifies this
      ensures View() == old(View()).(accept := true, subtreeQuota := old(quota), unmet := old(requested),
                                     subtreeRR := subtreeRRTime)
    {
      acceptSurplus := true;
      subtreeQuota := quota;
      subtreeRequested := requested;
      this.subtreeRRTime := subtreeRRTime;
      assert forall i :: 0 <= i < |children| ==> children[i].View() == old(children[i].View());
    }

    /** Allocate the node its own part of a distribution, then restore what was overwritten for it. */
    method AllocateAndRestore(part: real, unmet: real, accept: bool, subtreeQuota: real, subtreeRRTime: real)
      requires Valid()
      modifies this
      ensures View() == old(View()).(allocation := old(allocation) + part, requested := old(requested) - part,
                                     unmet := unmet, accept := accept, subtreeQuota := subtreeQuota,
                                     subtreeRR := subtreeRRTime)
    {
      allocation := allocation + part;
      requested := requested - part;
      subtreeRequested := unmet;
      acceptSurplus := accept;
      this.subtreeQuota := subtreeQuota;
      this.subtreeRRTime := subtreeRRTime;
      assert forall i :: 0 <= i < |children| ==> children[i].View() == old(children[i].View());
    }
  }
}
