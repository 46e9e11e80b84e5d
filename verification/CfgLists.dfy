/** Sections on the heap, on the singly linked list that parsing builds and includes splice. */
module CfgLists {
  import opened CfgGrammar

  class SectionNode {
    const section: Section
    var next: SectionNode?

    constructor (section: Section)
      ensures this.section == section && next == null
    {
      this.section, next := section, null;
    }
  }

  class FileNode {
    const name: string
    var first: SectionNode?
    var last: SectionNode?

    constructor (name: string)
      ensures this.name == name && first == null && last == null
    {
      this.name, first, last := name, null, null;
    }
  }

  ghost predicate Distinct(nodes: seq<SectionNode>) {
    forall i, j :: 0 <= i < j < |nodes| ==> nodes[i] != nodes[j]
  }

  /** Following next from the first node visits these nodes, in this order, and comes to end. */
  ghost predicate Linked(nodes: seq<SectionNode>, end: SectionNode?)
    reads nodes
  {
    && Distinct(nodes)
    && forall i {:trigger nodes[i].next} :: 0 <= i < |nodes| ==> nodes[i].next == Follower(nodes, i, end)
  }

  ghost function Follower(nodes: seq<SectionNode>, i: nat, end: SectionNode?): SectionNode?
    requires i < |nodes|
  {
    if i + 1 < |nodes| then nodes[i + 1] else end
  }

  ghost function Head(nodes: seq<SectionNode>, end: SectionNode?): SectionNode? {
    if nodes == [] then end else nodes[0]
  }

  function Contents(nodes: seq<SectionNode>): (sections: seq<Section>)
    ensures |sections| == |nodes|
  {
    if nodes == [] then [] else [nodes[0].section] + Contents(nodes[1..])
  }

  lemma {:induction false} ContentsConcat(a: seq<SectionNode>, b: seq<SectionNode>)
    ensures Contents(a + b) == Contents(a) + Contents(b)
  {
    if a == [] {
      assert a + b == b;
    } else {
      assert (a + b)[1..] == a[1..] + b;
      ContentsConcat(a[1..], b);
    }
  }

  lemma {:induction false} ContentsAt(nodes: seq<SectionNode>, i: nat)
    requires i < |nodes|
    ensures Contents(nodes)[i] == nodes[i].section
  {
    if i > 0 {
      ContentsAt(nodes[1..], i - 1);
    }
  }
}
