/** The recursive walk of the hierarchy parser, in place, and what its array encodes. */
module UiParser {
  import opened Wrappers
  import opened UiHierarchy
  import opened UiElements

  class UiHierarchyParser {
    const limits: Limits
    var mutable: seq<Node>

    constructor (limits: Limits)
      ensures this.limits == limits && mutable == []
    {
      this.limits := limits;
      mutable := [];
    }

    /** Parses one document: the array of its node elements, in document order, or None when it is rejected,
        because it has none or too many, one is malformed, or they are nested too deeply. */
    method Parse(root: Element) returns (r: Option<seq<Node>>)
      modifies this
      ensures r.Some? <==> Forest(root, limits).Some? && Forest(root, limits).value != []
                           && SizeOf(Forest(root, limits).value) <= limits.maxNodes
      ensures r.Some? ==> Encodes(r.value, Forest(root, limits).value)
      ensures var es := NodesOf(Roots(root));
              && (r.Some? <==> 0 < |es| <= limits.maxNodes && AllAccepted(es, limits)
                               && DepthOf(Roots(root)) <= limits.maxDepth)
              && (r.Some? ==> |r.value| == |es|
                              && forall i :: 0 <= i < |es| ==> Describes(es[i], r.value[i].info))
    {
      hide TreesOf, SizeOf, PlacedAll, IndexesOf, NodesOf, AllAccepted, DepthOf, Describes, Encodes, Roots;
      ForestExact(root, limits);
      EmptyForestExact(root, limits);
      mutable := [];
      var roots := WalkAll(Roots(root), None, 1);
      if roots.None? || roots.value == [] {
        return None;
      }
      assert Encodes(mutable, Forest(root, limits).value) by { EncodesAll(mutable, Forest(root, limits).value); }
      NodesDescribe(root, limits, mutable);
      return Some(mutable);
    }

    /** Appends the subtree of one element and patches its child links afterwards. */
    method Walk(e: Element, parent: Option<nat>, depth: nat) returns (r: Option<nat>)
      modifies this
      ensures old(mutable) <= mutable
      ensures r.Some? <==> TreeOf(e, limits, depth).Some?
                           && |old(mutable)| + Size(TreeOf(e, limits, depth).value) <= limits.maxNodes
      ensures r.Some? ==>
                var t := TreeOf(e, limits, depth).value;
                && r.value == |old(mutable)|
                && |mutable| == |old(mutable)| + Size(t)
                && Placed(mutable, t, parent, |old(mutable)|) && Describes(e, mutable[r.value].info)
      decreases e, 1
    {
      hide InfoOf, TreesOf, SizeOf, IndexesOf, PlacedAll, Describes, Accepted;
      InfoExact(e, limits);
      if depth > limits.maxDepth || |mutable| >= limits.maxNodes {
        return None;
      }
      var info := InfoOf(e, limits);
      if info.None? {
        return None;
      }
      var index := |mutable|;
      mutable := mutable + [Node(index, parent, [], info.value)];
      ghost var before := mutable;
      var children := WalkAll(e.children, Some(index), depth + 1);
      if children.None? {
        return None;
      }
      ghost var ts := TreesOf(e.children, limits, depth + 1).value;
      ghost var walked := mutable;
      mutable := mutable[index := mutable[index].(children := children.value)];
      PlacedAllFrame(walked, mutable, ts, Some(index), index + 1);
      return Some(index);
    }

    /** The node elements of a list, in order; other tags are skipped. */
    method WalkAll(es: seq<Element>, parent: Option<nat>, depth: nat) returns (r: Option<seq<nat>>)
      modifies this
      ensures old(mutable) <= mutable
      ensures r.Some? ==> TreesOf(es, limits, depth).Some?
      ensures |old(mutable)| <= limits.maxNodes ==>
                (r.Some? <==> TreesOf(es, limits, depth).Some?
                              && |old(mutable)| + SizeOf(TreesOf(es, limits, depth).value) <= limits.maxNodes)
      ensures r.Some? ==>
                var ts := TreesOf(es, limits, depth).value;
                && r.value == IndexesOf(ts, |old(mutable)|)
                && |mutable| == |old(mutable)| + SizeOf(ts)
                && PlacedAll(mutable, ts, parent, |old(mutable)|)
      decreases es, 0
    {
      hide TreesOf, TreeOf, SizeOf, Size, IndexesOf, PlacedAll, Placed, Describes, InfoOf;
      ghost var base := |mutable|;
      EmptyForest(limits, depth, base, mutable, parent);
      assert es[..0] == [];
      var indexes := [];
      ghost var ts: seq<Tree> := [];
      var i := 0;
      while i < |es|
        invariant 0 <= i <= |es|
        invariant old(mutable) <= mutable
        invariant TreesOf(es[..i], limits, depth) == Some(ts)
        invariant indexes == IndexesOf(ts, base)
        invariant |mutable| == base + SizeOf(ts)
        invariant base <= limits.maxNodes ==> |mutable| <= limits.maxNodes
        invariant PlacedAll(mutable, ts, parent, base)
      {
        TreesSnoc(es, i, limits, depth);
        PrefixFails(es, i + 1, limits, depth);
        if es[i].tag == "node" {
          ghost var before := mutable;
          var index := Walk(es[i], parent, depth);
          if index.None? {
            if TreeOf(es[i], limits, depth).Some? {
              PlacedSnoc(mutable, ts, TreeOf(es[i], limits, depth).value, parent, base);
            }
            return None;
          }
          ghost var t := TreeOf(es[i], limits, depth).value;
          PlacedAllFrame(before, mutable, ts, parent, base);
          PlacedSnoc(mutable, ts, t, parent, base);
          indexes := indexes + [index.value];
          ts := ts + [t];
        }
        i := i + 1;
      }
      assert es[..i] == es;
      return Some(indexes);
    }
  }

  lemma EncodesAll(nodes: seq<Node>, ts: seq<Tree>)
    requires |nodes| == SizeOf(ts) && PlacedAll(nodes, ts, None, 0)
    ensures Encodes(nodes, ts)
  {
  }

  lemma EmptyForestExact(root: Element, limits: Limits)
    ensures Forest(root, limits).Some? ==> (Forest(root, limits).value == [] <==> NodesOf(Roots(root)) == [])
  {
    ForestExact(root, limits);
    hide TreesOf, NodesOf, AllAccepted, DepthOf;
  }

  lemma EmptyForest(limits: Limits, depth: nat, base: nat, nodes: seq<Node>, parent: Option<nat>)
    ensures TreesOf([], limits, depth) == Some([]) && SizeOf([]) == 0
    ensures IndexesOf([], base) == [] && PlacedAll(nodes, [], parent, base)
  {
  }
}
