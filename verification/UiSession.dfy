/** The fingerprint of a hierarchy and the tap that checks it. */
module UiSession {
  import opened Wrappers
  import opened UiHierarchy
  import opened UiEncoding

  /** What the fingerprint reads of a node: no text, only whether there is one. */
  datatype SafeNode = SafeNode(
    resourceId: string, className: string, package: string, bounds: Bounds, enabled: bool, clickable: bool,
    hasText: bool, hasDescription: bool, password: bool, parent: Option<nat>, children: seq<nat>)

  /** The digest of the encoded list, as an ideal (injective) one. */
  datatype Fingerprint = Fingerprint(safe: seq<SafeNode>)

  function Safe(n: Node): SafeNode {
    SafeNode(n.info.resourceId, n.info.className, n.info.package, n.info.bounds, n.info.enabled, n.info.clickable,
             n.info.text != "", n.info.contentDescription != "", n.info.password, n.parent, n.children)
  }

  function SafeNodes(nodes: seq<Node>): (r: seq<SafeNode>)
    ensures |r| == |nodes|
    ensures forall i {:trigger r[i]} :: 0 <= i < |nodes| ==> r[i] == Safe(nodes[i])
  {
    if nodes == [] then [] else SafeNodes(nodes[..|nodes| - 1]) + [Safe(nodes[|nodes| - 1])]
  }

  function FingerprintOf(nodes: seq<Node>): Fingerprint {
    Fingerprint(SafeNodes(nodes))
  }

  // ----- taps -----

  datatype Resolved = Resolved(nodeIndex: nat, bounds: Bounds, snapshot: Fingerprint, actionable: bool)

  datatype TapOutcome = Tapped | ElementNotFound | DumpInvalid | StateUncertain

  class AndroidUiSession {
    var taps: seq<(int, int)>

    /** `dump` is the hierarchy read at the moment of the tap, None when it could not be parsed. */
    method TapElement(element: Resolved, dump: Option<seq<Node>>) returns (outcome: TapOutcome)
      modifies this
      ensures outcome == if !element.actionable then ElementNotFound
                         else if dump.None? then DumpInvalid
                         else if FingerprintOf(dump.value) != element.snapshot then StateUncertain
                         else Tapped
      ensures taps == if outcome == Tapped then old(taps) + [element.bounds.Center()] else old(taps)
    {
      if !element.actionable {
        return ElementNotFound;
      }
      if dump.None? {
        return DumpInvalid;
      }
      if FingerprintOf(dump.value) != element.snapshot {
        return StateUncertain;
      }
      taps := taps + [element.bounds.Center()];
      return Tapped;
    }
  }

  /** The element was resolved against this snapshot. */
  ghost predicate ResolvedFrom(element: Resolved, nodes: seq<Node>) {
    && element.nodeIndex < |nodes| && element.bounds == nodes[element.nodeIndex].info.bounds
    && element.snapshot == FingerprintOf(nodes)
  }

  /** A tap that goes through hits, in the hierarchy on screen now, the middle of the node with the same
      position in the array, the same links, identifiers, bounds and flags as the one resolved; only the
      wording of its texts may differ. */
  lemma TapHitsSameNode(element: Resolved, snapshot: seq<Node>, current: seq<Node>)
    requires ResolvedFrom(element, snapshot) && FingerprintOf(current) == element.snapshot
    ensures |current| == |snapshot|
    ensures var a, b := current[element.nodeIndex], snapshot[element.nodeIndex];
            && a.parent == b.parent && a.children == b.children && a.info.bounds == element.bounds
            && a.info.resourceId == b.info.resourceId && a.info.className == b.info.className
            && a.info.package == b.info.package && a.info.enabled == b.info.enabled
            && a.info.clickable == b.info.clickable && a.info.password == b.info.password
            && (a.info.text == "" <==> b.info.text == "")
            && (a.info.contentDescription == "" <==> b.info.contentDescription == "")
  {
    assert SafeNodes(current)[element.nodeIndex] == Safe(current[element.nodeIndex]);
    assert SafeNodes(snapshot)[element.nodeIndex] == Safe(snapshot[element.nodeIndex]);
  }

  /** A tap goes to the middle of the bounds, rounded down, which lies within them, and strictly inside the
      far edges of an area. */
  lemma CenterInside(b: Bounds)
    requires b.left <= b.right && b.top <= b.bottom
    ensures 2 * b.Center().0 <= b.left + b.right <= 2 * b.Center().0 + 1
    ensures 2 * b.Center().1 <= b.top + b.bottom <= 2 * b.Center().1 + 1
    ensures b.left <= b.Center().0 <= b.right && b.top <= b.Center().1 <= b.bottom
    ensures b.left < b.right ==> b.Center().0 < b.right
    ensures b.top < b.bottom ==> b.Center().1 < b.bottom
  {
  }

  // ----- what the fingerprint tells apart -----

  /** The part of a node's data that the fingerprint keeps. */
  function Mask(i: Info): Info {
    i.(text := if i.text == "" then "" else "x", contentDescription := if i.contentDescription == "" then "" else "x",
       focusable := false, focused := false, selected := false, checked := false)
  }

  /** Two nodes look alike to the fingerprint exactly if they agree on identifiers, class, package, bounds,
      two of the flags and whether they are a password field or have texts. */
  lemma MaskExact(i: Info, j: Info)
    ensures Mask(i) == Mask(j) <==>
              && i.resourceId == j.resourceId && i.className == j.className && i.package == j.package
              && i.bounds == j.bounds && i.enabled == j.enabled && i.clickable == j.clickable
              && i.password == j.password && (i.text == "" <==> j.text == "")
              && (i.contentDescription == "" <==> j.contentDescription == "")
  {
    assert "x" != "";
  }

  /** And two trees if their roots do and their subtrees do, in order. */
  lemma MaskTreesExact(s: Tree, t: Tree)
    ensures MaskTree(s) == MaskTree(t) <==>
              && Mask(s.info) == Mask(t.info) && |s.children| == |t.children|
              && forall k :: 0 <= k < |s.children| ==> MaskTree(s.children[k]) == MaskTree(t.children[k])
  {
    MaskTreeIs(s, t);
    MaskAllAt(s.children);
    MaskAllAt(t.children);
    var a, b := MaskAll(s.children), MaskAll(t.children);
    hide Mask, MaskAll, MaskTree;
    if |a| == |b| {
      assert a == b <==> forall k :: 0 <= k < |a| ==> a[k] == b[k];
    }
  }

  lemma MaskTreeIs(s: Tree, t: Tree)
    ensures MaskTree(s) == MaskTree(t) <==>
              Mask(s.info) == Mask(t.info) && MaskAll(s.children) == MaskAll(t.children)
  {
    hide Mask, MaskAll;
  }

  lemma {:induction false} MaskAllAt(ts: seq<Tree>)
    ensures forall k :: 0 <= k < |ts| ==> MaskAll(ts)[k] == MaskTree(ts[k])
  {
    hide Mask, MaskTree;
    if ts == [] {
    } else {
      MaskAllAt(ts[..|ts| - 1]);
    }
  }

  function MaskTree(t: Tree): Tree
    decreases t, 1
  {
    Tree(Mask(t.info), MaskAll(t.children))
  }

  function MaskAll(ts: seq<Tree>): (r: seq<Tree>)
    ensures |r| == |ts|
    decreases ts, 0
  {
    if ts == [] then [] else MaskAll(ts[..|ts| - 1]) + [MaskTree(ts[|ts| - 1])]
  }

  function MaskNodes(nodes: seq<Node>): (r: seq<Node>)
    ensures |r| == |nodes|
    ensures forall i {:trigger r[i]} :: 0 <= i < |nodes| ==> r[i] == nodes[i].(info := Mask(nodes[i].info))
  {
    if nodes == [] then []
    else
      var n := |nodes| - 1;
      MaskNodes(nodes[..n]) + [nodes[n].(info := Mask(nodes[n].info))]
  }

  lemma {:induction false} MaskSize(t: Tree)
    ensures Size(MaskTree(t)) == Size(t)
    decreases t, 1
  {
    MaskSizes(t.children);
  }

  lemma {:induction false} MaskSizes(ts: seq<Tree>)
    ensures SizeOf(MaskAll(ts)) == SizeOf(ts)
    decreases ts, 0
  {
    if ts == [] {
    } else {
      var n := |ts| - 1;
      MaskSizes(ts[..n]);
      MaskSize(ts[n]);
      MaskSnoc(ts);
      SnocSizes(MaskAll(ts[..n]), MaskTree(ts[n]), 0);
      hide Size, MaskTree, MaskAll;
    }
  }

  lemma {:induction false} MaskIndexes(ts: seq<Tree>, base: nat)
    ensures IndexesOf(MaskAll(ts), base) == IndexesOf(ts, base)
  {
    if ts == [] {
    } else {
      var n := |ts| - 1;
      MaskIndexes(ts[..n], base);
      MaskSizes(ts[..n]);
      MaskSnoc(ts);
      SnocSizes(MaskAll(ts[..n]), MaskTree(ts[n]), base);
      hide Size, MaskTree, MaskAll, SizeOf;
    }
  }

  lemma MaskSnoc(ts: seq<Tree>)
    requires ts != []
    ensures MaskAll(ts) == MaskAll(ts[..|ts| - 1]) + [MaskTree(ts[|ts| - 1])]
  {
  }

  lemma SnocSizes(ts: seq<Tree>, t: Tree, base: nat)
    ensures SizeOf(ts + [t]) == SizeOf(ts) + Size(t)
    ensures IndexesOf(ts + [t], base) == IndexesOf(ts, base) + [base + SizeOf(ts)]
  {
    hide Size;
    assert (ts + [t])[..|ts|] == ts;
  }

  lemma {:induction false} MaskPlaced(nodes: seq<Node>, t: Tree, parent: Option<nat>, base: nat)
    requires Placed(nodes, t, parent, base)
    ensures Placed(MaskNodes(nodes), MaskTree(t), parent, base)
    decreases t, 1
  {
    MaskSizes(t.children);
    MaskIndexes(t.children, base + 1);
    MaskAllPlaced(nodes, t.children, Some(base), base + 1);
    hide MaskAll, IndexesOf, PlacedAll, SizeOf;
  }

  lemma {:induction false} MaskAllPlaced(nodes: seq<Node>, ts: seq<Tree>, parent: Option<nat>, base: nat)
    requires PlacedAll(nodes, ts, parent, base)
    ensures PlacedAll(MaskNodes(nodes), MaskAll(ts), parent, base)
    decreases ts, 0
  {
    hide MaskTree, MaskNodes, Mask, IndexesOf, Size, Placed;
    if ts == [] {
    } else {
      var n := |ts| - 1;
      MaskAllPlaced(nodes, ts[..n], parent, base);
      MaskPlaced(nodes, ts[n], parent, base + SizeOf(ts[..n]));
      MaskSizes(ts[..n]);
      assert MaskAll(ts) == MaskAll(ts[..n]) + [MaskTree(ts[n])];
      hide MaskAll, PlacedAll, SizeOf;
      PlacedSnoc(MaskNodes(nodes), MaskAll(ts[..n]), MaskTree(ts[n]), parent, base);
    }
  }

  lemma SameMaskSameFingerprint(a: seq<Node>, b: seq<Node>)
    requires forall i :: 0 <= i < |a| ==> a[i].index == i
    requires forall i :: 0 <= i < |b| ==> b[i].index == i
    ensures MaskNodes(a) == MaskNodes(b) <==> FingerprintOf(a) == FingerprintOf(b)
  {
    var ma, mb, sa, sb := MaskNodes(a), MaskNodes(b), SafeNodes(a), SafeNodes(b);
    if |a| == |b| {
      forall i | 0 <= i < |a| ensures ma[i] == mb[i] <==> sa[i] == sb[i] {}
      if ma == mb {
        assert forall i :: 0 <= i < |a| ==> sa[i] == sb[i];
      }
      if sa == sb {
        assert forall i :: 0 <= i < |a| ==> ma[i] == mb[i];
      }
    }
  }

  /** Two documents have the same fingerprint exactly when their node trees agree on everything but
      the wording of texts and descriptions and the focusable, focused, selected and checked flags. */
  lemma FingerprintExact(a: seq<Node>, ta: seq<Tree>, b: seq<Node>, tb: seq<Tree>)
    requires Encodes(a, ta) && Encodes(b, tb)
    ensures FingerprintOf(a) == FingerprintOf(b) <==> MaskAll(ta) == MaskAll(tb)
  {
    MaskSizes(ta);
    MaskSizes(tb);
    MaskAllPlaced(a, ta, None, 0);
    MaskAllPlaced(b, tb, None, 0);
    var ma, mb := MaskNodes(a), MaskNodes(b);
    forall i | 0 <= i < |a| ensures a[i].index == i { LinksExact(a, ta, i); }
    forall i | 0 <= i < |b| ensures b[i].index == i { LinksExact(b, tb, i); }
    SameMaskSameFingerprint(a, b);
    assert Encodes(ma, MaskAll(ta)) && Encodes(mb, MaskAll(tb));
    hide PlacedAll, MaskAll, MaskNodes, FingerprintOf, Encodes;
    if ma == mb {
      Lossless(ma, MaskAll(ta));
      Lossless(mb, MaskAll(tb));
    }
    if MaskAll(ta) == MaskAll(tb) {
      EncodingUnique(ma, mb, MaskAll(ta));
    }
  }
}
