/** What the nodes of a parsed document say about its elements: which elements are accepted, and what each
    node takes from the attributes of its own. */
module UiElements {
  import opened Wrappers
  import opened UiHierarchy

  // ----- one element and its node -----

  predicate Absent(e: Element, name: string) {
    name !in e.attributes
  }

  predicate Given(e: Element, name: string, value: string) {
    name in e.attributes && e.attributes[name] == value
  }

  /** A text that is empty when the attribute is absent. */
  predicate Reads(e: Element, name: string, value: string) {
    if name in e.attributes then value == e.attributes[name] else value == ""
  }

  predicate Boolean(e: Element, name: string) {
    Absent(e, name) || Given(e, name, "true") || Given(e, name, "false")
  }

  predicate Fits(e: Element, name: string, most: nat) {
    name in e.attributes ==> |e.attributes[name]| <= most
  }

  /** The elements a document may hold: attributes within the limit, bounds in the pattern and not reversed,
      flags that are true or false if they are given, and, unless it is a password field, texts within their
      limit. */
  ghost predicate Accepted(e: Element, limits: Limits) {
    && (forall name :: name in e.attributes ==> |e.attributes[name]| <= limits.maxAttributeLength)
    && "bounds" in e.attributes && ParseBounds(e.attributes["bounds"]).Some?
    && (var b := ParseBounds(e.attributes["bounds"]).value; b.left <= b.right && b.top <= b.bottom)
    && Boolean(e, "password") && Boolean(e, "enabled") && Boolean(e, "clickable") && Boolean(e, "focusable")
    && Boolean(e, "focused") && Boolean(e, "selected") && Boolean(e, "checked")
    && (Given(e, "password", "true")
        || (Fits(e, "text", limits.maxTextLength) && Fits(e, "content-desc", limits.maxTextLength)))
  }

  /** What a node keeps of its element; of a password field neither text nor description. */
  ghost predicate Describes(e: Element, i: Info) {
    && "bounds" in e.attributes && ParseBounds(e.attributes["bounds"]) == Some(i.bounds)
    && Reads(e, "resource-id", i.resourceId) && Reads(e, "class", i.className) && Reads(e, "package", i.package)
    && (i.password <==> Given(e, "password", "true"))
    && (i.enabled <==> Given(e, "enabled", "true")) && (i.clickable <==> Given(e, "clickable", "true"))
    && (i.focusable <==> Given(e, "focusable", "true")) && (i.focused <==> Given(e, "focused", "true"))
    && (i.selected <==> Given(e, "selected", "true")) && (i.checked <==> Given(e, "checked", "true"))
    && (if Given(e, "password", "true") then i.text == "" && i.contentDescription == ""
        else Reads(e, "text", i.text) && Reads(e, "content-desc", i.contentDescription))
  }

  lemma FlagExact(e: Element, name: string)
    ensures Flag(e, name).Some? <==> Boolean(e, name)
    ensures Flag(e, name).Some? ==> (Flag(e, name).value <==> Given(e, name, "true"))
  {
    assert "false" != "true" by { assert "false"[0] != "true"[0]; }
  }

  lemma FlagsExact(e: Element)
    ensures AllGiven(FlagsOf(e)) <==>
              && Boolean(e, "password") && Boolean(e, "enabled") && Boolean(e, "clickable") && Boolean(e, "focusable")
              && Boolean(e, "focused") && Boolean(e, "selected") && Boolean(e, "checked")
    ensures AllGiven(FlagsOf(e)) ==>
              var f := FlagsOf(e);
              && (f[0].value <==> Given(e, "password", "true")) && (f[1].value <==> Given(e, "enabled", "true"))
              && (f[2].value <==> Given(e, "clickable", "true")) && (f[3].value <==> Given(e, "focusable", "true"))
              && (f[4].value <==> Given(e, "focused", "true")) && (f[5].value <==> Given(e, "selected", "true"))
              && (f[6].value <==> Given(e, "checked", "true"))
  {
    hide Flag, Boolean, Given;
    FlagExact(e, "password");
    FlagExact(e, "enabled");
    FlagExact(e, "clickable");
    FlagExact(e, "focusable");
    FlagExact(e, "focused");
    FlagExact(e, "selected");
    FlagExact(e, "checked");
    var f := FlagsOf(e);
    assert AllGiven(f) <==> f[0].Some? && f[1].Some? && f[2].Some? && f[3].Some? && f[4].Some? && f[5].Some?
                            && f[6].Some?;
  }

  lemma NoBounds()
    ensures ParseBounds("") == None
  {
  }

  /** An element becomes a node exactly if it is accepted, and the node says what the element says. */
  lemma InfoExact(e: Element, limits: Limits)
    ensures InfoOf(e, limits).Some? <==> Accepted(e, limits)
    ensures InfoOf(e, limits).Some? ==> Describes(e, InfoOf(e, limits).value)
  {
    FlagsExact(e);
    NoBounds();
    hide FlagsOf, ParseBounds, AllGiven, Boolean, Flag;
  }

  // ----- the node elements of a document -----

  /** In document order; everything below another tag is dropped. */
  function NodesOf(es: seq<Element>): seq<Element> {
    if es == [] then []
    else
      var n := |es| - 1;
      NodesOf(es[..n]) + if es[n].tag == "node" then [es[n]] + NodesOf(es[n].children) else []
  }

  /** How deep they are nested. */
  function DepthOf(es: seq<Element>): nat {
    if es == [] then 0
    else
      var n := |es| - 1;
      var rest := DepthOf(es[..n]);
      if es[n].tag != "node" || 1 + DepthOf(es[n].children) <= rest then rest else 1 + DepthOf(es[n].children)
  }

  ghost predicate AllAccepted(es: seq<Element>, limits: Limits) {
    forall i :: 0 <= i < |es| ==> Accepted(es[i], limits)
  }

  lemma AcceptedJoin(a: seq<Element>, b: seq<Element>, limits: Limits)
    ensures AllAccepted(a + b, limits) <==> AllAccepted(a, limits) && AllAccepted(b, limits)
  {
    hide Accepted;
    assert forall i :: 0 <= i < |a| ==> (a + b)[i] == a[i];
    assert forall i :: 0 <= i < |b| ==> (a + b)[|a| + i] == b[i];
  }

  lemma AcceptedOne(e: Element, limits: Limits)
    ensures AllAccepted([e], limits) <==> Accepted(e, limits)
  {
    hide Accepted;
    assert [e][0] == e;
  }

  /** The trees of a list are there exactly if all its node elements are accepted and none is too deep, and
      they are as many as the node elements. */
  lemma {:induction false} TreesExact(es: seq<Element>, limits: Limits, depth: nat)
    requires depth > 0
    ensures TreesOf(es, limits, depth).Some?
            <==> AllAccepted(NodesOf(es), limits) && (DepthOf(es) == 0 || depth - 1 + DepthOf(es) <= limits.maxDepth)
    ensures TreesOf(es, limits, depth).Some? ==> SizeOf(TreesOf(es, limits, depth).value) == |NodesOf(es)|
    decreases es, 0
  {
    hide AllAccepted, TreeOf, Size;
    if es == [] {
      assert AllAccepted([], limits) by { NoneRefused(limits); }
    } else {
      var n := |es| - 1;
      TreesExact(es[..n], limits, depth);
      if es[n].tag == "node" {
        TreeExact(es[n], limits, depth);
        AcceptedJoin(NodesOf(es[..n]), [es[n]] + NodesOf(es[n].children), limits);
        if TreesOf(es, limits, depth).Some? {
          PlacedSnoc([], TreesOf(es[..n], limits, depth).value, TreeOf(es[n], limits, depth).value, None, 0);
        }
        hide SizeOf;
      } else {
        assert NodesOf(es) == NodesOf(es[..n]);
      }
    }
  }

  lemma NoneRefused(limits: Limits)
    ensures AllAccepted([], limits)
  {
  }

  lemma {:induction false} TreeExact(e: Element, limits: Limits, depth: nat)
    requires depth > 0
    ensures TreeOf(e, limits, depth).Some?
            <==> AllAccepted([e] + NodesOf(e.children), limits) && depth + DepthOf(e.children) <= limits.maxDepth
    ensures TreeOf(e, limits, depth).Some? ==> Size(TreeOf(e, limits, depth).value) == 1 + |NodesOf(e.children)|
    decreases e, 1
  {
    TreesExact(e.children, limits, depth + 1);
    InfoExact(e, limits);
    AcceptedJoin([e], NodesOf(e.children), limits);
    AcceptedOne(e, limits);
    hide AllAccepted, InfoOf, Accepted, NodesOf, DepthOf, SizeOf, TreesOf;
  }

  // ----- the nodes of the array -----

  /** The infos of the array, from `base` on, describe these elements one by one. */
  ghost predicate DescribedAt(nodes: seq<Node>, es: seq<Element>, base: nat) {
    base + |es| <= |nodes| && forall i :: 0 <= i < |es| ==> Describes(es[i], nodes[base + i].info)
  }

  lemma DescribedJoin(nodes: seq<Node>, a: seq<Element>, b: seq<Element>, base: nat)
    requires DescribedAt(nodes, a, base) && DescribedAt(nodes, b, base + |a|)
    ensures DescribedAt(nodes, a + b, base)
  {
    hide Describes;
    forall i | 0 <= i < |a + b| ensures Describes((a + b)[i], nodes[base + i].info) {
      if i >= |a| {
        assert (a + b)[i] == b[i - |a|] && nodes[base + |a| + (i - |a|)] == nodes[base + i];
      }
    }
  }

  lemma NothingDescribed(nodes: seq<Node>, base: nat)
    requires base <= |nodes|
    ensures DescribedAt(nodes, NodesOf([]), base)
  {
  }

  lemma DescribedOne(nodes: seq<Node>, e: Element, base: nat)
    requires base < |nodes| && Describes(e, nodes[base].info)
    ensures DescribedAt(nodes, [e], base)
  {
  }

  lemma TreeParts(e: Element, limits: Limits, depth: nat)
    requires TreeOf(e, limits, depth).Some?
    ensures InfoOf(e, limits).Some? && TreesOf(e.children, limits, depth + 1).Some?
    ensures TreeOf(e, limits, depth).value
            == Tree(InfoOf(e, limits).value, TreesOf(e.children, limits, depth + 1).value)
  {
    hide InfoOf, TreesOf;
  }

  lemma TreesParts(es: seq<Element>, limits: Limits, depth: nat)
    requires es != [] && TreesOf(es, limits, depth).Some?
    ensures var n := |es| - 1;
            && TreesOf(es[..n], limits, depth).Some?
            && (es[n].tag == "node" ==> TreeOf(es[n], limits, depth).Some?)
            && TreesOf(es, limits, depth).value
               == TreesOf(es[..n], limits, depth).value
                  + (if es[n].tag == "node" then [TreeOf(es[n], limits, depth).value] else [])
  {
    hide TreeOf;
  }

  lemma NodesParts(es: seq<Element>)
    requires es != []
    ensures var n := |es| - 1;
            NodesOf(es) == if es[n].tag == "node" then NodesOf(es[..n]) + ([es[n]] + NodesOf(es[n].children))
                           else NodesOf(es[..n])
  {
  }

  lemma PlacedParts(nodes: seq<Node>, t: Tree, parent: Option<nat>, base: nat)
    requires Placed(nodes, t, parent, base)
    ensures base < |nodes| && nodes[base].info == t.info && PlacedAll(nodes, t.children, Some(base), base + 1)
  {
    hide PlacedAll, IndexesOf;
  }

  lemma PlacedAllParts(nodes: seq<Node>, ts: seq<Tree>, t: Tree, parent: Option<nat>, base: nat)
    requires PlacedAll(nodes, ts + [t], parent, base)
    ensures PlacedAll(nodes, ts, parent, base) && Placed(nodes, t, parent, base + SizeOf(ts))
  {
    hide Placed, SizeOf;
    assert (ts + [t])[..|ts|] == ts;
  }

  lemma {:induction false} PlacedDescribes(nodes: seq<Node>, e: Element, limits: Limits, depth: nat,
                                           parent: Option<nat>, base: nat)
    requires depth > 0 && TreeOf(e, limits, depth).Some?
    requires Placed(nodes, TreeOf(e, limits, depth).value, parent, base)
    ensures DescribedAt(nodes, [e] + NodesOf(e.children), base)
    decreases e, 1
  {
    TreeParts(e, limits, depth);
    PlacedParts(nodes, TreeOf(e, limits, depth).value, parent, base);
    hide InfoOf, Describes, AllAccepted, NodesOf, PlacedAll, Placed, IndexesOf, TreeOf, TreesOf, Accepted, DescribedAt;
    InfoExact(e, limits);
    PlacedAllDescribe(nodes, e.children, limits, depth + 1, Some(base), base + 1);
    DescribedOne(nodes, e, base);
    DescribedJoin(nodes, [e], NodesOf(e.children), base);
  }

  lemma SizesAgree(es: seq<Element>, limits: Limits, depth: nat)
    requires depth > 0 && TreesOf(es, limits, depth).Some?
    ensures SizeOf(TreesOf(es, limits, depth).value) == |NodesOf(es)|
  {
    TreesExact(es, limits, depth);
    hide AllAccepted, TreesOf, DepthOf;
  }

  /** The parts of a list whose last element is a node. */
  lemma LastPlaced(nodes: seq<Node>, es: seq<Element>, limits: Limits, depth: nat, parent: Option<nat>, base: nat)
    requires depth > 0 && es != [] && es[|es| - 1].tag == "node" && TreesOf(es, limits, depth).Some?
    requires PlacedAll(nodes, TreesOf(es, limits, depth).value, parent, base)
    ensures var n := |es| - 1;
            && TreesOf(es[..n], limits, depth).Some? && TreeOf(es[n], limits, depth).Some?
            && PlacedAll(nodes, TreesOf(es[..n], limits, depth).value, parent, base)
            && Placed(nodes, TreeOf(es[n], limits, depth).value, parent, base + |NodesOf(es[..n])|)
  {
    hide TreeOf, TreesOf, Placed, PlacedAll, SizeOf, NodesOf;
    var n := |es| - 1;
    TreesParts(es, limits, depth);
    SizesAgree(es[..n], limits, depth);
    PlacedAllParts(nodes, TreesOf(es[..n], limits, depth).value, TreeOf(es[n], limits, depth).value, parent, base);
  }

  lemma OthersPlaced(nodes: seq<Node>, es: seq<Element>, limits: Limits, depth: nat, parent: Option<nat>, base: nat)
    requires es != [] && es[|es| - 1].tag != "node" && TreesOf(es, limits, depth).Some?
    requires PlacedAll(nodes, TreesOf(es, limits, depth).value, parent, base)
    ensures var n := |es| - 1;
            && TreesOf(es[..n], limits, depth).Some?
            && PlacedAll(nodes, TreesOf(es[..n], limits, depth).value, parent, base)
  {
    hide PlacedAll;
    TreesParts(es, limits, depth);
    hide TreesOf;
    assert TreesOf(es, limits, depth).value == TreesOf(es[..|es| - 1], limits, depth).value;
  }

  lemma {:induction false} PlacedAllDescribe(nodes: seq<Node>, es: seq<Element>, limits: Limits, depth: nat,
                                             parent: Option<nat>, base: nat)
    requires depth > 0 && TreesOf(es, limits, depth).Some? && base <= |nodes|
    requires PlacedAll(nodes, TreesOf(es, limits, depth).value, parent, base)
    ensures DescribedAt(nodes, NodesOf(es), base)
    decreases es, 0
  {
    hide TreeOf, TreesOf, Placed, PlacedAll, Describes, DescribedAt, NodesOf;
    if es == [] {
      NothingDescribed(nodes, base);
    } else {
      var n := |es| - 1;
      NodesParts(es);
      if es[n].tag == "node" {
        LastPlaced(nodes, es, limits, depth, parent, base);
        PlacedAllDescribe(nodes, es[..n], limits, depth, parent, base);
        PlacedDescribes(nodes, es[n], limits, depth, parent, base + |NodesOf(es[..n])|);
        DescribedJoin(nodes, NodesOf(es[..n]), [es[n]] + NodesOf(es[n].children), base);
      } else {
        OthersPlaced(nodes, es, limits, depth, parent, base);
        PlacedAllDescribe(nodes, es[..n], limits, depth, parent, base);
      }
    }
  }

  /** The document's own element counts as a node element if it is one. */
  lemma RootCounts(root: Element)
    ensures NodesOf(Roots(root))
            == (if root.tag == "node" then [root] + NodesOf(root.children) else NodesOf(root.children))
  {
    assert [root][..0] == [] && NodesOf([]) == [];
  }

  /** A document has a forest exactly if its node elements are all accepted and not nested too deeply; and
      an array that holds it has one node per element, in document order, that says what the element says. */
  lemma ForestExact(root: Element, limits: Limits)
    ensures Forest(root, limits).Some?
            <==> AllAccepted(NodesOf(Roots(root)), limits) && DepthOf(Roots(root)) <= limits.maxDepth
    ensures Forest(root, limits).Some? ==> SizeOf(Forest(root, limits).value) == |NodesOf(Roots(root))|
  {
    TreesExact(Roots(root), limits, 1);
    hide AllAccepted, NodesOf, DepthOf, SizeOf, TreesOf;
  }

  lemma NodesDescribe(root: Element, limits: Limits, nodes: seq<Node>)
    requires Forest(root, limits).Some? && Encodes(nodes, Forest(root, limits).value)
    ensures |nodes| == |NodesOf(Roots(root))|
    ensures forall i :: 0 <= i < |nodes| ==> Describes(NodesOf(Roots(root))[i], nodes[i].info)
  {
    ForestExact(root, limits);
    PlacedAllDescribe(nodes, Roots(root), limits, 1, None, 0);
    hide Describes, NodesOf, AllAccepted, TreesOf, PlacedAll, SizeOf;
    assert forall i :: 0 <= i < |nodes| ==> nodes[0 + i] == nodes[i];
  }
}
