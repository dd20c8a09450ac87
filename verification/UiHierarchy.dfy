/** Flattening of a UIAutomator element tree into an indexed array of nodes: the elements, the forest they
    stand for, and what it means that an array holds it. */
module UiHierarchy {
  import opened Wrappers
  import Decimal

  /** A parsed XML element. */
  datatype Element = Element(tag: string, attributes: map<string, string>, children: seq<Element>)

  datatype Bounds = Bounds(left: nat, top: nat, right: nat, bottom: nat) {
    function Center(): (int, int) {
      ((left + right) / 2, (top + bottom) / 2)
    }
  }

  datatype Info = Info(
    resourceId: string, text: string, contentDescription: string, className: string, package: string,
    bounds: Bounds, enabled: bool, clickable: bool, focusable: bool, focused: bool, selected: bool,
    checked: bool, password: bool)

  datatype Node = Node(index: nat, parent: Option<nat>, children: seq<nat>, info: Info)

  datatype Limits = Limits(maxNodes: nat, maxDepth: nat, maxTextLength: nat, maxAttributeLength: nat)

  // ----- one element -----

  function Attribute(e: Element, name: string, default: string): string {
    if name in e.attributes then e.attributes[name] else default
  }

  function Flag(e: Element, name: string): Option<bool> {
    var value := Attribute(e, name, "false");
    if value == "true" then Some(true) else if value == "false" then Some(false) else None
  }

  /** Reads a nonempty run of digits that `stop` must follow. */
  function ReadNumber(s: string, stop: string): Option<(nat, string)> {
    var n := Decimal.Span(s);
    if n > 0 && stop <= s[n..] then Some((Decimal.Value(s[..n]), s[n..][|stop|..])) else None
  }

  /** The pattern [left,top][right,bottom] over whole strings of digits. */
  function ParseBounds(s: string): Option<Bounds> {
    if s == [] || s[0] != '[' then None
    else
      match ReadNumber(s[1..], ",")
      case None => None
      case Some((left, s1)) =>
        match ReadNumber(s1, "][")
        case None => None
        case Some((top, s2)) =>
          match ReadNumber(s2, ",")
          case None => None
          case Some((right, s3)) =>
            match ReadNumber(s3, "]")
            case None => None
            case Some((bottom, s4)) => if s4 == [] then Some(Bounds(left, top, right, bottom)) else None
  }

  function PrintBounds(b: Bounds): string {
    "[" + Decimal.Print(b.left) + "," + Decimal.Print(b.top) + "][" + Decimal.Print(b.right) + ","
    + Decimal.Print(b.bottom) + "]"
  }

  predicate Oversized(e: Element, limits: Limits) {
    exists name :: name in e.attributes && |e.attributes[name]| > limits.maxAttributeLength
  }

  function FlagsOf(e: Element): (r: seq<Option<bool>>)
    ensures |r| == 7
  {
    [Flag(e, "password"), Flag(e, "enabled"), Flag(e, "clickable"), Flag(e, "focusable"), Flag(e, "focused"),
     Flag(e, "selected"), Flag(e, "checked")]
  }

  predicate AllGiven(flags: seq<Option<bool>>) {
    forall i :: 0 <= i < |flags| ==> flags[i].Some?
  }

  /** The node an element stands for, or None when the element is malformed.  A password node keeps
      neither text nor description. */
  function InfoOf(e: Element, limits: Limits): Option<Info> {
    var bounds := ParseBounds(Attribute(e, "bounds", ""));
    var flags := FlagsOf(e);
    if Oversized(e, limits) then None
    else if bounds.None? || bounds.value.right < bounds.value.left || bounds.value.bottom < bounds.value.top then None
    else if !AllGiven(flags) then None
    else
      var password := flags[0].value;
      var text := if password then "" else Attribute(e, "text", "");
      var description := if password then "" else Attribute(e, "content-desc", "");
      if |text| > limits.maxTextLength || |description| > limits.maxTextLength then None
      else
        Some(Info(Attribute(e, "resource-id", ""), text, description, Attribute(e, "class", ""),
                  Attribute(e, "package", ""), bounds.value, flags[1].value, flags[2].value, flags[3].value,
                  flags[4].value, flags[5].value, flags[6].value, password))
  }

  // ----- the forest a document stands for -----

  /** The tree of `node` elements; everything below another tag is dropped. */
  datatype Tree = Tree(info: Info, children: seq<Tree>)

  /** The trees of the node elements in a list, or None when one of them is malformed or too deep. */
  function TreesOf(es: seq<Element>, limits: Limits, depth: nat): (r: Option<seq<Tree>>)
    decreases es, 0
  {
    if es == [] then Some([])
    else
      var n := |es| - 1;
      match TreesOf(es[..n], limits, depth)
      case None => None
      case Some(before) =>
        if es[n].tag != "node" then Some(before)
        else
          match TreeOf(es[n], limits, depth)
          case None => None
          case Some(t) => Some(before + [t])
  }

  function TreeOf(e: Element, limits: Limits, depth: nat): Option<Tree>
    decreases e, 1
  {
    if depth > limits.maxDepth || InfoOf(e, limits).None? then None
    else
      match TreesOf(e.children, limits, depth + 1)
      case None => None
      case Some(ts) => Some(Tree(InfoOf(e, limits).value, ts))
  }

  function Roots(root: Element): seq<Element> {
    if root.tag == "node" then [root] else root.children
  }

  function Forest(root: Element, limits: Limits): Option<seq<Tree>> {
    TreesOf(Roots(root), limits, 1)
  }

  function Size(t: Tree): (n: nat)
    ensures n > 0
    decreases t, 1
  {
    1 + SizeOf(t.children)
  }

  function SizeOf(ts: seq<Tree>): nat
    decreases ts, 0
  {
    if ts == [] then 0 else SizeOf(ts[..|ts| - 1]) + Size(ts[|ts| - 1])
  }

  // ----- where the trees lie in the array -----

  /** Indexes of consecutive trees that start at `base`. */
  function IndexesOf(ts: seq<Tree>, base: nat): (r: seq<nat>)
    ensures |r| == |ts|
  {
    if ts == [] then []
    else
      var n := |ts| - 1;
      IndexesOf(ts[..n], base) + [base + SizeOf(ts[..n])]
  }

  /** Tree t occupies the array from `base` on: its root there, its subtrees right behind it. */
  ghost predicate Placed(nodes: seq<Node>, t: Tree, parent: Option<nat>, base: nat)
    decreases t, 1
  {
    && base + Size(t) <= |nodes|
    && nodes[base] == Node(base, parent, IndexesOf(t.children, base + 1), t.info)
    && PlacedAll(nodes, t.children, Some(base), base + 1)
  }

  ghost predicate PlacedAll(nodes: seq<Node>, ts: seq<Tree>, parent: Option<nat>, base: nat)
    decreases ts, 0
  {
    ts == []
    || var n := |ts| - 1;
       && PlacedAll(nodes, ts[..n], parent, base)
       && Placed(nodes, ts[n], parent, base + SizeOf(ts[..n]))
  }

  /** The array of a whole document: its trees one behind the other and nothing else. */
  ghost predicate Encodes(nodes: seq<Node>, ts: seq<Tree>) {
    |nodes| == SizeOf(ts) && PlacedAll(nodes, ts, None, 0)
  }

  lemma {:induction false} PlacedFrame(a: seq<Node>, b: seq<Node>, t: Tree, parent: Option<nat>, base: nat)
    requires Placed(a, t, parent, base) && base + Size(t) <= |b|
    requires forall i :: base <= i < base + Size(t) ==> a[i] == b[i]
    ensures Placed(b, t, parent, base)
    decreases t, 1
  {
    PlacedAllFrame(a, b, t.children, Some(base), base + 1);
  }

  lemma {:induction false} PlacedAllFrame(a: seq<Node>, b: seq<Node>, ts: seq<Tree>, parent: Option<nat>, base: nat)
    requires PlacedAll(a, ts, parent, base) && base + SizeOf(ts) <= |a| && base + SizeOf(ts) <= |b|
    requires forall i :: base <= i < base + SizeOf(ts) ==> a[i] == b[i]
    ensures PlacedAll(b, ts, parent, base)
    decreases ts, 0
  {
    if ts == [] {
    } else {
      var n := |ts| - 1;
      PlacedAllFrame(a, b, ts[..n], parent, base);
      PlacedFrame(a, b, ts[n], parent, base + SizeOf(ts[..n]));
    }
  }

  /** One more tree behind the others. */
  lemma PlacedSnoc(nodes: seq<Node>, ts: seq<Tree>, t: Tree, parent: Option<nat>, base: nat)
    ensures SizeOf(ts + [t]) == SizeOf(ts) + Size(t)
    ensures IndexesOf(ts + [t], base) == IndexesOf(ts, base) + [base + SizeOf(ts)]
    ensures PlacedAll(nodes, ts, parent, base) && Placed(nodes, t, parent, base + SizeOf(ts))
            ==> PlacedAll(nodes, ts + [t], parent, base)
  {
    assert (ts + [t])[..|ts|] == ts;
  }

  lemma TreesSnoc(es: seq<Element>, i: nat, limits: Limits, depth: nat)
    requires i < |es|
    ensures TreesOf(es[..i + 1], limits, depth)
            == match TreesOf(es[..i], limits, depth)
               case None => None
               case Some(before) =>
                 if es[i].tag != "node" then Some(before)
                 else match TreeOf(es[i], limits, depth)
                      case None => None
                      case Some(t) => Some(before + [t])
  {
    assert es[..i + 1][..i] == es[..i];
  }

  // ----- counting ahead -----

  /** If a prefix of a list is malformed, or already too large, so is the whole list. */
  lemma {:induction false} PrefixFails(es: seq<Element>, n: nat, limits: Limits, depth: nat)
    requires n <= |es|
    ensures TreesOf(es, limits, depth).Some? ==>
              TreesOf(es[..n], limits, depth).Some?
              && SizeOf(TreesOf(es[..n], limits, depth).value) <= SizeOf(TreesOf(es, limits, depth).value)
    decreases |es|
  {
    if n == |es| {
      assert es[..n] == es;
    } else {
      var m := |es| - 1;
      PrefixFails(es[..m], n, limits, depth);
      assert es[..m][..n] == es[..n];
      if TreesOf(es, limits, depth).Some? && es[m].tag == "node" {
        var before := TreesOf(es[..m], limits, depth).value;
        var t := TreeOf(es[m], limits, depth).value;
        assert (before + [t])[..|before|] == before;
      }
    }
  }
}
