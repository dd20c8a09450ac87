/** What the flat array says about the tree it came from: links, order, contiguity, and losslessness. */
module UiEncoding {
  import opened Wrappers
  import opened UiHierarchy
  import Decimal

  // ----- bounds -----

  lemma ReadNumberExact(d: string, stop: string, rest: string)
    requires d != [] && Decimal.AllDigits(d) && stop != [] && !Decimal.IsDigit(stop[0])
    ensures ReadNumber(d + stop + rest, stop) == Some((Decimal.Value(d), rest))
  {
    var s := d + stop + rest;
    assert s == d + (stop + rest);
    Decimal.SpanExact(d, stop + rest);
    assert s[..|d|] == d && s[|d|..] == stop + rest;
  }

  /** Every digit string is read by its value; in particular printed bounds read back. */
  lemma BoundsText(a: string, b: string, c: string, d: string)
    requires a != [] && b != [] && c != [] && d != []
    requires Decimal.AllDigits(a) && Decimal.AllDigits(b) && Decimal.AllDigits(c) && Decimal.AllDigits(d)
    ensures ParseBounds("[" + a + "," + b + "][" + c + "," + d + "]")
            == Some(Bounds(Decimal.Value(a), Decimal.Value(b), Decimal.Value(c), Decimal.Value(d)))
  {
    hide ParseBounds;
    BoundsNest(a, b, c, d);
    ParseNested(a, b, c, d);
  }

  lemma ParseNested(a: string, b: string, c: string, d: string)
    requires a != [] && b != [] && c != [] && d != []
    requires Decimal.AllDigits(a) && Decimal.AllDigits(b) && Decimal.AllDigits(c) && Decimal.AllDigits(d)
    ensures ParseBounds("[" + (a + "," + (b + "][" + (c + "," + (d + "]" + "")))))
            == Some(Bounds(Decimal.Value(a), Decimal.Value(b), Decimal.Value(c), Decimal.Value(d)))
  {
    hide ReadNumber;
    var s4 := d + "]" + "";
    var s3 := c + "," + s4;
    var s2 := b + "][" + s3;
    var s1 := a + "," + s2;
    ReadNumberExact(a, ",", s2);
    ReadNumberExact(b, "][", s3);
    ReadNumberExact(c, ",", s4);
    ReadNumberExact(d, "]", "");
    assert ("[" + s1)[1..] == s1;
  }

  lemma BoundsNest(a: string, b: string, c: string, d: string)
    ensures "[" + a + "," + b + "][" + c + "," + d + "]"
            == "[" + (a + "," + (b + "][" + (c + "," + (d + "]" + ""))))
  {
    var tail := c + "," + (d + "]" + "");
    assert "[" + a + "," + b + "][" + c + "," + d + "]" == ("[" + a + "," + b + "][") + tail;
    assert ("[" + a + "," + b + "][") + tail == ("[" + a + ",") + (b + "][" + tail);
  }

  lemma BoundsRoundTrip(b: Bounds)
    ensures ParseBounds(PrintBounds(b)) == Some(b)
  {
    Decimal.PrintValue(b.left);
    Decimal.PrintValue(b.top);
    Decimal.PrintValue(b.right);
    Decimal.PrintValue(b.bottom);
    hide ParseBounds;
    BoundsText(Decimal.Print(b.left), Decimal.Print(b.top), Decimal.Print(b.right), Decimal.Print(b.bottom));
  }

  /** A number is read only from digits that the separator follows. */
  lemma ReadNumberShape(s: string, stop: string)
    requires ReadNumber(s, stop).Some?
    ensures var n := Decimal.Span(s);
            var (value, rest) := ReadNumber(s, stop).value;
            && n > 0 && Decimal.AllDigits(s[..n]) && value == Decimal.Value(s[..n])
            && s == s[..n] + stop + rest
  {
    var n := Decimal.Span(s);
    assert s == s[..n] + s[n..];
  }

  /** Nothing but four bracketed digit strings is accepted. */
  lemma BoundsShape(s: string) returns (a: string, b: string, c: string, d: string)
    requires ParseBounds(s).Some?
    ensures a != [] && b != [] && c != [] && d != []
    ensures Decimal.AllDigits(a) && Decimal.AllDigits(b) && Decimal.AllDigits(c) && Decimal.AllDigits(d)
    ensures s == "[" + a + "," + b + "][" + c + "," + d + "]"
  {
    hide ReadNumber;
    var s0 := s[1..];
    var s1 := ReadNumber(s0, ",").value.1;
    var s2 := ReadNumber(s1, "][").value.1;
    var s3 := ReadNumber(s2, ",").value.1;
    ReadNumberShape(s0, ",");
    ReadNumberShape(s1, "][");
    ReadNumberShape(s2, ",");
    ReadNumberShape(s3, "]");
    hide ParseBounds;
    a, b, c, d := s0[..Decimal.Span(s0)], s1[..Decimal.Span(s1)], s2[..Decimal.Span(s2)], s3[..Decimal.Span(s3)];
    BoundsNest(a, b, c, d);
    assert s == "[" + s0;
  }

  // ----- placement of parts -----

  /** The k-th of consecutive trees, and its entry in the index list. */
  lemma {:induction false} ChildAt(nodes: seq<Node>, ts: seq<Tree>, parent: Option<nat>, base: nat, k: nat)
    requires PlacedAll(nodes, ts, parent, base) && k < |ts|
    ensures Placed(nodes, ts[k], parent, base + SizeOf(ts[..k]))
    ensures IndexesOf(ts, base)[k] == base + SizeOf(ts[..k])
    ensures SizeOf(ts[..k]) + Size(ts[k]) <= SizeOf(ts)
    ensures PlacedAll(nodes, ts[..k], parent, base)
  {
    var n := |ts| - 1;
    if k < n {
      ChildAt(nodes, ts[..n], parent, base, k);
      assert ts[..n][..k] == ts[..k];
    }
  }

  /** Which of consecutive trees covers array position c. */
  lemma {:induction false} CoveredBy(ts: seq<Tree>, base: nat, c: nat) returns (k: nat)
    requires base <= c < base + SizeOf(ts)
    ensures k < |ts| && base + SizeOf(ts[..k]) <= c < base + SizeOf(ts[..k]) + Size(ts[k])
  {
    var n := |ts| - 1;
    if c >= base + SizeOf(ts[..n]) {
      k := n;
    } else {
      k := CoveredBy(ts[..n], base, c);
      assert ts[..n][..k] == ts[..k];
    }
  }

  /** The subtree rooted at a position, with the facts that place it. */
  lemma {:induction false} Locate(nodes: seq<Node>, t: Tree, parent: Option<nat>, base: nat, i: nat)
      returns (u: Tree, p: Option<nat>)
    requires Placed(nodes, t, parent, base) && base <= i < base + Size(t)
    ensures Placed(nodes, u, p, i) && i + Size(u) <= base + Size(t)
    ensures if i == base then u == t && p == parent
            else p.Some? && base <= p.value < i && i in nodes[p.value].children
    decreases t
  {
    if i == base {
      u, p := t, parent;
    } else {
      var k := CoveredBy(t.children, base + 1, i);
      ChildAt(nodes, t.children, Some(base), base + 1, k);
      u, p := Locate(nodes, t.children[k], Some(base), base + 1 + SizeOf(t.children[..k]), i);
    }
  }

  lemma LocateIn(nodes: seq<Node>, ts: seq<Tree>, i: nat) returns (u: Tree, p: Option<nat>)
    requires Encodes(nodes, ts) && i < |nodes|
    ensures Placed(nodes, u, p, i)
    ensures p.Some? ==> p.value < i && i in nodes[p.value].children
    ensures p.None? <==> i in IndexesOf(ts, 0)
  {
    var k := CoveredBy(ts, 0, i);
    ChildAt(nodes, ts, None, 0, k);
    u, p := Locate(nodes, ts[k], None, SizeOf(ts[..k]), i);
    if p.Some? && i in IndexesOf(ts, 0) {
      var l :| 0 <= l < |ts| && IndexesOf(ts, 0)[l] == i;
      ChildAt(nodes, ts, None, 0, l);
    }
  }

  // ----- links -----

  /** Node i has index i; its parent comes before it and its children after it; the child list is in
      increasing order and holds exactly the nodes that name i as their parent. */
  lemma LinksExact(nodes: seq<Node>, ts: seq<Tree>, i: nat)
    requires Encodes(nodes, ts) && i < |nodes|
    ensures nodes[i].index == i
    ensures nodes[i].parent.Some? ==> nodes[i].parent.value < i
    ensures forall c :: c in nodes[i].children <==> i < c < |nodes| && nodes[c].parent == Some(i)
    ensures forall a, b :: 0 <= a < b < |nodes[i].children| ==> nodes[i].children[a] < nodes[i].children[b]
  {
    var u, p := LocateIn(nodes, ts, i);
    ChildrenPoint(nodes, u, p, i);
    hide Encodes, Placed;
    forall c: nat | c < |nodes| && nodes[c].parent == Some(i) ensures c in nodes[i].children && i < c {
      var v, q := LocateIn(nodes, ts, c);
      assert q == Some(i) by { PlacedRoot(nodes, v, q, c); }
    }
    PlacedRoot(nodes, u, p, i);
  }

  lemma PlacedRoot(nodes: seq<Node>, t: Tree, parent: Option<nat>, base: nat)
    requires Placed(nodes, t, parent, base)
    ensures base < |nodes| && nodes[base] == Node(base, parent, IndexesOf(t.children, base + 1), t.info)
  {
  }

  lemma ChildrenPoint(nodes: seq<Node>, t: Tree, parent: Option<nat>, base: nat)
    requires Placed(nodes, t, parent, base)
    ensures forall c :: c in nodes[base].children ==>
              base < c < base + Size(t) <= |nodes| && nodes[c].parent == Some(base)
    ensures forall a, b :: 0 <= a < b < |nodes[base].children| ==> nodes[base].children[a] < nodes[base].children[b]
  {
    var ts := t.children;
    var ids := IndexesOf(ts, base + 1);
    PlacedRoot(nodes, t, parent, base);
    forall k | 0 <= k < |ids|
      ensures base < ids[k] < base + Size(t) && nodes[ids[k]].parent == Some(base)
    {
      ChildAt(nodes, ts, Some(base), base + 1, k);
      PlacedRoot(nodes, ts[k], Some(base), ids[k]);
    }
    hide Placed, PlacedAll, IndexesOf;
    forall a, b | 0 <= a < b < |ids| ensures ids[a] < ids[b] {
      IndexesIncrease(ts, base + 1, a, b);
    }
  }

  lemma {:induction false} IndexesIncrease(ts: seq<Tree>, base: nat, a: nat, b: nat)
    requires a < b < |ts|
    ensures base <= IndexesOf(ts, base)[a] < IndexesOf(ts, base)[b] < base + SizeOf(ts)
  {
    var n := |ts| - 1;
    if b < n {
      IndexesIncrease(ts[..n], base, a, b);
    } else {
      IndexBelow(ts[..n], base, a);
    }
  }

  lemma {:induction false} IndexBelow(ts: seq<Tree>, base: nat, a: nat)
    requires a < |ts|
    ensures base <= IndexesOf(ts, base)[a] < base + SizeOf(ts)
  {
    if a < |ts| - 1 { IndexBelow(ts[..|ts| - 1], base, a); }
  }

  // ----- contiguity -----

  /** j lies below i along parent links. */
  ghost predicate Descends(nodes: seq<Node>, i: nat, j: nat)
    requires j < |nodes|
  {
    nodes[j].parent.Some? && nodes[j].parent.value < j
    && (nodes[j].parent.value == i || Descends(nodes, i, nodes[j].parent.value))
  }

  /** Inside a placed tree every position but the root has its parent inside, and every position
      whose parent is inside is itself inside. */
  lemma ParentInside(nodes: seq<Node>, ts: seq<Tree>, u: Tree, p: Option<nat>, i: nat, j: nat)
    requires Encodes(nodes, ts) && Placed(nodes, u, p, i) && j < |nodes| && nodes[j].parent.Some?
    requires p.Some? ==> p.value < i
    ensures j != i ==> (i <= nodes[j].parent.value < i + Size(u) <==> i < j < i + Size(u))
  {
    var q := nodes[j].parent.value;
    LinksExact(nodes, ts, j);
    if i < j < i + Size(u) {
      var v, r := Locate(nodes, u, p, i, j);
      PlacedRoot(nodes, v, r, j);
    }
    if i <= q < i + Size(u) {
      var v, r := Locate(nodes, u, p, i, q);
      LinksExact(nodes, ts, q);
      ChildrenPoint(nodes, v, r, q);
    }
  }

  /** Each subtree is one contiguous interval that starts at its root. */
  lemma SubtreeContiguous(nodes: seq<Node>, ts: seq<Tree>, i: nat) returns (end: nat)
    requires Encodes(nodes, ts) && i < |nodes|
    ensures i < end <= |nodes|
    ensures forall j: nat :: j < |nodes| ==> (Descends(nodes, i, j) <==> i < j < end)
  {
    var u, p := LocateIn(nodes, ts, i);
    end := i + Size(u);
    hide Encodes, Placed;
    PlacedFits(nodes, u, p, i);
    forall j: nat | j < |nodes| ensures Descends(nodes, i, j) <==> i < j < end {
      DescendsInside(nodes, ts, u, p, i, j);
    }
  }

  lemma PlacedFits(nodes: seq<Node>, t: Tree, parent: Option<nat>, base: nat)
    requires Placed(nodes, t, parent, base)
    ensures base + Size(t) <= |nodes|
  {
  }

  lemma {:induction false} DescendsInside(nodes: seq<Node>, ts: seq<Tree>, u: Tree, p: Option<nat>, i: nat, j: nat)
    requires Encodes(nodes, ts) && Placed(nodes, u, p, i) && j < |nodes| && (p.Some? ==> p.value < i)
    ensures Descends(nodes, i, j) <==> i < j < i + Size(u)
    decreases j
  {
    hide Encodes;
    if i < j < i + Size(u) {
      var v, r := Locate(nodes, u, p, i, j);
      PlacedRoot(nodes, v, r, j);
    }
    PlacedRoot(nodes, u, p, i);
    hide Placed;
    if nodes[j].parent.Some? && nodes[j].parent.value < j {
      ParentInside(nodes, ts, u, p, i, j);
      DescendsInside(nodes, ts, u, p, i, nodes[j].parent.value);
    }
  }

  // ----- nothing is lost -----

  /** Child links point forward and stay in range. */
  ghost predicate Forward(nodes: seq<Node>) {
    forall i, k :: 0 <= i < |nodes| && 0 <= k < |nodes[i].children| ==> i < nodes[i].children[k] < |nodes|
  }

  /** Rebuilds the tree rooted at i from the child links alone. */
  ghost function Rebuild(nodes: seq<Node>, i: nat): Tree
    requires Forward(nodes) && i < |nodes|
    decreases |nodes| - i, 1, 0
  {
    Tree(nodes[i].info, RebuildAll(nodes, nodes[i].children, i))
  }

  ghost function RebuildAll(nodes: seq<Node>, ids: seq<nat>, above: int): seq<Tree>
    requires Forward(nodes) && -1 <= above < |nodes|
    requires forall k :: 0 <= k < |ids| ==> above < ids[k] < |nodes|
    decreases |nodes| - above, 0, |ids|
  {
    if ids == [] then []
    else RebuildAll(nodes, ids[..|ids| - 1], above) + [Rebuild(nodes, ids[|ids| - 1])]
  }

  /** The positions without a parent, in order. */
  ghost function RootIndexes(nodes: seq<Node>, n: nat): (r: seq<nat>)
    requires n <= |nodes|
    ensures forall k :: 0 <= k < |r| ==> r[k] < n
  {
    if n == 0 then []
    else RootIndexes(nodes, n - 1) + if nodes[n - 1].parent.None? then [n - 1] else []
  }

  ghost function RebuildForest(nodes: seq<Node>): seq<Tree>
    requires Forward(nodes)
  {
    RebuildAll(nodes, RootIndexes(nodes, |nodes|), -1)
  }

  lemma {:induction false} RebuildPlaced(nodes: seq<Node>, t: Tree, parent: Option<nat>, base: nat)
    requires Forward(nodes) && Placed(nodes, t, parent, base)
    ensures Rebuild(nodes, base) == t
    decreases t, 1
  {
    RebuildAllPlaced(nodes, t.children, Some(base), base + 1, base);
  }

  lemma {:induction false} RebuildAllPlaced(nodes: seq<Node>, ts: seq<Tree>, parent: Option<nat>, base: nat, above: int)
    requires Forward(nodes) && PlacedAll(nodes, ts, parent, base) && -1 <= above < base && above < |nodes|
    ensures forall k :: 0 <= k < |ts| ==> above < IndexesOf(ts, base)[k] < |nodes|
    ensures RebuildAll(nodes, IndexesOf(ts, base), above) == ts
    decreases ts, 0
  {
    if ts == [] {
    } else {
      var n := |ts| - 1;
      var at := base + SizeOf(ts[..n]);
      LastPlaced(nodes, ts, parent, base);
      hide Placed, PlacedAll, IndexesOf, SizeOf, Size, Rebuild;
      RebuildAllPlaced(nodes, ts[..n], parent, base, above);
      RebuildPlaced(nodes, ts[n], parent, at);
      var before := IndexesOf(ts[..n], base);
      assert (before + [at])[..n] == before;
      assert ts == ts[..n] + [ts[n]];
    }
  }

  /** The last of consecutive trees: where it is, and its place in the index list. */
  lemma LastPlaced(nodes: seq<Node>, ts: seq<Tree>, parent: Option<nat>, base: nat)
    requires PlacedAll(nodes, ts, parent, base) && ts != []
    ensures var n := |ts| - 1;
            var at := base + SizeOf(ts[..n]);
            && PlacedAll(nodes, ts[..n], parent, base) && Placed(nodes, ts[n], parent, at) && base <= at < |nodes|
            && IndexesOf(ts, base) == IndexesOf(ts[..n], base) + [at]
  {
    hide Size;
  }

  lemma {:induction false} NoRootsInside(nodes: seq<Node>, t: Tree, base: nat, n: nat)
    requires Placed(nodes, t, None, base) && base < n <= base + Size(t)
    ensures RootIndexes(nodes, n) == RootIndexes(nodes, base) + [base]
  {
    if n == base + 1 {
    } else {
      NoRootsInside(nodes, t, base, n - 1);
      var u, p := Locate(nodes, t, None, base, n - 1);
      PlacedRoot(nodes, u, p, n - 1);
    }
  }

  lemma {:induction false} RootsAre(nodes: seq<Node>, ts: seq<Tree>)
    requires PlacedAll(nodes, ts, None, 0) && SizeOf(ts) <= |nodes|
    ensures RootIndexes(nodes, SizeOf(ts)) == IndexesOf(ts, 0)
  {
    if ts == [] {
    } else {
      var n := |ts| - 1;
      RootsAre(nodes, ts[..n]);
      NoRootsInside(nodes, ts[n], SizeOf(ts[..n]), SizeOf(ts));
    }
  }

  lemma EncodesForward(nodes: seq<Node>, ts: seq<Tree>)
    requires Encodes(nodes, ts)
    ensures Forward(nodes)
  {
    forall i, k | 0 <= i < |nodes| && 0 <= k < |nodes[i].children| ensures i < nodes[i].children[k] < |nodes| {
      LinksExact(nodes, ts, i);
      assert nodes[i].children[k] in nodes[i].children;
    }
  }

  /** The array gives back the forest it was made from. */
  lemma Lossless(nodes: seq<Node>, ts: seq<Tree>)
    requires Encodes(nodes, ts)
    ensures Forward(nodes) && RebuildForest(nodes) == ts
  {
    EncodesForward(nodes, ts);
    RootsAre(nodes, ts);
    RebuildAllPlaced(nodes, ts, None, 0, -1);
  }

  /** And a forest has only one array. */
  lemma EncodingUnique(a: seq<Node>, b: seq<Node>, ts: seq<Tree>)
    requires Encodes(a, ts) && Encodes(b, ts)
    ensures a == b
  {
    forall i | 0 <= i < |a| ensures a[i] == b[i] {
      var k := CoveredBy(ts, 0, i);
      ChildAt(a, ts, None, 0, k);
      ChildAt(b, ts, None, 0, k);
      SamePlaced(a, b, ts[k], None, SizeOf(ts[..k]), i);
    }
  }

  lemma {:induction false} SamePlaced(a: seq<Node>, b: seq<Node>, t: Tree, parent: Option<nat>, base: nat, i: nat)
    requires Placed(a, t, parent, base) && Placed(b, t, parent, base) && base <= i < base + Size(t)
    ensures a[i] == b[i]
    decreases t
  {
    if i != base {
      var k := CoveredBy(t.children, base + 1, i);
      ChildAt(a, t.children, Some(base), base + 1, k);
      ChildAt(b, t.children, Some(base), base + 1, k);
      SamePlaced(a, b, t.children[k], Some(base), base + 1 + SizeOf(t.children[..k]), i);
    }
  }
}
