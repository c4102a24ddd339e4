/**
 * The category hierarchy: a trie whose edges are path segments and item ids, and
 * whose leaves are items. `Node` is the value held by one tree node; `Hierarchy`
 * is the root that ingestion mutates in place.
 */
module Domain {
  import opened Wrappers

  /** A node: the item flag and the children keyed by segment or item id. A nil and an empty map are one value here. */
  datatype Node = Node(item: bool, children: map<string, Node>)

  /** One record to insert: the category path and the item id placed at its end. */
  datatype Entry = Entry(levels: seq<string>, itemId: string)

  /** A fresh intermediate node. */
  function NewNode(): Node { Node(false, map[]) }

  /** A fresh item node. */
  function Leaf(): Node { Node(true, map[]) }

  /** The child under `key`, or the fresh node the walk would create for it. */
  function Child(n: Node, key: string): Node
  {
    if key in n.children then n.children[key] else NewNode()
  }

  /** The node reached by following `path` from `n`, if every step exists. */
  function Lookup(n: Node, path: seq<string>): Option<Node>
    decreases |path|
  {
    if |path| == 0 then Some(n)
    else if path[0] in n.children then Lookup(n.children[path[0]], path[1..])
    else None
  }

  /** Reference semantics of an insert: walk `levels`, creating missing nodes, then overwrite `itemId` with a leaf. */
  function Insert(n: Node, levels: seq<string>, itemId: string): Node
    decreases |levels|
  {
    if |levels| == 0 then Node(n.item, n.children[itemId := Leaf()])
    else Node(n.item, n.children[levels[0] := Insert(Child(n, levels[0]), levels[1..], itemId)])
  }

  /** The tree after replacing child `key` of the node at `path` by `c`. */
  function SetChild(n: Node, path: seq<string>, key: string, c: Node): (r: Node)
    requires Lookup(n, path).Some?
    ensures Lookup(r, path) == Some(Node(Lookup(n, path).value.item, Lookup(n, path).value.children[key := c]))
    decreases |path|
  {
    if |path| == 0 then Node(n.item, n.children[key := c])
    else Node(n.item, n.children[path[0] := SetChild(n.children[path[0]], path[1..], key, c)])
  }

  predicate IsPrefix(p: seq<string>, q: seq<string>) { |p| <= |q| && q[..|p|] == p }

  /**
   * The shared root that every row is inserted into. The mutex `Node.mu` makes each
   * `AddNode` atomic; in this sequential model every call is.
   */
  class Hierarchy {
    var root: Node

    /** `NewNode`: an empty root. */
    constructor ()
      ensures root == NewNode()
    {
      root := NewNode();
    }

    /**
     * Walks `levels` from the root, creating each missing node, then puts a fresh
     * leaf under `itemId`. `depth` plays the role of the `current` variable: it is
     * the node at `levels[..depth]`.
     */
    method AddNode(levels: seq<string>, itemId: string)
      modifies this
      ensures root == Insert(old(root), levels, itemId)
    {
      var depth := 0;
      while depth < |levels|
        invariant 0 <= depth <= |levels|
        invariant Lookup(root, levels[..depth]).Some?
        invariant Insert(root, levels, itemId) == Insert(old(root), levels, itemId)
      {
        var current := Lookup(root, levels[..depth]).value;
        var level := levels[depth];
        LookupExtend(root, levels[..depth], level);
        if level !in current.children {
          CreatePreservesInsert(root, levels[..depth], level, levels[depth + 1..], itemId);
          assert levels[..depth] + [level] + levels[depth + 1..] == levels;
          root := SetChild(root, levels[..depth], level, NewNode());
          LookupExtend(root, levels[..depth], level);
        }
        assert levels[..depth + 1] == levels[..depth] + [level];
        depth := depth + 1;
      }
      assert levels[..depth] == levels;
      SetLeafIsInsert(root, levels, itemId);
      root := SetChild(root, levels, itemId, Leaf());
    }
  }

  // ---- Lemmas used by AddNode's loop ----

  /** One more step of a lookup. */
  lemma {:induction false} LookupExtend(n: Node, p: seq<string>, k: string)
    ensures Lookup(n, p + [k]) ==
      if Lookup(n, p).Some? && k in Lookup(n, p).value.children
      then Some(Lookup(n, p).value.children[k]) else None
    decreases |p|
  {
    if |p| > 0 {
      assert (p + [k])[1..] == p[1..] + [k];
      if p[0] in n.children { LookupExtend(n.children[p[0]], p[1..], k); }
    }
  }

  /** Creating, ahead of time, the node the insert would create anyway does not change the insert. */
  lemma {:induction false} CreatePreservesInsert(n: Node, p: seq<string>, k: string, rest: seq<string>, itemId: string)
    requires Lookup(n, p).Some? && k !in Lookup(n, p).value.children
    ensures Insert(SetChild(n, p, k, NewNode()), p + [k] + rest, itemId) == Insert(n, p + [k] + rest, itemId)
    decreases |p|
  {
    var full := p + [k] + rest;
    if |p| == 0 {
      assert full[0] == k && full[1..] == rest;
    } else {
      assert full[0] == p[0] && full[1..] == p[1..] + [k] + rest;
      CreatePreservesInsert(n.children[p[0]], p[1..], k, rest, itemId);
    }
  }

  /** Once the whole path exists, the final assignment of the leaf is the insert. */
  lemma {:induction false} SetLeafIsInsert(n: Node, levels: seq<string>, itemId: string)
    requires Lookup(n, levels).Some?
    ensures SetChild(n, levels, itemId, Leaf()) == Insert(n, levels, itemId)
    decreases |levels|
  {
    if |levels| > 0 { SetLeafIsInsert(n.children[levels[0]], levels[1..], itemId); }
  }

  // ---- Properties of an insert ----

  /** The node at `path` before the insert, or the fresh node the walk creates there. */
  function NodeAt(n: Node, path: seq<string>): Node
  {
    if Lookup(n, path).Some? then Lookup(n, path).value else NewNode()
  }

  /** Following `levels` and then `itemId` reaches a leaf with no children, whatever was stored there before. */
  lemma {:induction false} InsertReachesLeaf(n: Node, levels: seq<string>, itemId: string)
    ensures Lookup(Insert(n, levels, itemId), levels + [itemId]) == Some(Leaf())
    decreases |levels|
  {
    if |levels| > 0 {
      assert (levels + [itemId])[1..] == levels[1..] + [itemId];
      InsertReachesLeaf(Child(n, levels[0]), levels[1..], itemId);
    }
  }

  /**
   * Every node on the path exists afterwards. A node that existed keeps its item flag
   * and its children and gains the next key; a node that did not exist is a fresh
   * non-item node holding only the next key.
   */
  lemma {:induction false} InsertPathNode(n: Node, levels: seq<string>, itemId: string, i: nat)
    requires i <= |levels|
    ensures Lookup(Insert(n, levels, itemId), levels[..i]).Some?
    ensures var m := Lookup(Insert(n, levels, itemId), levels[..i]).value;
      && m.item == NodeAt(n, levels[..i]).item
      && (Lookup(n, levels[..i]).None? ==> !m.item)
      && m.children.Keys == NodeAt(n, levels[..i]).children.Keys + {(levels + [itemId])[i]}
      && forall k :: k in NodeAt(n, levels[..i]).children && k != (levels + [itemId])[i] ==>
           m.children[k] == NodeAt(n, levels[..i]).children[k]
    decreases |levels|
  {
    if i > 0 {
      var c := Child(n, levels[0]);
      assert levels[..i][0] == levels[0] && levels[..i][1..] == levels[1..][..i - 1];
      assert (levels + [itemId])[i] == (levels[1..] + [itemId])[i - 1];
      InsertPathNode(c, levels[1..], itemId, i - 1);
      if levels[0] !in n.children {
        assert Lookup(n, levels[..i]).None?;
        assert Lookup(c, levels[1..][..i - 1]).None? || i - 1 == 0;
      }
    }
  }

  /**
   * Nothing off the path changes: any path that neither lies along `levels + [itemId]`
   * nor runs through it leads to the same subtree as before, or to none as before.
   */
  lemma {:induction false} InsertFrame(n: Node, levels: seq<string>, itemId: string, p: seq<string>)
    requires !IsPrefix(p, levels + [itemId]) && !IsPrefix(levels + [itemId], p)
    ensures Lookup(Insert(n, levels, itemId), p) == Lookup(n, p)
    decreases |levels|
  {
    var full := levels + [itemId];
    assert |p| > 0 && |full| > 0;
    if p[0] == full[0] {
      assert p == [p[0]] + p[1..] && full == [p[0]] + full[1..];
      PrefixCons(p[0], p[1..], full[1..]);
      PrefixCons(p[0], full[1..], p[1..]);
      assert |levels| == 0 ==> IsPrefix(full, p);
      assert full[1..] == levels[1..] + [itemId];
      InsertFrame(Child(n, levels[0]), levels[1..], itemId, p[1..]);
      if levels[0] !in n.children { NewNodeLookup(p[1..]); }
    }
  }

  /**
   * Storing a child touches nothing else: any path that neither lies along
   * `path + [key]` nor runs through it leads to the same subtree as before, or to none.
   */
  lemma {:induction false} SetChildFrame(n: Node, path: seq<string>, key: string, c: Node, q: seq<string>)
    requires Lookup(n, path).Some?
    requires !IsPrefix(q, path + [key]) && !IsPrefix(path + [key], q)
    ensures Lookup(SetChild(n, path, key, c), q) == Lookup(n, q)
    decreases |path|
  {
    var full := path + [key];
    assert |q| > 0 && |full| > 0;
    if q[0] == full[0] {
      assert q == [q[0]] + q[1..] && full == [q[0]] + full[1..];
      PrefixCons(q[0], q[1..], full[1..]);
      PrefixCons(q[0], full[1..], q[1..]);
      assert |path| == 0 ==> IsPrefix(full, q);
      assert full[1..] == path[1..] + [key];
      SetChildFrame(n.children[path[0]], path[1..], key, c, q[1..]);
    }
  }

  /** A common first segment does not affect whether one path is a prefix of another. */
  lemma PrefixCons(x: string, p: seq<string>, q: seq<string>)
    ensures IsPrefix([x] + p, [x] + q) <==> IsPrefix(p, q)
  {
    if IsPrefix(p, q) { assert ([x] + q)[..|p| + 1] == [x] + q[..|p|]; }
    if IsPrefix([x] + p, [x] + q) { assert q[..|p|] == ([x] + q)[..|p| + 1][1..]; }
  }

  /** A fresh node reaches nothing below itself. */
  lemma NewNodeLookup(p: seq<string>)
    requires |p| > 0
    ensures Lookup(NewNode(), p).None?
  {
  }

  /** Inserting the same record twice in a row is the same as inserting it once. */
  lemma {:induction false} InsertIdempotent(n: Node, levels: seq<string>, itemId: string)
    ensures Insert(Insert(n, levels, itemId), levels, itemId) == Insert(n, levels, itemId)
    decreases |levels|
  {
    if |levels| == 0 {
      assert Insert(n, levels, itemId).children[itemId := Leaf()] == Insert(n, levels, itemId).children;
    } else {
      InsertIdempotent(Child(n, levels[0]), levels[1..], itemId);
    }
  }

  // ---- Order of inserts ----

  function InsertEntry(n: Node, e: Entry): Node { Insert(n, e.levels, e.itemId) }

  /** The full key path an entry writes: its levels, then its item id. */
  function KeyPath(e: Entry): seq<string> { e.levels + [e.itemId] }

  /**
   * Two records that write the same key path, or key paths that branch apart, do not
   * overwrite each other's nodes. They collide when one record's full key path is a
   * proper prefix of the other's: the leaf written by the shorter replaces the other's subtree.
   */
  predicate Compatible(a: Entry, b: Entry)
  {
    KeyPath(a) == KeyPath(b) || (!IsPrefix(KeyPath(a), KeyPath(b)) && !IsPrefix(KeyPath(b), KeyPath(a)))
  }

  /** What an insert puts under the first key of its key path. */
  function Sub(n: Node, e: Entry): Node
  {
    if |e.levels| == 0 then Leaf() else Insert(Child(n, e.levels[0]), e.levels[1..], e.itemId)
  }

  /** An insert replaces one child of the root, the one under the first key of its key path. */
  lemma InsertShape(n: Node, e: Entry)
    ensures InsertEntry(n, e) == Node(n.item, n.children[KeyPath(e)[0] := Sub(n, e)])
  {
  }

  /** Records whose key paths start with different keys touch different children of the root. */
  lemma DisjointInsertsCommute(n: Node, a: Entry, b: Entry)
    requires KeyPath(a)[0] != KeyPath(b)[0]
    ensures InsertEntry(InsertEntry(n, a), b) == InsertEntry(InsertEntry(n, b), a)
  {
    var ka, kb := KeyPath(a)[0], KeyPath(b)[0];
    var na, nb := InsertEntry(n, a), InsertEntry(n, b);
    InsertShape(n, a);
    InsertShape(n, b);
    InsertShape(na, b);
    InsertShape(nb, a);
    assert Child(na, kb) == Child(n, kb) && Child(nb, ka) == Child(n, ka);
    assert Sub(na, b) == Sub(n, b) && Sub(nb, a) == Sub(n, a);
    assert n.children[ka := Sub(n, a)][kb := Sub(n, b)] == n.children[kb := Sub(n, b)][ka := Sub(n, a)];
  }

  /** Compatible records may be inserted in either order. */
  lemma {:induction false} InsertCommutes(n: Node, a: Entry, b: Entry)
    requires Compatible(a, b)
    ensures InsertEntry(InsertEntry(n, a), b) == InsertEntry(InsertEntry(n, b), a)
    decreases |a.levels|
  {
    var pa, pb := KeyPath(a), KeyPath(b);
    if pa[0] != pb[0] {
      DisjointInsertsCommute(n, a, b);
    } else if |a.levels| == 0 || |b.levels| == 0 {
      assert |a.levels| == 0 ==> pb[..|pa|] == pa;
      assert |b.levels| == 0 ==> pa[..|pb|] == pb;
      assert a == b;
    } else {
      var k := a.levels[0];
      var a', b' := Entry(a.levels[1..], a.itemId), Entry(b.levels[1..], b.itemId);
      assert pa == [k] + KeyPath(a') && pb == [k] + KeyPath(b');
      PrefixCons(k, KeyPath(a'), KeyPath(b'));
      PrefixCons(k, KeyPath(b'), KeyPath(a'));
      InsertCommutes(Child(n, k), a', b');
      InsertShape(n, a);
      InsertShape(n, b);
      InsertShape(InsertEntry(n, a), b);
      InsertShape(InsertEntry(n, b), a);
    }
  }

  /** The tree after inserting every entry, first to last. */
  function BuildTree(n: Node, entries: seq<Entry>): Node
    decreases |entries|
  {
    if |entries| == 0 then n else InsertEntry(BuildTree(n, entries[..|entries| - 1]), entries[|entries| - 1])
  }

  lemma {:induction false} BuildTreeAppend(n: Node, a: seq<Entry>, b: seq<Entry>)
    ensures BuildTree(n, a + b) == BuildTree(BuildTree(n, a), b)
    decreases |b|
  {
    if |b| == 0 {
      assert a + b == a;
    } else {
      assert (a + b)[..|a + b| - 1] == a + b[..|b| - 1];
      BuildTreeAppend(n, a, b[..|b| - 1]);
    }
  }

  /** A record compatible with all of `b` may be inserted before them or after them. */
  lemma {:induction false} InsertCommutesWithBuild(n: Node, x: Entry, b: seq<Entry>)
    requires forall i :: 0 <= i < |b| ==> Compatible(x, b[i])
    ensures BuildTree(InsertEntry(n, x), b) == InsertEntry(BuildTree(n, b), x)
    decreases |b|
  {
    if |b| > 0 {
      var init, y := b[..|b| - 1], b[|b| - 1];
      InsertCommutesWithBuild(n, x, init);
      InsertCommutes(BuildTree(n, init), x, y);
    }
  }

  predicate PairwiseCompatible(entries: seq<Entry>)
  {
    forall i, j :: 0 <= i < |entries| && 0 <= j < |entries| ==> Compatible(entries[i], entries[j])
  }

  /** A record compatible with everything after it may be moved to the end. */
  lemma MoveToEnd(n: Node, before: seq<Entry>, x: Entry, after: seq<Entry>)
    requires forall i :: 0 <= i < |after| ==> Compatible(x, after[i])
    ensures BuildTree(n, before + [x] + after) == InsertEntry(BuildTree(n, before + after), x)
  {
    BuildTreeAppend(n, before + [x], after);
    assert (before + [x])[..|before|] == before;
    InsertCommutesWithBuild(BuildTree(n, before), x, after);
    BuildTreeAppend(n, before, after);
  }

  /** Taking one record out keeps the rest pairwise compatible and compatible with it. */
  lemma RemoveOne(entries: seq<Entry>, k: nat) returns (before: seq<Entry>, after: seq<Entry>)
    requires k < |entries| && PairwiseCompatible(entries)
    ensures entries == before + [entries[k]] + after
    ensures multiset(entries) == multiset(before + after) + multiset{entries[k]}
    ensures PairwiseCompatible(before + after)
    ensures forall i :: 0 <= i < |after| ==> Compatible(entries[k], after[i])
  {
    before, after := entries[..k], entries[k + 1..];
    var rest := before + after;
    assert entries == before + [entries[k]] + after;
    forall i, j | 0 <= i < |rest| && 0 <= j < |rest| ensures Compatible(rest[i], rest[j]) {
      var i' := if i < k then i else i + 1;
      var j' := if j < k then j else j + 1;
      assert rest[i] == entries[i'] && rest[j] == entries[j'];
    }
    forall i | 0 <= i < |after| ensures Compatible(entries[k], after[i]) {
      assert after[i] == entries[k + 1 + i];
    }
  }

  /** A record of a multiset built from a sequence sits at some index of it. */
  lemma IndexOf(entries: seq<Entry>, x: Entry) returns (k: nat)
    requires x in multiset(entries)
    ensures k < |entries| && entries[k] == x
  {
    assert x in entries;
    k :| 0 <= k < |entries| && entries[k] == x;
  }

  /**
   * Any order of inserting pairwise compatible records builds the same tree: the
   * schedules of a worker pool, which insert the rows in some order, all agree with
   * the single-worker one.
   */
  lemma {:induction false} BuildTreeOrderIndependent(n: Node, entries: seq<Entry>, schedule: seq<Entry>)
    requires multiset(entries) == multiset(schedule)
    requires PairwiseCompatible(entries)
    ensures BuildTree(n, entries) == BuildTree(n, schedule)
    decreases |schedule|
  {
    if |schedule| == 0 {
      assert |entries| == |multiset(entries)| == 0;
    } else {
      var init, x := schedule[..|schedule| - 1], schedule[|schedule| - 1];
      assert schedule == init + [x];
      assert multiset(schedule) == multiset(init) + multiset{x};
      var k := IndexOf(entries, x);
      var before, after := RemoveOne(entries, k);
      assert multiset(before + after) == multiset(entries) - multiset{x};
      assert multiset(init) == multiset(schedule) - multiset{x};
      MoveToEnd(n, before, x, after);
      BuildTreeOrderIndependent(n, before + after, init);
    }
  }

  /**
   * The compatibility condition cannot be dropped: an item id under the root that is
   * also a first-level segment makes the two orders build different trees.
   */
  lemma CollidingInsertsDoNotCommute()
    ensures !Compatible(Entry([], "a"), Entry(["a"], "b"))
    ensures InsertEntry(InsertEntry(NewNode(), Entry([], "a")), Entry(["a"], "b"))
         != InsertEntry(InsertEntry(NewNode(), Entry(["a"], "b")), Entry([], "a"))
  {
    var ab := InsertEntry(InsertEntry(NewNode(), Entry([], "a")), Entry(["a"], "b"));
    var ba := InsertEntry(InsertEntry(NewNode(), Entry(["a"], "b")), Entry([], "a"));
    assert KeyPath(Entry([], "a")) == ["a"];
    assert KeyPath(Entry(["a"], "b"))[..1] == ["a"];
    assert "b" in ab.children["a"].children;
    assert ba.children["a"] == Leaf();
  }

  /** The three successive inserts of the domain test, each checked against the expected tree. */
  lemma AddNodeScenario()
    ensures var t1 := Insert(NewNode(), ["1"], "1234");
      && t1 == Node(false, map["1" := Node(false, map["1234" := Leaf()])])
      && var t2 := Insert(t1, ["1", "2"], "4567");
      && t2 == Node(false, map["1" := Node(false, map["1234" := Leaf(), "2" := Node(false, map["4567" := Leaf()])])])
      && Insert(t2, ["1", "2", "3"], "7890")
         == Node(false, map["1" := Node(false, map["1234" := Leaf(),
              "2" := Node(false, map["4567" := Leaf(), "3" := Node(false, map["7890" := Leaf()])])])])
  {
    var t1 := Insert(NewNode(), ["1"], "1234");
    var t2 := Insert(t1, ["1", "2"], "4567");
    assert ["1", "2"][1..] == ["2"];
    assert ["1", "2", "3"][1..] == ["2", "3"] && ["2", "3"][1..] == ["3"];
    var n1 := t2.children["1"];
    var n2 := n1.children["2"];
    assert Insert(n2, ["3"], "7890") == Node(false, map["4567" := Leaf(), "3" := Node(false, map["7890" := Leaf()])]);
    var m2 := Node(false, map["4567" := Leaf(), "3" := Node(false, map["7890" := Leaf()])]);
    assert Insert(n1, ["2", "3"], "7890") == Node(false, n1.children["2" := m2]);
    assert n1.children["2" := m2] == map["1234" := Leaf(), "2" := m2];
    assert Insert(t2, ["1", "2", "3"], "7890") == Node(false, t2.children["1" := Insert(n1, ["2", "3"], "7890")]);
  }
}
