/**
 * `root.findall(".//item")`: every `<item>` element strictly below the root,
 * at any depth, in document order.
 */
module Walker {
  import opened Items

  /**
   * An element of the parsed document: its tag, the `g:` child elements it
   * carries (relevant only for `<item>` elements) and its other children.
   */
  datatype Node = Node(tag: string, fields: Item, children: seq<Node>)

  const ItemTag: string := "item"

  /** The items in the subtree rooted at `n`, `n` included, in pre-order. */
  function ItemsIn(n: Node): seq<Item>
    decreases n, 1
  {
    (if n.tag == ItemTag then [n.fields] else []) + ItemsUnder(n.children)
  }

  /** The items in a sequence of sibling subtrees, in document order. */
  function ItemsUnder(nodes: seq<Node>): seq<Item>
    decreases nodes, 0
  {
    if nodes == [] then [] else ItemsIn(nodes[0]) + ItemsUnder(nodes[1..])
  }

  /** The descendant search: the root itself is never among the results. */
  function FindAllItems(root: Node): seq<Item> {
    ItemsUnder(root.children)
  }

  /** Document order across siblings: the search over two runs of siblings is the two searches joined. */
  lemma {:induction false} ItemsUnderAppend(a: seq<Node>, b: seq<Node>)
    ensures ItemsUnder(a + b) == ItemsUnder(a) + ItemsUnder(b)
    decreases a
  {
    if a == [] {
      assert a + b == b;
    } else {
      assert (a + b)[0] == a[0];
      assert (a + b)[1..] == a[1..] + b;
      ItemsUnderAppend(a[1..], b);
    }
  }

  /** A node is flat when it is an `<item>` with no child elements besides its `g:` fields. */
  predicate FlatItem(n: Node) {
    n.tag == ItemTag && n.children == []
  }

  /**
   * A channel whose children are all flat items yields exactly those items, in
   * order, one per child.
   */
  lemma {:induction false} FlatChildrenInOrder(nodes: seq<Node>)
    requires forall k :: 0 <= k < |nodes| ==> FlatItem(nodes[k])
    ensures |ItemsUnder(nodes)| == |nodes|
    ensures forall k :: 0 <= k < |nodes| ==> ItemsUnder(nodes)[k] == nodes[k].fields
  {
    if nodes != [] {
      FlatChildrenInOrder(nodes[1..]);
      assert ItemsIn(nodes[0]) == [nodes[0].fields];
    }
  }

  /** A subtree without any `<item>` element contributes nothing. */
  predicate NoItems(n: Node)
    decreases n
  {
    n.tag != ItemTag && forall k :: 0 <= k < |n.children| ==> NoItems(n.children[k])
  }

  lemma {:induction false} NoItemsFound(n: Node)
    requires NoItems(n)
    ensures ItemsIn(n) == []
    decreases n, 1
  {
    NoItemsFoundUnder(n.children);
  }

  lemma {:induction false} NoItemsFoundUnder(nodes: seq<Node>)
    requires forall k :: 0 <= k < |nodes| ==> NoItems(nodes[k])
    ensures ItemsUnder(nodes) == []
    decreases nodes, 0
  {
    if nodes != [] {
      NoItemsFound(nodes[0]);
      NoItemsFoundUnder(nodes[1..]);
    }
  }

  /** Every node of the subtree rooted at `n`, `n` first, in document order. */
  function Preorder(n: Node): seq<Node>
    decreases n, 1
  {
    [n] + PreorderAll(n.children)
  }

  /** Every node of a sequence of sibling subtrees, in document order. */
  function PreorderAll(nodes: seq<Node>): seq<Node>
    decreases nodes, 0
  {
    if nodes == [] then [] else Preorder(nodes[0]) + PreorderAll(nodes[1..])
  }

  /** The elements strictly below `root`, in document order. */
  function Descendants(root: Node): seq<Node> {
    PreorderAll(root.children)
  }

  /** The `g:` fields of the `<item>` elements among `nodes`, in their order. */
  function ItemFieldsOf(nodes: seq<Node>): seq<Item> {
    if nodes == [] then []
    else (if nodes[0].tag == ItemTag then [nodes[0].fields] else []) + ItemFieldsOf(nodes[1..])
  }

  lemma {:induction false} ItemFieldsOfAppend(a: seq<Node>, b: seq<Node>)
    ensures ItemFieldsOf(a + b) == ItemFieldsOf(a) + ItemFieldsOf(b)
  {
    if a == [] {
      assert a + b == b;
    } else {
      assert (a + b)[0] == a[0];
      assert (a + b)[1..] == a[1..] + b;
      ItemFieldsOfAppend(a[1..], b);
    }
  }

  /** The search in a subtree keeps exactly the `<item>` elements of its pre-order listing. */
  lemma {:induction false} ItemsInFilters(n: Node)
    ensures ItemsIn(n) == ItemFieldsOf(Preorder(n))
    decreases n, 1
  {
    ItemsUnderFilters(n.children);
    ItemFieldsOfAppend([n], PreorderAll(n.children));
    assert ([n] + PreorderAll(n.children))[1..] == PreorderAll(n.children);
  }

  lemma {:induction false} ItemsUnderFilters(nodes: seq<Node>)
    ensures ItemsUnder(nodes) == ItemFieldsOf(PreorderAll(nodes))
    decreases nodes, 0
  {
    if nodes != [] {
      ItemsInFilters(nodes[0]);
      ItemsUnderFilters(nodes[1..]);
      ItemFieldsOfAppend(Preorder(nodes[0]), PreorderAll(nodes[1..]));
    }
  }

  /**
   * `findall(".//item")` is sound and complete: its result is, in document
   * order, one entry per `<item>` element strictly below the root, at any depth.
   */
  lemma FindAllItemsSpec(root: Node)
    ensures FindAllItems(root) == ItemFieldsOf(Descendants(root))
  {
    ItemsUnderFilters(root.children);
  }

  /** An entry is kept exactly when some `<item>` element among `nodes` carries it. */
  lemma {:induction false} ItemFieldsOfMembers(nodes: seq<Node>, x: Item)
    ensures x in ItemFieldsOf(nodes)
      <==> exists k :: 0 <= k < |nodes| && nodes[k].tag == ItemTag && nodes[k].fields == x
  {
    if nodes != [] {
      ItemFieldsOfMembers(nodes[1..], x);
      if exists k :: 0 <= k < |nodes| && nodes[k].tag == ItemTag && nodes[k].fields == x {
        var k :| 0 <= k < |nodes| && nodes[k].tag == ItemTag && nodes[k].fields == x;
        if k > 0 {
          assert nodes[1..][k - 1] == nodes[k];
        }
      }
      if x in ItemFieldsOf(nodes[1..]) {
        var k :| 0 <= k < |nodes[1..]| && nodes[1..][k].tag == ItemTag && nodes[1..][k].fields == x;
        assert nodes[k + 1] == nodes[1..][k];
      }
    }
  }

  /**
   * Every `<item>` element strictly below the root, however deep, has its fields
   * among the search results, and every result comes from such an element.
   */
  lemma FoundIffItemDescendant(root: Node, x: Item)
    ensures x in FindAllItems(root)
      <==> exists d :: d in Descendants(root) && d.tag == ItemTag && d.fields == x
  {
    FindAllItemsSpec(root);
    var ds := Descendants(root);
    ItemFieldsOfMembers(ds, x);
    if exists d :: d in ds && d.tag == ItemTag && d.fields == x {
      var d :| d in ds && d.tag == ItemTag && d.fields == x;
      var k :| 0 <= k < |ds| && ds[k] == d;
    }
  }

  /**
   * An `<item>` nested inside another is found too, right after its parent:
   * rss → channel → [item a → [item b], item c] yields a, b, c.
   */
  lemma NestedItemsInDocumentOrder(a: Item, b: Item, c: Item)
    ensures FindAllItems(Node("rss", map[], [Node("channel", map[],
              [Node(ItemTag, a, [Node(ItemTag, b, [])]), Node(ItemTag, c, [])])])) == [a, b, c]
  {
    var nb := Node(ItemTag, b, []);
    var na := Node(ItemTag, a, [nb]);
    var nc := Node(ItemTag, c, []);
    var channel := Node("channel", map[], [na, nc]);
    assert ItemsIn(nb) == [b];
    assert ItemsUnder([nb]) == [b];
    assert ItemsIn(na) == [a, b];
    assert ItemsIn(nc) == [c];
    assert ItemsUnder([nc]) == [c];
    assert ItemsUnder([na, nc]) == [a, b, c];
    assert ItemsIn(channel) == [a, b, c];
    assert ItemsUnder([channel]) == [a, b, c];
  }
}
