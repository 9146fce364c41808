/**
 * The XML side of the query engine. A parsed document is an `Element` value standing in
 * for SimpleXML; a clXmlNode is an element together with the namespace prefix it was
 * reached under. Its descendant list and its attribute lookup are given here as functions,
 * and the class `XmlNode` computes them the way clXmlNode does, memoised in its fields.
 */
module Tree {
  import opened Wrappers
  import opened Php
  import opened Assoc

  /** An attribute: its namespace prefix (empty for none), its local name and its text. */
  datatype Attr = Attr(prefix: string, name: string, value: string)

  /** An element: local name, namespace prefix, its string value, attributes and child elements, in document order. */
  datatype Element = Element(name: string, prefix: string, text: string, attrs: seq<Attr>, children: seq<Element>)

  /** A clXmlNode: the wrapped element and the namespace prefix it was listed under. */
  datatype XNode = XNode(el: Element, ns: string)

  /** An entry of a node's descendant list: the node, and whether its parent is the node owning the list. */
  datatype Desc = Desc(node: XNode, child: bool)

  // ---------------------------------------------------------------------------------------
  // The descendant list
  // ---------------------------------------------------------------------------------------

  /** The nodes of a descendant list, in order. */
  function Nodes(ds: seq<Desc>): (r: seq<XNode>)
    ensures |r| == |ds| && forall k :: 0 <= k < |ds| ==> r[k] == ds[k].node
  {
    if ds == [] then [] else Nodes(ds[..|ds| - 1]) + [ds[|ds| - 1].node]
  }

  /** Nodes listed by a child: seen from its parent, none of them is a direct child. */
  function Deeper(xs: seq<XNode>): (r: seq<Desc>)
    ensures |r| == |xs| && forall k :: 0 <= k < |xs| ==> r[k] == Desc(xs[k], false)
  {
    if xs == [] then [] else Deeper(xs[..|xs| - 1]) + [Desc(xs[|xs| - 1], false)]
  }

  /**
   * The list clXmlNode::descendants builds once: for each namespace in order, each child
   * element in that namespace, followed by that child's own list.
   */
  function AllDescendants(e: Element, nss: seq<string>): seq<Desc>
    decreases e, 2
  {
    NsRuns(e, nss, |nss|)
  }

  /** The entries contributed by the first `n` namespaces. */
  function NsRuns(e: Element, nss: seq<string>, n: nat): seq<Desc>
    requires n <= |nss|
    decreases e, 1, n
  {
    if n == 0 then [] else NsRuns(e, nss, n - 1) + KidRuns(e, nss, nss[n - 1], |e.children|)
  }

  /** The entries contributed by the first `n` children in the namespace `ns`. */
  function KidRuns(e: Element, nss: seq<string>, ns: string, n: nat): seq<Desc>
    requires n <= |e.children|
    decreases e, 0, n
  {
    if n == 0 then []
    else
      var c := e.children[n - 1];
      assert c in e.children;
      KidRuns(e, nss, ns, n - 1) + (if c.prefix == ns then KidEntry(c, nss, ns) else [])
  }

  /** A child listed under `ns`, then everything below it. */
  function KidEntry(c: Element, nss: seq<string>, ns: string): seq<Desc>
    decreases c, 3
  {
    [Desc(XNode(c, ns), true)] + Deeper(Nodes(AllDescendants(c, nss)))
  }

  /** The name part of a selector `ns:name` or `name`: `@list($ns, $name) = explode(':', ...)`, then a falsy name takes the first part. */
  function NameOf(sel: string): string {
    var p := Explode(sel, ':');
    if |p| >= 2 && Truthy(p[1]) then p[1] else p[0]
  }

  /** The namespace part of a selector, empty when there is none. */
  function NsOf(sel: string): string {
    var p := Explode(sel, ':');
    if |p| >= 2 && Truthy(p[1]) then p[0] else ""
  }

  /** The test of clXmlNode::descendants on one entry. */
  predicate Selected(d: Desc, name: string, ns: string, direct: bool) {
    && (!Truthy(name) || name == "*" || d.node.el.name == name)
    && (!direct || d.child)
    && (!Truthy(ns) || d.node.ns == ns)
  }

  /** The entries passing the test, in order. */
  function Select(ds: seq<Desc>, name: string, ns: string, direct: bool): seq<XNode> {
    if ds == [] then []
    else
      var d := ds[|ds| - 1];
      Select(ds[..|ds| - 1], name, ns, direct) + (if Selected(d, name, ns, direct) then [d.node] else [])
  }

  /** `$node->descendants($selector, $direct)`. */
  function DescendantsOf(n: XNode, nss: seq<string>, sel: string, direct: bool): seq<XNode> {
    Select(AllDescendants(n.el, nss), NameOf(sel), NsOf(sel), direct)
  }

  /** Filtering keeps the order: it distributes over concatenation. */
  lemma {:induction false} SelectAppend(a: seq<Desc>, b: seq<Desc>, name: string, ns: string, direct: bool)
    ensures Select(a + b, name, ns, direct) == Select(a, name, ns, direct) + Select(b, name, ns, direct)
    decreases |b|
  {
    if b == [] {
      assert a + b == a;
    } else {
      var init, d := b[..|b| - 1], b[|b| - 1];
      SnocSplit(a, b);
      assert (a + b)[..|a + b| - 1] == a + init;
      SelectAppend(a, init, name, ns, direct);
      AppendAssoc(Select(a, name, ns, direct), Select(init, name, ns, direct),
        if Selected(d, name, ns, direct) then [d.node] else []);
    }
  }

  /** A node is in the filtered list exactly when some entry holding it passes the test. */
  lemma {:induction false} SelectMembers(ds: seq<Desc>, name: string, ns: string, direct: bool, x: XNode)
    ensures x in Select(ds, name, ns, direct) <==> exists k :: 0 <= k < |ds| && ds[k].node == x && Selected(ds[k], name, ns, direct)
  {
    if ds != [] {
      var init := ds[..|ds| - 1];
      SelectMembers(init, name, ns, direct, x);
      if exists k :: 0 <= k < |init| && init[k].node == x && Selected(init[k], name, ns, direct) {
        var k :| 0 <= k < |init| && init[k].node == x && Selected(init[k], name, ns, direct);
        assert ds[k] == init[k];
      }
      if exists k :: 0 <= k < |ds| && ds[k].node == x && Selected(ds[k], name, ns, direct) {
        var k :| 0 <= k < |ds| && ds[k].node == x && Selected(ds[k], name, ns, direct);
        if k < |init| {
          assert init[k] == ds[k];
        }
      }
    }
  }

  /** Selecting `*` without the direct flag keeps every entry. */
  lemma {:induction false} SelectStar(ds: seq<Desc>)
    ensures Select(ds, NameOf("*"), NsOf("*"), false) == Nodes(ds)
  {
    var rest := Explode("*"[1..], ':');
    assert "*"[1..] == [] && rest == [[]];
    assert Explode("*", ':') == [['*'] + rest[0]] + rest[1..];
    assert ['*'] + rest[0] == ['*'] && rest[1..] == [];
    if ds != [] {
      SelectStar(ds[..|ds| - 1]);
    }
  }

  /** A node's own list read through `*` is its list of nodes. */
  lemma DescendantsStar(n: XNode, nss: seq<string>)
    ensures DescendantsOf(n, nss, "*", false) == Nodes(AllDescendants(n.el, nss))
  {
    SelectStar(AllDescendants(n.el, nss));
  }

  /**
   * Every entry of a node's list is an element listed under its own prefix, one of the
   * namespaces; the entries marked as direct children are children of the element.
   */
  lemma DescendantsListed(e: Element, nss: seq<string>)
    ensures forall k :: 0 <= k < |AllDescendants(e, nss)| ==>
      var d := AllDescendants(e, nss)[k];
      d.node.ns == d.node.el.prefix && d.node.ns in nss && (d.child ==> d.node.el in e.children)
    decreases e, 2
  {
    NsRunsListed(e, nss, |nss|);
  }

  /** With the direct flag, only children of the node itself are selected. */
  lemma DirectAreChildren(n: XNode, nss: seq<string>, sel: string, x: XNode)
    requires x in DescendantsOf(n, nss, sel, true)
    ensures x.el in n.el.children && x.ns in nss
  {
    SelectMembers(AllDescendants(n.el, nss), NameOf(sel), NsOf(sel), true, x);
    DescendantsListed(n.el, nss);
  }

  lemma {:induction false} NsRunsListed(e: Element, nss: seq<string>, n: nat)
    requires n <= |nss|
    ensures forall k :: 0 <= k < |NsRuns(e, nss, n)| ==>
      var d := NsRuns(e, nss, n)[k];
      d.node.ns == d.node.el.prefix && d.node.ns in nss && (d.child ==> d.node.el in e.children)
    decreases e, 1, n
  {
    if n > 0 {
      NsRunsListed(e, nss, n - 1);
      KidRunsListed(e, nss, nss[n - 1], |e.children|);
    }
  }

  lemma {:induction false} KidRunsListed(e: Element, nss: seq<string>, ns: string, n: nat)
    requires n <= |e.children| && ns in nss
    ensures forall k :: 0 <= k < |KidRuns(e, nss, ns, n)| ==>
      var d := KidRuns(e, nss, ns, n)[k];
      d.node.ns == d.node.el.prefix && d.node.ns in nss && (d.child ==> d.node.el in e.children)
    decreases e, 0, n
  {
    if n > 0 {
      KidRunsListed(e, nss, ns, n - 1);
      var c := e.children[n - 1];
      assert c in e.children;
      if c.prefix == ns {
        DescendantsListed(c, nss);
        var below := AllDescendants(c, nss);
        var entry := KidEntry(c, nss, ns);
        forall k | 0 <= k < |entry|
          ensures entry[k].node.ns == entry[k].node.el.prefix && entry[k].node.ns in nss && !(k > 0 && entry[k].child)
        {
          if k > 0 {
            assert entry[k] == Desc(below[k - 1].node, false);
          }
        }
      }
    }
  }

  // ---------------------------------------------------------------------------------------
  // Attribute lookup
  // ---------------------------------------------------------------------------------------

  /** `$el->attributes($ns, true)`: the attributes in the namespace `ns`, in order. */
  function AttrsIn(atts: seq<Attr>, ns: string): (r: seq<Attr>)
    ensures forall k :: 0 <= k < |r| ==> r[k] in atts && r[k].prefix == ns
  {
    if atts == [] then []
    else
      var a := atts[|atts| - 1];
      AttrsIn(atts[..|atts| - 1], ns) + (if a.prefix == ns then [a] else [])
  }

  /** The attribute table clXmlNode::attribute builds once: each namespace with its attributes. */
  function AttrTable(el: Element, nss: seq<string>): (r: seq<Entry<seq<Attr>>>)
    ensures |r| == |nss| && forall k :: 0 <= k < |nss| ==> r[k] == Entry(nss[k], AttrsIn(el.attrs, nss[k]))
  {
    seq(|nss|, k requires 0 <= k < |nss| => Entry(nss[k], AttrsIn(el.attrs, nss[k])))
  }

  /** The key an attribute gets in the map of all attributes: prefixed by its namespace when that is truthy. */
  function AttrKey(ns: string, name: string): string {
    if Truthy(ns) then ns + ":" + name else name
  }

  /** The map of all attributes after the first `n` of the attributes of one namespace. */
  function PutAttrs(m: seq<Entry<string>>, ns: string, atts: seq<Attr>, n: nat): seq<Entry<string>>
    requires n <= |atts|
  {
    if n == 0 then m else Put(PutAttrs(m, ns, atts, n - 1), AttrKey(ns, atts[n - 1].name), atts[n - 1].value)
  }

  /** The map of all attributes after the first `n` namespaces of the table. */
  function AllAttrs(table: seq<Entry<seq<Attr>>>, n: nat): seq<Entry<string>>
    requires n <= |table|
  {
    if n == 0 then []
    else PutAttrs(AllAttrs(table, n - 1), table[n - 1].key, table[n - 1].val, |table[n - 1].val|)
  }

  /** The value of the first attribute called `name`. */
  function FirstNamed(atts: seq<Attr>, name: string): (r: Option<string>)
    ensures r.Some? ==> exists k :: 0 <= k < |atts| && atts[k].name == name && atts[k].value == r.value
    ensures r.None? ==> forall k :: 0 <= k < |atts| ==> atts[k].name != name
  {
    if atts == [] then None
    else if atts[0].name == name then Some(atts[0].value)
    else
      var r := FirstNamed(atts[1..], name);
      assert r.Some? ==> exists k :: 0 <= k < |atts| && atts[k].name == name && atts[k].value == r.value by {
        if r.Some? {
          var k :| 0 <= k < |atts[1..]| && atts[1..][k].name == name && atts[1..][k].value == r.value;
          assert atts[k + 1] == atts[1..][k];
        }
      }
      r
  }

  /** The value of the first attribute called `name`, looking through the namespaces in order. */
  function FirstAcross(table: seq<Entry<seq<Attr>>>, name: string): Option<string> {
    if table == [] then None
    else match FirstNamed(table[0].val, name)
      case Some(v) => Some(v)
      case None => FirstAcross(table[1..], name)
  }

  /** What clXmlNode::attribute returns: the map of all attributes, one value, or null. */
  datatype AttrValue = AllValues(m: seq<Entry<string>>) | Value(v: string) | NoValue

  /**
   * clXmlNode::attribute($selector): without a name, the map of all attributes; with a
   * namespace that has a table entry, the first attribute of that name in it; otherwise the
   * first attribute of that name in any namespace.
   */
  function AttributeOf(el: Element, nss: seq<string>, sel: string): AttrValue {
    var table := AttrTable(el, nss);
    var name, ns := NameOf(sel), NsOf(sel);
    if !Truthy(name) then AllValues(AllAttrs(table, |table|))
    else if Truthy(ns) && Get(table, ns).Some? then
      match FirstNamed(Get(table, ns).value, name)
      case Some(v) => Value(v)
      case None => NoValue
    else
      match FirstAcross(table, name)
      case Some(v) => Value(v)
      case None => NoValue
  }

  /** The first attribute of that name across the namespaces is an attribute of the element with that name, in one of the namespaces. */
  lemma {:induction false} FirstAcrossFound(el: Element, nss: seq<string>, name: string)
    ensures FirstAcross(AttrTable(el, nss), name).Some? <==>
      exists a :: a in el.attrs && a.prefix in nss && a.name == name
    ensures FirstAcross(AttrTable(el, nss), name).Some? ==>
      exists a :: a in el.attrs && a.prefix in nss && a.name == name && a.value == FirstAcross(AttrTable(el, nss), name).value
  {
    if nss != [] {
      var table := AttrTable(el, nss);
      assert table[1..] == AttrTable(el, nss[1..]);
      FirstAcrossFound(el, nss[1..], name);
      var here := AttrsIn(el.attrs, nss[0]);
      assert table[0].val == here;
      match FirstNamed(here, name)
      case Some(v) =>
        var k :| 0 <= k < |here| && here[k].name == name && here[k].value == v;
        assert here[k] in el.attrs && here[k].prefix in nss;
      case None =>
        assert FirstAcross(table, name) == FirstAcross(AttrTable(el, nss[1..]), name);
        if exists a :: a in el.attrs && a.prefix in nss && a.name == name {
          var a :| a in el.attrs && a.prefix in nss && a.name == name;
          if a.prefix == nss[0] {
            AttrsInHas(el.attrs, nss[0], a);
            assert false;
          } else {
            assert a.prefix in nss[1..];
          }
        }
    }
  }

  /** Every attribute of the namespace is in its part of the table. */
  lemma {:induction false} AttrsInHas(atts: seq<Attr>, ns: string, a: Attr)
    requires a in atts && a.prefix == ns
    ensures a in AttrsIn(atts, ns)
  {
    var init := atts[..|atts| - 1];
    if a != atts[|atts| - 1] {
      assert atts == init + [atts[|atts| - 1]];
      AttrsInHas(init, ns, a);
    }
  }

  /** In the map of all attributes, every key occurs once. */
  lemma {:induction false} AllAttrsUnique(table: seq<Entry<seq<Attr>>>, n: nat)
    requires n <= |table|
    ensures UniqueKeys(AllAttrs(table, n))
  {
    if n > 0 {
      AllAttrsUnique(table, n - 1);
      PutAttrsUnique(AllAttrs(table, n - 1), table[n - 1].key, table[n - 1].val, |table[n - 1].val|);
    }
  }

  lemma {:induction false} PutAttrsUnique(m: seq<Entry<string>>, ns: string, atts: seq<Attr>, n: nat)
    requires n <= |atts| && UniqueKeys(m)
    ensures UniqueKeys(PutAttrs(m, ns, atts, n))
  {
    if n > 0 {
      PutAttrsUnique(m, ns, atts, n - 1);
      PutSpec(PutAttrs(m, ns, atts, n - 1), AttrKey(ns, atts[n - 1].name), atts[n - 1].value);
    }
  }

  // ---------------------------------------------------------------------------------------
  // The node object and its memos
  // ---------------------------------------------------------------------------------------

  /** The namespace prefixes are the keys of a PHP array: none occurs twice. */
  predicate UniqueNs(nss: seq<string>) {
    forall a, b :: 0 <= a < b < |nss| ==> nss[a] != nss[b]
  }

  /**
   * A clXmlNode object. Its descendant list and its attribute table are computed on first
   * use and kept in fields; an empty memo counts as not computed yet, as `if (!$this->...)`
   * does in PHP.
   */
  class XmlNode {
    const el: Element
    const ns: string
    const nss: seq<string>
    var memo: seq<Desc>
    var table: seq<Entry<seq<Attr>>>

    /** Each memo is either not computed yet or holds what it stands for. */
    predicate Valid()
      reads this
    {
      && (memo == [] || memo == AllDescendants(el, nss))
      && (table == [] || table == AttrTable(el, nss))
    }

    constructor (el: Element, ns: string, nss: seq<string>)
      ensures this.el == el && this.ns == ns && this.nss == nss
      ensures memo == [] && table == [] && Valid()
    {
      this.el, this.ns, this.nss := el, ns, nss;
      memo, table := [], [];
    }

    /** The memo-filling part of `descendants`: for each namespace, its children and what lies below them. */
    method FillMemo()
      requires Valid() && memo == []
      modifies this
      ensures memo == AllDescendants(el, nss) && table == old(table)
      decreases el, 2
    {
      for k := 0 to |nss|
        invariant memo == NsRuns(el, nss, k)
        invariant table == old(table)
      {
        FillRun(nss[k]);
      }
    }

    /** The children listed under one namespace. */
    method FillRun(ns': string)
      modifies this
      ensures memo == old(memo) + KidRuns(el, nss, ns', |el.children|) && table == old(table)
      decreases el, 1
    {
      for j := 0 to |el.children|
        invariant memo == old(memo) + KidRuns(el, nss, ns', j)
        invariant table == old(table)
      {
        var c := el.children[j];
        assert KidRuns(el, nss, ns', j + 1) == KidRuns(el, nss, ns', j) + (if c.prefix == ns' then KidEntry(c, nss, ns') else []);
        if c.prefix == ns' {
          var entry := ChildEntry(j, ns');
          memo := memo + entry;
          assert memo == old(memo) + (KidRuns(el, nss, ns', j) + entry);
        }
      }
    }

    /** A node for child `j`, and the entries it contributes: itself, then its own list. */
    method ChildEntry(j: nat, ns': string) returns (entry: seq<Desc>)
      requires j < |el.children|
      ensures entry == KidEntry(el.children[j], nss, ns')
      decreases el, 0
    {
      var c := el.children[j];
      assert c in el.children;
      var node := new XmlNode(c, ns', nss);
      var below := node.Descendants("*", false);
      DescendantsStar(XNode(c, ns'), nss);
      entry := [Desc(XNode(c, ns'), true)] + Deeper(below);
    }

    /** `descendants($selector, $direct)`: fills the memo on first use, then filters it. */
    method Descendants(sel: string, direct: bool) returns (r: seq<XNode>)
      requires Valid()
      modifies this
      ensures Valid() && memo == AllDescendants(el, nss) && table == old(table)
      ensures r == DescendantsOf(XNode(el, ns), nss, sel, direct)
      decreases el, 3
    {
      if memo == [] {
        FillMemo();
      }
      r := FilterMemo(memo, NameOf(sel), NsOf(sel), direct);
    }

    /** The table-filling part of `attribute`: each namespace with its attributes. */
    method FillTable()
      requires Valid() && UniqueNs(nss)
      modifies this
      ensures table == AttrTable(el, nss) && memo == old(memo)
    {
      table := [];
      for k := 0 to |nss|
        invariant table == AttrTable(el, nss[..k])
        invariant memo == old(memo)
      {
        table := Put(table, nss[k], AttrsIn(el.attrs, nss[k]));
        assert table == AttrTable(el, nss[..k + 1]);
      }
      assert nss[..|nss|] == nss;
    }

    /**
     * `attribute($selector)`: fills the attribute table on first use, then answers from it:
     * the map of all attributes, the first match in the named namespace, or the first match
     * in any namespace.
     */
    method Attribute(sel: string) returns (r: AttrValue)
      requires Valid() && UniqueNs(nss)
      modifies this
      ensures Valid() && table == AttrTable(el, nss) && memo == old(memo)
      ensures r == AttributeOf(el, nss, sel)
    {
      if table == [] {
        FillTable();
      }
      var name, ns' := NameOf(sel), NsOf(sel);
      if !Truthy(name) {
        var m := CollectAll(table);
        r := AllValues(m);
      } else if Truthy(ns') && Get(table, ns').Some? {
        var v := FindNamed(Get(table, ns').value, name);
        r := if v.Some? then Value(v.value) else NoValue;
      } else {
        var v := FindAcross(table, name);
        r := if v.Some? then Value(v.value) else NoValue;
      }
    }
  }

  /** The filtering loop of `descendants`. */
  method FilterMemo(memo: seq<Desc>, name: string, ns: string, direct: bool) returns (r: seq<XNode>)
    ensures r == Select(memo, name, ns, direct)
  {
    r := [];
    for c := 0 to |memo|
      invariant r == Select(memo[..c], name, ns, direct)
    {
      assert memo[..c + 1][..c] == memo[..c];
      if Selected(memo[c], name, ns, direct) {
        r := r + [memo[c].node];
      }
    }
    assert memo[..|memo|] == memo;
  }

  /** The loops that gather every attribute, keyed `ns:name` outside the default namespace. */
  method CollectAll(table: seq<Entry<seq<Attr>>>) returns (m: seq<Entry<string>>)
    ensures m == AllAttrs(table, |table|)
  {
    m := [];
    for k := 0 to |table|
      invariant m == AllAttrs(table, k)
    {
      var atts := table[k].val;
      for j := 0 to |atts|
        invariant m == PutAttrs(AllAttrs(table, k), table[k].key, atts, j)
      {
        m := Put(m, AttrKey(table[k].key, atts[j].name), atts[j].value);
      }
    }
  }

  /** The loop returning the first attribute of that name. */
  method FindNamed(atts: seq<Attr>, name: string) returns (r: Option<string>)
    ensures r == FirstNamed(atts, name)
  {
    for j := 0 to |atts|
      invariant FirstNamed(atts[j..], name) == FirstNamed(atts, name)
    {
      assert atts[j..][1..] == atts[j + 1..];
      if atts[j].name == name {
        return Some(atts[j].value);
      }
    }
    return None;
  }

  /** The nested loops returning the first attribute of that name in any namespace. */
  method FindAcross(table: seq<Entry<seq<Attr>>>, name: string) returns (r: Option<string>)
    ensures r == FirstAcross(table, name)
  {
    for k := 0 to |table|
      invariant FirstAcross(table[k..], name) == FirstAcross(table, name)
    {
      assert table[k..][1..] == table[k + 1..];
      r := FindNamed(table[k].val, name);
      if r.Some? {
        return;
      }
    }
    return None;
  }
}
