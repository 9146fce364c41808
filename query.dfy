/**
 * The query engine: clNode::has_attribute, the step-by-step fold of clNode::get over a
 * working list, and the read-only result list clNodeArray.
 */
module Query {
  import opened Wrappers
  import opened Php
  import opened Assoc
  import opened Tokens
  import opened Selector
  import opened Tree

  /** An entry of a working list: a node, a string (after attribute projection), or null. */
  datatype Value = Node(n: XNode) | Str(s: string) | Null

  /** What clNode::get returns: a clNodeArray over a list, or, for an attribute getter, one value or null. */
  datatype Res = Listed(vals: seq<Value>) | Scalar(v: Option<string>)

  // ---------------------------------------------------------------------------------------
  // has_attribute
  // ---------------------------------------------------------------------------------------

  /** The meaning of an attribute test on a present, non-empty attribute value. */
  ghost predicate TestHolds(selected: string, test: string, value: string) {
    if test == "=" then selected == value
    else if test == "!=" then selected != value
    else if test == "|=" then selected == value || IsPrefix(value + "-", selected)
    else if test == "*=" then value != "" && exists j :: OccursAt(selected, value, j)
    else if test == "~=" then value in SplitWs(selected)
    else if test == "$=" then value != "" && IsSuffix(value, selected)
    else if test == "^=" then value != "" && IsPrefix(value, selected)
    else true
  }

  /** One test as has_attribute writes it, with strpos and strrev. */
  predicate Check(selected: string, test: string, value: string) {
    if test == "=" then selected == value
    else if test == "!=" then selected != value
    else if test == "|=" then selected == value || StrPos(selected, value + "-") == Some(0)
    else if test == "*=" then StrPos(selected, value).Some?
    else if test == "~=" then value in SplitWs(selected)
    else if test == "$=" then StrPos(Reverse(selected), Reverse(value)) == Some(0)
    else if test == "^=" then StrPos(selected, value) == Some(0)
    else true
  }

  /** The strpos formulations mean what the operators promise. */
  lemma CheckMeans(selected: string, test: string, value: string)
    ensures Check(selected, test, value) <==> TestHolds(selected, test, value)
  {
    if test == "|=" {
      StrPosZero(selected, value + "-");
    } else if test == "*=" {
      StrPosFound(selected, value);
    } else if test == "$=" {
      ReversedPrefixIsSuffix(selected, value);
    } else if test == "^=" {
      StrPosZero(selected, value);
    }
  }

  /** The loop of has_attribute from test `i` on: stop with false at the first test that fails. */
  function PassesFrom(atts: seq<Entry<string>>, preds: seq<Pred>, i: nat): bool
    decreases |preds| - i
  {
    if i >= |preds| then true
    else
      var selected := Get(atts, preds[i].attrib);
      if selected.None? || !Truthy(selected.value) then false
      else if !Check(selected.value, preds[i].test, preds[i].value) then false
      else PassesFrom(atts, preds, i + 1)
  }

  /** `has_attribute($selectors, $tests, $values)` on a node whose attribute map is `atts`. */
  predicate HasAttribute(atts: seq<Entry<string>>, preds: seq<Pred>) {
    atts != [] && PassesFrom(atts, preds, 0)
  }

  /** One predicate of a step holds of an attribute map. */
  ghost predicate PredHolds(atts: seq<Entry<string>>, p: Pred) {
    Get(atts, p.attrib).Some? && Truthy(Get(atts, p.attrib).value) && TestHolds(Get(atts, p.attrib).value, p.test, p.value)
  }

  lemma {:induction false} PassesFromIff(atts: seq<Entry<string>>, preds: seq<Pred>, i: nat)
    ensures PassesFrom(atts, preds, i) <==> forall j :: i <= j < |preds| ==> PredHolds(atts, preds[j])
    decreases |preds| - i
  {
    if i < |preds| {
      PassesFromIff(atts, preds, i + 1);
      var selected := Get(atts, preds[i].attrib);
      if selected.Some? {
        CheckMeans(selected.value, preds[i].test, preds[i].value);
      }
    }
  }

  /**
   * has_attribute holds exactly when the node has attributes and every predicate's
   * attribute is present, non-empty, and passes its test.
   */
  lemma HasAttributeIff(atts: seq<Entry<string>>, preds: seq<Pred>)
    ensures HasAttribute(atts, preds) <==> atts != [] && forall j :: 0 <= j < |preds| ==> PredHolds(atts, preds[j])
  {
    PassesFromIff(atts, preds, 0);
  }

  // ---------------------------------------------------------------------------------------
  // The phases of one step
  // ---------------------------------------------------------------------------------------

  /** Nodes as list entries. */
  function Wrap(xs: seq<XNode>): (r: seq<Value>)
    ensures |r| == |xs| && forall k :: 0 <= k < |xs| ==> r[k] == Node(xs[k])
  {
    if xs == [] then [] else Wrap(xs[..|xs| - 1]) + [Node(xs[|xs| - 1])]
  }

  /** Element expansion: each node's matching descendants, one node after the other; other entries add nothing. */
  function Expand(vs: seq<Value>, element: string, direct: bool, nss: seq<string>): seq<Value> {
    if vs == [] then []
    else
      var rest := Expand(vs[..|vs| - 1], element, direct, nss);
      match vs[|vs| - 1]
      case Node(n) => rest + Wrap(DescendantsOf(n, nss, element, direct))
      case _ => rest
  }

  /** The map of all attributes of a node, as `attribute()` without a name returns it. */
  function AttributesOf(n: XNode, nss: seq<string>): seq<Entry<string>> {
    AllAttrs(AttrTable(n.el, nss), |nss|)
  }

  /** The nodes passing has_attribute, in order; other entries are dropped. */
  function FilterPreds(vs: seq<Value>, preds: seq<Pred>, nss: seq<string>): seq<Value> {
    if vs == [] then []
    else
      var rest := FilterPreds(vs[..|vs| - 1], preds, nss);
      match vs[|vs| - 1]
      case Node(n) => if HasAttribute(AttributesOf(n, nss), preds) then rest + [Node(n)] else rest
      case _ => rest
  }

  /** The values of an attribute map, in order. */
  function Values(m: seq<Entry<string>>): seq<Value> {
    if m == [] then [] else Values(m[..|m| - 1]) + [Str(m[|m| - 1].val)]
  }

  /** What one node contributes to the projection of `@name`. */
  function Projected(v: AttrValue): seq<Value> {
    match v
    case Value(s) => [Str(s)]
    case NoValue => [Null]
    case AllValues(m) => Values(m)
  }

  /** The raw projection: each node's attribute value (or null), in order. */
  function Gather(vs: seq<Value>, name: string, nss: seq<string>): seq<Value> {
    if vs == [] then []
    else
      var rest := Gather(vs[..|vs| - 1], name, nss);
      match vs[|vs| - 1]
      case Node(n) => rest + Projected(AttributeOf(n.el, nss, name))
      case _ => rest
  }

  /** PHP's truthiness of a list entry. */
  predicate Truthful(v: Value) {
    match v
    case Node(_) => true
    case Str(s) => Truthy(s)
    case Null => false
  }

  /** `array_values(array_filter($agg))`: the truthy entries, in order. */
  function Truthies(vs: seq<Value>): seq<Value> {
    if vs == [] then []
    else Truthies(vs[..|vs| - 1]) + (if Truthful(vs[|vs| - 1]) then [vs[|vs| - 1]] else [])
  }

  /** The first projected value, or null. */
  function FirstText(vs: seq<Value>): Option<string> {
    if vs != [] && vs[0].Str? then Some(vs[0].s) else None
  }

  /** The suffix value as a string argument: `true` reads as "1". */
  function ArgText(v: SuffixVal): string {
    match v
    case Arg(t) => t
    case Flag => "1"
  }

  /** The needle strpos uses: `true` is not a string, so it stands for the character with code 1. */
  function Needle(v: SuffixVal): string {
    match v
    case Arg(t) => t
    case Flag => [1 as char]
  }

  /** `@$results[$val]`: a canonical decimal key picks a position; anything else finds nothing. */
  function Pick(vs: seq<Value>, v: SuffixVal): Value {
    var key := match v case Arg(t) => IndexKey(t) case Flag => Some(1);
    if key.Some? && key.value < |vs| then vs[key.value] else Null
  }

  /** A node with no descendants and an empty string value. */
  predicate Blank(n: XNode, nss: seq<string>) {
    |AllDescendants(n.el, nss)| == 0 && n.el.text == ""
  }

  /** The node tests of the filtering suffixes. */
  datatype NodeTest = IsBlank | IsParent | HasDesc(sel: string) | Contains(needle: string)

  predicate Passes(n: XNode, t: NodeTest, nss: seq<string>) {
    match t
    case IsBlank => Blank(n, nss)
    case IsParent => !Blank(n, nss)
    case HasDesc(sel) => |DescendantsOf(n, nss, sel, false)| > 0
    case Contains(needle) => StrPos(n.el.text, needle).Some?
  }

  /** The nodes passing a test, in order; other entries are dropped. */
  function KeepWhere(vs: seq<Value>, t: NodeTest, nss: seq<string>): seq<Value> {
    if vs == [] then []
    else
      var rest := KeepWhere(vs[..|vs| - 1], t, nss);
      match vs[|vs| - 1]
      case Node(n) => if Passes(n, t, nss) then rest + [Node(n)] else rest
      case _ => rest
  }

  /** The entries among the first `n` whose position has the given parity. */
  function Alternate(vs: seq<Value>, n: nat, parity: nat): seq<Value>
    requires n <= |vs|
  {
    if n == 0 then []
    else Alternate(vs, n - 1, parity) + (if (n - 1) % 2 == parity then [vs[n - 1]] else [])
  }

  /** One suffix applied to the working list; unknown labels leave it as it is. */
  function ApplySuffix(vs: seq<Value>, key: string, v: SuffixVal, nss: seq<string>): seq<Value> {
    if key == "gt" || key == "lt" then vs
    else if key == "first" then [if vs == [] then Null else vs[0]]
    else if key == "last" then [if vs == [] then Null else vs[|vs| - 1]]
    else if key == "eq" then [Pick(vs, v)]
    else if key == "empty" then KeepWhere(vs, IsBlank, nss)
    else if key == "parent" then KeepWhere(vs, IsParent, nss)
    else if key == "has" then KeepWhere(vs, HasDesc(ArgText(v)), nss)
    else if key == "contains" then KeepWhere(vs, Contains(Needle(v)), nss)
    else if key == "even" then Alternate(vs, |vs|, 0)
    else if key == "odd" then Alternate(vs, |vs|, 1)
    else vs
  }

  /** The first `n` suffixes applied in the map's order. */
  function ApplySuffixes(vs: seq<Value>, sfx: seq<Entry<SuffixVal>>, n: nat, nss: seq<string>): seq<Value>
    requires n <= |sfx|
  {
    if n == 0 then vs else ApplySuffix(ApplySuffixes(vs, sfx, n - 1, nss), sfx[n - 1].key, sfx[n - 1].val, nss)
  }

  /** The attribute part of a step is set: a truthy name, or a non-empty list of tests. */
  predicate AttribOn(a: AttribSpec) {
    match a
    case Accessor(name) => Truthy(name)
    case Predicates(ps) => ps != []
  }

  /** After a phase: carry on with a list, or return this result now. */
  datatype Phase = Go(vs: seq<Value>) | Done(res: Res)

  /** Element expansion, returning an empty collection when nothing is found. */
  function ElementPhase(s: Step, vs: seq<Value>, nss: seq<string>): Phase {
    if !Truthy(s.element) then Go(vs)
    else
      var r := Expand(vs, s.element, s.direct, nss);
      if r == [] then Done(Listed([])) else Go(r)
  }

  /** Predicate filtering or attribute projection; an attribute getter returns its first value. */
  function AttribPhase(s: Step, vs: seq<Value>, nss: seq<string>): Phase {
    if !AttribOn(s.attrib) then Go(vs)
    else
      match s.attrib
      case Predicates(ps) =>
        var r := FilterPreds(vs, ps, nss);
        if r == [] then Done(Listed([])) else Go(r)
      case Accessor(name) =>
        var r := Truthies(Gather(vs, name, nss));
        if s.isAttribGetter then Done(Scalar(FirstText(r)))
        else if r == [] then Done(Listed([])) else Go(r)
  }

  /** The suffixes, returning an empty collection when nothing is left. */
  function SuffixPhase(s: Step, vs: seq<Value>, nss: seq<string>): Phase {
    if s.suffixes == [] then Go(vs)
    else
      var r := ApplySuffixes(vs, s.suffixes, |s.suffixes|, nss);
      if r == [] then Done(Listed([])) else Go(r)
  }

  /** The three phases of one step in order. */
  function Phases(s: Step, vs: seq<Value>, nss: seq<string>): Phase {
    match ElementPhase(s, vs, nss)
    case Done(res) => Done(res)
    case Go(v1) =>
      match AttribPhase(s, v1, nss)
      case Done(res) => Done(res)
      case Go(v2) => SuffixPhase(s, v2, nss)
  }

  /** `clNodeArray::toArray` on what a nested get returned; a scalar has no list (PHP fails there). */
  function Items(r: Res): seq<Value> {
    match r
    case Listed(vs) => vs
    case Scalar(_) => []
  }

  /** `array_slice($results, 0, $limit)` when the limit is truthy: a negative limit leaves that many off the end. */
  function Limit(vs: seq<Value>, limit: int): (r: seq<Value>)
    ensures limit == 0 ==> r == vs
    ensures limit > 0 ==> r == vs[..if limit < |vs| then limit else |vs|]
    ensures limit < 0 ==> r == vs[..if |vs| + limit > 0 then |vs| + limit else 0]
  {
    if limit == 0 then vs else Substr(vs, 0, limit)
  }

  /** The outcome of clNode::get: its result and where the selector's cursor stands afterwards. */
  datatype Run = Run(res: Res, cursor: nat)

  /**
   * clNode::get from step `k` on with working list `vs`: the phases of the step, then either
   * the rest of the query from the root appended (add flag) or the rest of the query applied
   * to this list; the limit applies only when no later step took over the list.
   */
  function Eval(root: XNode, nss: seq<string>, steps: seq<Step>, k: nat, vs: seq<Value>, limit: int): Run
    decreases |steps| - k
  {
    if k >= |steps| then Run(Listed(Limit(vs, limit)), k + 1)
    else
      match Phases(steps[k], vs, nss)
      case Done(res) => Run(res, k)
      case Go(v) =>
        if k + 1 >= |steps| then Run(Listed(Limit(v, limit)), k + 1)
        else if steps[k].add then
          var rest := Eval(root, nss, steps, k + 1, [Node(root)], 0);
          Run(Listed(Limit(v + Items(rest.res), limit)), rest.cursor)
        else Eval(root, nss, steps, k + 1, v, 0)
  }

  /** A whole query on a node: no step yields an empty collection. */
  function Evaluate(root: XNode, nss: seq<string>, steps: seq<Step>, limit: int): Res {
    if steps == [] then Listed([]) else Eval(root, nss, steps, 0, [Node(root)], limit).res
  }

  // ---------------------------------------------------------------------------------------
  // Properties of the phases
  // ---------------------------------------------------------------------------------------

  /** Expansion keeps the order of the working list: it distributes over concatenation. */
  lemma {:induction false} ExpandAppend(a: seq<Value>, b: seq<Value>, element: string, direct: bool, nss: seq<string>)
    ensures Expand(a + b, element, direct, nss) == Expand(a, element, direct, nss) + Expand(b, element, direct, nss)
    decreases |b|
  {
    if b == [] {
      assert a + b == a;
    } else {
      var init, x := b[..|b| - 1], b[|b| - 1];
      SnocSplit(a, b);
      ExpandAppend(a, init, element, direct, nss);
      ExpandSnoc(init, x, element, direct, nss);
      ExpandSnoc(a + init, x, element, direct, nss);
      AppendAssoc(Expand(a, element, direct, nss), Expand(init, element, direct, nss),
        if x.Node? then Wrap(DescendantsOf(x.n, nss, element, direct)) else []);
    }
  }

  lemma ExpandSnoc(vs: seq<Value>, x: Value, element: string, direct: bool, nss: seq<string>)
    ensures Expand(vs + [x], element, direct, nss) ==
      Expand(vs, element, direct, nss) + (if x.Node? then Wrap(DescendantsOf(x.n, nss, element, direct)) else [])
  {
    assert (vs + [x])[..|vs|] == vs;
  }

  /** Expanding one node gives its matching descendants. */
  lemma ExpandOne(n: XNode, element: string, direct: bool, nss: seq<string>)
    ensures Expand([Node(n)], element, direct, nss) == Wrap(DescendantsOf(n, nss, element, direct))
  {
    assert [Node(n)][..0] == [];
  }

  /** A list entry survives the projection filter exactly when it is truthy; the order is kept. */
  lemma {:induction false} TruthiesMembers(vs: seq<Value>, x: Value)
    ensures x in Truthies(vs) <==> x in vs && Truthful(x)
  {
    if vs != [] {
      var init := vs[..|vs| - 1];
      TruthiesMembers(init, x);
      assert vs == init + [vs[|vs| - 1]];
    }
  }

  /** Every projected value is a non-empty string other than "0". */
  lemma {:induction false} TruthiesAreTruthy(vs: seq<Value>)
    ensures forall k :: 0 <= k < |Truthies(vs)| ==> Truthful(Truthies(vs)[k])
  {
    if vs != [] {
      TruthiesAreTruthy(vs[..|vs| - 1]);
    }
  }

  /** A filtering suffix keeps exactly the nodes passing its test. */
  lemma {:induction false} KeepWhereMembers(vs: seq<Value>, t: NodeTest, nss: seq<string>, x: Value)
    ensures x in KeepWhere(vs, t, nss) <==> x in vs && x.Node? && Passes(x.n, t, nss)
  {
    if vs != [] {
      var init := vs[..|vs| - 1];
      KeepWhereMembers(init, t, nss, x);
      assert vs == init + [vs[|vs| - 1]];
    }
  }

  /** `:empty` and `:parent` split a list of nodes between them. */
  lemma {:induction false} EmptyParentSplit(vs: seq<Value>, nss: seq<string>)
    requires forall k :: 0 <= k < |vs| ==> vs[k].Node?
    ensures |KeepWhere(vs, IsBlank, nss)| + |KeepWhere(vs, IsParent, nss)| == |vs|
  {
    if vs != [] {
      EmptyParentSplit(vs[..|vs| - 1], nss);
    }
  }

  /** `:even` and `:odd` keep the entries at even, respectively odd, positions, in order. */
  lemma {:induction false} AlternateSpec(vs: seq<Value>, n: nat, parity: nat)
    requires n <= |vs| && parity < 2
    ensures |Alternate(vs, n, parity)| == (n + 1 - parity) / 2
    ensures forall i :: 0 <= i < |Alternate(vs, n, parity)| ==> Alternate(vs, n, parity)[i] == vs[2 * i + parity]
  {
    if n > 0 {
      AlternateSpec(vs, n - 1, parity);
    }
  }

  /**
   * The suffixes: `first`, `last` and `eq` leave one entry (null when there is none to
   * take); `gt`, `lt` and unknown labels leave the list as it is; the filtering suffixes
   * keep a sub-list.
   */
  lemma SuffixShapes(vs: seq<Value>, key: string, v: SuffixVal, nss: seq<string>)
    ensures key == "first" ==> ApplySuffix(vs, key, v, nss) == [if vs == [] then Null else vs[0]]
    ensures key == "last" ==> ApplySuffix(vs, key, v, nss) == [if vs == [] then Null else vs[|vs| - 1]]
    ensures key == "eq" ==> |ApplySuffix(vs, key, v, nss)| == 1
    ensures key in {"gt", "lt"} || key !in {"first", "last", "eq", "empty", "parent", "has", "contains", "even", "odd"} ==>
      ApplySuffix(vs, key, v, nss) == vs
    ensures key in {"empty", "parent", "has", "contains", "even", "odd"} ==>
      forall x :: x in ApplySuffix(vs, key, v, nss) ==> x in vs
  {
    if key in {"empty", "parent", "has", "contains"} {
      var t := if key == "empty" then IsBlank else if key == "parent" then IsParent
        else if key == "has" then HasDesc(ArgText(v)) else Contains(Needle(v));
      forall x | x in ApplySuffix(vs, key, v, nss) ensures x in vs {
        KeepWhereMembers(vs, t, nss, x);
      }
    } else if key in {"even", "odd"} {
      var parity := if key == "even" then 0 else 1;
      AlternateSpec(vs, |vs|, parity);
      forall x | x in ApplySuffix(vs, key, v, nss) ensures x in vs {
        var i :| 0 <= i < |Alternate(vs, |vs|, parity)| && Alternate(vs, |vs|, parity)[i] == x;
      }
    }
  }

  /** `:eq(n)` picks the entry at position n, and gives null past the end. */
  lemma EqPicks(vs: seq<Value>, n: nat)
    ensures ApplySuffix(vs, "eq", Arg(NatToString(n)), []) == [if n < |vs| then vs[n] else Null]
  {
    IndexKeyOfNat(n);
  }

  /** No phase passes an empty list on: a step that finds nothing answers with an empty collection. */
  lemma PhasesNonEmpty(s: Step, vs: seq<Value>, nss: seq<string>)
    requires Phases(s, vs, nss).Go?
    ensures Truthy(s.element) || AttribOn(s.attrib) || s.suffixes != [] ==> Phases(s, vs, nss).vs != []
    ensures !Truthy(s.element) && !AttribOn(s.attrib) && s.suffixes == [] ==> Phases(s, vs, nss).vs == vs
  {
  }

  /** An attribute getter step that projects returns a single value, the first truthy one. */
  lemma GetterAnswers(s: Step, vs: seq<Value>, nss: seq<string>)
    requires s.attrib.Accessor? && Truthy(s.attrib.name) && s.isAttribGetter && ElementPhase(s, vs, nss).Go?
    ensures Phases(s, vs, nss) == Done(Scalar(FirstText(Truthies(Gather(ElementPhase(s, vs, nss).vs, s.attrib.name, nss)))))
    ensures Phases(s, vs, nss).res.v.Some? ==> Truthy(Phases(s, vs, nss).res.v.value)
  {
    var r := Truthies(Gather(ElementPhase(s, vs, nss).vs, s.attrib.name, nss));
    TruthiesAreTruthy(Gather(ElementPhase(s, vs, nss).vs, s.attrib.name, nss));
    if r != [] {
      assert Truthful(r[0]);
    }
  }

  /**
   * An add step: the step's own results come first, followed by everything the rest of
   * the query finds from the root (before any limit).
   */
  lemma AddAppends(root: XNode, nss: seq<string>, steps: seq<Step>, k: nat, vs: seq<Value>)
    requires k + 1 < |steps| && steps[k].add && Phases(steps[k], vs, nss).Go?
    ensures Eval(root, nss, steps, k, vs, 0).res ==
      Listed(Phases(steps[k], vs, nss).vs + Items(Eval(root, nss, steps, k + 1, [Node(root)], 0).res))
  {
  }

  /** A chained step hands its list to the next step, and the limit is not applied. */
  lemma ChainHandsOn(root: XNode, nss: seq<string>, steps: seq<Step>, k: nat, vs: seq<Value>, limit: int)
    requires k + 1 < |steps| && !steps[k].add && Phases(steps[k], vs, nss).Go?
    ensures Eval(root, nss, steps, k, vs, limit) == Eval(root, nss, steps, k + 1, Phases(steps[k], vs, nss).vs, 0)
  {
  }

  /** The cursor never moves back, and stops at most one past the last step. */
  lemma {:induction false} CursorBounds(root: XNode, nss: seq<string>, steps: seq<Step>, k: nat, vs: seq<Value>, limit: int)
    requires k < |steps|
    ensures k <= Eval(root, nss, steps, k, vs, limit).cursor <= |steps|
    decreases |steps| - k
  {
    if k < |steps| && Phases(steps[k], vs, nss).Go? && k + 1 < |steps| {
      if steps[k].add {
        CursorBounds(root, nss, steps, k + 1, [Node(root)], 0);
      } else {
        CursorBounds(root, nss, steps, k + 1, Phases(steps[k], vs, nss).vs, 0);
      }
    }
  }

  // ---------------------------------------------------------------------------------------
  // clNode::get, step by step
  // ---------------------------------------------------------------------------------------

  /** The element loop: each node's matching descendants appended to `$agg`. */
  method ExpandAll(vs: seq<Value>, element: string, direct: bool, nss: seq<string>) returns (agg: seq<Value>)
    ensures agg == Expand(vs, element, direct, nss)
  {
    agg := [];
    for c := 0 to |vs|
      invariant agg == Expand(vs[..c], element, direct, nss)
    {
      assert vs[..c + 1][..c] == vs[..c];
      if vs[c].Node? {
        agg := agg + Wrap(DescendantsOf(vs[c].n, nss, element, direct));
      }
    }
    assert vs[..|vs|] == vs;
  }

  /** The expression loop: the nodes for which has_attribute holds. */
  method FilterAll(vs: seq<Value>, preds: seq<Pred>, nss: seq<string>) returns (agg: seq<Value>)
    ensures agg == FilterPreds(vs, preds, nss)
  {
    agg := [];
    for c := 0 to |vs|
      invariant agg == FilterPreds(vs[..c], preds, nss)
    {
      assert vs[..c + 1][..c] == vs[..c];
      if vs[c].Node? && HasAttribute(AttributesOf(vs[c].n, nss), preds) {
        agg := agg + [vs[c]];
      }
    }
    assert vs[..|vs|] == vs;
  }

  /** The projection loop: each node's attribute value, or all its values when the name is empty. */
  method GatherAll(vs: seq<Value>, name: string, nss: seq<string>) returns (agg: seq<Value>)
    ensures agg == Gather(vs, name, nss)
  {
    agg := [];
    for c := 0 to |vs|
      invariant agg == Gather(vs[..c], name, nss)
    {
      assert vs[..c + 1][..c] == vs[..c];
      if vs[c].Node? {
        agg := agg + Projected(AttributeOf(vs[c].n.el, nss, name));
      }
    }
    assert vs[..|vs|] == vs;
  }

  /** The loop of a filtering suffix: the nodes passing its test. */
  method KeepAll(vs: seq<Value>, t: NodeTest, nss: seq<string>) returns (agg: seq<Value>)
    ensures agg == KeepWhere(vs, t, nss)
  {
    agg := [];
    for c := 0 to |vs|
      invariant agg == KeepWhere(vs[..c], t, nss)
    {
      assert vs[..c + 1][..c] == vs[..c];
      if vs[c].Node? && Passes(vs[c].n, t, nss) {
        agg := agg + [vs[c]];
      }
    }
    assert vs[..|vs|] == vs;
  }

  /** The loop of `:even` (parity 0) and `:odd` (parity 1). */
  method AlternateAll(vs: seq<Value>, parity: nat) returns (agg: seq<Value>)
    requires parity < 2
    ensures agg == Alternate(vs, |vs|, parity)
  {
    agg := [];
    for c := 0 to |vs|
      invariant agg == Alternate(vs, c, parity)
    {
      if c % 2 == parity {
        agg := agg + [vs[c]];
      }
    }
  }

  /** One pass of the suffix loop. */
  method ApplyOne(vs: seq<Value>, key: string, v: SuffixVal, nss: seq<string>) returns (r: seq<Value>)
    ensures r == ApplySuffix(vs, key, v, nss)
  {
    if key == "gt" || key == "lt" {
      r := vs;
    } else if key == "first" {
      r := [if |vs| == 0 then Null else vs[0]];
    } else if key == "last" {
      r := [if |vs| == 0 then Null else vs[|vs| - 1]];
    } else if key == "eq" {
      r := [Pick(vs, v)];
    } else if key == "empty" {
      r := KeepAll(vs, IsBlank, nss);
    } else if key == "parent" {
      r := KeepAll(vs, IsParent, nss);
    } else if key == "has" {
      r := KeepAll(vs, HasDesc(ArgText(v)), nss);
    } else if key == "contains" {
      r := KeepAll(vs, Contains(Needle(v)), nss);
    } else if key == "even" {
      r := AlternateAll(vs, 0);
    } else if key == "odd" {
      r := AlternateAll(vs, 1);
    } else {
      r := vs;
    }
  }

  /** The suffix loop, in the order of the step's suffix map. */
  method SuffixAll(vs: seq<Value>, sfx: seq<Entry<SuffixVal>>, nss: seq<string>) returns (r: seq<Value>)
    ensures r == ApplySuffixes(vs, sfx, |sfx|, nss)
  {
    r := vs;
    for c := 0 to |sfx|
      invariant r == ApplySuffixes(vs, sfx, c, nss)
    {
      r := ApplyOne(r, sfx[c].key, sfx[c].val, nss);
    }
  }

  /** A step as compiled: an expression step holds predicate lists, any other an accessor. */
  predicate Coherent(steps: seq<Step>) {
    forall k :: 0 <= k < |steps| ==> (steps[k].isExpression <==> steps[k].attrib.Predicates?)
  }

  /** Compiled steps are coherent, and all carry the direct flag when the caller sets it. */
  lemma CompiledCoherent(query: string, t: seq<Sym>, tokens: seq<char>, direct: bool)
    ensures CompileSteps(query, t, tokens, direct).Success? ==>
      var steps := CompileSteps(query, t, tokens, direct).value;
      Coherent(steps) && (direct ==> forall k :: 0 <= k < |steps| ==> steps[k].direct)
  {
    CompiledSteps(query, t, tokens, direct);
  }

  /** The three phases of one step, as the body of get runs them. */
  method RunPhases(s: Step, vs: seq<Value>, nss: seq<string>) returns (p: Phase)
    requires s.isExpression <==> s.attrib.Predicates?
    ensures p == Phases(s, vs, nss)
  {
    var results := vs;
    if Truthy(s.element) {
      results := ExpandAll(results, s.element, s.direct, nss);
      if |results| == 0 {
        return Done(Listed([]));
      }
    }
    if AttribOn(s.attrib) {
      if s.isExpression {
        results := FilterAll(results, s.attrib.preds, nss);
      } else {
        var agg := GatherAll(results, s.attrib.name, nss);
        results := Truthies(agg);
        if s.isAttribGetter {
          return Done(Scalar(FirstText(results)));
        }
      }
      if |results| == 0 {
        return Done(Listed([]));
      }
    }
    if |s.suffixes| > 0 {
      results := SuffixAll(results, s.suffixes, nss);
      if |results| == 0 {
        return Done(Listed([]));
      }
    }
    p := Go(results);
  }

  /**
   * `$root->get($sel, $limit, $results)` with a selector object: runs the step under the
   * cursor and those after it, moving the cursor as get does; the result and the final
   * cursor are those of the fold.
   */
  method GetSteps(sel: Selector, root: XNode, nss: seq<string>, results: seq<Value>, limit: int) returns (r: Res)
    requires Coherent(sel.steps)
    modifies sel
    ensures Eval(root, nss, sel.steps, old(sel.i), results, limit) == Run(r, sel.i)
    decreases |sel.steps| - sel.i
  {
    if sel.i >= |sel.steps| {
      sel.Next();
      return Listed(Limit(results, limit));
    }
    var s := sel.Current();
    var p := RunPhases(s, results, nss);
    if p.Done? {
      return p.res;
    }
    var v := p.vs;
    sel.Next();
    if s.add {
      if sel.Valid() {
        var inner := GetSteps(sel, root, nss, [Node(root)], 0);
        v := v + Items(inner);
      }
    } else if sel.Valid() {
      r := GetSteps(sel, root, nss, v, 0);
      return;
    }
    r := Listed(Limit(v, limit));
  }

  /**
   * `$root->get($query, $limit)` with a query string: the parse error the selector throws,
   * an empty collection when there is no step, else the fold of the steps from the root.
   */
  method Query(root: XNode, nss: seq<string>, query: string, limit: int) returns (r: Result<Res, ParseError>, ghost t: seq<Sym>, ghost tokens: seq<char>)
    ensures Tokenized(query, t, tokens)
    ensures r.Failure? <==> CompileSteps(query, t, tokens, false).Failure?
    ensures r.Failure? ==> r.error == CompileSteps(query, t, tokens, false).error
    ensures r.Success? ==> r.value == Evaluate(root, nss, CompileSteps(query, t, tokens, false).value, limit)
  {
    var s;
    s, t, tokens := NewSelector(query, false);
    if s.Failure? {
      return Failure(s.error), t, tokens;
    }
    var sel := s.value;
    if !sel.Valid() {
      return Success(Listed([])), t, tokens;
    }
    CompiledCoherent(query, t, tokens, false);
    var res := GetSteps(sel, root, nss, [Node(root)], limit);
    r := Success(res);
  }

  // ---------------------------------------------------------------------------------------
  // clNodeArray
  // ---------------------------------------------------------------------------------------

  /** `children($sel)` over a list: each node's own query results, one node after the other. */
  function ChildrenOf(vs: seq<Value>, steps: seq<Step>, nss: seq<string>): seq<Value> {
    if vs == [] then []
    else
      var rest := ChildrenOf(vs[..|vs| - 1], steps, nss);
      match vs[|vs| - 1]
      case Node(n) => rest + Items(Eval(n, nss, steps, 0, [Node(n)], 0).res)
      case _ => rest
  }

  /** The loop of `children`: the selector run from each node in turn, rewound after each run. */
  method RunFromEach(sel: Selector, vs: seq<Value>, nss: seq<string>) returns (children: seq<Value>)
    requires Coherent(sel.steps) && sel.i == 0
    modifies sel
    ensures sel.i == 0
    ensures children == ChildrenOf(vs, sel.steps, nss)
  {
    children := [];
    for c := 0 to |vs|
      invariant sel.i == 0
      invariant children == ChildrenOf(vs[..c], sel.steps, nss)
    {
      assert vs[..c + 1][..c] == vs[..c];
      if vs[c].Node? {
        var n := vs[c].n;
        var res := GetSteps(sel, n, nss, [Node(n)], 0);
        children := children + Items(res);
        sel.Rewind();
      }
    }
    assert vs[..|vs|] == vs;
  }

  /** A step that only names an element, with the direct flag set. */
  predicate PlainDirect(s: Step) {
    s.direct && Truthy(s.element) && !AttribOn(s.attrib) && s.suffixes == []
  }

  /** `children('name')`: a one-step query of a plain element gives the direct-child expansion of the list. */
  lemma {:induction false} ChildrenPlain(vs: seq<Value>, s: Step, nss: seq<string>)
    requires PlainDirect(s)
    ensures ChildrenOf(vs, [s], nss) == Expand(vs, s.element, true, nss)
  {
    if vs != [] {
      ChildrenPlain(vs[..|vs| - 1], s, nss);
      if vs[|vs| - 1].Node? {
        ExpandOne(vs[|vs| - 1].n, s.element, true, nss);
      }
    }
  }

  /** Every node of a direct-child expansion is a child of a node of the list. */
  lemma {:induction false} ExpandDirectChildren(vs: seq<Value>, element: string, nss: seq<string>, x: Value)
    requires x in Expand(vs, element, true, nss)
    ensures x.Node? && exists m :: m in vs && m.Node? && x.n.el in m.n.el.children
  {
    var init := vs[..|vs| - 1];
    var last := vs[|vs| - 1];
    if x in Expand(init, element, true, nss) {
      ExpandDirectChildren(init, element, nss, x);
      var m :| m in init && m.Node? && x.n.el in m.n.el.children;
      assert m in vs;
    } else {
      var ds := DescendantsOf(last.n, nss, element, true);
      var k :| 0 <= k < |Wrap(ds)| && Wrap(ds)[k] == x;
      DirectAreChildren(last.n, nss, element, ds[k]);
    }
  }

  /** The read-only result list of a query. */
  class NodeArray {
    var arr: seq<Value>
    const root: XNode
    const nss: seq<string>

    constructor (arr: seq<Value>, root: XNode, nss: seq<string>)
      ensures this.arr == arr && this.root == root && this.nss == nss
    {
      this.arr, this.root, this.nss := arr, root, nss;
    }

    /** `offsetGet($k)` with an integer: the entry at that position, or null. */
    function At(k: int): (r: Value)
      reads this
      ensures 0 <= k < |arr| ==> r == arr[k]
      ensures k < 0 || k >= |arr| ==> r == Null
    {
      if 0 <= k < |arr| then arr[k] else Null
    }

    /** `offsetGet($name)` with a string: that attribute of the first entry when it is a node, else nothing. */
    function AttrAt(name: string): (r: AttrValue)
      reads this
      ensures |arr| > 0 && arr[0].Node? ==> r == AttributeOf(arr[0].n.el, nss, name)
      ensures |arr| == 0 || !arr[0].Node? ==> r == NoValue
    {
      if |arr| > 0 && arr[0].Node? then AttributeOf(arr[0].n.el, nss, name) else NoValue
    }

    /**
     * `children($query)`: the query compiled with the direct flag on every step, run from
     * each node of the list in turn with the cursor rewound in between; the results are
     * concatenated into a new list over the same root.
     */
    method Children(query: string) returns (r: Result<NodeArray, ParseError>, ghost t: seq<Sym>, ghost tokens: seq<char>)
      ensures Tokenized(query, t, tokens)
      ensures r.Failure? <==> CompileSteps(query, t, tokens, true).Failure?
      ensures r.Failure? ==> r.error == CompileSteps(query, t, tokens, true).error
      ensures r.Success? ==>
        && fresh(r.value) && r.value.root == root && r.value.nss == nss
        && r.value.arr == ChildrenOf(arr, CompileSteps(query, t, tokens, true).value, nss)
        && forall k :: 0 <= k < |CompileSteps(query, t, tokens, true).value| ==> CompileSteps(query, t, tokens, true).value[k].direct
    {
      var s;
      s, t, tokens := NewSelector(query, true);
      if s.Failure? {
        return Failure(s.error), t, tokens;
      }
      var sel := s.value;
      CompiledCoherent(query, t, tokens, true);
      var children := RunFromEach(sel, arr, nss);
      var list := new NodeArray(children, root, nss);
      r := Success(list);
    }

    /** `add($query)`: the query's results from the root appended to the list; a parse error leaves it as it was. */
    method Add(query: string) returns (r: Option<ParseError>, ghost t: seq<Sym>, ghost tokens: seq<char>)
      modifies this
      ensures Tokenized(query, t, tokens)
      ensures r.Some? <==> CompileSteps(query, t, tokens, false).Failure?
      ensures r.Some? ==> r.value == CompileSteps(query, t, tokens, false).error && arr == old(arr)
      ensures r.None? ==> arr == old(arr) + Items(Evaluate(root, nss, CompileSteps(query, t, tokens, false).value, 0))
    {
      var q;
      q, t, tokens := Query(root, nss, query, 0);
      if q.Failure? {
        return Some(q.error), t, tokens;
      }
      arr := arr + Items(q.value);
      r := None;
    }
  }
}
