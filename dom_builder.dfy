/** domBuilder.js: `Builder`, which mounts a components.js tree under an
    element of the document and writes the tree's rules into one `<style>`
    element. The class's static fields become the fields of one `Builder`
    object, so every call shares the same style element. */
module DomBuilder {
  import opened Wrappers
  import opened Css
  import opened Browser
  import opened Components

  /** What `_buildComponentStyle` appends for a component with this name and
      these two `stylesCss` texts: the default rule, then a `:hover` rule when
      the hover text is non-empty. The hover rule's body is the DEFAULT
      text, as the source writes it. */
  function ComponentRules(name: string, css: seq<string>): string
    requires |css| == 2
  {
    "." + name + " {\n" + css[0] + "}\n"
    + (if css[1] != "" then "." + name + ":hover {\n" + css[0] + "}\n" else "")
  }

  function Rules(c: Component): string
    reads c
  {
    ComponentRules(c.name, c.StylesCss())
  }

  /** The hover rule exists exactly when the hover channel holds a declaration,
      and it repeats the default declarations rather than the hover ones. */
  lemma RulesOf(c: Component)
    ensures Rules(c) == "." + c.name + " {\n" + ChannelCss(c.defaultStyles) + "}\n"
      + (if c.hoverStyles == [] then ""
         else "." + c.name + ":hover {\n" + ChannelCss(c.defaultStyles) + "}\n")
  {
    ChannelCssEmpty(c.hoverStyles);
  }

  /** Appended stylesheet text and attach events. */
  datatype Effect = Effect(css: string, log: seq<Attach>)

  const NoEffect := Effect("", [])

  function Then(a: Effect, b: Effect): Effect {
    Effect(a.css + b.css, a.log + b.log)
  }

  /** `_buildNode(node, parent)`'s second argument: a component, or the root
      element itself. */
  datatype Parent = InComponent(c: Component) | InElement(e: Element)

  /** What makes `_buildChildNodes` end. `rank` ranks the components it is
      called on as parent; `seen` holds those components and their children,
      which it reads. From a ranked parent the recursion moves on only to the
      first child of each child that has children of its own, and that
      component is ranked lower. Nothing is asked of the components the
      recursion never takes as parent, so a cycle it does not follow is
      admitted; a cycle it does follow (where the source overflows the stack)
      has no rank. */
  ghost predicate Ranked(rank: map<Component, nat>, seen: set<Component>)
    reads rank.Keys, seen
  {
    forall p | p in rank :: RankedParent(rank, seen, p)
  }

  /** The condition `Ranked` puts on one ranked parent `p`. */
  ghost predicate RankedParent(rank: map<Component, nat>, seen: set<Component>, p: Component)
    requires p in rank
    reads seen
  {
    p in seen &&
    forall i | 0 <= i < |p.children| && p.children[i].Comp? ::
      var q := p.children[i].c;
      q in seen &&
      (|q.children| > 0 && q.children[0].Comp? ==>
         q.children[0].c in rank && rank[q.children[0].c] < rank[p])
  }

  ghost predicate Covers(rank: map<Component, nat>, x: Child) {
    x.Comp? ==> x.c in rank
  }

  ghost function Measure(rank: map<Component, nat>, x: Child): nat {
    if x.Comp? && x.c in rank then rank[x.c] + 1 else 0
  }

  /** `_buildNode(node, parent)` with a component as parent: a component node
      gets its rules and goes under the parent's element; any other node makes
      the PARENT's rules be emitted again and goes under the parent's element. */
  function NodeEffect(node: Child, parent: Component): Effect
    reads parent, if node.Comp? then {node.c} else {}
  {
    match node
    case Comp(n) => Effect(Rules(n), [Attach(n.element, parent.element)])
    case Raw(e) => Effect(Rules(parent), [Attach(e, parent.element)])
  }

  /** `_buildChildNodes(parent)`. An element has no `childs`, so it builds
      nothing. */
  ghost function ChildNodes(rank: map<Component, nat>, seen: set<Component>, parent: Child): Effect
    requires Ranked(rank, seen) && Covers(rank, parent)
    reads rank.Keys, seen
    decreases Measure(rank, parent), 1, 0
  {
    match parent
    case Raw(_) => NoEffect
    case Comp(p) => Fold(rank, seen, p, |p.children|)
  }

  /** The first `n` rounds of the `forEach` over `p`'s children. */
  ghost function Fold(rank: map<Component, nat>, seen: set<Component>, p: Component, n: nat): Effect
    requires Ranked(rank, seen) && p in rank && n <= |p.children|
    reads rank.Keys, seen
    decreases rank[p] + 1, 0, n
  {
    if n == 0 then NoEffect
    else Then(Fold(rank, seen, p, n - 1), StepEffect(rank, seen, p, p.children[n - 1]))
  }

  /** One round of that `forEach`. A child with children of its own is
      neither styled nor attached: the recursion is spread over its children,
      so only its FIRST child becomes the next parent. */
  ghost function StepEffect(rank: map<Component, nat>, seen: set<Component>, p: Component, node: Child): Effect
    requires Ranked(rank, seen) && p in rank && node in p.children
    reads rank.Keys, seen
    decreases rank[p] + 1, 0, 0
  {
    if node.Comp? && |node.c.children| > 0 then ChildNodes(rank, seen, node.c.children[0])
    else NodeEffect(node, p)
  }

  /** The children that make no recursive call: components without children,
      and bare elements. */
  predicate IsLeaf(x: Child)
    reads if x.Comp? then {x.c} else {}
  {
    x.Raw? || |x.c.children| == 0
  }

  /** The component whose rules a leaf child emits: its own, or the parent's
      for a bare element. */
  function RuleOwner(x: Child, parent: Component): Component {
    if x.Comp? then x.c else parent
  }

  function ElementOf(x: Child): Element {
    if x.Comp? then x.c.element else x.e
  }

  /** The rules a run of leaf children emits, in order. */
  function LeafRules(p: Component, cs: seq<Child>): string
    reads p, ComponentsOf(cs)
    decreases |cs|
  {
    if cs == [] then ""
    else
      var n := |cs| - 1;
      assert ComponentsOf(cs[..n]) <= ComponentsOf(cs);
      LeafRules(p, cs[..n]) + Rules(RuleOwner(cs[n], p))
  }

  /** A parent whose children are all leaves: each child, in order, emits one
      set of rules (a bare element emits the parent's). */
  lemma {:induction false} LeafChildrenRules(rank: map<Component, nat>, seen: set<Component>, p: Component, n: nat)
    requires Ranked(rank, seen) && p in rank && n <= |p.children|
    requires forall i | 0 <= i < |p.children| :: IsLeaf(p.children[i])
    ensures Fold(rank, seen, p, n).css == LeafRules(p, p.children[..n])
  {
    if n > 0 {
      var x := p.children[n - 1];
      LeafChildrenRules(rank, seen, p, n - 1);
      assert IsLeaf(x);
      assert StepEffect(rank, seen, p, x) == NodeEffect(x, p);
      assert NodeEffect(x, p).css == Rules(RuleOwner(x, p));
      assert p.children[..n][..n - 1] == p.children[..n - 1];
      assert p.children[..n][n - 1] == x;
    }
  }

  /** A parent whose children are all leaves: each child is attached under
      the parent's element, in child order. */
  lemma {:induction false} LeafChildrenAttach(rank: map<Component, nat>, seen: set<Component>, p: Component, n: nat)
    requires Ranked(rank, seen) && p in rank && n <= |p.children|
    requires forall i | 0 <= i < |p.children| :: IsLeaf(p.children[i])
    ensures |Fold(rank, seen, p, n).log| == n
    ensures forall i | 0 <= i < n :: Fold(rank, seen, p, n).log[i] == Attach(ElementOf(p.children[i]), p.element)
  {
    if n > 0 {
      var x := p.children[n - 1];
      LeafChildrenAttach(rank, seen, p, n - 1);
      assert IsLeaf(x);
      assert StepEffect(rank, seen, p, x) == NodeEffect(x, p);
      assert NodeEffect(x, p).log == [Attach(ElementOf(x), p.element)];
      assert Fold(rank, seen, p, n).log == Fold(rank, seen, p, n - 1).log + [Attach(ElementOf(x), p.element)];
    }
  }

  lemma AppendAssoc<T>(a: seq<T>, b: seq<T>, c: seq<T>)
    ensures a + b + c == a + (b + c)
  {
  }

  /** A child with children whose first child is itself a leaf contributes
      nothing at all: neither it, nor any of its children, is styled or
      attached. */
  lemma NestedChildIsSkipped(rank: map<Component, nat>, seen: set<Component>, p: Component, n: nat)
    requires Ranked(rank, seen) && p in rank && 0 < n <= |p.children|
    requires p.children[n - 1].Comp? && |p.children[n - 1].c.children| > 0
    requires p.children[n - 1].c.children[0].Comp?
    requires |p.children[n - 1].c.children[0].c.children| == 0
    ensures Fold(rank, seen, p, n) == Fold(rank, seen, p, n - 1)
  {
    var g := p.children[n - 1].c.children[0];
    assert ChildNodes(rank, seen, g) == NoEffect;
    assert StepEffect(rank, seen, p, p.children[n - 1]) == NoEffect;
  }

  /** `p` holds `d`, `d` holds `q` and `q` holds the bare element `e`. The
      recursion moves from `p` to `q`, where `_buildNode(e, q)` emits `q`'s
      rules and attaches `e` under `q`'s element: a child with children is
      styled once it is taken as parent. */
  lemma NestedParentStyledByBareChild(p: Component, d: Component, q: Component, e: Element)
    requires p.children == [Comp(d)] && d.children == [Comp(q)] && q.children == [Raw(e)] && p != q
    ensures Ranked(map[p := 1, q := 0], {p, d, q})
    ensures ChildNodes(map[p := 1, q := 0], {p, d, q}, Comp(p)) == Effect(Rules(q), [Attach(e, q.element)])
  {
    var rank := map[p := 1, q := 0];
    var seen := {p, d, q};
    assert Ranked(rank, seen);
    assert StepEffect(rank, seen, q, Raw(e)) == Effect(Rules(q), [Attach(e, q.element)]);
    assert Fold(rank, seen, q, 1) == Then(Fold(rank, seen, q, 0), Effect(Rules(q), [Attach(e, q.element)]));
    assert ChildNodes(rank, seen, Comp(q)) == Effect(Rules(q), [Attach(e, q.element)]);
    assert StepEffect(rank, seen, p, Comp(d)) == ChildNodes(rank, seen, Comp(q));
    assert Fold(rank, seen, p, 1) == Then(Fold(rank, seen, p, 0), ChildNodes(rank, seen, Comp(q)));
  }

  /** A tree with a cycle the recursion never follows: `a` holds `b`, `b`
      holds the leaf `c` and then `a` again. `_buildChildNodes(a)` moves from
      `a` to `c` alone, finds `c` without children and ends, having styled and
      attached nothing. */
  lemma CycleNotFollowed(a: Component, b: Component, c: Component)
    requires a.children == [Comp(b)] && b.children == [Comp(c), Comp(a)] && c.children == []
    ensures Ranked(map[a := 1, c := 0], {a, b, c})
    ensures ChildNodes(map[a := 1, c := 0], {a, b, c}, Comp(a)) == NoEffect
  {
    var rank := map[a := 1, c := 0];
    var seen := {a, b, c};
    assert a != c;
    assert Ranked(rank, seen);
    assert Fold(rank, seen, c, 0) == NoEffect;
    assert ChildNodes(rank, seen, Comp(c)) == NoEffect;
    assert StepEffect(rank, seen, a, Comp(b)) == NoEffect;
    assert Fold(rank, seen, a, 1) == Then(Fold(rank, seen, a, 0), NoEffect);
  }

  class Builder {
    /** `Builder.root`: the element the last call resolved, `null` once a call
        failed to resolve its id. */
    var root: Element?
    /** `Builder.classNamesList`: declared, never written. */
    var classNamesList: seq<string>
    /** `Builder.stylesNode`, created once and shared by every call. */
    const stylesNode: Element
    const host: Document

    constructor(host: Document)
      ensures this.host == host && root == null && classNamesList == []
      ensures fresh(stylesNode) && stylesNode.tag == "style" && stylesNode.text == ""
    {
      this.host := host;
      root := null;
      classNamesList := [];
      stylesNode := new Element("style");
    }

    method BuildComponentStyle(c: Component)
      modifies stylesNode`text
      ensures stylesNode.text == old(stylesNode.text) + Rules(c)
      ensures stylesNode.classes == old(stylesNode.classes)
    {
      var css := c.StylesCss();
      stylesNode.AppendText("." + c.name + " {\n" + css[0] + "}\n");
      if css[1] != "" {
        stylesNode.AppendText("." + c.name + ":hover {\n" + css[0] + "}\n");
      }
    }

    /** `_buildNode(node, parent)`. Under the root element a bare node makes
        the code ask the root element for `stylesCss`, which throws. */
    method BuildNode(node: Child, parent: Parent) returns (r: Result<()>)
      modifies stylesNode`text, host`log
      ensures parent.InComponent? ==>
        (r == Ok(())
         && stylesNode.text == old(stylesNode.text) + NodeEffect(node, parent.c).css
         && host.log == old(host.log) + NodeEffect(node, parent.c).log)
      ensures parent.InElement? && node.Comp? ==>
        (r == Ok(())
         && stylesNode.text == old(stylesNode.text) + Rules(node.c)
         && host.log == old(host.log) + [Attach(node.c.element, parent.e)])
      ensures parent.InElement? && node.Raw? ==>
        (r == Err(TypeError)
         && stylesNode.text == old(stylesNode.text) && host.log == old(host.log))
      ensures stylesNode.classes == old(stylesNode.classes)
    {
      match node
      case Comp(n) =>
        BuildComponentStyle(n);
        match parent {
          case InComponent(p) => host.AppendChild(p.element, n.element);
          case InElement(e) => host.AppendChild(e, n.element);
        }
        r := Ok(());
      case Raw(e) =>
        match parent {
          case InComponent(p) =>
            BuildComponentStyle(p);
            host.AppendChild(p.element, e);
            r := Ok(());
          case InElement(_) =>
            r := Err(TypeError);
        }
    }

    /** `_buildChildNodes(parent)`. */
    method BuildChildNodes(ghost rank: map<Component, nat>, ghost seen: set<Component>, parent: Child)
      requires Ranked(rank, seen) && Covers(rank, parent)
      modifies stylesNode`text, host`log
      decreases Measure(rank, parent), 1
      ensures stylesNode.text == old(stylesNode.text) + ChildNodes(rank, seen, parent).css
      ensures host.log == old(host.log) + ChildNodes(rank, seen, parent).log
      ensures stylesNode.classes == old(stylesNode.classes)
    {
      if parent.Comp? {
        var p := parent.c;
        var nodes := p.children;
        ghost var folds := seq(|nodes| + 1, i requires Ranked(rank, seen) && p in rank && 0 <= i <= |p.children|
                                               reads rank.Keys, seen => Fold(rank, seen, p, i));
        for i := 0 to |nodes|
          invariant stylesNode.text == old(stylesNode.text) + folds[i].css
          invariant host.log == old(host.log) + folds[i].log
          invariant stylesNode.classes == old(stylesNode.classes)
        {
          ghost var step := StepEffect(rank, seen, p, nodes[i]);
          assert folds[i + 1] == Then(folds[i], step);
          BuildStep(rank, seen, p, nodes[i]);
          AppendAssoc(old(stylesNode.text), folds[i].css, step.css);
          AppendAssoc(old(host.log), folds[i].log, step.log);
        }
        assert folds[|nodes|] == ChildNodes(rank, seen, parent);
      }
    }

    /** One round of `_buildChildNodes`'s `forEach`. */
    method BuildStep(ghost rank: map<Component, nat>, ghost seen: set<Component>, p: Component, node: Child)
      requires Ranked(rank, seen) && p in rank && node in p.children
      modifies stylesNode`text, host`log
      decreases rank[p] + 1, 0
      ensures stylesNode.text == old(stylesNode.text) + StepEffect(rank, seen, p, node).css
      ensures host.log == old(host.log) + StepEffect(rank, seen, p, node).log
      ensures stylesNode.classes == old(stylesNode.classes)
    {
      if node.Comp? && |node.c.children| > 0 {
        BuildChildNodes(rank, seen, node.c.children[0]);
      } else {
        var _ := BuildNode(node, InComponent(p));
      }
    }

    /** `buildElements(rootId, tree)`. A missing id throws before anything is
        attached or emitted. Otherwise the style element is attached under the
        root first. A bare element as tree then throws. For a component see
        `MountComponent`. */
    method BuildElements(ghost rank: map<Component, nat>, ghost seen: set<Component>, rootId: string, tree: Child) returns (r: Result<()>)
      requires Ranked(rank, seen) && Covers(rank, tree)
      modifies this, stylesNode`text, host`log
      ensures classNamesList == old(classNamesList)
      ensures rootId !in host.byId ==>
        (r == Err(MissingRoot) && root == null
         && stylesNode.text == old(stylesNode.text) && host.log == old(host.log))
      ensures rootId in host.byId && tree.Raw? ==>
        (root == host.byId[rootId] && r == Err(TypeError)
         && stylesNode.text == old(stylesNode.text)
         && host.log == old(host.log) + [Attach(stylesNode, root)])
      ensures rootId in host.byId && tree.Comp? ==>
        (root == host.byId[rootId] && r == Ok(())
         && stylesNode.text == old(stylesNode.text) + ChildNodes(rank, seen, tree).css + Rules(tree.c)
         && host.log == old(host.log) + [Attach(stylesNode, root)]
              + ChildNodes(rank, seen, tree).log + [Attach(tree.c.element, root), Attach(tree.c.element, root)])
    {
      var found := host.GetElementById(rootId);
      if found.None? {
        root := null;
        return Err(MissingRoot);
      }
      var e := found.value;
      root := e;
      host.AppendChild(e, stylesNode);
      if tree.Comp? {
        MountComponent(rank, seen, e, tree.c);
        AppendAssoc(old(host.log), [Attach(stylesNode, e)], ChildNodes(rank, seen, tree).log
          + [Attach(tree.c.element, e), Attach(tree.c.element, e)]);
        r := Ok(());
      } else {
        r := BuildNode(tree, InElement(e));
      }
    }

    /** The rest of `buildElements` for a component tree: the children are
        built, the tree's element is attached under the root, the tree's own
        rules follow all its children's, and its element is attached once
        more by `_buildNode`. */
    method MountComponent(ghost rank: map<Component, nat>, ghost seen: set<Component>, e: Element, c: Component)
      requires Ranked(rank, seen) && c in rank
      modifies stylesNode`text, host`log
      ensures stylesNode.text == old(stylesNode.text) + ChildNodes(rank, seen, Comp(c)).css + Rules(c)
      ensures host.log == old(host.log) + (ChildNodes(rank, seen, Comp(c)).log + [Attach(c.element, e), Attach(c.element, e)])
    {
      BuildChildNodes(rank, seen, Comp(c));
      host.AppendChild(e, c.element);
      var _ := BuildNode(Comp(c), InElement(e));
    }
  }
}
