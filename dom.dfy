/** _DOM.js: a one-channel `Component` and the `ElementManager` that names,
    styles and mounts a list of them. */
module Dom {
  import opened Wrappers
  import opened Css
  import opened JsObject
  import opened Names
  import opened Browser

  /** An entry of `_children`: what `setContent` pushed, a component or an
      element. */
  datatype Child = Comp(c: Component) | Raw(e: Element)

  /** `setContent`'s argument: a string, or anything else. */
  datatype Content = Text(s: string) | Node(n: Child)

  function ComponentsOf(cs: seq<Child>): set<Component> {
    set i | 0 <= i < |cs| && cs[i].Comp? :: cs[i].c
  }

  class Component {
    /** `this.constructor.name`. */
    const kind: string
    const element: Element
    /** `_name`: drawn by the constructor and never read afterwards; the
        manager draws a fresh name of its own. */
    const name: string
    /** `_styles`. */
    var styles: Props<StyleValue>
    /** `_children`. */
    var children: seq<Child>

    constructor(kind: string, tag: string, rng: Random)
      requires HasName(rng.draws)
      modifies rng
      ensures this.kind == kind
      ensures name == NameOf(kind, old(rng.draws)) && rng.draws == old(rng.draws)[SuffixLength..]
      ensures fresh(element) && element.tag == tag && element.text == "" && element.classes == {}
      ensures styles == [] && children == []
    {
      var e := new Element(tag);
      styles := [];
      var n := rng.NextName(kind);
      this.kind := kind;
      element := e;
      name := n;
      children := [];
    }

    /** `setContent(data)`: a string replaces the text, anything else is
        pushed onto the children. */
    method SetContent(data: Content) returns (self: Component)
      modifies this, element`text
      ensures self == this
      ensures data.Text? ==> element.text == data.s && children == old(children)
      ensures data.Node? ==> children == old(children) + [data.n] && element.text == old(element.text)
      ensures styles == old(styles) && element.classes == old(element.classes)
    {
      match data {
        case Text(s) => element.SetText(s);
        case Node(n) => children := children + [n];
      }
      self := this;
    }

    /** `setStyle(given)`: last-write-wins, values stored as given. */
    method SetStyle(given: Props<StyleValue>) returns (self: Component)
      modifies this
      ensures self == this
      ensures styles == Assign(old(styles), given) && children == old(children)
    {
      for i := 0 to |given|
        invariant styles == Assign(old(styles), given[..i]) && children == old(children)
      {
        assert given[..i + 1][..i] == given[..i];
        styles := Put(styles, given[i].0, given[i].1);
      }
      assert given[..|given|] == given;
      self := this;
    }

    /** `stylesAsString`: empty exactly when no declaration is held. */
    function StylesText(): (r: string)
      reads this
      ensures r == "" <==> styles == []
    {
      StylesAsStringEmpty(styles);
      StylesAsString(styles)
    }

    method AddClassName(names: seq<string>) returns (self: Component)
      modifies element`classes
      ensures self == this
      ensures element.classes == old(element.classes) + (set n | n in names)
      ensures element.text == old(element.text)
    {
      element.AddClasses(names);
      self := this;
    }

    method RemoveClassName(names: seq<string>) returns (self: Component)
      modifies element`classes
      ensures self == this
      ensures element.classes == old(element.classes) - (set n | n in names)
      ensures element.text == old(element.text)
    {
      element.RemoveClasses(names);
      self := this;
    }
  }

  // --------------------------------------------------------- specification

  predicate AllDraws(draws: seq<nat>) {
    forall i | 0 <= i < |draws| :: IsDraw(draws[i])
  }

  predicate NoRepeats(names: seq<string>) {
    forall i, j | 0 <= i < j < |names| :: names[i] != names[j]
  }

  /** `_generateClassName`'s retry: draw names until one is not taken. The
      second component is what remains of the draws. */
  function Pick(kind: string, taken: seq<string>, draws: seq<nat>): (r: (Option<string>, seq<nat>))
    requires AllDraws(draws)
    ensures |r.1| <= |draws| && r.1 == draws[|draws| - |r.1|..] && AllDraws(r.1)
    ensures r.0.Some? ==> r.0.value !in taken
    ensures r.0.Some? ==>
      (|draws| - |r.1| >= SuffixLength
       && r.0.value == NameOf(kind, draws[|draws| - |r.1| - SuffixLength..]))
    ensures r.0.None? ==> |r.1| < SuffixLength
    decreases |draws|
  {
    if |draws| < SuffixLength then (None, draws)
    else
      var candidate := NameOf(kind, draws);
      if candidate in taken then Pick(kind, taken, draws[SuffixLength..])
      else (Some(candidate), draws[SuffixLength..])
  }

  /** `.${name} {\n${styleString}\n}\n`. */
  function Rule(name: string, styleText: string): string {
    "." + name + " {\n" + styleText + "\n}\n"
  }

  /** One `_appendElement` call as `children` makes it, with the styles text
      it will read; or a throw. */
  datatype Step =
    | Visit(kind: string, elem: Element, styleText: string, atRoot: bool)
    /** `_appendElement` on a child that is not a component. */
    | BadChild
    /** `children` handed something that is not a component. */
    | BadArg

  /** The manager's state as the calls see it: the class-name list, the
      remaining draws, the stylesheet text, the attach log, the names given
      to each element (oldest first), and the exception once one is thrown. */
  datatype Run = Run(
    names: seq<string>, draws: seq<nat>, css: string, log: seq<Attach>,
    marks: seq<(Element, string)>, error: Option<Thrown>)

  function Exec(root: Element, s: Run, st: Step): (r: Run)
    requires AllDraws(s.draws)
    ensures AllDraws(r.draws)
  {
    if s.error.Some? then s
    else match st
      case BadArg => s.(error := Some(NotAComponent))
      case BadChild => s.(error := Some(TypeError))
      case Visit(kind, elem, text, atRoot) =>
        var (n, rest) := Pick(kind, s.names, s.draws);
        if n.None? then s.(draws := rest, error := Some(OutOfDraws))
        else Run(s.names + [n.value], rest, s.css + Rule(n.value, text),
          s.log + (if atRoot then [Attach(elem, root)] else []),
          s.marks + [(elem, n.value)], None)
  }

  function RunAll(root: Element, s: Run, steps: seq<Step>): (r: Run)
    requires AllDraws(s.draws)
    ensures AllDraws(r.draws)
    decreases |steps|
  {
    if steps == [] then s
    else Exec(root, RunAll(root, s, steps[..|steps| - 1]), steps[|steps| - 1])
  }

  lemma RunAllOne(root: Element, s: Run, st: Step)
    requires AllDraws(s.draws)
    ensures RunAll(root, s, [st]) == Exec(root, s, st)
  {
    assert [st][..0] == [];
  }

  /** One more step of a run. */
  lemma RunAllNext(root: Element, s: Run, steps: seq<Step>, j: nat)
    requires AllDraws(s.draws) && j < |steps|
    ensures RunAll(root, s, steps[..j + 1]) == Exec(root, RunAll(root, s, steps[..j]), steps[j])
  {
    assert steps[..j + 1][..j] == steps[..j];
  }

  /** Running two step lists one after the other is running their
      concatenation. */
  lemma {:induction false} RunAllAppend(root: Element, s: Run, a: seq<Step>, b: seq<Step>)
    requires AllDraws(s.draws)
    ensures RunAll(root, s, a + b) == RunAll(root, RunAll(root, s, a), b)
  {
    if b == [] {
      assert a + b == a;
    } else {
      var n := |b| - 1;
      assert (a + b)[..|a + b| - 1] == a + b[..n];
      RunAllAppend(root, s, a, b[..n]);
    }
  }

  /** Once an exception is thrown, nothing later happens. */
  lemma {:induction false} RunAllHalted(root: Element, s: Run, steps: seq<Step>)
    requires AllDraws(s.draws) && s.error.Some?
    ensures RunAll(root, s, steps) == s
  {
    if steps != [] {
      RunAllHalted(root, s, steps[..|steps| - 1]);
    }
  }

  /** The stylesheet text, the attach log and the name list only grow, and
      the names handed out stay pairwise distinct. */
  lemma {:induction false} RunAllGrows(root: Element, s: Run, steps: seq<Step>)
    requires AllDraws(s.draws)
    ensures var r := RunAll(root, s, steps);
      |s.names| <= |r.names| && r.names[..|s.names|] == s.names
      && |s.css| <= |r.css| && r.css[..|s.css|] == s.css
      && |s.log| <= |r.log| && r.log[..|s.log|] == s.log
    ensures NoRepeats(s.names) ==> NoRepeats(RunAll(root, s, steps).names)
  {
    if steps != [] {
      var m := RunAll(root, s, steps[..|steps| - 1]);
      RunAllGrows(root, s, steps[..|steps| - 1]);
      var r := Exec(root, m, steps[|steps| - 1]);
      assert r.names[..|m.names|] == m.names;
      assert r.css[..|m.css|] == m.css;
      assert r.log[..|m.log|] == m.log;
      assert r.names[..|s.names|] == m.names[..|s.names|];
      assert r.css[..|s.css|] == m.css[..|s.css|];
      assert r.log[..|s.log|] == m.log[..|s.log|];
    }
  }

  function Visits(steps: seq<Step>): nat
    decreases |steps|
  {
    if steps == [] then 0
    else Visits(steps[..|steps| - 1]) + (if steps[|steps| - 1].Visit? then 1 else 0)
  }

  /** Without an exception, every visit drew exactly one new name. */
  lemma {:induction false} OneNamePerVisit(root: Element, s: Run, steps: seq<Step>)
    requires AllDraws(s.draws) && s.error.None?
    requires RunAll(root, s, steps).error.None?
    ensures |RunAll(root, s, steps).names| == |s.names| + Visits(steps)
  {
    if steps != [] {
      var front := steps[..|steps| - 1];
      assert RunAll(root, s, front).error.None?;
      OneNamePerVisit(root, s, front);
    }
  }

  /** Steps that never ask for a root attach leave the log as it was. */
  lemma {:induction false} NoRootVisitNoAttach(root: Element, s: Run, steps: seq<Step>)
    requires AllDraws(s.draws)
    requires forall i | 0 <= i < |steps| :: !(steps[i].Visit? && steps[i].atRoot)
    ensures RunAll(root, s, steps).log == s.log
  {
    if steps != [] {
      NoRootVisitNoAttach(root, s, steps[..|steps| - 1]);
    }
  }

  /** The components `children` may read: the arguments and their
      children. */
  function Footprint(args: seq<Child>): set<Component>
    reads ComponentsOf(args)
  {
    ComponentsOf(args)
    + (set i, j | 0 <= i < |args| && args[i].Comp? && 0 <= j < |args[i].c.children|
         && args[i].c.children[j].Comp? :: args[i].c.children[j].c)
  }

  /** The elements `children` may add a class to. */
  function Elements(args: seq<Child>): set<Element>
    reads ComponentsOf(args)
  {
    (set i | 0 <= i < |args| && args[i].Comp? :: args[i].c.element)
    + (set i, j | 0 <= i < |args| && args[i].Comp? && 0 <= j < |args[i].c.children|
         && args[i].c.children[j].Comp? :: args[i].c.children[j].c.element)
  }

  /** `_appendElement(node, atRoot)` as a step. */
  function StepOf(node: Child, atRoot: bool): Step
    reads if node.Comp? then {node.c} else {}
  {
    match node
    case Comp(c) => Visit(c.kind, c.element, StylesAsString(c.styles), atRoot)
    case Raw(_) => BadChild
  }

  /** `element._children.forEach((child) => this._appendElement(child))`:
      no child is attached. */
  function ChildSteps(cs: seq<Child>): (r: seq<Step>)
    reads ComponentsOf(cs)
    ensures |r| == |cs|
    ensures forall i | 0 <= i < |cs| :: r[i] == StepOf(cs[i], false)
    decreases |cs|
  {
    if cs == [] then []
    else
      var n := |cs| - 1;
      assert ComponentsOf(cs[..n]) <= ComponentsOf(cs);
      ChildSteps(cs[..n]) + [StepOf(cs[n], false)]
  }

  /** What `children` makes of one argument: a component with children
      stands for the visits of its children, not of itself; a component
      without children is visited and attached under the root; anything else
      throws. */
  datatype Shape = NotComponent | Leaf(step: Step) | Parent(steps: seq<Step>)

  function ShapeSteps(x: Shape): seq<Step> {
    match x
    case NotComponent => [BadArg]
    case Leaf(st) => [st]
    case Parent(sts) => sts
  }

  function Flatten(shapes: seq<Shape>): seq<Step>
    decreases |shapes|
  {
    if shapes == [] then []
    else Flatten(shapes[..|shapes| - 1]) + ShapeSteps(shapes[|shapes| - 1])
  }

  function ShapeOf(x: Child): Shape
    reads if x.Comp? then {x.c} + ComponentsOf(x.c.children) else {}
  {
    match x
    case Raw(_) => NotComponent
    case Comp(c) => if |c.children| > 0 then Parent(ChildSteps(c.children)) else Leaf(StepOf(x, true))
  }

  function Shapes(args: seq<Child>): (r: seq<Shape>)
    reads Footprint(args)
    ensures |r| == |args|
    ensures forall k | 0 <= k < |args| :: r[k] == ShapeOf(args[k])
    decreases |args|
  {
    if args == [] then []
    else
      var n := |args| - 1;
      FootprintPrefix(args, n);
      Shapes(args[..n]) + [ShapeOf(args[n])]
  }

  /** The steps `children(...args)` takes, in order. */
  function Schedule(args: seq<Child>): seq<Step>
    reads Footprint(args)
  {
    Flatten(Shapes(args))
  }

  lemma FootprintPrefix(args: seq<Child>, n: nat)
    requires n <= |args|
    ensures ComponentsOf(args[..n]) <= ComponentsOf(args)
    ensures Footprint(args[..n]) <= Footprint(args)
    ensures n < |args| && args[n].Comp? ==> {args[n].c} + ComponentsOf(args[n].c.children) <= Footprint(args)
  {
    assert forall i | 0 <= i < n :: args[..n][i] == args[i];
  }

  predicate IsPrefix<T(==)>(a: seq<T>, b: seq<T>) {
    |a| <= |b| && b[..|a|] == a
  }

  /** A run that has thrown by the end of a prefix of the steps is the whole
      run. */
  lemma HaltedPrefix(root: Element, s: Run, pre: seq<Step>, steps: seq<Step>)
    requires AllDraws(s.draws) && IsPrefix(pre, steps)
    requires RunAll(root, s, pre).error.Some?
    ensures RunAll(root, s, steps) == RunAll(root, s, pre)
  {
    assert steps == pre + steps[|pre|..];
    RunAllAppend(root, s, pre, steps[|pre|..]);
    RunAllHalted(root, RunAll(root, s, pre), steps[|pre|..]);
  }

  lemma {:induction false} FlattenAppend(a: seq<Shape>, b: seq<Shape>)
    ensures Flatten(a + b) == Flatten(a) + Flatten(b)
  {
    if b == [] {
      assert a + b == a;
    } else {
      var n := |b| - 1;
      var last := ShapeSteps(b[n]);
      assert (a + b)[..|a + b| - 1] == a + b[..n];
      assert (a + b)[|a + b| - 1] == b[n];
      assert Flatten(a + b) == Flatten(a + b[..n]) + last;
      FlattenAppend(a, b[..n]);
      assert Flatten(b) == Flatten(b[..n]) + last;
      assert Flatten(a) + Flatten(b[..n]) + last == Flatten(a) + (Flatten(b[..n]) + last);
    }
  }

  lemma FlattenNext(shapes: seq<Shape>, i: nat)
    requires i < |shapes|
    ensures Flatten(shapes[..i + 1]) == Flatten(shapes[..i]) + ShapeSteps(shapes[i])
  {
    assert shapes[..i + 1][..i] == shapes[..i];
  }

  /** The steps of the first `n` arguments come first in the schedule. */
  lemma FlattenPrefix(shapes: seq<Shape>, n: nat)
    requires n <= |shapes|
    ensures IsPrefix(Flatten(shapes[..n]), Flatten(shapes))
  {
    var a, b := shapes[..n], shapes[n..];
    assert a + b == shapes;
    FlattenAppend(a, b);
    var fa, fb := Flatten(a), Flatten(b);
    assert Flatten(shapes) == fa + fb;
    assert (fa + fb)[..|fa|] == fa;
  }

  /** The steps of one more argument continue the run of the arguments before
      it, and a run that has thrown by then is the whole run. */
  lemma ArgsNext(root: Element, s: Run, shapes: seq<Shape>, i: nat)
    requires AllDraws(s.draws) && i < |shapes|
    ensures RunAll(root, s, Flatten(shapes[..i + 1]))
      == RunAll(root, RunAll(root, s, Flatten(shapes[..i])), ShapeSteps(shapes[i]))
    ensures RunAll(root, s, Flatten(shapes[..i + 1])).error.Some? ==>
      RunAll(root, s, Flatten(shapes)) == RunAll(root, s, Flatten(shapes[..i + 1]))
  {
    FlattenNext(shapes, i);
    RunAllAppend(root, s, Flatten(shapes[..i]), ShapeSteps(shapes[i]));
    FlattenPrefix(shapes, i + 1);
    if RunAll(root, s, Flatten(shapes[..i + 1])).error.Some? {
      HaltedPrefix(root, s, Flatten(shapes[..i + 1]), Flatten(shapes));
    }
  }

  // ------------------------------------------------------------- manager

  /** What the constructor accepts: an id, or an element (possibly absent). */
  datatype RootArg = Id(id: string) | Given(e: Element?)

  function ResolveRoot(host: Document, arg: RootArg): Element? {
    match arg
    case Id(id) => if id in host.byId then host.byId[id] else null
    case Given(e) => e
  }

  class ElementManager {
    const root: Element
    var classNamesList: seq<string>
    const stylesNode: Element
    const host: Document
    /** Where `Math.random` draws come from. */
    const rng: Random

    /** The part of the constructor after the root check. */
    constructor(host: Document, root: Element, rng: Random)
      modifies host
      ensures this.host == host && this.root == root && this.rng == rng && classNamesList == []
      ensures fresh(stylesNode) && stylesNode.tag == "style" && stylesNode.text == ""
      ensures stylesNode.classes == {}
      ensures host.log == old(host.log) + [Attach(stylesNode, root)]
    {
      this.host := host;
      this.root := root;
      this.rng := rng;
      classNamesList := [];
      stylesNode := new Element("style");
      new;
      host.AppendChild(root, stylesNode);
    }

    /** `new ElementManager(rootElement)`: throws when an id resolves to no
        element or no element is given, and changes nothing then. */
    static method Create(host: Document, arg: RootArg, rng: Random) returns (r: Result<ElementManager>)
      modifies host
      ensures ResolveRoot(host, arg) == null ==> r == Err(MissingRoot) && host.log == old(host.log)
      ensures ResolveRoot(host, arg) != null ==>
        (r.Ok? && fresh(r.value) && r.value.root == ResolveRoot(host, arg)
         && r.value.host == host && r.value.rng == rng && r.value.classNamesList == []
         && fresh(r.value.stylesNode) && r.value.stylesNode.text == ""
         && host.log == old(host.log) + [Attach(r.value.stylesNode, r.value.root)])
    {
      var e := ResolveRoot(host, arg);
      if e == null {
        return Err(MissingRoot);
      }
      var m := new ElementManager(host, e, rng);
      r := Ok(m);
    }

    /** `_generateClassName(element)`: retries until the drawn name is not in
        `classNamesList`, then records it. */
    method GenerateClassName(kind: string) returns (r: Option<string>)
      requires AllDraws(rng.draws)
      modifies this, rng
      ensures (r, rng.draws) == Pick(kind, old(classNamesList), old(rng.draws))
      ensures r.Some? ==> classNamesList == old(classNamesList) + [r.value]
      ensures r.None? ==> classNamesList == old(classNamesList)
    {
      while true
        invariant AllDraws(rng.draws) && classNamesList == old(classNamesList)
        invariant Pick(kind, classNamesList, rng.draws) == Pick(kind, old(classNamesList), old(rng.draws))
        decreases |rng.draws|
      {
        if |rng.draws| < SuffixLength {
          return None;
        }
        var finalName := rng.NextName(kind);
        if finalName !in classNamesList {
          classNamesList := classNamesList + [finalName];
          return Some(finalName);
        }
      }
    }

    /** `_parseElementStyles(element)`: draws a free name, puts it on the
        element and appends the element's rule to the stylesheet. */
    method ParseElementStyles(c: Component) returns (r: Option<string>)
      requires AllDraws(rng.draws)
      modifies this, rng, stylesNode`text, c.element`classes
      ensures (r, rng.draws) == Pick(c.kind, old(classNamesList), old(rng.draws))
      ensures r.None? ==>
        (classNamesList == old(classNamesList) && stylesNode.text == old(stylesNode.text)
         && c.element.classes == old(c.element.classes))
      ensures r.Some? ==>
        (classNamesList == old(classNamesList) + [r.value]
         && stylesNode.text == old(stylesNode.text) + Rule(r.value, StylesAsString(c.styles))
         && c.element.classes == old(c.element.classes) + {r.value})
    {
      r := GenerateClassName(c.kind);
      if r.Some? {
        EmitRule(c, r.value);
      }
    }

    /** The rest of `_parseElementStyles` once the name is drawn. */
    method EmitRule(c: Component, randomName: string)
      modifies stylesNode`text, c.element`classes
      ensures stylesNode.text == old(stylesNode.text) + Rule(randomName, StylesAsString(c.styles))
      ensures c.element.classes == old(c.element.classes) + {randomName}
    {
      var styleString := StylesAsString(c.styles);
      var _ := c.AddClassName([randomName]);
      assert (set n | n in [randomName]) == {randomName};
      stylesNode.AppendText(Rule(randomName, styleString));
    }

    /** `_appendElement(node, atRoot)`: styles the node, and attaches it under
        the root only when `atRoot`. A node that is not a component has no
        `_generateName` and throws at once. */
    method AppendElement(node: Child, atRoot: bool) returns (r: Result<()>)
      requires AllDraws(rng.draws)
      modifies this, rng, stylesNode`text, host, (if node.Comp? then {node.c.element} else {})`classes
      ensures node.Raw? ==>
        (r == Err(TypeError) && classNamesList == old(classNamesList) && rng.draws == old(rng.draws)
         && stylesNode.text == old(stylesNode.text) && host.log == old(host.log))
      ensures node.Comp? ==> var c := node.c; var (n, rest) := Pick(c.kind, old(classNamesList), old(rng.draws));
        rng.draws == rest
        && (n.None? ==>
             (r == Err(OutOfDraws) && classNamesList == old(classNamesList)
              && stylesNode.text == old(stylesNode.text) && host.log == old(host.log)
              && c.element.classes == old(c.element.classes)))
        && (n.Some? ==>
             (r == Ok(()) && classNamesList == old(classNamesList) + [n.value]
              && stylesNode.text == old(stylesNode.text) + Rule(n.value, StylesAsString(c.styles))
              && host.log == old(host.log) + (if atRoot then [Attach(c.element, root)] else [])
              && c.element.classes == old(c.element.classes) + {n.value}))
    {
      if node.Raw? {
        return Err(TypeError);
      }
      var name := ParseElementStyles(node.c);
      if name.None? {
        return Err(OutOfDraws);
      }
      if atRoot {
        host.AppendChild(root, node.c.element);
      }
      r := Ok(());
    }

    /** The manager and the elements `es` are in the state `m` describes;
        `classes0` holds the elements' classes when the run began. */
    ghost predicate Models(m: Run, classes0: map<Element, set<string>>, es: set<Element>)
      reads this`classNamesList, rng`draws, stylesNode`text, host`log, es`classes
    {
      classNamesList == m.names && rng.draws == m.draws && stylesNode.text == m.css && host.log == m.log
      && Marked(m.marks, classes0, es)
    }

    /** One `_appendElement` call advances the state by one step. */
    method Visit(node: Child, atRoot: bool, ghost step: Step, ghost m: Run,
                 ghost classes0: map<Element, set<string>>, ghost es: set<Element>) returns (r: Result<()>)
      requires step == StepOf(node, atRoot)
      requires AllDraws(m.draws) && m.error.None? && Models(m, classes0, es)
      requires node.Comp? ==> node.c.element in es
      modifies this, rng, stylesNode`text, host, (if node.Comp? then {node.c.element} else {})`classes
      ensures Models(Exec(root, m, step), classes0, es)
      ensures r.Ok? <==> Exec(root, m, step).error.None?
      ensures r.Err? ==> Exec(root, m, step).error == Some(r.error)
    {
      match node {
        case Raw(_) =>
          r := AppendElement(node, atRoot);
          assert Exec(root, m, StepOf(node, atRoot)) == m.(error := Some(TypeError));
        case Comp(c) =>
          r := VisitComponent(c, atRoot, m, classes0, es);
      }
    }

    method VisitComponent(c: Component, atRoot: bool, ghost m: Run, ghost classes0: map<Element, set<string>>,
                          ghost es: set<Element>) returns (r: Result<()>)
      requires AllDraws(m.draws) && m.error.None? && Models(m, classes0, es)
      requires c.element in es
      modifies this, rng, stylesNode`text, host, c.element`classes
      ensures Models(Exec(root, m, StepOf(Comp(c), atRoot)), classes0, es)
      ensures r.Ok? <==> Exec(root, m, StepOf(Comp(c), atRoot)).error.None?
      ensures r.Err? ==> Exec(root, m, StepOf(Comp(c), atRoot)).error == Some(r.error)
    {
      ghost var n := Exec(root, m, StepOf(Comp(c), atRoot));
      ghost var pick := Pick(c.kind, m.names, m.draws);
      assert StepOf(Comp(c), atRoot) == Step.Visit(c.kind, c.element, StylesAsString(c.styles), atRoot);
      ExecVisit(root, m, c.kind, c.element, StylesAsString(c.styles), atRoot);
      r := AppendElement(Comp(c), atRoot);
      if pick.0.Some? {
        MarkedAfter(c.element, pick.0.value, m.marks, classes0, es);
      } else {
        assert n.marks == m.marks;
      }
      assert Models(n, classes0, es);
    }

    /** `element._children.forEach((child) => this._appendElement(child))`:
        visits the children in order, none of them attached, stopping at the
        first exception. */
    method VisitChildren(cs: seq<Child>, ghost steps: seq<Step>, ghost m: Run,
                         ghost classes0: map<Element, set<string>>, ghost es: set<Element>) returns (r: Result<()>)
      requires |steps| == |cs| && forall j | 0 <= j < |cs| :: steps[j] == StepOf(cs[j], false)
      requires forall j | 0 <= j < |cs| && cs[j].Comp? :: cs[j].c.element in es
      requires AllDraws(m.draws) && m.error.None? && Models(m, classes0, es)
      modifies this, rng, stylesNode`text, host, es`classes
      ensures Models(RunAll(root, m, steps), classes0, es)
      ensures r.Ok? <==> RunAll(root, m, steps).error.None?
      ensures r.Err? ==> RunAll(root, m, steps).error == Some(r.error)
    {
      assert steps[..0] == [];
      var j := 0;
      while j < |cs|
        invariant 0 <= j <= |cs|
        invariant RunAll(root, m, steps[..j]).error.None?
        invariant Models(RunAll(root, m, steps[..j]), classes0, es)
      {
        assert steps[j] == old(StepOf(cs[j], false));
        RunAllNext(root, m, steps, j);
        r := Visit(cs[j], false, steps[j], RunAll(root, m, steps[..j]), classes0, es);
        if r.Err? {
          HaltedPrefix(root, m, steps[..j + 1], steps);
          return;
        }
        j := j + 1;
      }
      assert steps[..|cs|] == steps;
      r := Ok(());
    }

    /** What `children` does with one argument of the given shape. */
    method VisitArg(x: Child, ghost shape: Shape, ghost m: Run,
                    ghost classes0: map<Element, set<string>>, ghost es: set<Element>) returns (r: Result<()>)
      requires x.Raw? ==> shape == NotComponent
      requires x.Comp? && |x.c.children| == 0 ==> shape == Leaf(StepOf(x, true))
      requires x.Comp? && |x.c.children| > 0 ==>
        (shape.Parent? && |shape.steps| == |x.c.children|
         && forall j | 0 <= j < |x.c.children| :: shape.steps[j] == StepOf(x.c.children[j], false))
      requires x.Comp? ==> x.c.element in es
      requires x.Comp? ==> forall j | 0 <= j < |x.c.children| && x.c.children[j].Comp? :: x.c.children[j].c.element in es
      requires AllDraws(m.draws) && m.error.None? && Models(m, classes0, es)
      modifies this, rng, stylesNode`text, host, es`classes
      ensures Models(RunAll(root, m, ShapeSteps(shape)), classes0, es)
      ensures r.Ok? <==> RunAll(root, m, ShapeSteps(shape)).error.None?
      ensures r.Err? ==> RunAll(root, m, ShapeSteps(shape)).error == Some(r.error)
    {
      match x {
        case Raw(_) =>
          RunAllOne(root, m, BadArg);
          r := Err(NotAComponent);
        case Comp(c) =>
          if |c.children| > 0 {
            r := VisitChildren(c.children, shape.steps, m, classes0, es);
          } else {
            RunAllOne(root, m, shape.step);
            r := Visit(x, true, shape.step, m, classes0, es);
          }
      }
    }

    /** The loop of `children` over the arguments, whose shapes were taken
        when the call began. */
    method VisitArgs(args: seq<Child>, ghost shapes: seq<Shape>, ghost m: Run,
                     ghost classes0: map<Element, set<string>>, ghost es: set<Element>) returns (r: Result<()>)
      requires |shapes| == |args|
      requires forall k | 0 <= k < |args| :: args[k].Raw? ==> shapes[k] == NotComponent
      requires forall k | 0 <= k < |args| && args[k].Comp? && |args[k].c.children| == 0 ::
        shapes[k] == Leaf(StepOf(args[k], true))
      requires forall k | 0 <= k < |args| && args[k].Comp? && |args[k].c.children| > 0 ::
        shapes[k].Parent? && |shapes[k].steps| == |args[k].c.children|
        && forall j | 0 <= j < |args[k].c.children| :: shapes[k].steps[j] == StepOf(args[k].c.children[j], false)
      requires forall k | 0 <= k < |args| && args[k].Comp? :: args[k].c.element in es
      requires forall k, j | 0 <= k < |args| && args[k].Comp? && 0 <= j < |args[k].c.children|
        && args[k].c.children[j].Comp? :: args[k].c.children[j].c.element in es
      requires AllDraws(m.draws) && m.error.None? && Models(m, classes0, es)
      modifies this, rng, stylesNode`text, host, es`classes
      ensures Models(RunAll(root, m, Flatten(shapes)), classes0, es)
      ensures r.Ok? <==> RunAll(root, m, Flatten(shapes)).error.None?
      ensures r.Err? ==> RunAll(root, m, Flatten(shapes)).error == Some(r.error)
    {
      var i := 0;
      while i < |args|
        invariant 0 <= i <= |args|
        invariant RunAll(root, m, Flatten(shapes[..i])).error.None?
        invariant Models(RunAll(root, m, Flatten(shapes[..i])), classes0, es)
      {
        ArgsNext(root, m, shapes, i);
        r := VisitArg(args[i], shapes[i], RunAll(root, m, Flatten(shapes[..i])), classes0, es);
        if r.Err? {
          return;
        }
        i := i + 1;
      }
      assert shapes[..|args|] == shapes;
      r := Ok(());
    }

    /** `children(...args)`: runs the schedule of the arguments, stopping at
        the first exception. */
    method Children(args: seq<Child>) returns (r: Result<()>)
      requires AllDraws(rng.draws)
      modifies this, rng, stylesNode`text, host, Elements(args)`classes
      ensures var m := RunAll(root, Run(old(classNamesList), old(rng.draws), old(stylesNode.text),
          old(host.log), [], None), old(Schedule(args)));
        classNamesList == m.names && rng.draws == m.draws && stylesNode.text == m.css && host.log == m.log
        && (r.Ok? <==> m.error.None?) && (r.Err? ==> m.error == Some(r.error))
        && forall e | e in old(Elements(args)) :: e.classes == old(e.classes) + MarkedOn(m.marks, e)
      ensures forall e | e in old(Elements(args)) && e != stylesNode :: e.text == old(e.text)
      ensures stylesNode !in old(Elements(args)) ==> stylesNode.classes == old(stylesNode.classes)
    {
      ghost var start := Run(classNamesList, rng.draws, stylesNode.text, host.log, [], None);
      ghost var es := Elements(args);
      ghost var classes0 := map e | e in es :: e.classes;
      ghost var shapes := Shapes(args);
      assert Models(start, classes0, es);
      ElementsOfArgs(args);
      r := VisitArgs(args, shapes, start, classes0, es);
    }
  }

  lemma ElementsOfArgs(args: seq<Child>)
    ensures forall i | 0 <= i < |args| && args[i].Comp? :: args[i].c.element in Elements(args)
    ensures forall i, j | 0 <= i < |args| && args[i].Comp? && 0 <= j < |args[i].c.children|
        && args[i].c.children[j].Comp? :: args[i].c.children[j].c.element in Elements(args)
  {
  }

  /** One visit step from a clean state: the run either stops for want of
      draws or grows by the drawn name, its rule, its attachment and its mark. */
  lemma ExecVisit(root: Element, m: Run, kind: string, elem: Element, text: string, atRoot: bool)
    requires AllDraws(m.draws) && m.error.None?
    ensures var (n, rest) := Pick(kind, m.names, m.draws);
      var r := Exec(root, m, Step.Visit(kind, elem, text, atRoot));
      r.draws == rest && (r.error.None? <==> n.Some?)
      && (n.None? ==> r == m.(draws := rest, error := Some(OutOfDraws)))
      && (n.Some? ==>
            r.names == m.names + [n.value] && r.css == m.css + Rule(n.value, text)
            && r.log == m.log + (if atRoot then [Attach(elem, root)] else [])
            && r.marks == m.marks + [(elem, n.value)])
  {
  }

  /** Each element of `es` holds its classes of `classes0` plus the names
      `marks` gave it. */
  ghost predicate Marked(marks: seq<(Element, string)>, classes0: map<Element, set<string>>, es: set<Element>)
    reads es`classes
  {
    forall e | e in es :: e in classes0 && e.classes == classes0[e] + MarkedOn(marks, e)
  }

  /** Naming one element of `es` extends its marks by one. */
  lemma MarkedAfter(x: Element, name: string, marks: seq<(Element, string)>,
                    classes0: map<Element, set<string>>, es: set<Element>)
    requires forall e | e in es :: e in classes0
    requires forall e | e in es && e != x :: e.classes == classes0[e] + MarkedOn(marks, e)
    requires x in es ==> x.classes == classes0[x] + MarkedOn(marks, x) + {name}
    ensures Marked(marks + [(x, name)], classes0, es)
  {
    forall e | e in es ensures e.classes == classes0[e] + MarkedOn(marks + [(x, name)], e) {
      MarkedOnSnoc(marks, x, name, e);
    }
  }

  /** The names the run gave to element `e`. */
  function MarkedOn(marks: seq<(Element, string)>, e: Element): set<string> {
    set i | 0 <= i < |marks| && marks[i].0 == e :: marks[i].1
  }

  lemma MarkedOnSnoc(marks: seq<(Element, string)>, x: Element, n: string, e: Element)
    ensures MarkedOn(marks + [(x, n)], e) == MarkedOn(marks, e) + (if x == e then {n} else {})
  {
    var m := marks + [(x, n)];
    assert forall i | 0 <= i < |marks| :: m[i] == marks[i];
    assert m[|marks|] == (x, n);
  }

  // ------------------------------------------------------ what `children` does

  /** A run that ends without an exception visited at every step. */
  lemma {:induction false} CleanRunVisitsAll(root: Element, s: Run, steps: seq<Step>)
    requires AllDraws(s.draws) && s.error.None?
    requires RunAll(root, s, steps).error.None?
    ensures Visits(steps) == |steps|
  {
    if steps != [] {
      var front := steps[..|steps| - 1];
      assert RunAll(root, s, front).error.None?;
      CleanRunVisitsAll(root, s, front);
    }
  }

  /** An element that no step visits is given no name. */
  lemma {:induction false} UnvisitedUnmarked(root: Element, s: Run, steps: seq<Step>, e: Element)
    requires AllDraws(s.draws)
    requires forall i | 0 <= i < |steps| :: steps[i].Visit? ==> steps[i].elem != e
    ensures MarkedOn(RunAll(root, s, steps).marks, e) == MarkedOn(s.marks, e)
  {
    if steps != [] {
      var front := steps[..|steps| - 1];
      var m := RunAll(root, s, front);
      UnvisitedUnmarked(root, s, front, e);
      var st := steps[|steps| - 1];
      if m.error.None? && st.Visit? {
        var (n, rest) := Pick(st.kind, m.names, m.draws);
        if n.Some? {
          MarkedOnSnoc(m.marks, st.elem, n.value, e);
        }
      }
    }
  }

  /** `children` throws at the first argument that is not a component, after
      the arguments before it have been fully processed. */
  lemma ThrowsAtFirstNonComponent(root: Element, s: Run, shapes: seq<Shape>, i: nat)
    requires AllDraws(s.draws) && i < |shapes| && shapes[i] == NotComponent
    requires RunAll(root, s, Flatten(shapes[..i])).error.None?
    ensures RunAll(root, s, Flatten(shapes))
      == RunAll(root, s, Flatten(shapes[..i])).(error := Some(NotAComponent))
  {
    var m := RunAll(root, s, Flatten(shapes[..i]));
    ArgsNext(root, s, shapes, i);
    assert ShapeSteps(shapes[i]) == [BadArg];
    RunAllOne(root, m, BadArg);
    assert RunAll(root, s, Flatten(shapes[..i + 1])) == m.(error := Some(NotAComponent));
  }

  lemma ScheduleOne(x: Child)
    ensures Schedule([x]) == ShapeSteps(ShapeOf(x))
  {
    assert [x][..0] == [];
    assert Shapes([x]) == [ShapeOf(x)];
    assert Flatten([ShapeOf(x)])[..0] == [];
    assert [ShapeOf(x)][..0] == [];
  }

  /** `children(c)` for a component without children: one name is drawn, one
      rule emitted for it, and the element is attached under the root. */
  lemma LeafArgMounted(root: Element, s: Run, c: Component)
    requires AllDraws(s.draws) && s.error.None? && |c.children| == 0
    requires RunAll(root, s, Schedule([Comp(c)])).error.None?
    ensures var r := RunAll(root, s, Schedule([Comp(c)]));
      |r.names| == |s.names| + 1 && r.names[..|s.names|] == s.names
      && r.css == s.css + Rule(r.names[|s.names|], StylesAsString(c.styles))
      && r.log == s.log + [Attach(c.element, root)]
      && MarkedOn(r.marks, c.element) == MarkedOn(s.marks, c.element) + {r.names[|s.names|]}
  {
    ScheduleOne(Comp(c));
    var st := StepOf(Comp(c), true);
    RunAllOne(root, s, st);
    var (n, rest) := Pick(c.kind, s.names, s.draws);
    MarkedOnSnoc(s.marks, c.element, n.value, c.element);
  }

  /** The rules a run appends when its i-th step is named `names[i]`: one
      per visit, in step order. */
  function VisitRules(names: seq<string>, steps: seq<Step>): string
    requires |names| == |steps|
    decreases |steps|
  {
    if steps == [] then ""
    else
      var n := |steps| - 1;
      VisitRules(names[..n], steps[..n])
      + (if steps[n].Visit? then Rule(names[n], steps[n].styleText) else "")
  }

  /** A step that leaves the run without exception was a visit: it drew one
      name and appended that name's rule. */
  lemma ExecClean(root: Element, m: Run, st: Step)
    requires AllDraws(m.draws) && m.error.None? && Exec(root, m, st).error.None?
    ensures var r := Exec(root, m, st);
      st.Visit? && |r.names| == |m.names| + 1 && r.names[..|m.names|] == m.names
      && r.css == m.css + Rule(r.names[|m.names|], st.styleText)
  {
    var r := Exec(root, m, st);
    assert r.names[..|m.names|] == m.names;
  }

  /** A run without exception visits at every step and draws one new name
      per step. */
  lemma {:induction false} CleanRunNames(root: Element, s: Run, steps: seq<Step>)
    requires AllDraws(s.draws) && s.error.None?
    requires RunAll(root, s, steps).error.None?
    ensures forall i | 0 <= i < |steps| :: steps[i].Visit?
    ensures |RunAll(root, s, steps).names| == |s.names| + |steps|
    ensures RunAll(root, s, steps).names[..|s.names|] == s.names
  {
    if steps != [] {
      var k := |steps| - 1;
      var front := steps[..k];
      var m := RunAll(root, s, front);
      var r := Exec(root, m, steps[k]);
      assert RunAll(root, s, steps) == r;
      assert m.error.None?;
      CleanRunNames(root, s, front);
      ExecClean(root, m, steps[k]);
      assert r.names[..|s.names|] == m.names[..|s.names|];
      assert steps[k].Visit?;
      forall i | 0 <= i < |steps| ensures steps[i].Visit? {
        if i < k {
          assert steps[i] == front[i] && front[i].Visit?;
        } else {
          assert i == k;
        }
      }
    }
  }

  /** A run without exception appends one rule per step, in order, under the
      name drawn for it. */
  lemma {:induction false} CleanRunRules(root: Element, s: Run, steps: seq<Step>)
    requires AllDraws(s.draws) && s.error.None?
    requires RunAll(root, s, steps).error.None?
    ensures |RunAll(root, s, steps).names| == |s.names| + |steps|
    ensures RunAll(root, s, steps).css == s.css + VisitRules(RunAll(root, s, steps).names[|s.names|..], steps)
  {
    CleanRunNames(root, s, steps);
    if steps != [] {
      var k := |steps| - 1;
      var front := steps[..k];
      var m := RunAll(root, s, front);
      var st := steps[k];
      var r := Exec(root, m, st);
      assert m.error.None?;
      CleanRunNames(root, s, front);
      CleanRunRules(root, s, front);
      ExecClean(root, m, st);
      var drawn := r.names[|s.names|..];
      assert drawn[..k] == m.names[|s.names|..];
      assert drawn[k] == r.names[|m.names|];
      assert VisitRules(drawn, steps) == VisitRules(drawn[..k], front) + Rule(drawn[k], st.styleText);
    }
  }

  /** The rules written for the children `cs` when the j-th is named
      `names[j]`: each component child's rule holds its own declarations. */
  function ChildRules(names: seq<string>, cs: seq<Child>): string
    requires |names| == |cs|
    reads ComponentsOf(cs)
    decreases |cs|
  {
    if cs == [] then ""
    else
      var n := |cs| - 1;
      assert ComponentsOf(cs[..n]) <= ComponentsOf(cs);
      ChildRules(names[..n], cs[..n])
      + (if cs[n].Comp? then Rule(names[n], StylesAsString(cs[n].c.styles)) else "")
  }

  lemma {:induction false} ChildRulesSteps(names: seq<string>, cs: seq<Child>)
    requires |names| == |cs|
    ensures VisitRules(names, ChildSteps(cs)) == ChildRules(names, cs)
  {
    if cs != [] {
      var n := |cs| - 1;
      ChildRulesSteps(names[..n], cs[..n]);
      assert ChildSteps(cs)[..n] == ChildSteps(cs[..n]);
    }
  }

  /** `children(c)` for a component with children: nothing is attached, the
      component itself gets no name unless a child shares its element, and
      without an exception every child is a component, draws one name and
      gets one rule with its own declarations, in child order. */
  lemma ParentArgNotMounted(root: Element, s: Run, c: Component)
    requires AllDraws(s.draws) && s.error.None? && |c.children| > 0
    ensures RunAll(root, s, Schedule([Comp(c)])).log == s.log
    ensures (forall j | 0 <= j < |c.children| && c.children[j].Comp? :: c.children[j].c.element != c.element) ==>
      MarkedOn(RunAll(root, s, Schedule([Comp(c)])).marks, c.element) == MarkedOn(s.marks, c.element)
    ensures var r := RunAll(root, s, Schedule([Comp(c)]));
      r.error.None? ==>
        (forall j | 0 <= j < |c.children| :: c.children[j].Comp?)
        && |r.names| == |s.names| + |c.children| && r.names[..|s.names|] == s.names
        && r.css == s.css + ChildRules(r.names[|s.names|..], c.children)
  {
    var steps := ChildSteps(c.children);
    ScheduleOne(Comp(c));
    assert Schedule([Comp(c)]) == steps;
    NoRootVisitNoAttach(root, s, steps);
    if forall j | 0 <= j < |c.children| && c.children[j].Comp? :: c.children[j].c.element != c.element {
      UnvisitedUnmarked(root, s, steps, c.element);
    }
    if RunAll(root, s, steps).error.None? {
      CleanChildRun(root, s, c.children);
    }
  }

  /** Visiting the children `cs` without exception: each is a component,
      draws one name and gets one rule with its own declarations. */
  lemma CleanChildRun(root: Element, s: Run, cs: seq<Child>)
    requires AllDraws(s.draws) && s.error.None?
    requires RunAll(root, s, ChildSteps(cs)).error.None?
    ensures var r := RunAll(root, s, ChildSteps(cs));
      (forall j | 0 <= j < |cs| :: cs[j].Comp?)
      && |r.names| == |s.names| + |cs| && r.names[..|s.names|] == s.names
      && r.css == s.css + ChildRules(r.names[|s.names|..], cs)
  {
    var steps := ChildSteps(cs);
    var r := RunAll(root, s, steps);
    CleanRunNames(root, s, steps);
    CleanRunRules(root, s, steps);
    ChildRulesSteps(r.names[|s.names|..], cs);
    assert forall j | 0 <= j < |cs| :: steps[j] == StepOf(cs[j], false);
  }

  /** The page of script.js: a button whose one child is a heading. The
      heading is named and styled, the button is not, and neither is attached,
      so nothing appears under the root. */
  lemma ButtonWithHeading(root: Element, s: Run, button: Component, heading: Component)
    requires AllDraws(s.draws) && s.error.None?
    requires button.children == [Comp(heading)] && heading.element != button.element
    ensures Schedule([Comp(button)]) == [Visit(heading.kind, heading.element, StylesAsString(heading.styles), false)]
    ensures RunAll(root, s, Schedule([Comp(button)])).log == s.log
    ensures MarkedOn(RunAll(root, s, Schedule([Comp(button)])).marks, button.element) == MarkedOn(s.marks, button.element)
  {
    ScheduleOne(Comp(button));
    assert ChildSteps(button.children)[0] == StepOf(Comp(heading), false);
    ParentArgNotMounted(root, s, button);
  }
}
