/** components.js: the two-channel `Component` that the builder consumes.

    A component owns one element, a generated class name that is already on
    that element, two ordered style stores (`default` and `hover`), its
    children and a back-reference to the component it was appended to. */
module Components {
  import opened Wrappers
  import opened Css
  import opened JsObject
  import opened Names
  import opened Browser

  /** What `appendChild` is handed: a component, or a bare element (a button's
      SVG icon is appended that way). */
  datatype Child = Comp(c: Component) | Raw(e: Element)

  function ComponentsOf(cs: seq<Child>): set<Component> {
    set i | 0 <= i < |cs| && cs[i].Comp? :: cs[i].c
  }

  /** The declarations `setStyle` writes: every number becomes a pixel length,
      strings are kept, keys keep their order. */
  function Coerced(styles: Props<StyleValue>): (r: Props<string>)
    ensures Keys(r) == Keys(styles)
    ensures forall i | 0 <= i < |styles| :: r[i].1 == Pixels(styles[i].1)
  {
    seq(|styles|, i requires 0 <= i < |styles| => (styles[i].0, Pixels(styles[i].1)))
  }

  /** The `forEach` of `setStyle`, writing the declarations one key at a time
      into one channel's store. */
  method MergeStyles(store: Props<string>, styles: Props<StyleValue>) returns (r: Props<string>)
    ensures r == Assign(store, Coerced(styles))
  {
    r := store;
    for i := 0 to |styles|
      invariant r == Assign(store, Coerced(styles)[..i])
    {
      assert Coerced(styles)[..i + 1][..i] == Coerced(styles)[..i];
      r := Put(r, styles[i].0, Pixels(styles[i].1));
    }
    assert Coerced(styles)[..|styles|] == Coerced(styles);
  }

  lemma {:induction false} CoercedGet(styles: Props<StyleValue>, k: string)
    ensures Get(Coerced(styles), k) == match Get(styles, k)
      case None => None
      case Some(v) => Some(Pixels(v))
  {
    if styles != [] {
      assert Coerced(styles)[1..] == Coerced(styles[1..]);
      CoercedGet(styles[1..], k);
    }
  }

  /** After `setStyle(styles)`, a key the call names reads as the call's value
      (a number as `"<n>px"`), every other key reads as before. */
  lemma MergedStyleGet(store: Props<string>, styles: Props<StyleValue>, k: string)
    requires Distinct(styles)
    ensures Get(Assign(store, Coerced(styles)), k) == match Get(styles, k)
      case Some(v) => Some(Pixels(v))
      case None => Get(store, k)
  {
    var c := Coerced(styles);
    assert Distinct(c) by {
      forall i, j | 0 <= i < j < |c| ensures c[i].0 != c[j].0 {
        assert Keys(c)[i] == Keys(styles)[i] && Keys(c)[j] == Keys(styles)[j];
      }
    }
    AssignGet(store, c, k);
    CoercedGet(styles, k);
    GetAbsent(styles, k);
  }

  /** `setStyle` keeps the channel's key order: old keys first, then the keys
      the call introduced. */
  lemma MergedStyleKeys(store: Props<string>, styles: Props<StyleValue>)
    ensures |store| <= |Assign(store, Coerced(styles))|
    ensures Keys(Assign(store, Coerced(styles)))[..|store|] == Keys(store)
    ensures forall k :: k in Keys(Assign(store, Coerced(styles))) <==> k in Keys(store) || k in Keys(styles)
  {
    AssignKeys(store, Coerced(styles));
  }

  class Component {
    /** `this.constructor.name`: the prefix of the generated name. */
    const kind: string
    const element: Element
    /** `_name`, drawn once by the constructor; nothing reassigns it. */
    const name: string
    /** `_styles.default`. */
    var defaultStyles: Props<string>
    /** `_styles.hover`. */
    var hoverStyles: Props<string>
    /** `_children`. */
    var children: seq<Child>
    /** `_parent`; `null` stands for `undefined`. */
    var parent: Component?

    constructor(kind: string, tag: string, rng: Random)
      requires HasName(rng.draws)
      modifies rng
      ensures this.kind == kind
      ensures name == NameOf(kind, old(rng.draws)) && rng.draws == old(rng.draws)[SuffixLength..]
      ensures fresh(element) && element.tag == tag && element.text == "" && element.classes == {name}
      ensures defaultStyles == [] && hoverStyles == []
      ensures children == [] && parent == null
    {
      var e := new Element(tag);
      defaultStyles := [];
      hoverStyles := [];
      var n := rng.NextName(kind);
      e.AddClasses([n]);
      this.kind := kind;
      element := e;
      name := n;
      children := [];
      parent := null;
    }

    /** The `text` getter. */
    function Text(): string
      reads element
    {
      element.text
    }

    method SetText(txt: string) returns (self: Component)
      modifies element`text
      ensures self == this
      ensures Text() == txt && element.classes == old(element.classes)
    {
      element.SetText(txt);
      self := this;
    }

    /** `appendChild(...cs)`: the arguments go after the existing children, in
        order, and each component among them gets this one as its parent. */
    method AppendChild(cs: seq<Child>) returns (self: Component)
      modifies this, ComponentsOf(cs)
      ensures self == this
      ensures children == old(children) + cs
      ensures forall c | c in ComponentsOf(cs) :: c.parent == this
      ensures forall c | c in ComponentsOf(cs) && c != this :: c.children == old(c.children)
      ensures forall c | c in ComponentsOf(cs) + {this} ::
        c.defaultStyles == old(c.defaultStyles) && c.hoverStyles == old(c.hoverStyles)
      ensures this !in ComponentsOf(cs) ==> parent == old(parent)
    {
      var i := 0;
      while i < |cs|
        invariant 0 <= i <= |cs|
        invariant children == old(children) + cs[..i]
        invariant forall j | 0 <= j < i && cs[j].Comp? :: cs[j].c.parent == this
        invariant forall c | c in ComponentsOf(cs) && c != this :: c.children == old(c.children)
        invariant forall c | c in ComponentsOf(cs) + {this} ::
          c.defaultStyles == old(c.defaultStyles) && c.hoverStyles == old(c.hoverStyles)
        invariant this !in ComponentsOf(cs) ==> parent == old(parent)
      {
        if cs[i].Comp? {
          cs[i].c.parent := this;
        }
        children := children + [cs[i]];
        assert cs[..i + 1] == cs[..i] + [cs[i]];
        i := i + 1;
      }
      assert cs[..|cs|] == cs;
      self := this;
    }

    /** `setStyle(styles, channel)`. The two channels take the coerced
        declarations last-write-wins. Any other channel name reads `undefined`,
        so writing its first key throws; with no keys to write nothing is
        thrown. */
    method SetStyle(styles: Props<StyleValue>, channel: string) returns (r: Result<Component>)
      modifies this
      ensures channel == "default" ==>
        (r == Ok(this) && defaultStyles == Assign(old(defaultStyles), Coerced(styles))
         && hoverStyles == old(hoverStyles))
      ensures channel == "hover" ==>
        (r == Ok(this) && hoverStyles == Assign(old(hoverStyles), Coerced(styles))
         && defaultStyles == old(defaultStyles))
      ensures channel != "default" && channel != "hover" ==>
        (r == (if styles == [] then Ok(this) else Err(TypeError))
         && defaultStyles == old(defaultStyles) && hoverStyles == old(hoverStyles))
      ensures children == old(children) && parent == old(parent)
    {
      if channel == "default" {
        defaultStyles := MergeStyles(defaultStyles, styles);
        r := Ok(this);
      } else if channel == "hover" {
        hoverStyles := MergeStyles(hoverStyles, styles);
        r := Ok(this);
      } else if styles == [] {
        r := Ok(this);
      } else {
        r := Err(TypeError);
      }
    }

    /** `stylesCss`: one text per channel, `default` first. A channel's text is
        empty exactly when the channel holds no declaration. */
    function StylesCss(): (r: seq<string>)
      reads this
      ensures |r| == 2
      ensures r[0] == "" <==> defaultStyles == []
      ensures r[1] == "" <==> hoverStyles == []
    {
      ChannelCssEmpty(defaultStyles);
      ChannelCssEmpty(hoverStyles);
      [ChannelCss(defaultStyles), ChannelCss(hoverStyles)]
    }

    /** `addClassName(...names)`: set insertion; names already present change
        nothing. */
    method AddClassName(names: seq<string>) returns (self: Component)
      modifies element`classes
      ensures self == this
      ensures element.classes == old(element.classes) + (set n | n in names)
      ensures (forall n | n in names :: n in old(element.classes)) ==> element.classes == old(element.classes)
      ensures Text() == old(Text())
    {
      element.AddClasses(names);
      self := this;
    }

    /** `removeClassName(...names)`: set deletion; absent names change
        nothing. */
    method RemoveClassName(names: seq<string>) returns (self: Component)
      modifies element`classes
      ensures self == this
      ensures element.classes == old(element.classes) - (set n | n in names)
      ensures (forall n | n in names :: n !in old(element.classes)) ==> element.classes == old(element.classes)
      ensures Text() == old(Text())
    {
      element.RemoveClasses(names);
      self := this;
    }
  }
}
