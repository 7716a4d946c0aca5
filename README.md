# teste-dom-classes in Dafny

A model of the two small UI libraries of andrrms/teste-dom-classes, with
proofs about the model. In both libraries the application builds a tree of
`Component` objects, gives each component style declarations, and hands the
tree to a builder. The builder does two things:

- it attaches the components' elements under a root element of the page;
- it writes one CSS rule per component, under a generated class name, into a
  single `<style>` element.

The two libraries are incompatible with each other and are modelled side by
side:

- `static/js/components.js` defines a `Component` with two style channels,
  `default` and `hover`. `static/js/domBuilder.js` defines the `Builder` that
  mounts a tree of these components. They are modelled in `components.dfy` and
  `dom_builder.dfy`.
- `static/js/_DOM.js` defines a one-channel `Component` and the
  `ElementManager` that names, styles and mounts a list of them. They are
  modelled in `dom.dfy`.

Shared pieces live in their own modules:

- `css.dfy`: `unCamelCase` (ASCII case only), the rendering of style values,
  and the two declaration serialisers, `stylesCss` and `stylesAsString`.
- `js_object.dfy`: the plain objects that hold styles. Keys keep their
  first-assignment order, and a write is last-write-wins.
- `names.dfy`: the 62-character alphabet and the name generator.
  `Math.random` is replaced by a supplied stream of draws. Each draw is already
  the alphabet index `Math.floor(Math.random() * 62)`.
- `browser.dfy`: the few DOM facilities the code uses. Elements have a text and
  a set of class names. The document resolves ids, and every `appendChild` is
  recorded as an attach event in a log.
- `wrappers.dfy`: `Option`, `Result` and the exceptions the code throws.

The builders are imperative: they are methods on classes whose fields they
update. Each method is proved against a specification function:

- `ElementManager.children` is proved against `Dom.Schedule`, the list of
  `_appendElement` steps that one call performs, run by `Dom.RunAll`.
- `Builder.buildElements` is proved against `DomBuilder.ChildNodes`, the
  stylesheet text and attach events that the recursion of `_buildChildNodes`
  produces.

The lemmas then state what those specifications mean for a page.

Where the code and the library's design intent part ways, the model follows
the code:

- `unCamelCase` prefixes every character that equals its own upper-case
  form. So digits and `-` are rewritten too (`"h1"` becomes `"h-1"`), not only
  capitals.
- In `_buildComponentStyle`, the `:hover` rule repeats the default
  declarations, not the hover ones (domBuilder.js:93).
- `stylesCss` ends every declaration with a line break, because
  `i < arr.length` is always true. `stylesAsString` leaves the line break off
  the last declaration.
- The _DOM.js `setStyle` stores numbers as they are. `stylesAsString` writes
  them without a unit.
- components.js never checks a generated name against earlier names. Two
  names of one kind coincide exactly when their six draws coincide.
- `ElementManager.children` does not recurse. A component with children gets
  no rule and is not attached. Its direct children each get a rule, and none of
  them is attached (_DOM.js:58-61, 74-75).
- `_buildChildNodes(...node.childs)` passes only the FIRST grandchild on as
  the next parent (domBuilder.js:51). A child with children is neither styled
  nor attached in its parent's round. A component taken as parent is styled
  once for each bare element among its own children (domBuilder.js:72-73), so
  a child with children can still be styled that way
  (`DomBuilder.NestedParentStyledByBareChild`).
- `buildElements` attaches the tree's element under the root twice: once
  itself, once through `_buildNode`.

## Model

| member | source | states |
|---|---|---|
| `Css.UnCamelCase` | static/js/components.js:1-9 | no ASCII capital letter survives the rewrite: every one is lowered |
| `Css.UnCamelCaseLength` | static/js/components.js:1-9 | the output is as long as the input plus the number of characters that equal their own upper-case form |
| `Css.UnCamelCaseConcat` | static/js/components.js:2-8 | the rewrite works character by character, so it distributes over concatenation |
| `Css.UnCamelCaseFixedPoints` | static/js/components.js:5-6 | a string is left unchanged exactly when it consists of the letters `a` to `z` only |
| `Css.ReCamelUnCamelCase` | static/js/components.js:5 | `ReCamel` undoes the rewrite: no information is lost |
| `Css.UnCamelCaseInjective` | static/js/_DOM.js:88-96 | two property names are written the same way only when they are equal |
| `Css.FontSizeExample` | static/js/components.js:5 | `fontSize` becomes `font-size` |
| `Css.BackgroundColorExample` | static/js/components.js:5 | `backgroundColor` becomes `background-color` |
| `Css.DigitExample` | static/js/components.js:5 | a digit is rewritten too: `h1` becomes `h-1` |
| `Css.HyphenExample` | static/js/components.js:5 | a hyphen is rewritten too: `font-size` becomes `font--size` |
| `Css.Spell` | static/js/components.js:5-6 | one rewritten character between lower-case words gains a `-` and is lowered, and the words are untouched |
| `Css.NatToStringRoundTrip` | static/js/components.js:102-103 | the decimal text of a number is non-empty, all digits, and reads back as the number |
| `Css.ChannelCssAppend` | static/js/components.js:115-126 | one more declaration adds a space (unless it is the first) and that declaration with its own line break |
| `Css.StylesAsStringAppend` | static/js/_DOM.js:165-174 | one more declaration puts a line break after the previous last one, then a space, then the new declaration without a line break |
| `Css.ChannelCssEmpty` | static/js/components.js:115-126 | a channel's text is empty exactly when the channel holds no declaration |
| `Css.StylesAsStringEmpty` | static/js/_DOM.js:165-174 | the text is empty exactly when no declaration is held |
| `Css.SerialisersAgree` | static/js/_DOM.js:165-174 | on the same declarations, `stylesCss` gives `stylesAsString` followed by one line break, and both give "" for none |
| `Css.ChannelCssTwo` | static/js/components.js:115-126 | two declarations both end in a line break and are joined by a space |
| `Css.StylesAsStringTwo` | static/js/_DOM.js:165-174 | of two declarations only the first ends in a line break |
| `Css.NumberRendering` | static/js/components.js:100-110 | a number is rendered bare by `stylesAsString` and as `<n>px` by the components.js `setStyle` |
| `JsObject.PutGet` | static/js/_DOM.js:159 | after `o[k] = v`, `k` reads `v` and every other key reads as before |
| `JsObject.PutKeys` | static/js/_DOM.js:159 | writing a present key keeps the key order, a new key goes last |
| `JsObject.PutDistinct` | static/js/_DOM.js:159 | writing keeps the keys free of repeats |
| `JsObject.GetAbsent` | static/js/_DOM.js:158-160 | a key reads `undefined` exactly when it is not among the keys |
| `JsObject.AssignGet` | static/js/_DOM.js:157-163 | assigning all properties of a source is last-write-wins: its keys take its values, other keys keep theirs |
| `JsObject.AssignKeys` | static/js/_DOM.js:157-163 | assigning keeps the old keys in front and in order, adds exactly the new keys, and keeps keys distinct |
| `Names.NameOf` | static/js/components.js:54-66 | a name is the kind, `_` and six characters, so its length is the kind's plus seven |
| `Names.AlphabetLayout` | static/js/components.js:55-56 | the alphabet has 62 alphanumeric characters, and each position can be read back from its character |
| `Names.AlphabetDistinct` | static/js/_DOM.js:119-120 | no character occurs twice in the alphabet |
| `Names.DrawsOfNameOf` | static/js/components.js:60-62 | the suffix is alphanumeric and encodes exactly the six draws that made it |
| `Names.NameOfInjective` | static/js/components.js:64-65 | two names of one kind are equal exactly when their six draws are equal; nothing else keeps them apart |
| `Names.GenerateName` | static/js/_DOM.js:122-129 | the loop that draws six characters builds the name `NameOf` describes |
| `Names.Random.NextName` | static/js/_DOM.js:118-130 | one name consumes six draws |
| `Browser.Element.constructor` | static/js/_DOM.js:108 | `document.createElement(tag)` gives an element of that tag with no text and no class |
| `Browser.Element.SetText` | static/js/components.js:92 | `textContent = t` sets the text and leaves the classes alone |
| `Browser.Element.AppendText` | static/js/_DOM.js:49 | `textContent += t` extends the text and leaves the classes alone |
| `Browser.Element.AddClasses` | static/js/components.js:133 | `classList.add` is set insertion |
| `Browser.Element.RemoveClasses` | static/js/components.js:142 | `classList.remove` is set deletion |
| `Browser.Document.AppendChild` | static/js/_DOM.js:22 | every `appendChild` is one attach event at the end of the log |
| `Components.MergeStyles` | static/js/components.js:101-107 | the `forEach` stores the coerced declarations key by key into the channel |
| `Components.CoercedGet` | static/js/components.js:102-106 | a key reads its given value, coerced, and an absent key stays absent |
| `Components.MergedStyleGet` | static/js/components.js:100-110 | after `setStyle`, a key the call names reads the call's value (numbers as `<n>px`), every other key reads as before |
| `Components.MergedStyleKeys` | static/js/components.js:100-110 | `setStyle` keeps the old key order and appends only keys it introduced |
| `Components.Component.constructor` | static/js/components.js:16-48 | fresh element of the given tag carrying exactly the generated name, empty channels, no children, no parent; six draws consumed |
| `Components.Component.SetText` | static/js/components.js:84-94 | the `text` getter then reads the new text; the classes are untouched; returns `this` |
| `Components.Component.AppendChild` | static/js/components.js:72-79 | the arguments follow the old children in order, each has this as parent, nothing else changes |
| `Components.Component.SetStyle` | static/js/components.js:100-110 | `default` and `hover` merge into their own channel and leave the other; any other channel name throws when it has a key to write |
| `Components.Component.StylesCss` | static/js/components.js:115-126 | two texts, default first, each empty exactly when its channel is |
| `Components.Component.AddClassName` | static/js/components.js:132-135 | the names are added; names already present change nothing; text unchanged |
| `Components.Component.RemoveClassName` | static/js/components.js:141-144 | the names are removed; absent names change nothing; text unchanged |
| `Dom.Component.constructor` | static/js/_DOM.js:103-116 | fresh element without classes, no styles, no children; a name is drawn and kept |
| `Dom.Component.SetContent` | static/js/_DOM.js:135-143 | a string replaces the text and leaves the children; anything else is pushed and leaves the text |
| `Dom.Component.SetStyle` | static/js/_DOM.js:157-163 | the declarations are assigned, stored as given, last-write-wins |
| `Dom.Component.StylesText` | static/js/_DOM.js:165-174 | the text is empty exactly when no declaration is held |
| `Dom.Component.AddClassName` | static/js/_DOM.js:176-179 | set insertion; the text is untouched |
| `Dom.Component.RemoveClassName` | static/js/_DOM.js:181-184 | set deletion; the text is untouched |
| `Dom.Pick` | static/js/_DOM.js:30-39 | the name found is not among the taken ones and is the name of the six draws consumed last |
| `Dom.ChildSteps` | static/js/_DOM.js:75 | one step per child, in order, none of them attaching |
| `Dom.Shapes` | static/js/_DOM.js:72-84 | one shape per argument, each taken from that argument as `children` sees it |
| `Dom.RunAllAppend` | static/js/_DOM.js:72-84 | running two step lists one after the other is running their concatenation |
| `Dom.RunAllHalted` | static/js/_DOM.js:80-82 | once an exception is thrown, nothing later happens |
| `Dom.HaltedPrefix` | static/js/_DOM.js:72-84 | a run that has thrown by the end of a prefix of the steps is the whole run |
| `Dom.FlattenAppend` | static/js/_DOM.js:72 | the steps of two argument lists are the steps of each, in order |
| `Dom.FlattenPrefix` | static/js/_DOM.js:72 | the steps of the first arguments come first |
| `Dom.ArgsNext` | static/js/_DOM.js:72-84 | each argument continues the run of those before it, and a throw there ends the call |
| `Dom.RunAllGrows` | static/js/_DOM.js:37-49 | the name list, the stylesheet and the attach log only grow, and names stay pairwise distinct |
| `Dom.OneNamePerVisit` | static/js/_DOM.js:30-39 | a run without exception draws exactly one new name per visit |
| `Dom.NoRootVisitNoAttach` | static/js/_DOM.js:58-61 | visits not at the root attach nothing |
| `Dom.CleanRunVisitsAll` | static/js/_DOM.js:73-80 | a run without exception met only components |
| `Dom.UnvisitedUnmarked` | static/js/_DOM.js:48 | an element no step visits is given no class |
| `Dom.ThrowsAtFirstNonComponent` | static/js/_DOM.js:79-83 | the call throws at the first argument that is not a component, after fully processing those before it |
| `Dom.LeafArgMounted` | static/js/_DOM.js:76-77 | a component without children gets one new name, one rule with its styles, and one attach under the root |
| `Dom.CleanRunNames` | static/js/_DOM.js:30-39 | a run without exception visited at every step and added one name per step after the old ones |
| `Dom.CleanRunRules` | static/js/_DOM.js:44-50 | a run without exception appended one rule per step, in step order, each under the name drawn for that step |
| `Dom.CleanChildRun` | static/js/_DOM.js:75 | visiting children without exception: each child is a component, draws one name and gets one rule with its own declarations, in order |
| `Dom.ParentArgNotMounted` | static/js/_DOM.js:74-75 | a component with children is not attached and gets no class; without an exception each direct child draws one name and the stylesheet gains one rule per child, with that child's declarations, in child order |
| `Dom.ButtonWithHeading` | static/js/script.js:11-25 | a button whose one child is a heading: only the heading is visited, nothing is attached under the root, the button gets no class |
| `Dom.ElementManager.constructor` | static/js/_DOM.js:18-22 | the name list is empty and a fresh style element is attached under the root |
| `Dom.ElementManager.Create` | static/js/_DOM.js:6-23 | an id that resolves to nothing, or no element, throws and attaches nothing; otherwise the manager is built on the resolved root |
| `Dom.ElementManager.GenerateClassName` | static/js/_DOM.js:30-39 | the retry loop returns the name `Pick` finds and records it in the name list |
| `Dom.ElementManager.ParseElementStyles` | static/js/_DOM.js:44-50 | the name is put on the element and `.name {\n<styles>\n}\n` is appended to the stylesheet |
| `Dom.ElementManager.EmitRule` | static/js/_DOM.js:46-49 | the rule text built from the element's current styles is appended, and the name goes on the element |
| `Dom.ElementManager.AppendElement` | static/js/_DOM.js:55-66 | a non-component throws at once; a component is styled and attached under the root only when asked |
| `Dom.ElementManager.Visit` | static/js/_DOM.js:55-66 | one `_appendElement` call takes the manager from one state of the run to the next |
| `Dom.ElementManager.VisitComponent` | static/js/_DOM.js:58-65 | the same for a component, including the class it is given |
| `Dom.ElementManager.VisitChildren` | static/js/_DOM.js:75 | the children are visited in order, none attached, stopping at the first exception |
| `Dom.ElementManager.VisitArg` | static/js/_DOM.js:73-83 | one argument: a throw, its children's visits, or its own visit at the root |
| `Dom.ElementManager.VisitArgs` | static/js/_DOM.js:72-84 | the arguments' steps are run in order, stopping at the first exception |
| `Dom.ElementManager.Children` | static/js/_DOM.js:71-85 | names, draws, stylesheet, attach log and every element's classes end as the run of the schedule says; the call throws exactly when the run does; no element's text changes except the style element's, and the style element's classes change only if it is one of the components' elements |
| `DomBuilder.RulesOf` | static/js/domBuilder.js:86-94 | a `:hover` rule exists exactly when the hover channel is non-empty, and it carries the DEFAULT declarations |
| `DomBuilder.LeafChildrenRules` | static/js/domBuilder.js:45-56 | when all children are leaves, each emits one set of rules in order, a bare element emitting the parent's |
| `DomBuilder.LeafChildrenAttach` | static/js/domBuilder.js:45-56 | when all children are leaves, each is attached under the parent's element, in order |
| `DomBuilder.NestedChildIsSkipped` | static/js/domBuilder.js:50-51 | a child whose first child is a leaf contributes nothing at all |
| `DomBuilder.NestedParentStyledByBareChild` | static/js/domBuilder.js:45-80 | `p` holds `d`, which holds `q`, which holds a bare element `e`: the whole effect is `q`'s rules once and `e` attached under `q`'s element, so `q`, a child with children, is styled |
| `DomBuilder.CycleNotFollowed` | static/js/domBuilder.js:45-56 | a tree with a cycle that the recursion never follows (`a` holds `b`, which holds a leaf and `a`) is admitted, and building it has no effect |
| `DomBuilder.Builder.constructor` | static/js/domBuilder.js:6-12 | no root yet, an empty name list, one fresh style element |
| `DomBuilder.Builder.BuildComponentStyle` | static/js/domBuilder.js:86-94 | appends exactly the component's rules |
| `DomBuilder.Builder.BuildNode` | static/js/domBuilder.js:63-81 | a component emits its rules and goes under the parent; a bare node emits the parent's rules, and under the root element it throws |
| `DomBuilder.Builder.BuildChildNodes` | static/js/domBuilder.js:45-57 | appends exactly the rules and attaches of `ChildNodes` |
| `DomBuilder.Builder.BuildStep` | static/js/domBuilder.js:49-55 | one round of the `forEach`: the recursion on the first grandchild, or `_buildNode` |
| `DomBuilder.Builder.BuildElements` | static/js/domBuilder.js:17-39 | a missing id throws before anything happens; otherwise the style element is attached first, then the children, the tree twice, and the tree's rules after its children's; the name list is never written |
| `DomBuilder.Builder.MountComponent` | static/js/domBuilder.js:33-38 | the children's effects, then the tree under the root, its rules, and the tree under the root again |

## Left out

- Dom.ElementManager.GenerateClassName: JavaScript's `Math.random` never runs out. The model draws from a finite supplied stream, so it has an outcome the source lacks: `OutOfDraws`, once fewer than six draws remain. Every contract covers that case.
- Dom.ElementManager.Children: the tree is read as it stands when the call begins. Nothing in the call changes a component, so this agrees with the source.
- DomBuilder.Builder.BuildElements: it requires a rank on the components that `_buildChildNodes` is called on, decreasing from each of them to the next one the recursion moves to (the first child of a child that has children). Such a rank exists exactly when the recursion ends. Where no rank exists, the recursion follows a cycle and the source overflows the stack; the model does not cover those calls. A cycle the recursion does not follow is admitted (`DomBuilder.CycleNotFollowed`).
- Components.Component.SetStyle: a channel named after a property of `Object.prototype` (`constructor`, `toString`, ...) makes the source write onto that inherited value. The model throws `TypeError` for every channel other than `default` and `hover`. The source's default argument `"default"` is left to the caller.
- Object key order: `Object.keys` lists integer-like keys first, in numeric order. The model keeps first-assignment order for every key, which matches the source only when no property name is integer-like.
- Style values are non-negative integers or strings. Fractions, negative numbers and other JavaScript values are not modelled.
- Css.UnCamelCase: case mapping is ASCII only. Every non-ASCII character is treated as having no case, so it equals its own upper-case form and is prefixed with `-` unchanged. The source uses Unicode case mapping: it leaves a non-ASCII lower-case letter alone (`"é"` stays `"é"`) and lowers a non-ASCII capital (`"É"` becomes `"-é"`, where the model gives `"-É"`). `Css.UnCamelCaseLength` and `Css.UnCamelCaseFixedPoints` agree with the source on ASCII strings only; on other strings the source has more fixed points than `a` to `z`.
- Css.NatToString: `${n}` writes a JavaScript number from 10^21 upwards in exponent form (`1e+21`), and above 2^53 not every integer is a JavaScript number. The model writes every natural number in plain decimal, so `Css.Render`, `Css.Pixels` and `Css.NumberRendering` match the source for integers below 2^53.
- Browser.Element.AddClasses and Browser.Element.RemoveClasses: `classList.add` and `classList.remove` throw a `DOMException` when a token is empty or contains whitespace. The model adds or removes such tokens without an exception, and so do both `addClassName` and both `removeClassName` that use them.
- JsObject.Put: in the source, `o["__proto__"] = v` in either `setStyle` calls the inherited `__proto__` setter and creates no own key. The model stores `__proto__` as an ordinary key.
- The DOM: an attach is recorded as an event. Re-parenting a node that already has a parent, the resulting tree, the order of `classList` tokens, and `textContent` of elements with children are not modelled.
- `buildElement()` (_DOM.js) and `element()`, `childs` and `name` (components.js) only return a field. The model reads the field directly.
- `setClickHandler` (both files) registers a browser event callback, and is left out.
- `SVGIcon` (components.js:162-205) depends on namespaced DOM calls, `innerHTML` and an SVG table outside the repository, and is left out.
- `Button` and `Title` (components.js:207-295) are fixed style configurations and are not modelled. `Css.NumberRendering` covers how their numeric sizes are written.
- The two files each declare a global `Component` and `unCamelCase`, and the clash depends on the order in which scripts load. Each file's variant is modelled in its own module.
- The demo wiring in script.js is not modelled as such. `Dom.ButtonWithHeading` states what its one `children` call does.
