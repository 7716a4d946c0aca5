/** The little of the browser DOM the components touch: elements with a text
    and a class list, and a document that resolves ids and records every
    `appendChild` as an attach event. Nodes are not moved or detached: the
    model keeps the order in which attaches happened, not the tree they
    leave behind. */
module Browser {
  import opened Wrappers

  class Element {
    const tag: string
    /** `textContent`. */
    var text: string
    /** `classList`, as a set of tokens. */
    var classes: set<string>

    /** `document.createElement(tag)`. */
    constructor(tag: string)
      ensures this.tag == tag && text == "" && classes == {}
    {
      this.tag := tag;
      text := "";
      classes := {};
    }

    /** `textContent = text`. */
    method SetText(text: string)
      modifies this`text
      ensures this.text == text && classes == old(classes)
    {
      this.text := text;
    }

    /** `textContent += more`. */
    method AppendText(more: string)
      modifies this`text
      ensures text == old(text) + more && classes == old(classes)
    {
      text := text + more;
    }

    /** `classList.add(...names)`. */
    method AddClasses(names: seq<string>)
      modifies this`classes
      ensures classes == old(classes) + (set n | n in names)
      ensures text == old(text)
    {
      classes := classes + (set n | n in names);
    }

    /** `classList.remove(...names)`. */
    method RemoveClasses(names: seq<string>)
      modifies this`classes
      ensures classes == old(classes) - (set n | n in names)
      ensures text == old(text)
    {
      classes := classes - (set n | n in names);
    }
  }

  /** `parent.appendChild(child)`. */
  datatype Attach = Attach(child: Element, parent: Element)

  class Document {
    /** `getElementById`: the elements that carry an id. */
    const byId: map<string, Element>
    /** Every `appendChild` performed so far, oldest first. */
    var log: seq<Attach>

    constructor(byId: map<string, Element>)
      ensures this.byId == byId && log == []
    {
      this.byId := byId;
      log := [];
    }

    function GetElementById(id: string): (r: Option<Element>)
      ensures r.Some? <==> id in byId
      ensures r.Some? ==> r.value == byId[id]
    {
      if id in byId then Some(byId[id]) else None
    }

    method AppendChild(parent: Element, child: Element)
      modifies this`log
      ensures log == old(log) + [Attach(child, parent)]
    {
      log := log + [Attach(child, parent)];
    }
  }
}
