/** The tinyxml2 document tree as the annotation decoder sees it once the file
    has been loaded: elements with attributes and children, text nodes, and the
    other node kinds (comments, declarations, unknown markup), plus the
    navigation calls the decoder makes on it. */
module Xml {
  import opened Wrappers

  datatype Attribute = Attribute(name: string, value: string)

  /** An element: tag name, attributes in document order, child nodes in document order. */
  datatype Element = Element(name: string, attributes: seq<Attribute>, children: seq<Node>)

  /** A node of the tree. `OtherNode` stands for comments, declarations and unknown
      markup: they are children of their parent but neither elements nor text. */
  datatype Node = ElementNode(element: Element) | TextNode(text: string) | OtherNode(content: string)

  predicate IsElementNamed(n: Node, name: string)
  {
    n.ElementNode? && n.element.name == name
  }

  /** The index of the first attribute at or after `from` called `name`. */
  function AttributeIndex(attributes: seq<Attribute>, name: string, from: nat): (r: Option<nat>)
    decreases |attributes| - from
    ensures r.Some? ==> from <= r.value < |attributes| && attributes[r.value].name == name
    ensures r.Some? ==> forall k :: from <= k < r.value ==> attributes[k].name != name
    ensures r.None? ==> forall k :: from <= k < |attributes| ==> attributes[k].name != name
  {
    if from >= |attributes| then None
    else if attributes[from].name == name then Some(from)
    else AttributeIndex(attributes, name, from + 1)
  }

  /** XMLElement::FindAttribute: the value of the first attribute called `name`
      (a parsed element may hold the same name twice). */
  function FindAttribute(e: Element, name: string): (r: Option<string>)
    ensures r.None? <==> forall k :: 0 <= k < |e.attributes| ==> e.attributes[k].name != name
    ensures r.Some? ==> exists k :: 0 <= k < |e.attributes| && e.attributes[k] == Attribute(name, r.value)
    ensures r.Some? ==> AttributeIndex(e.attributes, name, 0).Some?
                        && r.value == e.attributes[AttributeIndex(e.attributes, name, 0).value].value
  {
    match AttributeIndex(e.attributes, name, 0)
    case None => None
    case Some(i) => Some(e.attributes[i].value)
  }

  /** The index of the first node at or after `from` that is an element called
      `name`: the walk behind FirstChildElement and NextSiblingElement. */
  function NextElementIndex(nodes: seq<Node>, name: string, from: nat): (r: Option<nat>)
    decreases |nodes| - from
    ensures r.Some? ==> from <= r.value < |nodes| && IsElementNamed(nodes[r.value], name)
    ensures r.Some? ==> forall k :: from <= k < r.value ==> !IsElementNamed(nodes[k], name)
    ensures r.None? ==> forall k :: from <= k < |nodes| ==> !IsElementNamed(nodes[k], name)
  {
    if from >= |nodes| then None
    else if IsElementNamed(nodes[from], name) then Some(from)
    else NextElementIndex(nodes, name, from + 1)
  }

  /** The first element called `name` among `nodes` (XMLDocument::FirstChildElement
      when `nodes` are the top-level nodes of the document). */
  function FirstElement(nodes: seq<Node>, name: string): (r: Option<Element>)
    ensures r.None? <==> forall k :: 0 <= k < |nodes| ==> !IsElementNamed(nodes[k], name)
    ensures r.Some? ==> r.value.name == name && exists k :: 0 <= k < |nodes| && nodes[k] == ElementNode(r.value)
  {
    match NextElementIndex(nodes, name, 0)
    case None => None
    case Some(i) => Some(nodes[i].element)
  }

  /** XMLElement::FirstChildElement. */
  function FirstChildElement(e: Element, name: string): (r: Option<Element>)
    ensures r.None? <==> forall k :: 0 <= k < |e.children| ==> !IsElementNamed(e.children[k], name)
    ensures r.Some? ==> r.value.name == name
  {
    FirstElement(e.children, name)
  }

  /** XMLElement::NextSiblingElement for the element at index `i` of `siblings`. */
  function NextSiblingElement(siblings: seq<Node>, i: nat, name: string): (r: Option<nat>)
    ensures r.Some? ==> i < r.value < |siblings| && IsElementNamed(siblings[r.value], name)
    ensures r.Some? ==> forall k :: i < k < r.value ==> !IsElementNamed(siblings[k], name)
    ensures r.None? <==> forall k :: i < k < |siblings| ==> !IsElementNamed(siblings[k], name)
  {
    NextElementIndex(siblings, name, i + 1)
  }

  /** XMLNode::NoChildren: no child node of any kind, text and comments included. */
  predicate NoChildren(e: Element): (none: bool)
    ensures none ==> GetText(e).None?
  {
    |e.children| == 0
  }

  /** XMLElement::GetText: the text of the first child when that child is a text node. */
  function GetText(e: Element): (r: Option<string>)
    ensures r.Some? <==> |e.children| > 0 && e.children[0].TextNode?
    ensures r.Some? ==> e.children[0] == TextNode(r.value)
  {
    if |e.children| > 0 && e.children[0].TextNode? then Some(e.children[0].text) else None
  }

  /** The elements called `name` among `nodes`, in document order: the sequence a
      FirstChildElement / NextSiblingElement walk visits. */
  function ElementsNamed(nodes: seq<Node>, name: string): (r: seq<Element>)
    ensures |r| <= |nodes|
    ensures forall k :: 0 <= k < |r| ==> r[k].name == name
  {
    if nodes == [] then []
    else
      var last := nodes[|nodes| - 1];
      ElementsNamed(nodes[..|nodes| - 1], name) + (if IsElementNamed(last, name) then [last.element] else [])
  }

  lemma ElementsNamedStep(nodes: seq<Node>, name: string, i: nat)
    requires i < |nodes|
    ensures ElementsNamed(nodes[..i + 1], name)
         == ElementsNamed(nodes[..i], name) + (if IsElementNamed(nodes[i], name) then [nodes[i].element] else [])
  {
    assert nodes[..i + 1][..i] == nodes[..i];
  }

  /** Nodes that are not elements called `name` do not change the walk. */
  lemma {:induction false} ElementsNamedGap(nodes: seq<Node>, name: string, a: nat, b: nat)
    requires a <= b <= |nodes|
    requires forall k :: a <= k < b ==> !IsElementNamed(nodes[k], name)
    ensures ElementsNamed(nodes[..b], name) == ElementsNamed(nodes[..a], name)
    decreases b - a
  {
    if a < b {
      ElementsNamedGap(nodes, name, a, b - 1);
      ElementsNamedStep(nodes, name, b - 1);
    }
  }

  /** The walk over a prefix is a prefix of the walk over a longer prefix. */
  lemma {:induction false} ElementsNamedPrefix(nodes: seq<Node>, name: string, a: nat, b: nat)
    requires a <= b <= |nodes|
    ensures ElementsNamed(nodes[..a], name) <= ElementsNamed(nodes[..b], name)
    decreases b - a
  {
    if a < b {
      ElementsNamedPrefix(nodes, name, a, b - 1);
      ElementsNamedStep(nodes, name, b - 1);
    }
  }

  /** The element the walk stands on at index `i` is the walk's entry number
      |ElementsNamed(nodes[..i])|. */
  lemma ElementsNamedAt(nodes: seq<Node>, name: string, i: nat)
    requires i < |nodes| && IsElementNamed(nodes[i], name)
    ensures |ElementsNamed(nodes[..i], name)| < |ElementsNamed(nodes, name)|
    ensures ElementsNamed(nodes, name)[|ElementsNamed(nodes[..i], name)|] == nodes[i].element
  {
    ElementsNamedStep(nodes, name, i);
    ElementsNamedPrefix(nodes, name, i + 1, |nodes|);
    assert nodes[..|nodes|] == nodes;
  }

  /** One NextSiblingElement step from the element at `i`, which is entry
      number |ElementsNamed(nodes[..i])| of the walk: either that was the
      walk's last entry, or the step lands on the next entry. */
  lemma NextSiblingStep(nodes: seq<Node>, name: string, i: nat)
    requires i < |nodes| && IsElementNamed(nodes[i], name)
    ensures NextSiblingElement(nodes, i, name).None? ==>
              |ElementsNamed(nodes, name)| == |ElementsNamed(nodes[..i], name)| + 1
    ensures NextSiblingElement(nodes, i, name).Some? ==>
              var j := NextSiblingElement(nodes, i, name).value;
              && i < j < |nodes| && IsElementNamed(nodes[j], name)
              && |ElementsNamed(nodes[..j], name)| == |ElementsNamed(nodes[..i], name)| + 1
              && |ElementsNamed(nodes[..j], name)| < |ElementsNamed(nodes, name)|
              && ElementsNamed(nodes, name)[|ElementsNamed(nodes[..j], name)|] == nodes[j].element
  {
    ElementsNamedStep(nodes, name, i);
    match NextSiblingElement(nodes, i, name)
    case None =>
      ElementsNamedGap(nodes, name, i + 1, |nodes|);
      assert nodes[..|nodes|] == nodes;
    case Some(j) =>
      ElementsNamedGap(nodes, name, i + 1, j);
      ElementsNamedAt(nodes, name, j);
  }

  /** FirstElement finds the head of the walk, and nothing exactly when the walk is empty. */
  lemma FirstElementIsHead(nodes: seq<Node>, name: string)
    ensures FirstElement(nodes, name).None? <==> ElementsNamed(nodes, name) == []
    ensures FirstElement(nodes, name).Some? ==> FirstElement(nodes, name).value == ElementsNamed(nodes, name)[0]
  {
    assert nodes[..|nodes|] == nodes;
    assert nodes[..0] == [];
    match NextElementIndex(nodes, name, 0)
    case None =>
      ElementsNamedGap(nodes, name, 0, |nodes|);
    case Some(i) =>
      ElementsNamedGap(nodes, name, 0, i);
      ElementsNamedAt(nodes, name, i);
  }
}
