/** The parsed input trees the factory walks, reduced to what it reads.
    The structural (.sdf) tree is given as the world's `model` children in
    document order; the initial-state (.isd) tree is a generic XML element tree. */
module Elements {
  import opened Wrappers

  /** A `link` child of a model: its `name` attribute, the value of its
      visual/pose element and of its visual/geometry/box/size element. */
  datatype Link = Link(name: string, visualPose: string, boxSize: string)

  /** A `model` element: its `name` attribute, the value of its `pose` child
      and its `link` children in document order. */
  datatype ModelElement = ModelElement(name: string, pose: string, links: seq<Link>)

  /** The root of a parsed structural file: the `model` elements of its world. */
  datatype SdfRoot = SdfRoot(models: seq<ModelElement>)

  /** An XML element: tag, attributes and child elements in document order. */
  datatype XmlElement = XmlElement(tag: string, attributes: map<string, string>, children: seq<XmlElement>)

  /** A parsed initial-state document; it may lack a root element. */
  datatype IsdRoot = IsdRoot(rootElement: Option<XmlElement>)

  /** Index of the first child element with the given tag (TiXmlHandle::FirstChild). */
  function FirstChildIndex(children: seq<XmlElement>, tag: string): (r: Option<nat>)
    ensures r.Some? ==> r.value < |children| && children[r.value].tag == tag &&
                        forall k :: 0 <= k < r.value ==> children[k].tag != tag
    ensures r.None? ==> forall k :: 0 <= k < |children| ==> children[k].tag != tag
    decreases |children|
  {
    if |children| == 0 then None
    else if children[0].tag == tag then Some(0)
    else match FirstChildIndex(children[1..], tag)
      case None => None
      case Some(i) => Some(i + 1)
  }

  /** The elements the fact (or goal) loop visits: starting at the first `item`
      child of the first `group` child of the root element, then every later
      sibling element whatever its tag (NextSiblingElement() takes no tag). */
  function SiblingsFrom(isd: IsdRoot, group: string, item: string): (r: seq<XmlElement>)
    ensures isd.rootElement.None? ==> r == []
    ensures |r| > 0 ==> r[0].tag == item
    ensures forall g, i ::
              (isd.rootElement.Some? &&
               FirstChildIndex(isd.rootElement.value.children, group) == Some(g) &&
               FirstChildIndex(isd.rootElement.value.children[g].children, item) == Some(i))
              ==> r == isd.rootElement.value.children[g].children[i..]
    ensures isd.rootElement.Some? && FirstChildIndex(isd.rootElement.value.children, group).None? ==> r == []
    ensures forall g ::
              (isd.rootElement.Some? &&
               FirstChildIndex(isd.rootElement.value.children, group) == Some(g) &&
               FirstChildIndex(isd.rootElement.value.children[g].children, item).None?)
              ==> r == []
  {
    match isd.rootElement
    case None => []
    case Some(root) =>
      match FirstChildIndex(root.children, group)
      case None => []
      case Some(g) =>
        var gs := root.children[g].children;
        match FirstChildIndex(gs, item)
        case None => []
        case Some(i) => gs[i..]
  }

  /** The walk takes every sibling after the first `item`, whatever its tag:
      a `facts` group holding a fact and then any other element yields both. */
  lemma {:induction false} SiblingStepTakesAnyTag(a: XmlElement, b: XmlElement, attributes: map<string, string>)
    requires a.tag == "fact"
    ensures SiblingsFrom(IsdRoot(Some(XmlElement("isd", attributes, [XmlElement("facts", attributes, [a, b])]))), "facts", "fact") == [a, b]
  {
    var group := XmlElement("facts", attributes, [a, b]);
    assert FirstChildIndex([group], "facts") == Some(0);
    assert FirstChildIndex([a, b], "fact") == Some(0);
    assert [a, b][0..] == [a, b];
  }
}
