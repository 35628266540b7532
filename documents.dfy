/**
 * Abstract views of the two kinds of response the client reads, standing in
 * for the XML parsing of the API library and for the HTML parser's XPath
 * lookup. Only the lookups the client performs are modelled.
 */
module Documents {
  import opened Wrappers
  import opened Strings

  /** One element of a parsed API response: its tag name and its inner text. */
  datatype XmlNode = XmlNode(name: string, text: string)

  /**
   * What an API call followed by parsing of its XML body yields: either one
   * of the two raised an exception, or the list of parsed elements.
   */
  datatype ApiReply = Failed | Parsed(nodes: seq<XmlNode>)

  /**
   * Tag names are compared without regard to ASCII case: the client asks for
   * `region`, `name` and `flag` in lower case and for `MEMBERS` in upper
   * case, from one service that writes all its tags in one case.
   */
  predicate SameTag(tag: string, name: string)
    decreases |tag|
  {
    |tag| == |name| &&
    (tag == [] || (ToLowerChar(tag[0]) == ToLowerChar(name[0]) && SameTag(tag[1..], name[1..])))
  }

  /** Comparing tags is comparing their lower-cased forms, as `string.ToLower` gives them. */
  lemma {:induction false} SameTagIsLowerEqual(tag: string, name: string)
    ensures SameTag(tag, name) <==> ToLower(tag) == ToLower(name)
    decreases |tag|
  {
    if |tag| == |name| && tag != [] {
      SameTagIsLowerEqual(tag[1..], name[1..]);
      assert ToLower(tag) == [ToLowerChar(tag[0])] + ToLower(tag[1..]);
      assert ToLower(name) == [ToLowerChar(name[0])] + ToLower(name[1..]);
      if ToLower(tag) == ToLower(name) {
        assert ToLower(tag)[1..] == ToLower(tag[1..]);
        assert ToLower(name)[1..] == ToLower(name[1..]);
      }
    }
  }

  /** `FindProperty`: the text of the first element, in document order, with this tag name. */
  function FindProperty(nodes: seq<XmlNode>, name: string): (r: Option<string>)
    ensures r.None? <==> forall i :: 0 <= i < |nodes| ==> !SameTag(nodes[i].name, name)
    ensures r.Some? ==> exists k :: FirstNamed(nodes, name, k) && nodes[k].text == r.value
    decreases |nodes|
  {
    if nodes == [] then None
    else if SameTag(nodes[0].name, name) then
      assert FirstNamed(nodes, name, 0);
      Some(nodes[0].text)
    else
      var r := FindProperty(nodes[1..], name);
      assert r.Some? ==> exists k :: FirstNamed(nodes, name, k) && nodes[k].text == r.value by {
        if r.Some? {
          var k :| FirstNamed(nodes[1..], name, k) && nodes[1..][k].text == r.value;
          assert FirstNamed(nodes, name, k + 1);
        }
      }
      r
  }

  /** `k` is the index of the first element whose tag is `name`. */
  predicate FirstNamed(nodes: seq<XmlNode>, name: string, k: int)
  {
    0 <= k < |nodes| && SameTag(nodes[k].name, name) &&
    forall j :: 0 <= j < k ==> !SameTag(nodes[j].name, name)
  }

  /** An element of a parsed HTML page: its tag name and its attributes. */
  datatype HtmlElement = HtmlElement(tag: string, attributes: map<string, string>)

  /** A parsed HTML page as the list of its elements in document order. */
  type HtmlDoc = seq<HtmlElement>

  /** The element matches the XPath `//input[@name='<name>']`. */
  predicate IsInputNamed(e: HtmlElement, name: string)
  {
    e.tag == "input" && "name" in e.attributes && e.attributes["name"] == name
  }

  /** `SelectSingleNode("//input[@name='<name>']")`: the index of the first matching element, if any. */
  function SelectInput(doc: HtmlDoc, name: string): (r: Option<nat>)
    ensures r.None? <==> forall i :: 0 <= i < |doc| ==> !IsInputNamed(doc[i], name)
    ensures r.Some? ==> r.value < |doc| && IsInputNamed(doc[r.value], name) &&
                        forall j :: 0 <= j < r.value ==> !IsInputNamed(doc[j], name)
    decreases |doc|
  {
    if doc == [] then None
    else if IsInputNamed(doc[0], name) then Some(0)
    else match SelectInput(doc[1..], name)
      case None => None
      case Some(k) => Some(k + 1)
  }

  /**
   * `SelectSingleNode(...).Attributes["value"].Value`: the value attribute of
   * the first input with this name. `None` stands for the exception raised
   * when there is no such input or it has no value attribute.
   */
  function InputValue(doc: HtmlDoc, name: string): (r: Option<string>)
    ensures r.Some? <==> exists k :: FirstInput(doc, name, k) && "value" in doc[k].attributes
    ensures r.Some? ==> forall k :: FirstInput(doc, name, k) ==> r.value == doc[k].attributes["value"]
  {
    match SelectInput(doc, name)
    case None => None
    case Some(k) =>
      assert FirstInput(doc, name, k);
      if "value" in doc[k].attributes then Some(doc[k].attributes["value"]) else None
  }

  /** `k` is the index of the first input element named `name`. */
  predicate FirstInput(doc: HtmlDoc, name: string, k: int)
  {
    0 <= k < |doc| && IsInputNamed(doc[k], name) &&
    forall j :: 0 <= j < k ==> !IsInputNamed(doc[j], name)
  }

  /**
   * Markup around the input does not matter: inserting an element that is not
   * an input with this name anywhere in the page leaves the lookup unchanged.
   */
  lemma {:induction false} InputValueIgnoresOtherMarkup(before: HtmlDoc, e: HtmlElement, after: HtmlDoc, name: string)
    requires !IsInputNamed(e, name)
    ensures InputValue(before + [e] + after, name) == InputValue(before + after, name)
    decreases |before|
  {
    if before == [] {
      assert (before + [e] + after)[1..] == after;
      assert before + after == after;
    } else {
      InputValueIgnoresOtherMarkup(before[1..], e, after, name);
      assert (before + [e] + after)[1..] == before[1..] + [e] + after;
      assert (before + after)[1..] == before[1..] + after;
      SelectInputShift(before + [e] + after, name);
      SelectInputShift(before + after, name);
    }
  }

  /** How the lookup on a page relates to the lookup on the page without its first element. */
  lemma SelectInputShift(doc: HtmlDoc, name: string)
    requires doc != []
    ensures InputValue(doc, name) ==
      if IsInputNamed(doc[0], name) then
        (if "value" in doc[0].attributes then Some(doc[0].attributes["value"]) else None)
      else InputValue(doc[1..], name)
  {
  }
}
