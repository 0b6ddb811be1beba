/**
 * The RESTCONF `fields` query parameter (section 4.8.3 of RFC 8040).
 *
 * A parameter is a non-empty list of node selectors, together with the
 * query text it was parsed from. A node selector is a non-empty path of
 * api-identifiers, optionally narrowed by nested selectors; no selector can
 * be built with an empty path, so every selector reachable from a parameter
 * has one.
 *
 * The grammar of the parameter's text is not modelled: parse takes the
 * selector parser as a function. How an api-identifier is printed is taken
 * as a function too.
 */
module RestconfFields {
  import opened Wrappers

  /** A `[module-name:]identifier` from an api-path; its internals are not modelled. */
  datatype ApiIdentifier = ApiIdentifier(moduleName: Option<string>, identifier: string)

  /** A RESTCONF query-parameter parse failure, with the offset the parser reports. */
  datatype ParseError = ParseError(message: string, errorOffset: int)

  /** The exceptions the constructors and parse can throw. */
  datatype Exception =
    | IllegalArgument(message: string)
    | ParseException(error: ParseError)

  const NO_PATH_MESSAGE := "At least path segment is required"
  const NO_SELECTOR_MESSAGE := "At least one selector is required"

  /** A selector for the node at `path`, whose children are filtered further by `subSelectors` (all of them when there are none). */
  datatype NodeSelector = NodeSelector(path: seq<ApiIdentifier>, subSelectors: seq<NodeSelector>)

  /** The selector and every selector nested in it have a non-empty path. */
  predicate WellFormed(s: NodeSelector)
    decreases s
  {
    |s.path| >= 1 && forall i :: 0 <= i < |s.subSelectors| ==> WellFormed(s.subSelectors[i])
  }

  /** A selector that can exist: one built by the constructors below. */
  type Selector = s: NodeSelector | WellFormed(s)
    witness NodeSelector([ApiIdentifier(None, "a")], [])

  /** NodeSelector(path, subSelectors): rejects an empty path. */
  function NewNodeSelector(path: seq<ApiIdentifier>, subSelectors: seq<Selector>): (r: Result<Selector, Exception>)
    ensures r.Success? <==> |path| >= 1
    ensures r.Success? ==> r.value.path == path && r.value.subSelectors == subSelectors
    ensures r.Failure? ==> r.error == IllegalArgument(NO_PATH_MESSAGE)
  {
    if |path| == 0 then Failure(IllegalArgument(NO_PATH_MESSAGE))
    else Success(NodeSelector(path, subSelectors))
  }

  /** NodeSelector(path): a selector that selects all children of the node. */
  function NewLeafSelector(path: seq<ApiIdentifier>): (r: Result<Selector, Exception>)
    ensures r.Success? <==> |path| >= 1
    ensures r.Success? ==> r.value.path == path && r.value.subSelectors == []
    ensures r.Failure? ==> r.error == IllegalArgument(NO_PATH_MESSAGE)
  {
    NewNodeSelector(path, [])
  }

  /** path(): never empty. */
  function Path(s: Selector): (r: seq<ApiIdentifier>)
    ensures |r| >= 1
  {
    s.path
  }

  /** subSelectors(): the nested selectors, each of them with a non-empty path. */
  function SubSelectors(s: Selector): (r: seq<Selector>)
    ensures |r| == |s.subSelectors|
    ensures forall i :: 0 <= i < |r| ==> |r[i].path| >= 1
  {
    s.subSelectors
  }

  /** A selector is rebuilt from its accessors. */
  lemma SelectorRoundTrip(s: Selector)
    ensures NewNodeSelector(Path(s), SubSelectors(s)) == Success(s)
  {
  }

  /** The `fields` parameter: its selectors and the text it was parsed from. */
  datatype FieldsParam = FieldsParam(nodeSelectors: seq<Selector>, paramValue: string)

  /** A parameter that can exist: one with at least one selector. */
  type Fields = p: FieldsParam | |p.nodeSelectors| >= 1
    witness FieldsParam([NodeSelector([ApiIdentifier(None, "a")], [])], "a")

  /** The private constructor: rejects an empty selector list. */
  function NewFieldsParam(nodeSelectors: seq<Selector>, uriValue: string): (r: Result<Fields, Exception>)
    ensures r.Success? <==> |nodeSelectors| >= 1
    ensures r.Success? ==> r.value.nodeSelectors == nodeSelectors && r.value.paramValue == uriValue
    ensures r.Failure? ==> r.error == IllegalArgument(NO_SELECTOR_MESSAGE)
  {
    if |nodeSelectors| == 0 then Failure(IllegalArgument(NO_SELECTOR_MESSAGE))
    else Success(FieldsParam(nodeSelectors, uriValue))
  }

  /**
   * parse(str): the selectors the parser finds, with `str` kept verbatim as
   * the parameter's value. A parse failure is passed on; a parser result
   * with no selectors is rejected by the constructor.
   */
  function Parse(parser: string -> Result<seq<Selector>, ParseError>, str: string): (r: Result<Fields, Exception>)
    ensures r.Success? <==> parser(str).Success? && |parser(str).value| >= 1
    ensures r.Success? ==> parser(str) == Success(r.value.nodeSelectors) && r.value.paramValue == str
    ensures parser(str).Failure? ==> r == Failure(ParseException(parser(str).error))
    ensures parser(str) == Success([]) ==> r == Failure(IllegalArgument(NO_SELECTOR_MESSAGE))
  {
    match parser(str)
    case Failure(e) => Failure(ParseException(e))
    case Success(selectors) => NewFieldsParam(selectors, str)
  }

  /** nodeSelectors(): never empty. */
  function NodeSelectors(p: Fields): (r: seq<Selector>)
    ensures |r| >= 1
  {
    p.nodeSelectors
  }

  /** paramValue(): the text the parameter was parsed from. */
  function ParamValue(p: Fields): string
  {
    p.paramValue
  }

  /** Parsing a parameter's own value, with a parser that finds its selectors there, gives the parameter back. */
  lemma ParseRoundTrip(parser: string -> Result<seq<Selector>, ParseError>, p: Fields)
    requires parser(ParamValue(p)) == Success(NodeSelectors(p))
    ensures Parse(parser, ParamValue(p)) == Success(p)
  {
  }

  /** A successful parse keeps the text it was given as paramValue, whatever the parser found. */
  lemma ParseKeepsValue(parser: string -> Result<seq<Selector>, ParseError>, str: string)
    requires Parse(parser, str).Success?
    ensures ParamValue(Parse(parser, str).value) == str
    ensures NodeSelectors(Parse(parser, str).value) == parser(str).value
  {
  }

  /** The parameter's name in a query: `fields`. */
  const URI_NAME := "fields"

  /** paramName(): the query-parameter name. */
  function ParamName(p: Fields): (r: string)
    ensures r == "fields"
  {
    URI_NAME
  }

  /** capabilityUri(): the RESTCONF `fields` capability. */
  function CapabilityUri(): (r: string)
    ensures r == "urn:ietf:params:restconf:capability:fields:1.0"
  {
    "urn:ietf:params:restconf:capability:" + URI_NAME + ":1.0"
  }

  // ------------------------------------------------------------------
  // toString, as MoreObjects.toStringHelper renders it

  /** MoreObjects.ToStringHelper: a class name and the name=value entries added to it. */
  datatype ToStringHelper = ToStringHelper(className: string, entries: seq<(string, string)>)

  function Add(h: ToStringHelper, name: string, value: string): ToStringHelper
  {
    h.(entries := h.entries + [(name, value)])
  }

  /** The entries as `name=value`, separated by ", ". */
  function JoinEntries(entries: seq<(string, string)>): string
    decreases |entries|
  {
    if entries == [] then ""
    else if |entries| == 1 then entries[0].0 + "=" + entries[0].1
    else entries[0].0 + "=" + entries[0].1 + ", " + JoinEntries(entries[1..])
  }

  /** ToStringHelper.toString: `ClassName{name=value, ...}`. */
  function Render(h: ToStringHelper): string
  {
    h.className + "{" + JoinEntries(h.entries) + "}"
  }

  /** The items separated by ", ". */
  function Join(items: seq<string>): string
    decreases |items|
  {
    if items == [] then ""
    else if |items| == 1 then items[0]
    else items[0] + ", " + Join(items[1..])
  }

  /** A list's toString: `[a, b, ...]`. */
  function ListString(items: seq<string>): string
  {
    "[" + Join(items) + "]"
  }

  /** The toString of the identifiers of a path. */
  function PathString(show: ApiIdentifier -> string, path: seq<ApiIdentifier>): string
  {
    ListString(seq(|path|, i requires 0 <= i < |path| => show(path[i])))
  }

  /** NodeSelector.toString: the path always, the sub-selectors only when there are any. */
  function SelectorString(show: ApiIdentifier -> string, s: NodeSelector): string
    decreases s
  {
    var helper := Add(ToStringHelper("NodeSelector", []), "path", PathString(show, s.path));
    Render(
      if |s.subSelectors| == 0 then helper
      else Add(helper, "subSelectors", ListString(ChildStrings(show, s))))
  }

  /** The toString of each sub-selector, in order. */
  function ChildStrings(show: ApiIdentifier -> string, s: NodeSelector): (r: seq<string>)
    ensures |r| == |s.subSelectors|
    decreases s, 0
  {
    seq(|s.subSelectors|, i requires 0 <= i < |s.subSelectors| => SelectorString(show, s.subSelectors[i]))
  }

  lemma RenderOne(c: string, n: string, v: string)
    ensures Render(ToStringHelper(c, [(n, v)])) == c + "{" + n + "=" + v + "}"
  {
  }

  lemma RenderTwo(c: string, n1: string, v1: string, n2: string, v2: string)
    ensures Render(ToStringHelper(c, [(n1, v1), (n2, v2)])) == c + "{" + n1 + "=" + v1 + ", " + n2 + "=" + v2 + "}"
  {
    var entries := [(n1, v1), (n2, v2)];
    assert entries[1..] == [(n2, v2)];
    assert JoinEntries(entries[1..]) == n2 + "=" + v2;
    assert JoinEntries(entries) == n1 + "=" + v1 + ", " + (n2 + "=" + v2);
  }

  /**
   * What NodeSelector.toString prints: `NodeSelector{path=[...]}` for a
   * selector without sub-selectors, and
   * `NodeSelector{path=[...], subSelectors=[...]}` otherwise.
   */
  lemma SelectorStringShape(show: ApiIdentifier -> string, s: NodeSelector)
    ensures |s.subSelectors| == 0 ==>
      SelectorString(show, s) == "NodeSelector{path=" + PathString(show, s.path) + "}"
    ensures |s.subSelectors| > 0 ==>
      SelectorString(show, s) ==
        "NodeSelector{path=" + PathString(show, s.path) + ", subSelectors=" + ListString(ChildStrings(show, s)) + "}"
  {
    var path := PathString(show, s.path);
    var helper := Add(ToStringHelper("NodeSelector", []), "path", path);
    assert helper == ToStringHelper("NodeSelector", [("path", path)]);
    if |s.subSelectors| == 0 {
      RenderOne("NodeSelector", "path", path);
      assert "NodeSelector" + "{" + "path" + "=" == "NodeSelector{path=";
    } else {
      var children := ListString(ChildStrings(show, s));
      assert Add(helper, "subSelectors", children) == ToStringHelper("NodeSelector", [("path", path), ("subSelectors", children)]);
      RenderTwo("NodeSelector", "path", path, "subSelectors", children);
      assert "NodeSelector" + "{" + "path" + "=" == "NodeSelector{path=";
      assert "NodeSelector" + "{" + "path" + "=" + path + ", " + "subSelectors" + "=" ==
        "NodeSelector{path=" + path + ", subSelectors=";
    }
  }

  /** The toString of each of a parameter's selectors, in order. */
  function SelectorStrings(show: ApiIdentifier -> string, p: Fields): (r: seq<string>)
    ensures |r| == |p.nodeSelectors|
  {
    seq(|p.nodeSelectors|, i requires 0 <= i < |p.nodeSelectors| => SelectorString(show, p.nodeSelectors[i]))
  }

  /** FieldsParam.toString: the selectors only. */
  function FieldsString(show: ApiIdentifier -> string, p: Fields): string
  {
    Render(Add(ToStringHelper("FieldsParam", []), "nodeSelectors", ListString(SelectorStrings(show, p))))
  }

  /** What FieldsParam.toString prints: `FieldsParam{nodeSelectors=[...]}`, without the parameter's text. */
  lemma FieldsStringShape(show: ApiIdentifier -> string, p: Fields)
    ensures FieldsString(show, p) == "FieldsParam{nodeSelectors=" + ListString(SelectorStrings(show, p)) + "}"
  {
    var selectors := ListString(SelectorStrings(show, p));
    RenderSingle("FieldsParam", "nodeSelectors", selectors);
    assert "FieldsParam" + "{" + "nodeSelectors" + "=" + selectors + "}" == "FieldsParam{nodeSelectors=" + selectors + "}" by {
      assert "FieldsParam" + "{" + "nodeSelectors" + "=" == "FieldsParam{nodeSelectors=";
    }
  }

  /** A helper with a single entry renders as `ClassName{name=value}`. */
  lemma RenderSingle(c: string, n: string, v: string)
    ensures Render(Add(ToStringHelper(c, []), n, v)) == c + "{" + n + "=" + v + "}"
  {
    assert Add(ToStringHelper(c, []), n, v) == ToStringHelper(c, [(n, v)]);
    RenderOne(c, n, v);
  }
}
