/**
 * An explicit model of the parsed HTML document the article extractor walks.
 * A document is a list of root nodes; a node is either a text string or an
 * element with a tag name, its class list, its other attributes and its
 * children. A position in the document is a path of child indices from the
 * root. Each query the extractor makes of the parser (select_one, find_parent,
 * find_next_sibling, find_next, select, get_text, str) is a named function
 * below, defined on this tree in document (pre-)order.
 */
module Dom {
  import opened Options
  import opened Strings

  datatype Attr = Attr(key: string, value: string)

  datatype Node =
    | Text(text: string)
    | Elem(name: string, classes: seq<string>, attrs: seq<Attr>, children: seq<Node>)

  /** Child indices from the document root; [] is the document itself. */
  type Path = seq<nat>

  /** A node together with the path at which it sits. */
  type Located = (Path, Node)

  datatype Document = Document(roots: seq<Node>)

  /** `tag.get(key)` for an attribute other than `class`. */
  function GetAttr(n: Node, key: string): (r: Option<string>)
    ensures r.Some? ==> n.Elem? && exists i :: 0 <= i < |n.attrs| && n.attrs[i] == Attr(key, r.value)
  {
    if n.Text? then None else Lookup(n.attrs, key)
  }

  /** The value of attribute `key`; when the markup repeats it, the parser keeps the last one. */
  function Lookup(attrs: seq<Attr>, key: string): (r: Option<string>)
    ensures r.Some? ==> exists i :: (0 <= i < |attrs| && attrs[i] == Attr(key, r.value) &&
      forall j :: i < j < |attrs| ==> attrs[j].key != key)
    ensures r.None? ==> forall i :: 0 <= i < |attrs| ==> attrs[i].key != key
  {
    if attrs == [] then None
    else if attrs[|attrs| - 1].key == key then Some(attrs[|attrs| - 1].value)
    else Lookup(attrs[..|attrs| - 1], key)
  }

  /** The node is an element with tag `name`. */
  predicate IsTag(n: Node, name: string) {
    n.Elem? && n.name == name
  }

  // ---- serialisation (`str(tag)`) ------------------------------------------

  /** `str(node)`: a text node is its text, an element is its markup. */
  function Render(n: Node): (r: string)
    ensures n.Elem? ==> r != [] && r[0] == '<'
  {
    match n
    case Text(s) => s
    case Elem(name, classes, attrs, children) =>
      "<" + name + RenderClasses(classes) + RenderAttrs(attrs) + ">" + RenderAll(children) + "</" + name + ">"
  }

  function RenderAll(ns: seq<Node>): string
    decreases ns
  {
    if ns == [] then "" else Render(ns[0]) + RenderAll(ns[1..])
  }

  function RenderClasses(classes: seq<string>): string {
    if classes == [] then "" else " class=\"" + Join(" ", classes) + "\""
  }

  function RenderAttrs(attrs: seq<Attr>): string {
    if attrs == [] then "" else " " + attrs[0].key + "=\"" + attrs[0].value + "\"" + RenderAttrs(attrs[1..])
  }

  /** `str(node).strip() == ""`: only a text node of white space is blank. */
  predicate Blank(n: Node) {
    Strip(Render(n)) == []
  }

  /** An element is never blank: its markup starts with `<`. */
  lemma ElementNotBlank(n: Node)
    requires n.Elem?
    ensures !Blank(n)
  {
    StripEmptyIff(Render(n));
    assert !IsSpace(Render(n)[0]);
  }

  // ---- text (`get_text(" ", strip=True)`) ------------------------------------

  /** The stripped, non-empty text pieces below the given nodes, in order. */
  function Pieces(ns: seq<Node>): (r: seq<string>)
    ensures forall i :: 0 <= i < |r| ==> r[i] != []
    decreases ns
  {
    if ns == [] then []
    else
      var here := match ns[0]
        case Text(s) => if Strip(s) == [] then [] else [Strip(s)]
        case Elem(_, _, _, children) => Pieces(children);
      here + Pieces(ns[1..])
  }

  /** `get_text(" ", strip=True)` of one node (a text node included). */
  function TextOf(n: Node): string {
    Join(" ", Pieces([n]))
  }

  /** Every text piece is stripped: non-empty, with no white space at either end. */
  lemma {:induction false} PiecesTrimmed(ns: seq<Node>)
    ensures AllTrimmed(Pieces(ns))
    decreases ns
  {
    if ns != [] {
      PiecesTrimmed(ns[1..]);
      var here := match ns[0]
        case Text(s) => if Strip(s) == [] then [] else [Strip(s)]
        case Elem(_, _, _, children) => Pieces(children);
      match ns[0]
      case Text(s) => StripTrimmed(s);
      case Elem(_, _, _, children) => PiecesTrimmed(children);
      assert AllTrimmed(here);
      assert Pieces(ns) == here + Pieces(ns[1..]);
      AllTrimmedAppend(here, Pieces(ns[1..]));
    }
  }

  predicate AllTrimmed(ps: seq<string>) {
    forall i :: 0 <= i < |ps| ==> Trimmed(ps[i])
  }

  lemma AllTrimmedAppend(a: seq<string>, b: seq<string>)
    requires AllTrimmed(a) && AllTrimmed(b)
    ensures AllTrimmed(a + b)
  {
    forall i | 0 <= i < |a + b| ensures Trimmed((a + b)[i]) {
      if i >= |a| {
        assert (a + b)[i] == b[i - |a|];
      }
    }
  }

  /** The text of a node, as `strip=True` promises, has no white space at either end: stripping it again changes nothing. */
  lemma TextOfStripped(n: Option<Node>)
    ensures Strip(TextOfOpt(n)) == TextOfOpt(n)
  {
    if n.Some? {
      PiecesTrimmed([n.value]);
      JoinTrimmed(" ", Pieces([n.value]));
      if TextOf(n.value) != [] {
        StripNoSpaceEnds(TextOf(n.value));
      }
    }
  }

  /** `text_of(tag)`: the text of an optional element, "" for none. */
  function TextOfOpt(n: Option<Node>): string {
    if n.None? then "" else TextOf(n.value)
  }

  // ---- positions -----------------------------------------------------------

  /** The node at `path` below the nodes `ns`. */
  function NodeAt(ns: seq<Node>, path: Path): Option<Node>
    decreases |path|
  {
    if path == [] || path[0] >= |ns| then None
    else if |path| == 1 then Some(ns[path[0]])
    else match ns[path[0]]
      case Text(_) => None
      case Elem(_, _, _, children) => NodeAt(children, path[1..])
  }

  /** The children of the document (for []) or of the element at `path`. */
  function ChildrenAt(doc: Document, path: Path): seq<Node> {
    if path == [] then doc.roots
    else match NodeAt(doc.roots, path)
      case Some(Elem(_, _, _, children)) => children
      case _ => []
  }

  /** The nodes `ns[k..]`, each with its path below `base`. */
  function Listed(ns: seq<Node>, base: Path, k: nat): (r: seq<Located>)
    ensures |r| == if k <= |ns| then |ns| - k else 0
    ensures forall i :: 0 <= i < |r| ==> r[i] == (base + [k + i], ns[k + i])
    decreases |ns| - k
  {
    if k >= |ns| then [] else [(base + [k], ns[k])] + Listed(ns, base, k + 1)
  }

  /** `ns[k..]` and everything below them, with their paths, in document order. */
  function Flatten(ns: seq<Node>, base: Path, k: nat): (r: seq<Located>)
    ensures forall i :: 0 <= i < |r| ==> |r[i].0| > |base|
    decreases ns, |ns| - k
  {
    if k >= |ns| then []
    else
      var p := base + [k];
      var below := match ns[k]
        case Text(_) => []
        case Elem(_, _, _, children) => Flatten(children, p, 0);
      [(p, ns[k])] + below + Flatten(ns, base, k + 1)
  }

  /** Every node of the document in document order. */
  function AllNodes(doc: Document): seq<Located> {
    Flatten(doc.roots, [], 0)
  }

  /** The index of the first entry whose node satisfies `pred`. */
  function FirstIndex(es: seq<Located>, pred: Node -> bool): (r: Option<nat>)
    ensures r.Some? ==> r.value < |es| && pred(es[r.value].1)
    ensures r.Some? ==> forall j :: 0 <= j < r.value ==> !pred(es[j].1)
    ensures r.None? ==> forall j :: 0 <= j < |es| ==> !pred(es[j].1)
  {
    if es == [] then None
    else if pred(es[0].1) then Some(0)
    else match FirstIndex(es[1..], pred)
      case None => None
      case Some(i) => Some(i + 1)
  }

  /** The first entry whose node satisfies `pred`. */
  function First(es: seq<Located>, pred: Node -> bool): (r: Option<Located>)
    ensures r.Some? ==> r.value in es && pred(r.value.1)
    ensures r.Some? ==> exists i :: 0 <= i < |es| && es[i] == r.value && forall j :: 0 <= j < i ==> !pred(es[j].1)
    ensures r.None? ==> forall j :: 0 <= j < |es| ==> !pred(es[j].1)
  {
    match FirstIndex(es, pred)
    case None => None
    case Some(i) => Some(es[i])
  }

  /** The first entry satisfying `pred` is the one before which none does. */
  lemma FirstAt(es: seq<Located>, pred: Node -> bool, i: nat)
    requires i <= |es| && forall j :: 0 <= j < i ==> !pred(es[j].1)
    requires i < |es| ==> pred(es[i].1)
    ensures First(es, pred) == if i < |es| then Some(es[i]) else None
  {
    if i < |es| {
      var r := First(es, pred);
      assert r.Some?;
      var k :| 0 <= k < |es| && es[k] == r.value && forall j :: 0 <= j < k ==> !pred(es[j].1);
      assert pred(es[k].1);
      assert k == i;
    }
  }

  /** Steps over the entries while their node does not satisfy `pred`; the entry it stops at, if any. */
  method SkipUntil(es: seq<Located>, pred: Node -> bool) returns (r: Option<Located>)
    ensures r == First(es, pred)
  {
    var i := 0;
    while i < |es| && !pred(es[i].1)
      invariant 0 <= i <= |es|
      invariant forall j :: 0 <= j < i ==> !pred(es[j].1)
    {
      i := i + 1;
    }
    r := if i < |es| then Some(es[i]) else None;
    FirstAt(es, pred, i);
  }

  /** The entries whose node satisfies `pred`, in order. */
  function Filter(es: seq<Located>, pred: Node -> bool): (r: seq<Located>)
    ensures forall i :: 0 <= i < |r| ==> r[i] in es && pred(r[i].1)
  {
    if es == [] then []
    else (if pred(es[0].1) then [es[0]] else []) + Filter(es[1..], pred)
  }

  // ---- the parser queries ----------------------------------------------------

  /** `a[name="code"]`: an `a` element whose `name` attribute is `code`. */
  predicate IsAnchorFor(code: string, n: Node) {
    IsTag(n, "a") && GetAttr(n, "name") == Some(code)
  }

  /** `soup.select_one('a[name="code"]')`: the first such anchor in document order. */
  function FindAnchor(doc: Document, code: string): (r: Option<Located>)
    ensures r.Some? ==> IsAnchorFor(code, r.value.1) && r.value.0 != []
    ensures r.Some? ==> exists i :: (0 <= i < |AllNodes(doc)| && AllNodes(doc)[i] == r.value &&
      forall j :: 0 <= j < i ==> !IsAnchorFor(code, AllNodes(doc)[j].1))
    ensures r.None? ==> forall e :: e in AllNodes(doc) ==> !IsAnchorFor(code, e.1)
  {
    First(AllNodes(doc), (n: Node) => IsAnchorFor(code, n))
  }

  /** The siblings that follow the node at `path` (text nodes included), in order. */
  function SiblingsAfter(doc: Document, path: Path): seq<Located>
    requires path != []
  {
    var parent := path[..|path| - 1];
    Listed(ChildrenAt(doc, parent), parent, path[|path| - 1] + 1)
  }

  /** The element siblings that follow `path`: what repeated `find_next_sibling()` visits. */
  function ElementSiblingsAfter(doc: Document, path: Path): seq<Located>
    requires path != []
  {
    Filter(SiblingsAfter(doc, path), (n: Node) => n.Elem?)
  }

  /** The node at `path` is an element with tag `name`. */
  predicate TagAt(doc: Document, path: Path, name: string) {
    NodeAt(doc.roots, path).Some? && IsTag(NodeAt(doc.roots, path).value, name)
  }

  /**
   * `find_parent(name)`: the nearest enclosing element with that tag: no
   * element between it and `path` has the tag, and none above `path` has it
   * when there is no such element.
   */
  function FindParent(doc: Document, path: Path, name: string): (r: Option<Path>)
    ensures r.Some? ==> r.value != [] && |r.value| < |path| && r.value == path[..|r.value|]
    ensures r.Some? ==> NodeAt(doc.roots, r.value).Some? && IsTag(NodeAt(doc.roots, r.value).value, name)
    ensures r.Some? ==> forall m :: |r.value| < m < |path| ==> !TagAt(doc, path[..m], name)
    ensures r.None? ==> forall m :: 1 <= m < |path| ==> !TagAt(doc, path[..m], name)
    decreases |path|
  {
    if |path| <= 1 then None
    else
      var parent := path[..|path| - 1];
      if TagAt(doc, parent, name) then Some(parent)
      else
        var r := FindParent(doc, parent, name);
        assert forall m :: 0 <= m <= |parent| ==> parent[..m] == path[..m];
        r
  }

  /** A `p` element carrying the class `cls`, as `find_next_sibling("p", {"class": cls})` matches. */
  predicate IsBlock(n: Node, cls: string) {
    IsTag(n, "p") && cls in n.classes
  }

  /**
   * `r` is what a search for a `cls` paragraph over `es` returns: the first
   * entry that is one, or none when no entry is.
   */
  ghost predicate IsFirstBlock(es: seq<Located>, cls: string, r: Option<Located>) {
    match r
    case None => forall j :: 0 <= j < |es| ==> !IsBlock(es[j].1, cls)
    case Some(e) =>
      exists i :: 0 <= i < |es| && es[i] == e && IsBlock(e.1, cls) && forall j :: 0 <= j < i ==> !IsBlock(es[j].1, cls)
  }

  /** Some entry of `es` is a `cls` paragraph. */
  ghost predicate HasBlock(es: seq<Located>, cls: string) {
    exists j :: 0 <= j < |es| && IsBlock(es[j].1, cls)
  }

  /** `find_next_sibling("p", {"class": cls})`: the first such paragraph among the following siblings. */
  function FindNextSibling(doc: Document, path: Path, cls: string): (r: Option<Located>)
    requires path != []
    ensures r.Some? ==> IsBlock(r.value.1, cls) && r.value.0 != []
    ensures r.Some? ==> r.value.0[..|r.value.0| - 1] == path[..|path| - 1]
    ensures IsFirstBlock(SiblingsAfter(doc, path), cls, r)
  {
    First(SiblingsAfter(doc, path), (n: Node) => IsBlock(n, cls))
  }

  /**
   * The nodes that come after the start of the element at `from` in document
   * order, its own descendants first; for [] (the document itself), all of them.
   */
  function NodesAfter(doc: Document, from: Path): (r: seq<Located>)
    ensures from == [] ==> r == AllNodes(doc)
    ensures from != [] && r != [] ==> exists i :: (0 <= i < |AllNodes(doc)| && AllNodes(doc)[i].0 == from &&
      (forall j :: 0 <= j < i ==> AllNodes(doc)[j].0 != from) && r == AllNodes(doc)[i + 1..])
    ensures from != [] && (exists k :: 0 <= k < |AllNodes(doc)| && AllNodes(doc)[k].0 == from) ==>
      exists i :: (0 <= i < |AllNodes(doc)| && AllNodes(doc)[i].0 == from &&
        (forall j :: 0 <= j < i ==> AllNodes(doc)[j].0 != from) && r == AllNodes(doc)[i + 1..])
    ensures from != [] && (forall k :: 0 <= k < |AllNodes(doc)| ==> AllNodes(doc)[k].0 != from) ==> r == []
  {
    var all := AllNodes(doc);
    if from == [] then all
    else match FirstIndexOfPath(all, from)
      case None => []
      case Some(i) => all[i + 1..]
  }

  /** `find_next("p", {"class": cls})` from the element at `from`: the first such paragraph after its start. */
  function FindNext(doc: Document, from: Path, cls: string): (r: Option<Located>)
    ensures r.Some? ==> IsBlock(r.value.1, cls) && r.value.0 != []
    ensures IsFirstBlock(NodesAfter(doc, from), cls, r)
  {
    var r := First(NodesAfter(doc, from), (n: Node) => IsBlock(n, cls));
    assert r.Some? ==> r.value.0 != [] by {
      if r.Some? {
        var i :| 0 <= i < |NodesAfter(doc, from)| && NodesAfter(doc, from)[i] == r.value;
      }
    }
    r
  }

  function FirstIndexOfPath(es: seq<Located>, path: Path): (r: Option<nat>)
    ensures r.Some? ==> r.value < |es| && es[r.value].0 == path
    ensures r.Some? ==> forall j :: 0 <= j < r.value ==> es[j].0 != path
    ensures r.None? ==> forall j :: 0 <= j < |es| ==> es[j].0 != path
  {
    if es == [] then None
    else if es[0].0 == path then Some(0)
    else match FirstIndexOfPath(es[1..], path)
      case None => None
      case Some(i) => Some(i + 1)
  }

  /** The nodes below the element at `path`, in document order. */
  function Descendants(doc: Document, path: Path): seq<Located> {
    Flatten(ChildrenAt(doc, path), path, 0)
  }

  /** `a[href]`: an `a` element with an `href` attribute. */
  predicate IsLink(n: Node) {
    IsTag(n, "a") && GetAttr(n, "href").Some?
  }

  /** `select_one("a[href]")` below the element at `path`: the `href` of the first such link. */
  function FirstHref(doc: Document, path: Path): (r: Option<string>)
    ensures r.Some? ==> exists i :: (0 <= i < |Descendants(doc, path)| && IsLink(Descendants(doc, path)[i].1) &&
      GetAttr(Descendants(doc, path)[i].1, "href") == r &&
      forall j :: 0 <= j < i ==> !IsLink(Descendants(doc, path)[j].1))
    ensures r.None? ==> forall j :: 0 <= j < |Descendants(doc, path)| ==> !IsLink(Descendants(doc, path)[j].1)
  {
    match First(Descendants(doc, path), (n: Node) => IsLink(n))
    case None => None
    case Some(e) => GetAttr(e.1, "href")
  }

  /** `select("a[onclick]")` below the element at `path`, in document order. */
  function ClickLinks(doc: Document, path: Path): seq<Located> {
    Filter(Descendants(doc, path), (n: Node) => IsTag(n, "a") && GetAttr(n, "onclick").Some?)
  }
}
