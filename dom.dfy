/** An abstract HTML element tree and the BeautifulSoup queries the scraper uses on it:
    `find`, `find_all`, `find_next_sibling`, `.string`, `.text` and `get_text`. */
module Dom {
  import opened Wrappers
  import opened Seqs
  import opened PyStr

  /** A parsed HTML node. An element's `id` and `href` live in `attrs`; its `class`
      attribute is kept apart as the list of class names, as BeautifulSoup does. */
  datatype Node =
    | Text(text: string)
    | Element(name: string, classes: seq<string>, attrs: map<string, string>, children: seq<Node>)

  /** A node found by a search, together with the siblings that follow it in its parent. */
  datatype Loc = Loc(node: Node, following: seq<Node>)

  /** A whole document (or a fragment parsed on its own): BeautifulSoup's `[document]` root. */
  function Document(children: seq<Node>): Node {
    Element("[document]", [], map[], children)
  }

  /** Every node of the forest `cs` in document order (pre-order), each with its later siblings. */
  function LocsOf(cs: seq<Node>): seq<Loc>
    decreases cs
  {
    if cs == [] then []
    else [Loc(cs[0], cs[1..])]
         + (if cs[0].Element? then LocsOf(cs[0].children) else [])
         + LocsOf(cs[1..])
  }

  /** The descendants of `n` in document order (`n.descendants`). */
  function Descendants(n: Node): seq<Loc> {
    if n.Element? then LocsOf(n.children) else []
  }

  function NodesOf(ls: seq<Loc>): (r: seq<Node>)
    ensures |r| == |ls| && forall i :: 0 <= i < |ls| ==> r[i] == ls[i].node
  {
    seq(|ls|, i requires 0 <= i < |ls| => ls[i].node)
  }

  /** `tag.contents`: the children of an element; a text node has none. */
  function Contents(n: Node): seq<Node> {
    if n.Element? then n.children else []
  }

  predicate IsElement(n: Node) {
    n.Element?
  }

  predicate IsTag(n: Node, name: string) {
    n.Element? && n.name == name
  }

  /** `class_="c"` in a search: the element carries the class name `c`. */
  predicate HasClass(n: Node, c: string) {
    n.Element? && c in n.classes
  }

  /** `tag.get(key)`. */
  function Attr(n: Node, key: string): Option<string> {
    if n.Element? && key in n.attrs then Some(n.attrs[key]) else None
  }

  /** `tag.get(key, default)`. */
  function AttrOr(n: Node, key: string, default: string): string {
    if n.Element? && key in n.attrs then n.attrs[key] else default
  }

  /** The first descendant of `n`, in document order, that satisfies `p` (`n.find(...)`),
      with its later siblings. */
  function FindLoc(n: Node, p: Node -> bool): (r: Option<Loc>)
    ensures r.Some? ==> p(r.value.node)
  {
    var ls := Descendants(n);
    match FirstIndex(NodesOf(ls), p)
    case Some(i) => Some(ls[i])
    case None => None
  }

  /** `find` returns the first descendant in document order that satisfies the test,
      and nothing only when no descendant does. */
  lemma FindLocFirst(n: Node, p: Node -> bool)
    ensures FindLoc(n, p).Some? ==> exists i | 0 <= i < |Descendants(n)| ::
      Descendants(n)[i] == FindLoc(n, p).value
      && forall j :: 0 <= j < i ==> !p(Descendants(n)[j].node)
    ensures FindLoc(n, p).None? <==> forall j :: 0 <= j < |Descendants(n)| ==> !p(Descendants(n)[j].node)
  {
    var ls := Descendants(n);
    var ns := NodesOf(ls);
    match FirstIndex(ns, p)
    case Some(i) =>
      forall j | 0 <= j < i ensures !p(ls[j].node) { assert ns[j] == ls[j].node; }
    case None =>
      forall j | 0 <= j < |ls| ensures !p(ls[j].node) { assert ns[j] == ls[j].node; }
  }

  /** `n.find(...)`: the first descendant satisfying `p`. */
  function Find(n: Node, p: Node -> bool): Option<Node> {
    match FindLoc(n, p)
    case Some(l) => Some(l.node)
    case None => None
  }

  /** `n.find_all(...)`: every descendant satisfying `p`, in document order. */
  function FindAll(n: Node, p: Node -> bool): seq<Node> {
    Filter(NodesOf(Descendants(n)), p)
  }

  /** The first element among `following` that satisfies `p`, with the siblings after it
      (`find_next_sibling(...)`, which skips text nodes). */
  function NextSiblingLoc(following: seq<Node>, p: Node -> bool): (r: Option<Loc>)
    ensures r.Some? ==> r.value.node.Element? && p(r.value.node)
    ensures r.Some? ==> exists i | 0 <= i < |following| ::
      following[i] == r.value.node && r.value.following == following[i + 1..]
      && forall j :: 0 <= j < i ==> !(following[j].Element? && p(following[j]))
    ensures r.None? <==> forall j :: 0 <= j < |following| ==> !(following[j].Element? && p(following[j]))
  {
    match FirstIndex(following, (x: Node) => x.Element? && p(x))
    case Some(i) => Some(Loc(following[i], following[i + 1..]))
    case None => None
  }

  /** A sibling is the one `find_next_sibling` returns when it is an element satisfying
      `p` and no element before it does. */
  lemma NextSiblingAt(following: seq<Node>, p: Node -> bool, i: nat)
    requires i < |following| && following[i].Element? && p(following[i])
    requires forall j :: 0 <= j < i ==> !(following[j].Element? && p(following[j]))
    ensures NextSiblingLoc(following, p) == Some(Loc(following[i], following[i + 1..]))
  {
    FirstIndexAt(following, (x: Node) => x.Element? && p(x), i);
  }

  /** The text nodes under `n` in document order (`n._all_strings()`); a text node is its own. */
  function Strings(n: Node): seq<string> {
    match n
    case Text(s) => [s]
    case Element(_, _, _, _) => TextsOf(Descendants(n))
  }

  function TextsOf(ls: seq<Loc>): seq<string> {
    if ls == [] then []
    else (if ls[0].node.Text? then [ls[0].node.text] else []) + TextsOf(ls[1..])
  }

  /** The concatenation of a sequence of strings. */
  function Concat(ss: seq<string>): string {
    if ss == [] then "" else ss[0] + Concat(ss[1..])
  }

  /** `n.text` (`n.get_text()`): all the text under `n`, concatenated. */
  function TextOf(n: Node): string {
    Concat(Strings(n))
  }

  /** Each string stripped, empty results dropped. */
  function StrippedNonEmpty(ss: seq<string>): (r: seq<string>)
    ensures forall k :: 0 <= k < |r| ==> r[k] != ""
  {
    Filter(StripAll(ss), NonEmpty)
  }

  /** Nothing is kept exactly when every string strips to nothing. */
  lemma StrippedEmpty(ss: seq<string>)
    ensures StrippedNonEmpty(ss) == [] <==> forall k :: 0 <= k < |ss| ==> AllSpace(ss[k])
  {
    var t := StripAll(ss);
    FilterEmpty(t, NonEmpty);
    forall k | 0 <= k < |ss| ensures NonEmpty(t[k]) <==> !AllSpace(ss[k]) {
      StripEmpty(ss[k]);
    }
  }

  /** Every kept piece is a result of `str.strip()`, so neither of its ends is whitespace. */
  lemma StrippedTrimmed(ss: seq<string>)
    ensures forall k :: 0 <= k < |StrippedNonEmpty(ss)| ==> Trimmed(StrippedNonEmpty(ss)[k])
  {
    var t := StripAll(ss);
    var r := StrippedNonEmpty(ss);
    forall k | 0 <= k < |r| ensures Trimmed(r[k]) {
      var j :| 0 <= j < |t| && t[j] == r[k];
      assert t[j] == Strip(ss[j]);
    }
  }

  /** `n.get_text(separator=sep, strip=True)`. */
  function GetText(n: Node, sep: string): string {
    Join(sep, StrippedNonEmpty(Strings(n)))
  }

  /** Joining non-empty pieces gives the empty string only when there are no pieces. */
  lemma {:induction false} JoinNonEmpty(sep: string, parts: seq<string>)
    requires forall k :: 0 <= k < |parts| ==> parts[k] != ""
    ensures Join(sep, parts) == "" <==> parts == []
  {
    if |parts| >= 2 {
      assert |Join(sep, parts)| >= |parts[0]|;
    }
  }

  /** `get_text(strip=True)` is empty exactly when every string under the node is whitespace. */
  lemma GetTextEmpty(n: Node, sep: string)
    ensures GetText(n, sep) == "" <==> forall k :: 0 <= k < |Strings(n)| ==> AllSpace(Strings(n)[k])
  {
    JoinNonEmpty(sep, StrippedNonEmpty(Strings(n)));
    StrippedEmpty(Strings(n));
  }

  /** `n.string`: the text of `n` when `n` is a text node or has exactly one child whose
      `.string` is defined; `None` otherwise. */
  function StringOf(n: Node): Option<string> {
    match n
    case Text(s) => Some(s)
    case Element(_, _, _, cs) => if |cs| == 1 then StringOf(cs[0]) else None
  }
}
