/** The section-link index of a course listing page (`extract_section_links`) and the
    legacy first-link scan of a course summary page (the link part of
    `extract_course_summary`). */
module SectionLinks {
  import opened Wrappers
  import opened Seqs
  import opened PyStr
  import opened Dom

  /** The scheme and host prefixed to site-relative links. */
  const Origin := "https://sa.ucla.edu"

  /** A section's label (e.g. "1A") and the URL of its detail page. */
  datatype Entry = Entry(sectionId: string, sectionLink: string)

  /** A site-relative `href` (one starting with "/") gets the origin put in front;
      any other `href` is kept as it is. */
  function Absolutize(href: string): (r: string)
    ensures !StartsWith(r, "/")
    ensures r == href <==> !StartsWith(href, "/")
    ensures r != href ==> r == Origin + href
  {
    if StartsWith(href, "/") then assert (Origin + href)[0] == 'h'; Origin + href else href
  }

  predicate IsClsSection(n: Node) {
    HasClass(n, "cls-section")
  }

  predicate IsHideSmallP(n: Node) {
    IsTag(n, "p") && HasClass(n, "hide-small")
  }

  predicate IsAnchor(n: Node) {
    IsTag(n, "a")
  }

  /** `soup.find_all(class_="cls-section")`. */
  function ClsSections(page: Node): seq<Node> {
    FindAll(page, IsClsSection)
  }

  /** The link of a section container: its first `p.hide-small`, that paragraph's first `a`,
      which must carry an `href`. The label is the anchor's stripped text. */
  function AnchorEntry(div: Node): (r: Option<Entry>)
    ensures r.None? <==>
      Find(div, IsHideSmallP).None? || Find(Find(div, IsHideSmallP).value, IsAnchor).None? ||
      Attr(Find(Find(div, IsHideSmallP).value, IsAnchor).value, "href").None?
    ensures r.Some? ==>
      var a := Find(Find(div, IsHideSmallP).value, IsAnchor).value;
      r.value == Entry(Strip(TextOf(a)), Absolutize(Attr(a, "href").value))
    ensures r.Some? ==> Trimmed(r.value.sectionId) && !StartsWith(r.value.sectionLink, "/")
  {
    match Find(div, IsHideSmallP)
    case None => None
    case Some(p) =>
      match Find(p, IsAnchor)
      case None => None
      case Some(a) =>
        match Attr(a, "href")
        case None => None
        case Some(href) => Some(Entry(Strip(TextOf(a)), Absolutize(href)))
  }

  /** The class id encoded in a section container's `id`: the text before the first "_".
      An empty id, or one without "_" (fewer than two pieces when split), has none. */
  function ClassIdKey(divId: string): (r: Option<string>)
    ensures r.Some? <==> Contains(divId, "_")
    ensures r.Some? ==> !Contains(r.value, "_") && StartsWith(divId, r.value + "_")
  {
    if divId == "" then None
    else
      var parts := Split(divId, "_");
      SplitPieces(divId, "_");
      if |parts| < 2 then None
      else
        SplitHead(divId, "_");
        Some(parts[0])
  }

  /** The index entry a container contributes, keyed by its class id, if it qualifies. */
  function DivEntry(div: Node): (r: Option<(string, Entry)>)
    ensures r.Some? <==> Contains(AttrOr(div, "id", ""), "_") && AnchorEntry(div).Some?
    ensures r.Some? ==> r.value == (ClassIdKey(AttrOr(div, "id", "")).value, AnchorEntry(div).value)
  {
    match ClassIdKey(AttrOr(div, "id", ""))
    case None => None
    case Some(k) =>
      match AnchorEntry(div)
      case None => None
      case Some(e) => Some((k, e))
  }

  /** The index built from containers `divs` visited in order, a later entry replacing
      an earlier one under the same class id. */
  function LinkIndex(divs: seq<Node>): map<string, Entry> {
    LastWins(divs, DivEntry)
  }

  /** `extract_section_links(soup)`. */
  method ExtractSectionLinks(page: Node) returns (links: map<string, Entry>)
    ensures links == LinkIndex(ClsSections(page))
  {
    var divs := ClsSections(page);
    links := map[];
    for i := 0 to |divs|
      invariant links == LinkIndex(divs[..i])
    {
      var div := divs[i];
      LastWinsStep(divs, DivEntry, i);
      var divId := AttrOr(div, "id", "");
      if divId == "" {
        assert DivEntry(div).None?;
        continue;
      }
      var parts := Split(divId, "_");
      if |parts| < 2 {
        assert DivEntry(div).None?;
        continue;
      }
      var classId := parts[0];
      assert ClassIdKey(divId) == Some(classId);
      var p := Find(div, IsHideSmallP);
      if p.None? {
        assert AnchorEntry(div).None?;
        continue;
      }
      var linkTag := Find(p.value, IsAnchor);
      if linkTag.None? || Attr(linkTag.value, "href").None? {
        assert AnchorEntry(div).None?;
        continue;
      }
      var href := Attr(linkTag.value, "href").value;
      var sectionId := Strip(TextOf(linkTag.value));
      if StartsWith(href, "/") {
        href := Origin + href;
      }
      assert AnchorEntry(div) == Some(Entry(sectionId, href));
      assert DivEntry(div) == Some((classId, Entry(sectionId, href)));
      links := links[classId := Entry(sectionId, href)];
    }
    assert divs[..|divs|] == divs;
  }

  /** The keys of the index are exactly the class ids of the qualifying containers. */
  lemma LinkIndexKeys(divs: seq<Node>)
    ensures forall k :: k in LinkIndex(divs) <==>
      exists i | 0 <= i < |divs| :: DivEntry(divs[i]).Some? && DivEntry(divs[i]).value.0 == k
  {
    LastWinsKeys(divs, DivEntry);
    forall k ensures k in LinkIndex(divs) <==>
      exists i | 0 <= i < |divs| :: DivEntry(divs[i]).Some? && DivEntry(divs[i]).value.0 == k
    {
      if k in LinkIndex(divs) {
        var i :| 0 <= i < |divs| && YieldsKey(DivEntry, divs[i], k);
        assert DivEntry(divs[i]).Some? && DivEntry(divs[i]).value.0 == k;
      }
      if exists i | 0 <= i < |divs| :: DivEntry(divs[i]).Some? && DivEntry(divs[i]).value.0 == k {
        var i :| 0 <= i < |divs| && DivEntry(divs[i]).Some? && DivEntry(divs[i]).value.0 == k;
        assert YieldsKey(DivEntry, divs[i], k);
      }
    }
  }

  /** Last write wins: the entry under a class id comes from the last qualifying
      container with that class id. */
  lemma LinkIndexLastWins(divs: seq<Node>, i: nat)
    requires i < |divs| && DivEntry(divs[i]).Some?
    requires forall j :: i < j < |divs| && DivEntry(divs[j]).Some? ==>
      DivEntry(divs[j]).value.0 != DivEntry(divs[i]).value.0
    ensures DivEntry(divs[i]).value.0 in LinkIndex(divs)
    ensures LinkIndex(divs)[DivEntry(divs[i]).value.0] == DivEntry(divs[i]).value.1
  {
    LastWinsValue(divs, DivEntry, i);
  }

  /** Every entry of the index is the anchor entry of a container with that class id, so
      its label is stripped anchor text and its link is not site-relative. */
  lemma LinkIndexEntries(divs: seq<Node>)
    ensures forall k :: k in LinkIndex(divs) ==>
      exists i | 0 <= i < |divs| ::
        ClassIdKey(AttrOr(divs[i], "id", "")) == Some(k) && AnchorEntry(divs[i]) == Some(LinkIndex(divs)[k])
    ensures forall k :: k in LinkIndex(divs) ==>
      Trimmed(LinkIndex(divs)[k].sectionId) && !StartsWith(LinkIndex(divs)[k].sectionLink, "/")
  {
    LastWinsSources(divs, DivEntry);
    forall k | k in LinkIndex(divs)
      ensures exists i | 0 <= i < |divs| ::
        ClassIdKey(AttrOr(divs[i], "id", "")) == Some(k) && AnchorEntry(divs[i]) == Some(LinkIndex(divs)[k])
    {
      var i :| 0 <= i < |divs| && DivEntry(divs[i]) == Some((k, LinkIndex(divs)[k]));
      assert ClassIdKey(AttrOr(divs[i], "id", "")) == Some(k);
    }
  }

  predicate HasAnchorEntry(div: Node) {
    AnchorEntry(div).Some?
  }

  /** The anchor entry of the first container, in document order, that has one. */
  function FirstAnchor(page: Node): (r: Option<Entry>)
    ensures r.Some? ==> exists i | 0 <= i < |ClsSections(page)| ::
      AnchorEntry(ClsSections(page)[i]) == r
      && forall j :: 0 <= j < i ==> !HasAnchorEntry(ClsSections(page)[j])
    ensures r.None? <==> forall j :: 0 <= j < |ClsSections(page)| ==> !HasAnchorEntry(ClsSections(page)[j])
  {
    var divs := ClsSections(page);
    match FirstIndex(divs, HasAnchorEntry)
    case Some(i) => AnchorEntry(divs[i])
    case None => None
  }

  /** The link scan of `extract_course_summary`: the label and link of the first container
      (in document order) that has a `p.hide-small > a[href]`, or both `None`. The
      container's id plays no part here. */
  method FirstSectionLink(page: Node) returns (sectionId: Option<string>, sectionLink: Option<string>)
    ensures match FirstAnchor(page)
      case Some(e) => sectionId == Some(e.sectionId) && sectionLink == Some(e.sectionLink)
      case None => sectionId.None? && sectionLink.None?
  {
    var divs := ClsSections(page);
    sectionId, sectionLink := None, None;
    var i := 0;
    while i < |divs|
      invariant 0 <= i <= |divs|
      invariant FirstIndex(divs[..i], HasAnchorEntry).None?
      invariant sectionId.None? && sectionLink.None?
    {
      var div := divs[i];
      FirstIndexScan(divs, HasAnchorEntry, i);
      var p := Find(div, IsHideSmallP);
      if p.None? {
        assert !HasAnchorEntry(div);
        i := i + 1;
        continue;
      }
      var linkTag := Find(p.value, IsAnchor);
      if linkTag.None? || Attr(linkTag.value, "href").None? {
        assert !HasAnchorEntry(div);
        i := i + 1;
        continue;
      }
      var href := Attr(linkTag.value, "href").value;
      sectionId := Some(Strip(TextOf(linkTag.value)));
      if StartsWith(href, "/") {
        href := Origin + href;
      }
      sectionLink := Some(href);
      assert AnchorEntry(div) == Some(Entry(sectionId.value, href));
      break;
    }
    assert i == |divs| ==> divs[..i] == divs;
  }
}
