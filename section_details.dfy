/** The section detail page (`section_details.py`): fetching it with retries, locating
    each titled field and rendering its data element, and the six-field result with its
    placeholder values. */
module SectionDetails {
  import opened Wrappers
  import opened Seqs
  import opened PyStr
  import opened Dom

  const NotAvailable: string := "N/A"
  const EmptyData: string := "N/A (Empty)"
  const NoUrl: string := "N/A (No URL provided)"
  const FetchFailed: string := "N/A (Failed to fetch page content)"

  const ClassNotes: string := "Class Notes"

  // ---------------------------------------------------------------------------------
  // get_page_content

  /** The waits after failed attempts `0 .. n - 1`: `delay * (k + 1)` after attempt `k`. */
  function Sleeps(delay: int, n: nat): (r: seq<int>)
    ensures |r| == n
    ensures forall k :: 0 <= k < n ==> r[k] == delay * (k + 1)
  {
    if n == 0 then [] else Sleeps(delay, n - 1) + [delay * n]
  }

  /** The text `get_page_content(url, retries, delay)` returns for the given attempt
      outcomes: the first successful one of `retries` attempts, or `None`. */
  function PageContent(outcomes: seq<Option<string>>, retries: int): (r: Option<string>)
    ensures r.Some? <==> exists k :: 0 <= k < retries && Attempt(outcomes, k).Some?
  {
    match FirstSuccess(outcomes, retries)
    case Some(k) => Attempt(outcomes, k)
    case None => None
  }

  /** `get_page_content`: at most `retries` attempts, a wait after every failed attempt
      but the last, and the first successful text (which may be empty). */
  method GetPageContent(outcomes: seq<Option<string>>, retries: int, delay: int)
    returns (text: Option<string>, attempts: nat, sleeps: seq<int>)
    ensures text == PageContent(outcomes, retries)
    ensures attempts <= if retries < 0 then 0 else retries
    ensures text.Some? ==> FirstSuccess(outcomes, retries) == Some(attempts - 1) &&
                           attempts >= 1 && sleeps == Sleeps(delay, attempts - 1)
    ensures text.None? ==> attempts == (if retries < 0 then 0 else retries) &&
                           sleeps == Sleeps(delay, if retries < 1 then 0 else retries - 1)
  {
    text := None;
    attempts := 0;
    sleeps := [];
    var attempt := 0;
    while attempt < retries
      invariant 0 <= attempt && (attempt == 0 || attempt < retries)
      invariant attempts == attempt && sleeps == Sleeps(delay, attempt)
      invariant FirstSuccess(outcomes, retries) == FirstSuccessFrom(outcomes, attempt, retries)
    {
      attempts := attempts + 1;
      var outcome := Attempt(outcomes, attempt);
      if outcome.Some? {
        text := outcome;
        return;
      }
      if attempt < retries - 1 {
        sleeps := sleeps + [delay * (attempt + 1)];
      } else {
        return;
      }
      attempt := attempt + 1;
    }
  }

  // ---------------------------------------------------------------------------------
  // get_data_for_title: locating the data element

  /** `find('p', class_='class_detail_title', string=lambda t: t and t.strip() == title)`:
      a title paragraph whose `.string` is a non-empty string that strips to `title`. */
  predicate IsTitleFor(n: Node, title: string) {
    IsTag(n, "p") && HasClass(n, "class_detail_title") &&
    match StringOf(n)
    case Some(s) => s != "" && Strip(s) == title
    case None => false
  }

  predicate IsUl(n: Node) {
    IsTag(n, "ul")
  }

  /** `name == 'p' and 'section_data' in get('class', [])`: exact class membership. */
  predicate IsSectionDataP(n: Node) {
    IsTag(n, "p") && HasClass(n, "section_data")
  }

  /** `find_next_sibling('p', class_=lambda x: x and 'section_data' in x)`: the matcher
      is applied to each class name, so any class name containing `section_data` counts. */
  predicate IsDataP(n: Node) {
    IsTag(n, "p") && exists k | 0 <= k < |n.classes| :: Contains(n.classes[k], "section_data")
  }

  /** The "Class Notes" rule, given the siblings after the title paragraph. */
  function ClassNotesChoice(following: seq<Node>): (r: Option<Node>)
    ensures r.Some? ==> r.value in following && (IsUl(r.value) || IsSectionDataP(r.value))
  {
    match NextSiblingLoc(following, IsElement)
    case None => None
    case Some(next) =>
      if IsUl(next.node) then Some(next.node)
      else if IsSectionDataP(next.node) then
        if GetText(next.node, "") == "" then
          match NextSiblingLoc(next.following, IsUl)
          case Some(ul) => Some(ul.node)
          case None => Some(next.node)
        else Some(next.node)
      else None
  }

  /** The data element for `title`, given the siblings after its title paragraph: the
      "Class Notes" rule first (for that title), then the next data paragraph. */
  function DataElement(title: string, following: seq<Node>): (r: Option<Node>)
    ensures r.Some? ==> r.value.Element?
  {
    var notes := if title == ClassNotes then ClassNotesChoice(following) else None;
    if notes.Some? then notes
    else
      match NextSiblingLoc(following, IsDataP)
      case Some(l) => Some(l.node)
      case None => None
  }

  // ---------------------------------------------------------------------------------
  // get_data_for_title: rendering

  /** An anchor inside a list item: its text, then ` [href]` when `href` is non-empty,
      stripped. */
  function LinkRep(a: Node): string {
    var href := AttrOr(a, "href", "");
    var text := GetText(a, "");
    Strip(if href != "" then text + " [" + href + "]" else text)
  }

  /** One content node of a list item: a string stripped, an anchor as `LinkRep`, any
      other element as its stripped text. */
  function ItemPart(c: Node): string {
    match c
    case Text(t) => Strip(t)
    case Element(name, _, _, _) => if name == "a" then LinkRep(c) else GetText(c, "")
  }

  function Parts(cs: seq<Node>): (r: seq<string>)
    ensures |r| == |cs|
    ensures forall k :: 0 <= k < |cs| ==> r[k] == ItemPart(cs[k])
  {
    seq(|cs|, k requires 0 <= k < |cs| => ItemPart(cs[k]))
  }

  /** `" ".join(part for part in li_text_parts if part)`. */
  function ItemText(li: Node): string {
    Join(" ", Filter(Parts(Contents(li)), NonEmpty))
  }

  /** `find_all('li', recursive=False)`: the `li` children. */
  function ListItems(ul: Node): seq<Node> {
    Filter(Contents(ul), (n: Node) => IsTag(n, "li"))
  }

  function ItemTexts(lis: seq<Node>): (r: seq<string>)
    ensures |r| == |lis|
    ensures forall k :: 0 <= k < |lis| ==> r[k] == ItemText(lis[k])
  {
    seq(|lis|, k requires 0 <= k < |lis| => ItemText(lis[k]))
  }

  /** The non-empty item texts of a list joined with `" ; "`. */
  function ListText(ul: Node): string {
    Join(" ; ", Filter(ItemTexts(ListItems(ul)), NonEmpty))
  }

  /** A list renders as `ListText`; any other element as its text joined with spaces. */
  function Rendered(d: Node): string {
    if IsUl(d) then ListText(d) else GetText(d, " ")
  }

  /** `get_data_for_title(scope, title)`. */
  function DataForTitle(scope: Node, title: string): (r: string)
    ensures r != ""
  {
    match FindLoc(scope, (n: Node) => IsTitleFor(n, title))
    case None => NotAvailable
    case Some(t) =>
      match DataElement(title, t.following)
      case None => NotAvailable
      case Some(d) => var text := Rendered(d); if text == "" then EmptyData else text
  }

  /** The text one content node of a list item contributes: a string stripped; an anchor
      as its text, followed by ` [href]` when `href` is non-empty; any other element as
      its text. */
  method RenderPart(item: Node) returns (part: string)
    ensures part == ItemPart(item)
    ensures item.Text? ==> part == Strip(item.text)
    ensures IsTag(item, "a") && AttrOr(item, "href", "") == "" ==> part == GetText(item, "")
    ensures IsTag(item, "a") && AttrOr(item, "href", "") != "" && GetText(item, "") != "" ==>
      part == GetText(item, "") + " [" + AttrOr(item, "href", "") + "]"
    ensures IsTag(item, "a") && AttrOr(item, "href", "") != "" && GetText(item, "") == "" ==>
      part == "[" + AttrOr(item, "href", "") + "]"
    ensures item.Element? && item.name != "a" ==> part == GetText(item, "")
  {
    ItemPartCases(item);
    if item.Text? {
      part := Strip(item.text);
    } else if item.name == "a" {
      var href := AttrOr(item, "href", "");
      var linkRepresentation := GetText(item, "");
      if href != "" {
        linkRepresentation := linkRepresentation + " [" + href + "]";
      }
      part := Strip(linkRepresentation);
    } else {
      part := GetText(item, "");
    }
  }

  /** The inner rendering loop: the parts of one list item, joined. */
  method RenderItem(li: Node) returns (fullLiText: string)
    ensures fullLiText == ItemText(li)
  {
    var contents := Contents(li);
    var liTextParts: seq<string> := [];
    var j := 0;
    while j < |contents|
      invariant 0 <= j <= |contents|
      invariant liTextParts == Parts(contents)[..j]
    {
      var part := RenderPart(contents[j]);
      PrefixStep(Parts(contents), j);
      liTextParts := liTextParts + [part];
      j := j + 1;
    }
    assert liTextParts == Parts(contents);
    fullLiText := Join(" ", Filter(liTextParts, NonEmpty));
  }

  /** The outer rendering loop of `get_data_for_title` for a list. */
  method RenderList(ul: Node) returns (text: string)
    ensures text == ListText(ul)
  {
    var lis := ListItems(ul);
    var listItemsTexts: seq<string> := [];
    var i := 0;
    while i < |lis|
      invariant 0 <= i <= |lis|
      invariant listItemsTexts == Filter(ItemTexts(lis)[..i], NonEmpty)
    {
      var fullLiText := RenderItem(lis[i]);
      PrefixStep(ItemTexts(lis), i);
      FilterAppend(ItemTexts(lis)[..i], fullLiText, NonEmpty);
      if fullLiText != "" {
        listItemsTexts := listItemsTexts + [fullLiText];
      }
      i := i + 1;
    }
    assert ItemTexts(lis)[..i] == ItemTexts(lis);
    text := Join(" ; ", listItemsTexts);
  }

  /** `get_data_for_title`, rendering a list with its loops. */
  method GetDataForTitle(scope: Node, title: string) returns (r: string)
    ensures r == DataForTitle(scope, title)
  {
    var titleLoc := FindLoc(scope, (n: Node) => IsTitleFor(n, title));
    if titleLoc.None? {
      return NotAvailable;
    }
    var dataElement := DataElement(title, titleLoc.value.following);
    if dataElement.None? {
      return NotAvailable;
    }
    var d := dataElement.value;
    var textContent;
    if IsUl(d) {
      textContent := RenderList(d);
    } else {
      textContent := GetText(d, " ");
    }
    r := if textContent != "" then textContent else EmptyData;
  }

  // ---------------------------------------------------------------------------------
  // extract_section_details_from_url

  /** The six detail fields, in the order they are filled. */
  datatype Details = Details(
    courseDescription: string,
    classDescriptionDetail: string,
    generalEducationGe: string,
    writingIiRequirement: string,
    diversityInfo: string,
    classNotes: string)

  /** The defaults: every field "N/A" except the first, which carries the reason. */
  function DefaultDetails(courseDescription: string): Details {
    Details(courseDescription, NotAvailable, NotAvailable, NotAvailable, NotAvailable, NotAvailable)
  }

  predicate IsAppTemplate(n: Node) {
    IsTag(n, "template") && Attr(n, "id") == Some("ucla-sa-soc-app")
  }

  predicate IsSectionDiv(n: Node) {
    IsTag(n, "div") && Attr(n, "id") == Some("section")
  }

  /** The document parsed from the application template's inner markup, when there is a
      template and its markup is non-empty. Re-parsing the markup is taken to give back
      the template's children. */
  function TemplateContent(doc: Node): (r: Option<Node>)
    ensures r.Some? ==> exists t :: Find(doc, IsAppTemplate) == Some(t) && Contents(t) != [] &&
                                    r.value == Document(Contents(t))
    ensures r.None? <==> Find(doc, IsAppTemplate).None? || Contents(Find(doc, IsAppTemplate).value) == []
  {
    match Find(doc, IsAppTemplate)
    case None => None
    case Some(t) => if Contents(t) != [] then Some(Document(Contents(t))) else None
  }

  /** The `div#section` the fields are read from: searched in the template content first,
      then in the outer document. */
  function SectionRoot(doc: Node): (r: Option<Node>)
    ensures r.Some? ==> IsSectionDiv(r.value)
  {
    match TemplateContent(doc)
    case None => Find(doc, IsSectionDiv)
    case Some(content) =>
      match Find(content, IsSectionDiv)
      case Some(d) => Some(d)
      case None => Find(doc, IsSectionDiv)
  }

  /** The six fields read from a section root. */
  function DetailsFrom(root: Node): Details {
    Details(
      DataForTitle(root, "Course Description"),
      DataForTitle(root, "Class Description"),
      DataForTitle(root, "General Education (GE)"),
      DataForTitle(root, "Writing II"),
      DataForTitle(root, "Diversity"),
      DataForTitle(root, ClassNotes))
  }

  /** `extract_section_details_from_url(url)`: `parse` stands for the HTML parser and
      `outcomes` for the attempts of `get_page_content(url)` (3 attempts). */
  function DetailsOf(url: Option<string>, outcomes: seq<Option<string>>, parse: string -> Node): Details {
    if url.None? || url.value == "" then DefaultDetails(NoUrl)
    else
      match PageContent(outcomes, 3)
      case None => DefaultDetails(FetchFailed)
      case Some(html) =>
        if html == "" then DefaultDetails(FetchFailed)
        else
          match SectionRoot(parse(html))
          case None => DefaultDetails(NotAvailable)
          case Some(root) => DetailsFrom(root)
  }

  /** `extract_section_details_from_url`, filling the fields one after another. */
  method ExtractSectionDetailsFromUrl(url: Option<string>, outcomes: seq<Option<string>>, parse: string -> Node)
    returns (details: Details)
    ensures details == DetailsOf(url, outcomes, parse)
  {
    var defaultDetails := DefaultDetails(NotAvailable);
    if url.None? || url.value == "" {
      return defaultDetails.(courseDescription := NoUrl);
    }
    var htmlContent, attempts, sleeps := GetPageContent(outcomes, 3, 2);
    if htmlContent.None? || htmlContent.value == "" {
      return defaultDetails.(courseDescription := FetchFailed);
    }
    var soup := parse(htmlContent.value);
    var sectionDiv := SectionRoot(soup);
    if sectionDiv.None? {
      return defaultDetails;
    }
    var root := sectionDiv.value;
    details := defaultDetails;
    var text := GetDataForTitle(root, "Course Description");
    details := details.(courseDescription := text);
    text := GetDataForTitle(root, "Class Description");
    details := details.(classDescriptionDetail := text);
    text := GetDataForTitle(root, "General Education (GE)");
    details := details.(generalEducationGe := text);
    text := GetDataForTitle(root, "Writing II");
    details := details.(writingIiRequirement := text);
    text := GetDataForTitle(root, "Diversity");
    details := details.(diversityInfo := text);
    text := GetDataForTitle(root, ClassNotes);
    details := details.(classNotes := text);
  }

  // ---------------------------------------------------------------------------------
  // Properties

  /** No title paragraph, or no data element after it, gives "N/A"; a data element that
      renders empty gives "N/A (Empty)"; otherwise the rendered text. */
  lemma DataForTitleCases(scope: Node, title: string)
    ensures var t := FindLoc(scope, (n: Node) => IsTitleFor(n, title));
      (t.None? ==> DataForTitle(scope, title) == NotAvailable) &&
      (t.Some? && DataElement(title, t.value.following).None? ==> DataForTitle(scope, title) == NotAvailable) &&
      (t.Some? && DataElement(title, t.value.following).Some? ==>
         var text := Rendered(DataElement(title, t.value.following).value);
         DataForTitle(scope, title) == if text == "" then EmptyData else text)
  {
    var t := FindLoc(scope, (n: Node) => IsTitleFor(n, title));
    if t.Some? {
      var d := DataElement(title, t.value.following);
      if d.Some? {
        var text := Rendered(d.value);
        assert DataForTitle(scope, title) == if text == "" then EmptyData else text;
      }
    }
  }

  /** The title paragraph is the first one in document order whose string strips to the
      title; "N/A" results when there is none. */
  lemma TitleIsFirstMatch(scope: Node, title: string)
    ensures var t := FindLoc(scope, (n: Node) => IsTitleFor(n, title));
      (t.Some? ==> exists i | 0 <= i < |Descendants(scope)| ::
         Descendants(scope)[i] == t.value && IsTitleFor(t.value.node, title) &&
         forall j :: 0 <= j < i ==> !IsTitleFor(Descendants(scope)[j].node, title)) &&
      (t.None? <==> forall j :: 0 <= j < |Descendants(scope)| ==> !IsTitleFor(Descendants(scope)[j].node, title))
  {
    FindLocFirst(scope, (n: Node) => IsTitleFor(n, title));
  }

  /** "Class Notes", first case: the first element after the title is a list. */
  lemma ClassNotesList(following: seq<Node>, i: nat)
    requires i < |following| && IsUl(following[i])
    requires forall j :: 0 <= j < i ==> following[j].Text?
    ensures DataElement(ClassNotes, following) == Some(following[i])
  {
    NextSiblingAt(following, IsElement, i);
  }

  /** "Class Notes", second case: the first element after the title is an empty
      `p.section_data` and a list follows it later; the first such list is taken. */
  lemma ClassNotesEmptyThenList(following: seq<Node>, i: nat, m: nat)
    requires i < m < |following| && IsSectionDataP(following[i]) && GetText(following[i], "") == ""
    requires forall j :: 0 <= j < i ==> following[j].Text?
    requires IsUl(following[m]) && forall j :: i < j < m ==> !IsUl(following[j])
    ensures DataElement(ClassNotes, following) == Some(following[m])
  {
    NextSiblingAt(following, IsElement, i);
    var rest := following[i + 1..];
    forall j | 0 <= j < m - i - 1 ensures !(rest[j].Element? && IsUl(rest[j])) {
      assert rest[j] == following[i + 1 + j];
    }
    NextSiblingAt(rest, IsUl, m - i - 1);
  }

  /** "Class Notes", second case without a later list: the empty paragraph is taken. */
  lemma ClassNotesEmptyAlone(following: seq<Node>, i: nat)
    requires i < |following| && IsSectionDataP(following[i]) && GetText(following[i], "") == ""
    requires forall j :: 0 <= j < i ==> following[j].Text?
    requires forall m :: i < m < |following| ==> !IsUl(following[m])
    ensures DataElement(ClassNotes, following) == Some(following[i])
  {
    NextSiblingAt(following, IsElement, i);
    var rest := following[i + 1..];
    forall j | 0 <= j < |rest| ensures !(rest[j].Element? && IsUl(rest[j])) {
      assert rest[j] == following[i + 1 + j];
    }
  }

  /** "Class Notes", third case: the first element after the title is a non-empty
      `p.section_data`, which is taken. */
  lemma ClassNotesParagraph(following: seq<Node>, i: nat)
    requires i < |following| && IsSectionDataP(following[i]) && GetText(following[i], "") != ""
    requires forall j :: 0 <= j < i ==> following[j].Text?
    ensures DataElement(ClassNotes, following) == Some(following[i])
  {
    NextSiblingAt(following, IsElement, i);
  }

  /** Any other title, or "Class Notes" when its rule finds nothing: the first following
      paragraph with a class name containing `section_data`. */
  lemma GeneralDataElement(title: string, following: seq<Node>, i: nat)
    requires title != ClassNotes || ClassNotesChoice(following).None?
    requires i < |following| && IsDataP(following[i])
    requires forall j :: 0 <= j < i ==> !(following[j].Element? && IsDataP(following[j]))
    ensures DataElement(title, following) == Some(following[i])
  {
    NextSiblingAt(following, IsDataP, i);
  }

  /** With no data paragraph after the title (and no "Class Notes" choice), the result
      is "N/A". */
  lemma NoDataElement(title: string, following: seq<Node>)
    requires title != ClassNotes || ClassNotesChoice(following).None?
    requires forall j :: 0 <= j < |following| ==> !(following[j].Element? && IsDataP(following[j]))
    ensures DataElement(title, following).None?
  {
  }

  /** The rendered list is empty only when no item has text, and no rendered item is empty. */
  lemma ListTextEmpty(ul: Node)
    ensures ListText(ul) == "" <==> forall k :: 0 <= k < |ListItems(ul)| ==> ItemText(ListItems(ul)[k]) == ""
  {
    var texts := ItemTexts(ListItems(ul));
    var kept := Filter(texts, NonEmpty);
    JoinNonEmpty(" ; ", kept);
    if kept == [] {
      forall k | 0 <= k < |texts| ensures texts[k] == "" {
      }
    } else {
      assert NonEmpty(kept[0]) && kept[0] in texts;
    }
  }

  /** An anchor with non-empty text and `href` renders as `text [href]`. */
  lemma LinkRepForm(a: Node)
    requires GetText(a, "") != "" && AttrOr(a, "href", "") != ""
    ensures LinkRep(a) == GetText(a, "") + " [" + AttrOr(a, "href", "") + "]"
  {
    var text := GetText(a, "");
    GetTextTrimmed(a);
    var m := text + " [" + AttrOr(a, "href", "") + "]";
    assert LinkRep(a) == Strip(m);
    assert m[0] == text[0] && m[|m| - 1] == ']';
    StripTrimmed(m);
  }

  /** An anchor without an `href` (or with an empty one) renders as its text alone. */
  lemma LinkRepNoHref(a: Node)
    requires AttrOr(a, "href", "") == ""
    ensures LinkRep(a) == GetText(a, "")
  {
    GetTextTrimmed(a);
    StripTrimmed(GetText(a, ""));
  }

  /** An anchor with an `href` but no text renders as `[href]`: the space before the
      bracket is stripped. */
  lemma LinkRepNoText(a: Node)
    requires GetText(a, "") == "" && AttrOr(a, "href", "") != ""
    ensures LinkRep(a) == "[" + AttrOr(a, "href", "") + "]"
  {
    var b := "[" + AttrOr(a, "href", "") + "]";
    assert GetText(a, "") + " [" + AttrOr(a, "href", "") + "]" == " " + b + "";
    assert b[0] == '[' && b[|b| - 1] == ']';
    StripPadded(" ", b, "");
  }

  /** The part a content node contributes, case by case. */
  lemma ItemPartCases(c: Node)
    ensures c.Text? ==> ItemPart(c) == Strip(c.text)
    ensures IsTag(c, "a") && AttrOr(c, "href", "") == "" ==> ItemPart(c) == GetText(c, "")
    ensures IsTag(c, "a") && AttrOr(c, "href", "") != "" && GetText(c, "") != "" ==>
      ItemPart(c) == GetText(c, "") + " [" + AttrOr(c, "href", "") + "]"
    ensures IsTag(c, "a") && AttrOr(c, "href", "") != "" && GetText(c, "") == "" ==>
      ItemPart(c) == "[" + AttrOr(c, "href", "") + "]"
    ensures c.Element? && c.name != "a" ==> ItemPart(c) == GetText(c, "")
  {
    if IsTag(c, "a") {
      if AttrOr(c, "href", "") == "" {
        LinkRepNoHref(c);
      } else if GetText(c, "") != "" {
        LinkRepForm(c);
      } else {
        LinkRepNoText(c);
      }
    }
  }

  /** The text of a non-empty `get_text(strip=True)` is trimmed. */
  lemma GetTextTrimmed(n: Node)
    ensures Trimmed(GetText(n, ""))
  {
    var ss := StrippedNonEmpty(Strings(n));
    StrippedTrimmed(Strings(n));
    if |ss| >= 1 {
      ConcatTrimmed(ss);
    }
  }

  /** Concatenating non-empty trimmed pieces gives a trimmed string. */
  lemma {:induction false} ConcatTrimmed(ss: seq<string>)
    requires ss != [] && forall k :: 0 <= k < |ss| ==> ss[k] != "" && Trimmed(ss[k])
    ensures Join("", ss) != "" && Trimmed(Join("", ss))
    ensures Join("", ss)[0] == ss[0][0]
    ensures Join("", ss)[|Join("", ss)| - 1] == ss[|ss| - 1][|ss[|ss| - 1]| - 1]
    decreases |ss|
  {
    if |ss| > 1 {
      ConcatTrimmed(ss[1..]);
      var t := Join("", ss[1..]);
      assert Join("", ss) == ss[0] + "" + t;
      assert ss[1..][|ss[1..]| - 1] == ss[|ss| - 1];
    }
  }

  /** The placeholder results: no URL, a failed or empty fetch, and a page without
      `div#section`. */
  lemma DetailsPlaceholders(url: Option<string>, outcomes: seq<Option<string>>, parse: string -> Node)
    ensures url.None? || url.value == "" ==>
      DetailsOf(url, outcomes, parse) == Details(NoUrl, NotAvailable, NotAvailable, NotAvailable, NotAvailable, NotAvailable)
    ensures url.Some? && url.value != "" &&
            (forall k :: 0 <= k < 3 ==> Attempt(outcomes, k).None?) ==>
      DetailsOf(url, outcomes, parse) == Details(FetchFailed, NotAvailable, NotAvailable, NotAvailable, NotAvailable, NotAvailable)
    ensures url.Some? && url.value != "" && PageContent(outcomes, 3) == Some("") ==>
      DetailsOf(url, outcomes, parse) == Details(FetchFailed, NotAvailable, NotAvailable, NotAvailable, NotAvailable, NotAvailable)
    ensures url.Some? && url.value != "" && PageContent(outcomes, 3).Some? &&
            PageContent(outcomes, 3).value != "" &&
            SectionRoot(parse(PageContent(outcomes, 3).value)).None? ==>
      DetailsOf(url, outcomes, parse) == Details(NotAvailable, NotAvailable, NotAvailable, NotAvailable, NotAvailable, NotAvailable)
  {
  }

  /** No field of the result is ever the empty string. */
  lemma DetailsNeverEmpty(url: Option<string>, outcomes: seq<Option<string>>, parse: string -> Node)
    ensures var d := DetailsOf(url, outcomes, parse);
      d.courseDescription != "" && d.classDescriptionDetail != "" && d.generalEducationGe != "" &&
      d.writingIiRequirement != "" && d.diversityInfo != "" && d.classNotes != ""
  {
  }

  /** Root selection: a `div#section` inside non-empty template content wins; when the
      template content has none (or there is no usable template), the outer document's
      first `div#section` is used. */
  lemma SectionRootChoice(doc: Node)
    ensures TemplateContent(doc).Some? && Find(TemplateContent(doc).value, IsSectionDiv).Some? ==>
      SectionRoot(doc) == Find(TemplateContent(doc).value, IsSectionDiv)
    ensures TemplateContent(doc).None? || Find(TemplateContent(doc).value, IsSectionDiv).None? ==>
      SectionRoot(doc) == Find(doc, IsSectionDiv)
  {
  }
}
