/** The single-section course summary page: `extract_location` and `extract_course_summary`.
    Each column class appears twice on the page; the second element (index 1) holds the
    value, the first echoes the header. */
module CourseSummary {
  import opened Wrappers
  import opened Seqs
  import opened PyStr
  import opened Dom
  import opened SectionLinks

  /** The record `extract_course_summary` returns. `waitlist`, `units` and `instructor`
      hold the first content node of their paragraph (normally a text node). */
  datatype CourseData = CourseData(
    status: seq<string>,
    waitlist: Node,
    day: string,
    time: seq<string>,
    location: string,
    units: Node,
    instructor: Node,
    sectionId: Option<string>,
    sectionLink: Option<string>)

  predicate IsP(n: Node) {
    IsTag(n, "p")
  }

  predicate IsButton(n: Node) {
    IsTag(n, "button")
  }

  /** `soup.find_all(class_=column)[1]`. */
  function ColumnCell(page: Node, column: string): (r: Result<Node>)
    ensures r.Ok? <==> |FindAll(page, (n: Node) => HasClass(n, column))| >= 2
    ensures r.Raised? ==> r.error == IndexError
  {
    var cells := FindAll(page, (n: Node) => HasClass(n, column));
    if |cells| < 2 then Raised(IndexError) else Ok(cells[1])
  }

  /** `soup.find_all(class_=column)[1].find("p")`; using the paragraph when there is none
      raises `AttributeError`. */
  function ColumnParagraph(page: Node, column: string): Result<Node> {
    match ColumnCell(page, column)
    case Raised(e) => Raised(e)
    case Ok(cell) =>
      match Find(cell, IsP)
      case None => Raised(AttributeError)
      case Some(p) => Ok(p)
  }

  predicate IsText(n: Node) {
    n.Text?
  }

  /** `[x for x in p.contents if isinstance(x, NavigableString)]`: the text children of `p`,
      in order and with repetitions. */
  function TextChildren(cs: seq<Node>): (r: seq<string>)
    ensures |r| == |Filter(cs, IsText)|
    ensures forall k :: 0 <= k < |r| ==> Filter(cs, IsText)[k] == Text(r[k])
  {
    if cs == [] then []
    else (if cs[0].Text? then [cs[0].text] else []) + TextChildren(cs[1..])
  }

  /** `p.contents[0]`. */
  function FirstContent(p: Node): (r: Result<Node>)
    ensures r.Ok? <==> p.Element? && p.children != []
    ensures r.Raised? ==> r.error == IndexError
  {
    if p.Element? && p.children != [] then Ok(p.children[0]) else Raised(IndexError)
  }

  /** `extract_location(soup)`: the stripped text of the first button in the second
      location column's paragraph, or of the paragraph itself when it has no button. */
  function ExtractLocation(page: Node): (r: Result<string>)
    ensures r.Ok? <==> ColumnParagraph(page, "locationColumn").Ok?
    ensures r.Ok? ==> Trimmed(r.value)
    ensures r.Ok? && Find(ColumnParagraph(page, "locationColumn").value, IsButton).None? ==>
      r.value == Strip(TextOf(ColumnParagraph(page, "locationColumn").value))
    ensures r.Ok? && Find(ColumnParagraph(page, "locationColumn").value, IsButton).Some? ==>
      r.value == Strip(TextOf(Find(ColumnParagraph(page, "locationColumn").value, IsButton).value))
  {
    match ColumnParagraph(page, "locationColumn")
    case Raised(e) => Raised(e)
    case Ok(p) =>
      match Find(p, IsButton)
      case Some(b) => Ok(Strip(TextOf(b)))
      case None => Ok(Strip(TextOf(p)))
  }

  /** `...find_all(class_="timeColumn")[1].find_all("p")[1]`: the second paragraph of the
      time column. */
  function TimeParagraph(page: Node): Result<Node> {
    match ColumnCell(page, "timeColumn")
    case Raised(e) => Raised(e)
    case Ok(cell) =>
      var ps := FindAll(cell, IsP);
      if |ps| < 2 then Raised(IndexError) else Ok(ps[1])
  }

  /** A column whose value is the first content node of its paragraph. */
  function FirstContentOf(page: Node, column: string): Result<Node> {
    match ColumnParagraph(page, column)
    case Raised(e) => Raised(e)
    case Ok(p) => FirstContent(p)
  }

  /** The seven column values `extract_course_summary` reads; `location` is already the
      result of `extract_location`. */
  datatype Columns = Columns(
    status: Node, waitlist: Node, day: Node, time: Node,
    location: string, units: Node, instructor: Node)

  /** All column reads of the summary, raising the first failing read's exception. */
  function ReadColumns(page: Node): (r: Result<Columns>)
    ensures r.Ok? <==>
      ColumnParagraph(page, "statusColumn").Ok? &&
      FirstContentOf(page, "waitlistColumn").Ok? &&
      ColumnParagraph(page, "dayColumn").Ok? &&
      TimeParagraph(page).Ok? &&
      ColumnParagraph(page, "locationColumn").Ok? &&
      FirstContentOf(page, "unitsColumn").Ok? &&
      FirstContentOf(page, "instructorColumn").Ok?
    ensures r.Ok? ==> r.value.location == ExtractLocation(page).value && Trimmed(r.value.location)
  {
    match ColumnParagraph(page, "statusColumn")
    case Raised(e) => Raised(e)
    case Ok(status) =>
      match FirstContentOf(page, "waitlistColumn")
      case Raised(e) => Raised(e)
      case Ok(waitlist) =>
        match ColumnParagraph(page, "dayColumn")
        case Raised(e) => Raised(e)
        case Ok(day) =>
          match TimeParagraph(page)
          case Raised(e) => Raised(e)
          case Ok(time) =>
            match ExtractLocation(page)
            case Raised(e) => Raised(e)
            case Ok(location) =>
              match FirstContentOf(page, "unitsColumn")
              case Raised(e) => Raised(e)
              case Ok(units) =>
                match FirstContentOf(page, "instructorColumn")
                case Raised(e) => Raised(e)
                case Ok(instructor) =>
                  Ok(Columns(status, waitlist, day, time, location, units, instructor))
  }

  /** The result dictionary built from the column values and the link scan's outcome:
      text children of the status paragraph and of the second time paragraph, the day
      paragraph's text unstripped. */
  function Summary(c: Columns, link: Option<Entry>): (d: CourseData)
    ensures d.sectionId.Some? <==> link.Some?
    ensures d.sectionLink.Some? <==> link.Some?
    ensures link.Some? ==> d.sectionId == Some(link.value.sectionId) &&
                           d.sectionLink == Some(link.value.sectionLink)
  {
    CourseData(
      TextChildren(Contents(c.status)), c.waitlist, TextOf(c.day),
      TextChildren(Contents(c.time)), c.location, c.units, c.instructor,
      if link.Some? then Some(link.value.sectionId) else None,
      if link.Some? then Some(link.value.sectionLink) else None)
  }

  /** What `extract_course_summary(soup)` returns, or the exception it raises. The link
      scan cannot raise; any failing column read raises. */
  function CourseSummaryOf(page: Node): Result<CourseData> {
    match ReadColumns(page)
    case Raised(e) => Raised(e)
    case Ok(c) => Ok(Summary(c, FirstAnchor(page)))
  }

  /** A successful summary carries the first section container's link, both halves or
      neither, the link absolute, and a stripped location. */
  lemma CourseSummaryLink(page: Node)
    requires CourseSummaryOf(page).Ok?
    ensures var d := CourseSummaryOf(page).value;
      (d.sectionId.Some? <==> FirstAnchor(page).Some?) &&
      (d.sectionId.Some? <==> d.sectionLink.Some?) &&
      (d.sectionLink.Some? ==> !StartsWith(d.sectionLink.value, "/")) &&
      Trimmed(d.location)
  {
  }

  /** `extract_course_summary(soup)`, with its link scan run as a loop. */
  method ExtractCourseSummary(page: Node) returns (r: Result<CourseData>)
    ensures r == CourseSummaryOf(page)
    ensures r.Ok? <==> ReadColumns(page).Ok?
  {
    var columns := ReadColumns(page);
    if columns.Raised? {
      return Raised(columns.error);
    }
    var sectionId, sectionLink := FirstSectionLink(page);
    var c := columns.value;
    r := Ok(CourseData(
      TextChildren(Contents(c.status)), c.waitlist, TextOf(c.day),
      TextChildren(Contents(c.time)), c.location, c.units, c.instructor,
      sectionId, sectionLink));
  }
}
