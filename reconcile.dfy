/** The listing loop of `soc`: page after page of courses, each reconciled into a record
    (summary fetch with retries, link-index merge, missing-link count, clean then
    restore), shown in the terminal and collected for the CSV export. */
module Reconcile {
  import opened Wrappers
  import opened Seqs
  import opened PyStr
  import opened Dom
  import opened SectionLinks
  import opened CourseSummary
  import opened Record
  import opened CsvExport

  /** `max_retries` of the summary fetch. */
  const MaxRetries: nat := 3

  /** A course as `extract_course_data` yields it: the course id used to find the title,
      the model's `classId`, and the outcomes of successive `get_course_summary` calls
      (`None` is a connection error; calls past the end fail too). */
  datatype Listed = Listed(courseId: string, classId: Option<string>, summaryAttempts: seq<Option<Node>>)

  /** One listing page from `course_titles_view`: its document and the courses on it.
      The pages after the given ones are empty. */
  datatype ListingPage = ListingPage(doc: Node, courses: seq<Listed>)

  /** The command's switches: `course_details`, `csv_export`, `quiet_csv`. */
  datatype Options = Options(courseDetails: bool, csvExport: bool, quietCsv: bool)

  /** One `display_course` call: number, name, the displayed record and the pre-clean one. */
  datatype Shown = Shown(number: string, name: string, data: Dict, orig: Dict)

  /** What the loop has accumulated: displayed courses, `all_courses` and
      `section_link_missing_count`. */
  datatype Progress = Progress(shown: seq<Shown>, exported: seq<CsvExport.Course>, missing: nat)

  /** The accumulated state and the exception that ended the run, if any. */
  datatype Run = Run(progress: Progress, crash: Option<PyError>)

  /** Everything `soc` produces: the display calls, the missing-link count, the exception
      that aborted it, and the CSV file. */
  datatype SocOutput = SocOutput(shown: seq<Shown>, missing: nat, crash: Option<PyError>, csv: Option<CsvFile>)

  /** Python truthiness of `model.get('classId')`. */
  predicate TruthyId(o: Option<string>) {
    o.Some? && o.value != ""
  }

  predicate IsTitleOf(n: Node, courseId: string) {
    Attr(n, "id") == Some(courseId + "-title")
  }

  /** `soup.find(id=course_id + "-title").contents[0]`, which must be a string for the
      following `split`: no element raises `AttributeError`, no content `IndexError`, and
      an element child `TypeError`. */
  function CourseTitle(doc: Node, courseId: string): (r: Result<string>)
    ensures r.Ok? ==> exists e :: Find(doc, (n: Node) => IsTitleOf(n, courseId)) == Some(e) &&
                                  FirstContent(e) == Ok(Text(r.value))
    ensures Find(doc, (n: Node) => IsTitleOf(n, courseId)).None? ==> r == Raised(AttributeError)
  {
    match Find(doc, (n: Node) => IsTitleOf(n, courseId))
    case None => Raised(AttributeError)
    case Some(e) =>
      match FirstContent(e)
      case Raised(x) => Raised(x)
      case Ok(first) => if first.Text? then Ok(first.text) else Raised(TypeError)
  }

  const TitleSeparator: string := " - "

  /** `number, name = title.split(" - ")`: unpacking raises `ValueError` unless the title
      contains the separator exactly once. */
  function SplitTitle(title: string): (r: Result<(string, string)>)
    ensures r.Ok? <==> |Split(title, TitleSeparator)| == 2
    ensures r.Raised? ==> r.error == ValueError
  {
    var parts := Split(title, TitleSeparator);
    if |parts| == 2 then Ok((parts[0], parts[1])) else Raised(ValueError)
  }

  /** A title that splits is the number, the separator and the name, and neither half
      contains the separator. */
  lemma SplitTitleParts(title: string)
    requires SplitTitle(title).Ok?
    ensures var (number, name) := SplitTitle(title).value;
      title == number + TitleSeparator + name &&
      !Contains(number, TitleSeparator) && !Contains(name, TitleSeparator)
  {
    JoinSplit(title, TitleSeparator);
    SplitPieces(title, TitleSeparator);
    var parts := Split(title, TitleSeparator);
    assert Join(TitleSeparator, parts) == parts[0] + TitleSeparator + parts[1];
  }

  /** `[2, 4, ..., 2n]`: the back-off delays after `n` failed attempts. */
  function Backoffs(n: nat): (r: seq<nat>)
    ensures |r| == n
    ensures forall k :: 0 <= k < n ==> r[k] == 2 * (k + 1)
  {
    if n == 0 then [] else Backoffs(n - 1) + [2 * n]
  }

  /** The page the retry loop ends with: the first successful one of `MaxRetries` attempts. */
  function FetchedPage(attempts: seq<Option<Node>>): (r: Option<Node>)
    ensures r.Some? <==> exists k :: 0 <= k < MaxRetries && Attempt(attempts, k).Some?
  {
    match FirstSuccess(attempts, MaxRetries)
    case Some(k) => Attempt(attempts, k)
    case None => None
  }

  /** The retry loop of `soc`: at most `MaxRetries` calls; after failed call `k` (one-based)
      it backs off `2k` seconds. The jitter delay before each call is not modelled. */
  method FetchSummary(attempts: seq<Option<Node>>) returns (page: Option<Node>, tries: nat, backoffs: seq<nat>)
    ensures page == FetchedPage(attempts)
    ensures 1 <= tries <= MaxRetries
    ensures page.None? ==> tries == MaxRetries && backoffs == Backoffs(MaxRetries)
    ensures page.Some? ==> FirstSuccess(attempts, MaxRetries) == Some(tries - 1) &&
                           backoffs == Backoffs(tries - 1)
  {
    var retryCount := 0;
    page := None;
    tries := 0;
    backoffs := [];
    while retryCount < MaxRetries
      invariant retryCount <= MaxRetries
      invariant tries == retryCount && backoffs == Backoffs(retryCount) && page.None?
      invariant FirstSuccess(attempts, MaxRetries) == FirstSuccessFrom(attempts, retryCount, MaxRetries)
    {
      tries := tries + 1;
      var outcome := Attempt(attempts, retryCount);
      if outcome.Some? {
        page := outcome;
        return;
      }
      retryCount := retryCount + 1;
      backoffs := backoffs + [retryCount * 2];
    }
  }

  /** The record before the link merge: the summary of the fetched page, or a placeholder
      when every attempt failed or the extraction raised. */
  function SummaryRecord(page: Option<Node>): (r: Dict)
    ensures r.Keys == SummaryKeys
    ensures page.None? ==>
      r["status"] == Strs([ConnectionErrorStatus]) &&
      !Truthy(Get(r, SectionIdKey)) && !Truthy(Get(r, SectionLinkKey))
    ensures page.Some? && CourseSummaryOf(page.value).Raised? ==>
      r["status"] == Strs([ExtractionErrorStatus]) &&
      !Truthy(Get(r, SectionIdKey)) && !Truthy(Get(r, SectionLinkKey))
    ensures page.Some? && CourseSummaryOf(page.value).Ok? ==>
      r[SectionIdKey] == OptionValue(CourseSummaryOf(page.value).value.sectionId) &&
      r[SectionLinkKey] == OptionValue(CourseSummaryOf(page.value).value.sectionLink)
  {
    match page
    case None => UnknownDict(ConnectionErrorStatus)
    case Some(p) =>
      match CourseSummaryOf(p)
      case Ok(d) => SummaryDict(d)
      case Raised(_) => UnknownDict(ExtractionErrorStatus)
  }

  /** The link merge: when the model's `classId` is truthy and in the link index, both
      section fields are overwritten by the index entry; otherwise the record is unchanged. */
  function MergeLink(d: Dict, classId: Option<string>, links: map<string, Entry>): (r: Dict)
    ensures TruthyId(classId) && classId.value in links ==>
      Get(r, SectionIdKey) == Some(Str(links[classId.value].sectionId)) &&
      Get(r, SectionLinkKey) == Some(Str(links[classId.value].sectionLink))
    ensures !(TruthyId(classId) && classId.value in links) ==> r == d
    ensures forall k :: k != SectionIdKey && k != SectionLinkKey ==> Get(r, k) == Get(d, k)
  {
    if TruthyId(classId) && classId.value in links then
      var e := links[classId.value];
      d[SectionIdKey := Str(e.sectionId)][SectionLinkKey := Str(e.sectionLink)]
    else d
  }

  /** A record lacks a link when its `section_link` is missing, `None` or empty. */
  predicate LinkMissing(d: Dict) {
    !Truthy(Get(d, SectionLinkKey))
  }

  /** Re-asserting the section fields after cleaning: each one the pre-clean record had
      truthy is written back; every other key is as the cleaner left it. */
  function Restore(cleaned: Dict, pre: Dict): (r: Dict)
    ensures Truthy(Get(pre, SectionIdKey)) ==> Get(r, SectionIdKey) == Get(pre, SectionIdKey)
    ensures !Truthy(Get(pre, SectionIdKey)) ==> Get(r, SectionIdKey) == Get(cleaned, SectionIdKey)
    ensures Truthy(Get(pre, SectionLinkKey)) ==> Get(r, SectionLinkKey) == Get(pre, SectionLinkKey)
    ensures !Truthy(Get(pre, SectionLinkKey)) ==> Get(r, SectionLinkKey) == Get(cleaned, SectionLinkKey)
    ensures forall k :: k != SectionIdKey && k != SectionLinkKey ==> Get(r, k) == Get(cleaned, k)
  {
    var withId := if Truthy(Get(pre, SectionIdKey)) then cleaned[SectionIdKey := pre[SectionIdKey]] else cleaned;
    if Truthy(Get(pre, SectionLinkKey)) then withId[SectionLinkKey := pre[SectionLinkKey]] else withId
  }

  /** The displayed record keeps every section field its pre-clean record had truthy. */
  predicate Restored(s: Shown) {
    (Truthy(Get(s.orig, SectionIdKey)) ==> Get(s.data, SectionIdKey) == Get(s.orig, SectionIdKey)) &&
    (Truthy(Get(s.orig, SectionLinkKey)) ==> Get(s.data, SectionLinkKey) == Get(s.orig, SectionLinkKey))
  }

  /** The `course_details` block for one course: the pre-clean record (summary, then link
      merge) and the displayed record (cleaned, then restored). */
  function Details(c: Listed, links: map<string, Entry>, clean: Dict -> Dict): (r: (Dict, Dict))
    ensures Restored(Shown("", "", r.0, r.1))
  {
    var pre := MergeLink(SummaryRecord(FetchedPage(c.summaryAttempts)), c.classId, links);
    (Restore(clean(pre), pre), pre)
  }

  /** `course_details` block of `soc`, updating the record in place. Returns the displayed
      record, the pre-clean copy and whether it counts as missing a link. */
  method ReconcileCourse(c: Listed, links: map<string, Entry>, clean: Dict -> Dict)
    returns (data: Dict, orig: Dict, missing: bool)
    ensures (data, orig) == Details(c, links, clean)
    ensures missing == LinkMissing(orig)
  {
    var page, tries, backoffs := FetchSummary(c.summaryAttempts);
    data := UnknownDict(ConnectionErrorStatus);
    if page.Some? {
      var summary := ExtractCourseSummary(page.value);
      if summary.Ok? {
        data := SummaryDict(summary.value);
      } else {
        data := UnknownDict(ExtractionErrorStatus);
      }
    }
    if TruthyId(c.classId) && c.classId.value in links {
      data := data[SectionIdKey := Str(links[c.classId.value].sectionId)];
      data := data[SectionLinkKey := Str(links[c.classId.value].sectionLink)];
    }
    missing := !Truthy(Get(data, SectionLinkKey));
    orig := data;
    var sectionId := Get(data, SectionIdKey);
    var sectionLink := Get(data, SectionLinkKey);
    data := clean(data);
    if Truthy(sectionId) {
      data := data[SectionIdKey := sectionId.value];
    }
    if Truthy(sectionLink) {
      data := data[SectionLinkKey := sectionLink.value];
    }
  }

  /** The course number and name of a listed course, read from its title. */
  function TitleParts(doc: Node, courseId: string): Result<(string, string)> {
    match CourseTitle(doc, courseId)
    case Raised(e) => Raised(e)
    case Ok(title) => SplitTitle(title)
  }

  /** The displayed and pre-clean records of a course: from the `course_details` block,
      or both empty without it. */
  function CourseRecords(c: Listed, links: map<string, Entry>, opts: Options, clean: Dict -> Dict): (r: (Dict, Dict))
    ensures Restored(Shown("", "", r.0, r.1))
    ensures !opts.courseDetails ==> r == (map[], map[])
  {
    if opts.courseDetails then Details(c, links, clean) else (map[], map[])
  }

  /** The state after a course that did not raise: the CSV list (if exporting), the
      display (unless quiet CSV mode) and the missing-link counter. */
  function Advance(p: Progress, opts: Options, number: string, name: string, d: (Dict, Dict)): Progress {
    var missing := opts.courseDetails && LinkMissing(d.1);
    Progress(
      if opts.csvExport && opts.quietCsv then p.shown else p.shown + [Shown(number, name, d.0, d.1)],
      if opts.csvExport then p.exported + [CsvExport.Course(number, name, d.0)] else p.exported,
      if missing then p.missing + 1 else p.missing)
  }

  /** One course of the loop: title, split, record (or an empty one without
      `course_details`), then the CSV list and the display. */
  function Step(doc: Node, links: map<string, Entry>, c: Listed, opts: Options,
                clean: Dict -> Dict, p: Progress): Run
  {
    match TitleParts(doc, c.courseId)
    case Raised(e) => Run(p, Some(e))
    case Ok((number, name)) => Run(Advance(p, opts, number, name, CourseRecords(c, links, opts, clean)), None)
  }

  /** The courses of one page in order, stopping at the first that raises. */
  function CoursesFrom(doc: Node, links: map<string, Entry>, cs: seq<Listed>, opts: Options,
                       clean: Dict -> Dict, p: Progress): Run
    decreases |cs|
  {
    if cs == [] then Run(p, None)
    else
      var r := Step(doc, links, cs[0], opts, clean, p);
      if r.crash.Some? then r else CoursesFrom(doc, links, cs[1..], opts, clean, r.progress)
  }

  /** The pages from `i` on, until the first page without courses. */
  function PagesFrom(pages: seq<ListingPage>, i: nat, opts: Options, clean: Dict -> Dict, p: Progress): Run
    decreases |pages| - i
  {
    if i >= |pages| || pages[i].courses == [] then Run(p, None)
    else
      var page := pages[i];
      var r := CoursesFrom(page.doc, LinkIndex(ClsSections(page.doc)), page.courses, opts, clean, p);
      if r.crash.Some? then r else PagesFrom(pages, i + 1, opts, clean, r.progress)
  }

  const Start: Progress := Progress([], [], 0)

  /** What `soc(term, subject, ...)` produces for the listing `pages`, once the subject code
      and name are resolved; the CSV file is written only after a run that did not raise. */
  function SocOf(term: string, subject: string, subjectName: string, pages: seq<ListingPage>,
                 opts: Options, clean: Dict -> Dict): SocOutput
  {
    var r := PagesFrom(pages, 0, opts, clean, Start);
    SocOutput(r.progress.shown, r.progress.missing, r.crash,
              if r.crash.None? && opts.csvExport
              then CsvOf(term, subject, subjectName, r.progress.exported, None)
              else None)
  }

  /** The title of a listed course, split into its number and name. */
  method ReadTitle(doc: Node, courseId: string) returns (split: Result<(string, string)>)
    ensures split == TitleParts(doc, courseId)
    ensures CourseTitle(doc, courseId).Raised? ==> split == Raised(CourseTitle(doc, courseId).error)
    ensures CourseTitle(doc, courseId).Ok? && |Split(CourseTitle(doc, courseId).value, TitleSeparator)| != 2 ==>
      split == Raised(ValueError)
    ensures split.Ok? ==>
      CourseTitle(doc, courseId) == Ok(split.value.0 + TitleSeparator + split.value.1) &&
      !Contains(split.value.0, TitleSeparator) && !Contains(split.value.1, TitleSeparator)
  {
    var title := CourseTitle(doc, courseId);
    if title.Raised? {
      return Raised(title.error);
    }
    split := SplitTitle(title.value);
    if split.Ok? {
      SplitTitleParts(title.value);
    }
  }

  /** The records of one course: the `course_details` block when it is on, and empty
      records with nothing counted when it is off. */
  method ReadRecords(c: Listed, links: map<string, Entry>, opts: Options, clean: Dict -> Dict)
    returns (data: Dict, orig: Dict, missing: bool)
    ensures (data, orig) == CourseRecords(c, links, opts, clean)
    ensures missing == (opts.courseDetails && LinkMissing(orig))
  {
    data, orig, missing := map[], map[], false;
    if opts.courseDetails {
      data, orig, missing := ReconcileCourse(c, links, clean);
    }
  }

  /** One course of the loop, as `soc` runs it. */
  method ProcessCourse(doc: Node, links: map<string, Entry>, c: Listed, opts: Options,
                       clean: Dict -> Dict, p: Progress) returns (r: Run)
    ensures r == Step(doc, links, c, opts, clean, p)
  {
    var split := ReadTitle(doc, c.courseId);
    if split.Raised? {
      return Run(p, Some(split.error));
    }
    var (number, name) := split.value;
    var data, orig, missing := ReadRecords(c, links, opts, clean);
    var missingCount := p.missing;
    if missing {
      missingCount := missingCount + 1;
    }
    var allCourses := p.exported;
    if opts.csvExport {
      allCourses := allCourses + [CsvExport.Course(number, name, data)];
    }
    var shown := p.shown;
    if !(opts.csvExport && opts.quietCsv) {
      shown := shown + [Shown(number, name, data, orig)];
    }
    assert Progress(shown, allCourses, missingCount) == Advance(p, opts, number, name, (data, orig));
    return Run(Progress(shown, allCourses, missingCount), None);
  }

  /** The per-course loop over one page's courses. */
  method ProcessPage(doc: Node, links: map<string, Entry>, models: seq<Listed>, opts: Options,
                     clean: Dict -> Dict, start: Progress) returns (r: Run)
    ensures r == CoursesFrom(doc, links, models, opts, clean, start)
  {
    var progress := start;
    var j := 0;
    while j < |models|
      invariant 0 <= j <= |models|
      invariant CoursesFrom(doc, links, models, opts, clean, start) ==
                CoursesFrom(doc, links, models[j..], opts, clean, progress)
    {
      var step := ProcessCourse(doc, links, models[j], opts, clean, progress);
      assert models[j..][1..] == models[j + 1..];
      if step.crash.Some? {
        return step;
      }
      progress := step.progress;
      j := j + 1;
    }
    assert models[j..] == [];
    return Run(progress, None);
  }

  /** The paging loop of `soc`: `while not last_page`, which ends at the first page without
      courses (`last_page` is never set) or when a course raises. */
  method ListingLoop(pages: seq<ListingPage>, opts: Options, clean: Dict -> Dict) returns (r: Run)
    ensures r == PagesFrom(pages, 0, opts, clean, Start)
  {
    var progress := Start;
    var page := 0;
    while page < |pages|
      invariant PagesFrom(pages, 0, opts, clean, Start) == PagesFrom(pages, page, opts, clean, progress)
      decreases |pages| - page
    {
      var doc := pages[page].doc;
      var links := ExtractSectionLinks(doc);
      var models := pages[page].courses;
      if models == [] {
        break;
      }
      r := ProcessPage(doc, links, models, opts, clean, progress);
      if r.crash.Some? {
        return;
      }
      progress := r.progress;
      page := page + 1;
    }
    return Run(progress, None);
  }

  /** `soc`: the listing loop, then the CSV export when requested and there is a course. */
  method Soc(term: string, subject: string, subjectName: string, pages: seq<ListingPage>,
             opts: Options, clean: Dict -> Dict) returns (out: SocOutput)
    ensures out == SocOf(term, subject, subjectName, pages, opts, clean)
  {
    var r := ListingLoop(pages, opts, clean);
    if r.crash.Some? {
      return SocOutput(r.progress.shown, r.progress.missing, r.crash, None);
    }
    var csv: Option<CsvFile> := None;
    if opts.csvExport && r.progress.exported != [] {
      csv := SaveToCsv(term, subject, subjectName, r.progress.exported, None);
    }
    return SocOutput(r.progress.shown, r.progress.missing, None, csv);
  }

  /** After `MaxRetries` failed calls the record is the connection-error placeholder:
      status `["Unknown - Connection Error"]` and no section fields; a page that was
      fetched but cannot be summarised gives the extraction-error placeholder. */
  lemma SummaryFallbacks(attempts: seq<Option<Node>>)
    ensures (forall k :: 0 <= k < MaxRetries ==> Attempt(attempts, k).None?) ==>
      SummaryRecord(FetchedPage(attempts)) == UnknownDict(ConnectionErrorStatus)
    ensures FetchedPage(attempts).Some? && CourseSummaryOf(FetchedPage(attempts).value).Raised? ==>
      SummaryRecord(FetchedPage(attempts)) == UnknownDict(ExtractionErrorStatus)
    ensures FetchedPage(attempts).Some? && CourseSummaryOf(FetchedPage(attempts).value).Ok? ==>
      SummaryRecord(FetchedPage(attempts)) == SummaryDict(CourseSummaryOf(FetchedPage(attempts).value).value)
  {
  }

  /** The number of displayed courses whose pre-clean record lacks a link. */
  function MissingCount(shown: seq<Shown>): (r: nat)
    ensures r <= |shown|
  {
    if shown == [] then 0
    else MissingCount(shown[..|shown| - 1]) + (if LinkMissing(shown[|shown| - 1].orig) then 1 else 0)
  }

  /** What holds of the accumulated state throughout the run: every displayed record was
      restored from its pre-clean copy; without `course_details` nothing is counted and
      the records are empty; with it, and with the display on, the counter is the number
      of displayed courses lacking a link. */
  predicate Consistent(opts: Options, p: Progress) {
    (forall k :: 0 <= k < |p.shown| ==> Restored(p.shown[k])) &&
    (!opts.courseDetails ==>
       p.missing == 0 &&
       (forall k :: 0 <= k < |p.shown| ==> p.shown[k].data == map[]) &&
       (forall k :: 0 <= k < |p.exported| ==> p.exported[k].data == map[])) &&
    (opts.courseDetails && !(opts.csvExport && opts.quietCsv) ==> p.missing == MissingCount(p.shown))
  }

  /** One course: a raising course changes nothing; otherwise exactly one display (unless
      quiet CSV mode), one CSV entry (if exporting), and the counter goes up by one exactly
      when details are on and the merged record lacks a link. */
  lemma StepEffect(doc: Node, links: map<string, Entry>, c: Listed, opts: Options,
                   clean: Dict -> Dict, p: Progress)
    ensures var r := Step(doc, links, c, opts, clean, p);
      (r.crash.Some? ==> r.progress == p) &&
      (r.crash.None? ==>
         r.progress.missing ==
           p.missing + (if opts.courseDetails && LinkMissing(Details(c, links, clean).1) then 1 else 0) &&
         p.exported <= r.progress.exported &&
         |r.progress.exported| == |p.exported| + (if opts.csvExport then 1 else 0) &&
         p.shown <= r.progress.shown &&
         |r.progress.shown| == |p.shown| + (if opts.csvExport && opts.quietCsv then 0 else 1))
  {
  }

  lemma AdvanceConsistent(p: Progress, opts: Options, number: string, name: string, d: (Dict, Dict))
    requires Consistent(opts, p)
    requires Restored(Shown("", "", d.0, d.1)) && (!opts.courseDetails ==> d == (map[], map[]))
    ensures Consistent(opts, Advance(p, opts, number, name, d))
  {
    var q := Advance(p, opts, number, name, d);
    if !(opts.csvExport && opts.quietCsv) {
      var last := Shown(number, name, d.0, d.1);
      assert q.shown == p.shown + [last];
      assert q.shown[..|q.shown| - 1] == p.shown;
    }
  }

  lemma StepConsistent(doc: Node, links: map<string, Entry>, c: Listed, opts: Options,
                       clean: Dict -> Dict, p: Progress)
    requires Consistent(opts, p)
    ensures Consistent(opts, Step(doc, links, c, opts, clean, p).progress)
  {
    var t := TitleParts(doc, c.courseId);
    if t.Ok? {
      AdvanceConsistent(p, opts, t.value.0, t.value.1, CourseRecords(c, links, opts, clean));
    }
  }

  lemma {:induction false} CoursesFromConsistent(doc: Node, links: map<string, Entry>, cs: seq<Listed>,
                                                 opts: Options, clean: Dict -> Dict, p: Progress)
    requires Consistent(opts, p)
    ensures Consistent(opts, CoursesFrom(doc, links, cs, opts, clean, p).progress)
    decreases |cs|
  {
    if cs != [] {
      StepConsistent(doc, links, cs[0], opts, clean, p);
      var r := Step(doc, links, cs[0], opts, clean, p);
      if r.crash.None? {
        CoursesFromConsistent(doc, links, cs[1..], opts, clean, r.progress);
      }
    }
  }

  lemma {:induction false} PagesFromConsistent(pages: seq<ListingPage>, i: nat, opts: Options,
                                               clean: Dict -> Dict, p: Progress)
    requires Consistent(opts, p)
    ensures Consistent(opts, PagesFrom(pages, i, opts, clean, p).progress)
    decreases |pages| - i
  {
    if i < |pages| && pages[i].courses != [] {
      var page := pages[i];
      var links := LinkIndex(ClsSections(page.doc));
      CoursesFromConsistent(page.doc, links, page.courses, opts, clean, p);
      var r := CoursesFrom(page.doc, links, page.courses, opts, clean, p);
      if r.crash.None? {
        PagesFromConsistent(pages, i + 1, opts, clean, r.progress);
      }
    }
  }

  /** Over a whole run of `soc`, whether or not it raised: the clean-then-restore and
      missing-link properties hold for every displayed course, and without
      `course_details` no link is counted missing. */
  lemma SocConsistent(term: string, subject: string, subjectName: string, pages: seq<ListingPage>,
                      opts: Options, clean: Dict -> Dict)
    ensures var out := SocOf(term, subject, subjectName, pages, opts, clean);
      (forall k :: 0 <= k < |out.shown| ==> Restored(out.shown[k])) &&
      (!opts.courseDetails ==> out.missing == 0) &&
      (opts.courseDetails && !(opts.csvExport && opts.quietCsv) ==> out.missing == MissingCount(out.shown))
  {
    PagesFromConsistent(pages, 0, opts, clean, Start);
  }

  /** A page that does not raise displays (unless quiet CSV mode) and collects (if
      exporting) exactly one record per course, after the earlier ones. */
  lemma {:induction false} CoursesFromCounts(doc: Node, links: map<string, Entry>, cs: seq<Listed>,
                                             opts: Options, clean: Dict -> Dict, p: Progress)
    ensures var r := CoursesFrom(doc, links, cs, opts, clean, p);
      p.shown <= r.progress.shown && p.exported <= r.progress.exported &&
      (r.crash.None? ==>
         |r.progress.shown| == |p.shown| + (if opts.csvExport && opts.quietCsv then 0 else |cs|) &&
         |r.progress.exported| == |p.exported| + (if opts.csvExport then |cs| else 0))
    decreases |cs|
  {
    if cs != [] {
      StepEffect(doc, links, cs[0], opts, clean, p);
      var r := Step(doc, links, cs[0], opts, clean, p);
      if r.crash.None? {
        CoursesFromCounts(doc, links, cs[1..], opts, clean, r.progress);
      }
    }
  }
}
