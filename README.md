# ucla-cli scraper core, modelled in Dafny

`ucla-cli` scrapes the UCLA Schedule of Classes. For one subject area it goes through the
course listing page by page. For each course it fetches the section summary, retrying on
connection errors. It then fills in the section label and link from an index of links
built from the listing page, runs the record through a cleaner, restores the section
fields the cleaner may have dropped, shows the course, and can export everything to CSV.
A second module reads a section's detail page. It finds titled fields ("Course
Description", "Class Notes", ...) and renders each field's data element as text, with
fixed placeholder values when something is missing.

This project models that logic over a small element tree. It proves what the code
promises about it.

- `Dom`: the element tree (`Node`: text or element with name, classes, attributes and
  children). It also holds the BeautifulSoup operations the code uses: `find` and
  `find_all` (document order), `find_next_sibling` (skips text nodes), `.string`,
  `.text` and `get_text(separator, strip=True)`.
- `PyStr`: Python's `str.strip` (with Python's whitespace set), `split`, `join` and
  `startswith`, with round-trip lemmas. `Seqs`: generic searches, the last-write-wins
  map, and retry outcomes.
- `SectionLinks`: `extract_section_links` (a `for` loop with `continue`s) and the link
  scan of `extract_course_summary` (a loop with `break`).
- `CourseSummary`: `extract_location` and `extract_course_summary`, including the
  exception each failing column read raises.
- `Record`: the per-course dict. `Reconcile`: the `soc` loops (pages, courses, the
  retry loop, merge, missing-link count, clean then restore). `CsvExport`: the rows
  `save_to_csv` writes.
- `SectionDetails`: `get_page_content`, `get_data_for_title` (its nested rendering
  loops are methods) and `extract_section_details_from_url`.

Fetching, parsing, sleeping and the cleaner are not modelled directly. They enter as
data or as function parameters:
- A fetch is a sequence of attempt outcomes (`None` = the attempt failed; attempts past
  the end of the sequence fail too).
- A listing is a sequence of pages. Each page holds its document and the courses that
  `extract_course_data` finds on it.
- `clean_course_summary` is a function `Dict -> Dict`.
- The HTML parser is a function `string -> Node`.
- Sleeps are returned as lists of delays.

Behaviour of the code worth noting:
- The listing loop's `last_page` flag is never set. The loop ends only at a page without
  courses, or when a course raises.
- `number, name = title.split(" - ")` raises `ValueError` unless the separator occurs
  exactly once. It does not split at the first occurrence.
- The link merge overwrites both section fields whenever the class id is in the index.
  It does not only fill empty fields.
- After cleaning, only `section_id` and `section_link` are restored.
- A CSV row has 13 columns. With no name given, the file name is
  `<term>_<stripped subject>.csv`.
- The day column is the paragraph's unstripped text.
- The time column is always taken from the second paragraph of the time cell. A cell
  with fewer paragraphs raises `IndexError`.
- An `href` that does not start with "/" is kept unchanged, so links are not always
  absolute. What holds is that no stored link starts with "/".
- `extract_section_details_from_url` is never called from `soc`, so its fields are not
  part of the `soc` records.

## Model

| member | source | states |
|---|---|---|
| SectionLinks.Absolutize | src/ucla_cli/__main__.py:121-122 | an href starting with "/" becomes "https://sa.ucla.edu" + href, any other is unchanged, and the result never starts with "/" |
| SectionLinks.ClassIdKey | src/ucla_cli/__main__.py:97-106 | a div id yields a class id exactly when it contains "_" (so an empty id or one piece yields none); the key is the text before the first "_" and contains no "_" |
| SectionLinks.AnchorEntry | src/ucla_cli/__main__.py:109-122 | no entry exactly when the container has no `p.hide-small`, its first one has no `a`, or that anchor has no `href`; otherwise the label is the anchor's stripped text and the link its absolutized `href`, so the label is trimmed and the link not site-relative |
| SectionLinks.DivEntry | src/ucla_cli/__main__.py:97-122 | a container contributes an index entry exactly when its id contains "_" and it has an anchor entry; the key is its class id |
| SectionLinks.ExtractSectionLinks | src/ucla_cli/__main__.py:84-132 | the loop with its `continue`s builds exactly the last-write-wins index of the qualifying `cls-section` containers |
| SectionLinks.LinkIndexKeys | src/ucla_cli/__main__.py:95-128 | the index's keys are exactly the class ids of qualifying containers |
| SectionLinks.LinkIndexLastWins | src/ucla_cli/__main__.py:125-128 | when several qualifying containers share a class id, the index holds the entry of the last one |
| SectionLinks.LinkIndexEntries | src/ucla_cli/__main__.py:109-128 | every stored entry is the anchor entry of a container with that class id: stripped label, link not site-relative |
| SectionLinks.FirstAnchor | src/ucla_cli/__main__.py:34-61 | the link scan's result is the entry of the first container in document order that has one, and none exactly when no container has one |
| SectionLinks.FirstSectionLink | src/ucla_cli/__main__.py:34-61 | the scan loop with `break` returns that first entry's label and link, or both `None` |
| CourseSummary.ColumnCell | src/ucla_cli/__main__.py:31 | reading `find_all(class_=c)[1]` succeeds exactly when there are at least two cells, else `IndexError` |
| CourseSummary.TextChildren | src/ucla_cli/__main__.py:67 | the status and time lists are the paragraph's text children, position by position, in order and with repetitions |
| CourseSummary.FirstContent | src/ucla_cli/__main__.py:68 | `contents[0]` succeeds exactly for a paragraph with content, else `IndexError` |
| CourseSummary.ExtractLocation | src/ucla_cli/__main__.py:24-28 | succeeds exactly when the second location cell has a paragraph; the result is stripped; it is the first button's stripped text when the paragraph has a button, and the paragraph's stripped text otherwise |
| CourseSummary.ReadColumns | src/ucla_cli/__main__.py:66-76 | the summary's column reads all succeed exactly when each of the seven reads does; the location is `extract_location`'s stripped result |
| CourseSummary.Summary | src/ucla_cli/__main__.py:66-76 | the record carries the scan's label and link, both or neither |
| CourseSummary.CourseSummaryLink | src/ucla_cli/__main__.py:30-82 | a successful summary has both section fields exactly when some container has a link, its link is not site-relative, and its location is stripped |
| CourseSummary.ExtractCourseSummary | src/ucla_cli/__main__.py:30-82 | returns the summary or the exception of the first failing read; it succeeds exactly when all column reads do |
| Record.SummaryDict | src/ucla_cli/__main__.py:66-76 | the summary dict has exactly the nine keys and carries the section fields (`None` when absent) |
| Record.UnknownDict | src/ucla_cli/__main__.py:291-305 | the placeholder record has the nine keys, the given status, and no truthy section field |
| Reconcile.CourseTitle | src/ucla_cli/__main__.py:270 | a title is the text first child of the first element with id `<course id>-title`; with no such element the code raises `AttributeError` |
| Reconcile.SplitTitle | src/ucla_cli/__main__.py:271 | unpacking succeeds exactly when the title splits into two pieces on " - ", else `ValueError` |
| Reconcile.SplitTitleParts | src/ucla_cli/__main__.py:271 | a title that splits is number + " - " + name, and neither half contains " - " |
| Reconcile.Backoffs | src/ucla_cli/__main__.py:287-290 | the back-off after failed attempt k (1-based) is 2k seconds |
| Reconcile.FetchedPage | src/ucla_cli/__main__.py:275-289 | a page is obtained exactly when one of the first three attempts succeeds |
| Reconcile.FetchSummary | src/ucla_cli/__main__.py:275-305 | the retry loop makes 1 to 3 calls and stops at the first success; after three failures it has made 3 calls with back-offs [2, 4, 6] |
| Reconcile.SummaryFallbacks | src/ucla_cli/__main__.py:288-324 | three failed attempts give the connection-error placeholder; a fetched page that cannot be summarised gives the extraction-error placeholder; otherwise the summary |
| Reconcile.SummaryRecord | src/ucla_cli/__main__.py:288-324 | the record before the merge always has the nine keys; with no page it is the connection-error placeholder with no truthy section field, with a page that cannot be summarised the extraction-error placeholder, and otherwise it carries the summary's section fields |
| Reconcile.MergeLink | src/ucla_cli/__main__.py:327-330 | with a truthy class id in the index, both section fields become the index entry's; otherwise the record is unchanged; no other key changes |
| Reconcile.Restore | src/ucla_cli/__main__.py:342-350 | each section field that was truthy before cleaning is restored; a falsy one and every other key stay as the cleaner left them |
| Reconcile.Details | src/ucla_cli/__main__.py:273-350 | the displayed record keeps every section field the pre-clean record had truthy |
| Reconcile.ReconcileCourse | src/ucla_cli/__main__.py:273-350 | the in-place updates produce the restored record, the pre-clean copy, and whether the merged record lacks a link |
| Reconcile.CourseRecords | src/ucla_cli/__main__.py:273-353 | with course details the displayed record has every section field restored that was truthy before cleaning; without them both records are empty |
| Reconcile.ReadTitle | src/ucla_cli/__main__.py:270-271 | a missing title element, content or text child raises its exception; a title without exactly one " - " raises `ValueError`; on success the title is number + " - " + name, neither containing " - " |
| Reconcile.ReadRecords | src/ucla_cli/__main__.py:273-353 | a missing link is counted exactly when course details are on and the merged record has no truthy link |
| Reconcile.AdvanceConsistent | src/ucla_cli/__main__.py:355-365 | storing and displaying a course whose records are restored keeps the run invariant |
| Reconcile.ProcessCourse | src/ucla_cli/__main__.py:269-365 | one course of the loop: title, split, record (empty without course details), CSV list, display |
| Reconcile.ProcessPage | src/ucla_cli/__main__.py:269-365 | the course loop processes a page's courses in order and stops at the first that raises |
| Reconcile.ListingLoop | src/ucla_cli/__main__.py:256-365 | the paging loop ends at the first page without courses or at the first course that raises |
| Reconcile.Soc | src/ucla_cli/__main__.py:250-373 | the whole run; the CSV file is written only after a run that did not raise, with CSV enabled and at least one course |
| Reconcile.StepEffect | src/ucla_cli/__main__.py:269-365 | a raising course changes nothing; otherwise one display (not in quiet CSV mode), one CSV entry (when exporting), and the counter goes up by exactly one when details are on and the merged record lacks a truthy link |
| Reconcile.StepConsistent | src/ucla_cli/__main__.py:332-365 | one course keeps the run invariant (records restored; counter equals the displayed courses lacking a link; nothing counted and empty records without details) |
| Reconcile.CoursesFromConsistent | src/ucla_cli/__main__.py:269-365 | a page of courses keeps that invariant |
| Reconcile.PagesFromConsistent | src/ucla_cli/__main__.py:256-365 | the remaining pages keep that invariant |
| Reconcile.SocConsistent | src/ucla_cli/__main__.py:250-365 | in every run, raising or not: every displayed record is restored from its pre-clean copy; without details nothing is counted missing; with details and display on, the counter equals the number of displayed courses lacking a link |
| Reconcile.CoursesFromCounts | src/ucla_cli/__main__.py:269-361 | a page that does not raise adds exactly one display per course (none in quiet CSV mode) and one CSV entry per course when exporting, after the earlier ones |
| CsvExport.CsvFileName | src/ucla_cli/__main__.py:149-151 | an empty or missing file name becomes `<term>_<stripped subject>.csv`; a given one is used as is |
| CsvExport.Cell | src/ucla_cli/__main__.py:190-209 | a missing key or `None` writes "", a string writes itself |
| PyStr.StripAll | src/ucla_cli/__main__.py:202-205 | each item of the status or time list is stripped, in order |
| CsvExport.JoinedCell | src/ucla_cli/__main__.py:202-205 | joining the status or time list raises `TypeError` exactly when it is `None`; a missing key gives ""; a list gives its stripped items joined by single spaces |
| CsvExport.Row | src/ucla_cli/__main__.py:196-210 | a row is built exactly when status and time are not `None`; it has the header's 13 columns, in header order: stripped subject, subject name, number and name, then section id, section link, joined status, waitlist, day, joined time, location, units and instructor cells |
| CsvExport.WriteRows | src/ucla_cli/__main__.py:186-211 | the row loop writes the rows of a prefix of the courses, in order, up to the first that raises |
| CsvExport.SaveToCsv | src/ucla_cli/__main__.py:145-211 | no file for no courses; otherwise the header row followed by those rows |
| CsvExport.RowsShape | src/ucla_cli/__main__.py:186-211 | every written row is its course's row with 13 columns, and writing stops only at a course whose row raises |
| CsvExport.RowsComplete | src/ucla_cli/__main__.py:186-211 | a row is written for every course exactly when no course's row raises |
| CsvExport.ListCellReadBack | src/ucla_cli/__main__.py:202-205 | splitting a joined list cell on " " gives back the stripped items, provided there is at least one and none contains a space |
| CsvExport.RowListsReadBack | src/ucla_cli/__main__.py:196-210 | the status and time columns of a written row split back into their stripped items under the same provisos |
| SectionDetails.Sleeps | src/ucla_cli/section_details.py:21-22 | the wait after failed attempt k (0-based) is delay * (k + 1) |
| SectionDetails.PageContent | src/ucla_cli/section_details.py:13-25 | a text is returned exactly when one of the first `retries` attempts succeeds |
| SectionDetails.GetPageContent | src/ucla_cli/section_details.py:13-25 | at most `retries` attempts; the first successful text; after failed attempt k a wait of delay * (k + 1) except after the last; `None` when all fail |
| SectionDetails.ClassNotesChoice | src/ucla_cli/section_details.py:33-46 | the "Class Notes" rule picks, if anything, a later sibling that is a `ul` or a `p.section_data` |
| SectionDetails.DataElement | src/ucla_cli/section_details.py:31-49 | the chosen data element is always an element |
| SectionDetails.Parts | src/ucla_cli/section_details.py:56-67 | one part per content node of a list item, in order |
| SectionDetails.ItemTexts | src/ucla_cli/section_details.py:54-71 | one rendered text per direct `li`, in order |
| SectionDetails.DataForTitle | src/ucla_cli/section_details.py:27-78 | the result is never the empty string |
| SectionDetails.RenderPart | src/ucla_cli/section_details.py:57-67 | a string part is stripped; an anchor without `href` is its text; an anchor with text and `href` is `text [href]`; one with `href` but no text is `[href]`; another element is its text |
| SectionDetails.ItemPartCases | src/ucla_cli/section_details.py:57-67 | the same cases for the rendering function the list text is defined by |
| SectionDetails.LinkRepNoHref | src/ucla_cli/section_details.py:59-65 | an anchor with an empty or missing `href` renders as its text alone |
| SectionDetails.LinkRepNoText | src/ucla_cli/section_details.py:59-65 | an anchor with an `href` but no text renders as `[href]` |
| SectionDetails.RenderItem | src/ucla_cli/section_details.py:55-69 | the inner loop joins the non-empty parts of an item with single spaces |
| SectionDetails.RenderList | src/ucla_cli/section_details.py:52-72 | the outer loop joins the non-empty item texts with " ; " |
| SectionDetails.GetDataForTitle | src/ucla_cli/section_details.py:27-78 | the method returns what the title lookup, sibling choice and rendering define |
| SectionDetails.DataForTitleCases | src/ucla_cli/section_details.py:28-78 | no title, or no data element after it, gives "N/A"; empty rendered text gives "N/A (Empty)"; otherwise the rendered text |
| SectionDetails.TitleIsFirstMatch | src/ucla_cli/section_details.py:28 | the title paragraph is the first in document order whose non-empty `.string` strips to the title; none exists exactly when no paragraph matches |
| SectionDetails.ClassNotesList | src/ucla_cli/section_details.py:34-37 | for "Class Notes", a `ul` as the next element sibling is chosen |
| SectionDetails.ClassNotesEmptyThenList | src/ucla_cli/section_details.py:38-42 | an empty `p.section_data` as the next element is passed over for the first later `ul` sibling |
| SectionDetails.ClassNotesEmptyAlone | src/ucla_cli/section_details.py:38-44 | an empty `p.section_data` with no later `ul` sibling is itself chosen |
| SectionDetails.ClassNotesParagraph | src/ucla_cli/section_details.py:38-46 | a non-empty `p.section_data` as the next element is chosen |
| SectionDetails.GeneralDataElement | src/ucla_cli/section_details.py:48-49 | otherwise the first following `p` with a class name containing "section_data" is chosen |
| SectionDetails.NoDataElement | src/ucla_cli/section_details.py:48-51 | with no such paragraph (and no Class Notes choice) there is no data element |
| SectionDetails.ListTextEmpty | src/ucla_cli/section_details.py:69-76 | a rendered list is empty exactly when every item's text is empty |
| SectionDetails.LinkRepForm | src/ucla_cli/section_details.py:59-65 | an anchor with non-empty text and href renders as `text [href]` |
| SectionDetails.GetTextTrimmed | src/ucla_cli/section_details.py:61 | `get_text(strip=True)` never starts or ends with whitespace |
| SectionDetails.ConcatTrimmed | src/ucla_cli/section_details.py:61 | concatenating non-empty stripped strings gives a non-empty stripped string |
| SectionDetails.TemplateContent | src/ucla_cli/section_details.py:106-111 | template content is used exactly when the first `template#ucla-sa-soc-app` exists and has content |
| SectionDetails.SectionRoot | src/ucla_cli/section_details.py:117-125 | the root found is always a `div#section` |
| SectionDetails.SectionRootChoice | src/ucla_cli/section_details.py:104-121 | a `div#section` in non-empty template content wins; otherwise the outer document's first `div#section` |
| SectionDetails.ExtractSectionDetailsFromUrl | src/ucla_cli/section_details.py:81-136 | the method fills the six fields as the placeholders and title lookups define |
| SectionDetails.DetailsPlaceholders | src/ucla_cli/section_details.py:82-125 | no URL gives "N/A (No URL provided)" and five "N/A"; three failed attempts, or a fetch that returns empty text, give "N/A (Failed to fetch page content)" and five "N/A"; no `div#section` gives six "N/A" |
| SectionDetails.DetailsNeverEmpty | src/ucla_cli/section_details.py:127-136 | no field of the details is ever the empty string |
| Dom.FindLocFirst | src/ucla_cli/section_details.py:28 | `find` returns the first match in document order, and nothing exactly when there is no match |
| Dom.NextSiblingLoc | src/ucla_cli/section_details.py:34 | `find_next_sibling` returns the first later element sibling that matches, or none when none matches |
| Dom.StrippedEmpty | src/ucla_cli/section_details.py:39 | with `strip=True`, no string is kept exactly when every string is whitespace |
| Dom.StrippedTrimmed | src/ucla_cli/section_details.py:61 | every string kept by `strip=True` has no whitespace at either end |
| Dom.GetTextEmpty | src/ucla_cli/section_details.py:39 | `get_text(strip=True)` is empty exactly when all strings under the node are whitespace |
| PyStr.Strip | src/ucla_cli/__main__.py:118 | `strip()` gives a string with no whitespace at either end |
| PyStr.StripEmpty | src/ucla_cli/__main__.py:118 | `strip()` gives the empty string exactly when the input is all whitespace |
| PyStr.StripSlice | src/ucla_cli/__main__.py:118 | `strip()` removes only whitespace, and only at the ends |
| PyStr.JoinSplit | src/ucla_cli/__main__.py:102 | joining the pieces of a split with the separator gives back the string |
| PyStr.SplitPieces | src/ucla_cli/__main__.py:102-104 | a split has at least two pieces exactly when the separator occurs; no piece contains the separator |
| PyStr.SplitJoin | src/ucla_cli/__main__.py:202-205 | splitting a join on a one-character separator gives back the parts when none contains it |

## Left out

- `extract_course_data` and the subject table of `soc` (src/ucla_cli/__main__.py:134-142, 227-238): regular expressions, HTML unescaping and JSON decoding. The courses of each page are given as input. `classId` is taken to be a string. A malformed literal raises in the code, and the model has no such case.
- The location filter table (src/ucla_cli/__main__.py:244-250) goes only to the cleaner. It is folded into the `clean` parameter, along with the display mode.
- `results`, `course_titles_view`, `get_course_summary`, `clean_course_summary` and `display_course` are in modules that are not part of this model. They are inputs: listing pages, summary attempt outcomes, a cleaning function, and the display calls returned as data. Only connection errors from `get_course_summary` are modelled. Any other exception from it would end the run.
- HTML parsing, and re-parsing the template's `decode_contents()`: the parser is a function parameter. The template's content is taken to be its children. Empty markup is taken to mean no children.
- Comments, CDATA and other NavigableString subclasses are not modelled. Text nodes are plain strings.
- Calling a title that is an element: in bs4, `tag.split` looks up a child tag named `split`. The model assumes there is none and raises `TypeError`.
- `NodeValue`: writing an element to the CSV prints its markup in the code. The model uses its text instead.
- The shallow copy `orig_data = data.copy()` (src/ucla_cli/__main__.py:339): records are values in the model, so a cleaner that changed the status or time list in place, and with it the pre-clean copy shown by `display_course`, is not captured.
- `CsvExport.ListRepr`: a list in a scalar CSV column is written with Python's `repr`; the model does not escape quotes inside items.
- Network, timing and randomness: `requests.get`, `raise_for_status`, timeouts, `time.sleep` and the random jitter before each summary fetch and detail fetch. Attempt outcomes are inputs; deterministic waits are returned as lists.
- Logging: all `click.echo` output, including messages that only report counts, such as the final missing-link message and the CSV read-back validation.
- CSV file I/O: opening, the `csv` writer's quoting, and reading the file back are not modelled. The model gives the file name and the rows. If building a row raises, the code catches the exception and reports it, and the rows written so far stay in the file; the model returns those rows.
- `bl`, `cgs` and the click command group (src/ucla_cli/__main__.py:376-441) are thin CLI glue.
- Special-course detail sharing, multi-row section summaries and per-row error records do not occur in these files.
- Unicode: `str.strip` uses Python's whitespace set over single code points. Case folding and normalisation play no part.
