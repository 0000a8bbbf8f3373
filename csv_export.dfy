/** Row construction of `save_to_csv`: a header row and one 13-column row per exported
    course. */
module CsvExport {
  import opened Wrappers
  import opened Seqs
  import opened PyStr
  import opened Record

  /** The header row, in column order. */
  const Headers: seq<string> :=
    ["Subject", "Subject Name", "Number", "Name", "Section ID", "Section Link",
     "Status", "Waitlist", "Day", "Time", "Location", "Units", "Instructor"]

  /** One element of `all_courses`. */
  datatype Course = Course(number: string, name: string, data: Dict)

  /** The written file: its name and its rows, the header first. */
  datatype CsvFile = CsvFile(fileName: string, rows: seq<seq<string>>)

  /** `f"{term}_{subject.strip()}.csv"`, used when no file name is given (or it is empty). */
  function CsvFileName(term: string, subject: string, given: Option<string>): (r: string)
    ensures given.Some? && given.value != "" ==> r == given.value
    ensures (given.None? || given.value == "") ==>
      r == term + "_" + Strip(subject) + ".csv"
  {
    if given.Some? && given.value != "" then given.value
    else term + "_" + Strip(subject) + ".csv"
  }

  /** Python's `repr` of a list of strings, without escaping inside the items. */
  function ListRepr(items: seq<string>): string {
    "[" + Join(", ", Quoted(items)) + "]"
  }

  function Quoted(items: seq<string>): (r: seq<string>)
    ensures |r| == |items|
    ensures forall k :: 0 <= k < |items| ==> r[k] == "'" + items[k] + "'"
  {
    if items == [] then [] else ["'" + items[0] + "'"] + Quoted(items[1..])
  }

  /** The cell `csv.writer` writes for `data.get(key, "")`: `None` becomes the empty
      string, anything else its `str`. */
  function Cell(d: Dict, key: string): (r: string)
    ensures key !in d ==> r == ""
    ensures key in d && d[key].Str? ==> r == d[key].s
    ensures key in d && d[key].Null? ==> r == ""
  {
    match Get(d, key)
    case None => ""
    case Some(Str(s)) => s
    case Some(Null) => ""
    case Some(Strs(items)) => ListRepr(items)
  }

  /** The single-character strings of `s`: what iterating a Python string yields. */
  function Chars(s: string): (r: seq<string>)
    ensures |r| == |s|
    ensures forall k :: 0 <= k < |s| ==> r[k] == [s[k]]
  {
    seq(|s|, k requires 0 <= k < |s| => [s[k]])
  }

  /** `" ".join(str(x).strip() for x in data.get(key, []))`; iterating `None` raises
      `TypeError`. */
  function JoinedCell(d: Dict, key: string): (r: Result<string>)
    ensures r.Raised? <==> key in d && d[key].Null?
    ensures r.Raised? ==> r.error == TypeError
    ensures key !in d ==> r == Ok("")
    ensures key in d && d[key].Strs? ==> r == Ok(Join(" ", StripAll(d[key].items)))
  {
    match Get(d, key)
    case None => Ok("")
    case Some(Strs(items)) => Ok(Join(" ", StripAll(items)))
    case Some(Str(s)) => Ok(Join(" ", StripAll(Chars(s))))
    case Some(Null) => Raised(TypeError)
  }

  /** A 13-column row from its cells, in order. */
  function Columns13<T>(c0: T, c1: T, c2: T, c3: T, c4: T, c5: T, c6: T, c7: T, c8: T,
                        c9: T, c10: T, c11: T, c12: T): (r: seq<T>)
    ensures |r| == 13
    ensures r[0] == c0 && r[1] == c1 && r[2] == c2 && r[3] == c3 && r[4] == c4 &&
            r[5] == c5 && r[6] == c6 && r[7] == c7 && r[8] == c8 && r[9] == c9 &&
            r[10] == c10 && r[11] == c11 && r[12] == c12
  {
    [c0, c1, c2, c3, c4, c5, c6, c7, c8, c9, c10, c11, c12]
  }

  /** The row written for one course, in header order. */
  function Row(subject: string, subjectName: string, c: Course): (r: Result<seq<string>>)
    ensures r.Raised? <==> Get(c.data, "status") == Some(Null) || Get(c.data, "time") == Some(Null)
    ensures r.Ok? ==> |r.value| == |Headers|
    ensures r.Ok? ==>
      r.value[0] == Strip(subject) && r.value[1] == Strip(subjectName) &&
      r.value[2] == Strip(c.number) && r.value[3] == Strip(c.name) &&
      r.value[4] == Cell(c.data, SectionIdKey) && r.value[5] == Cell(c.data, SectionLinkKey) &&
      Ok(r.value[6]) == JoinedCell(c.data, "status") && r.value[7] == Cell(c.data, "waitlist") &&
      r.value[8] == Cell(c.data, "day") && Ok(r.value[9]) == JoinedCell(c.data, "time") &&
      r.value[10] == Cell(c.data, "location") && r.value[11] == Cell(c.data, "units") &&
      r.value[12] == Cell(c.data, "instructor")
  {
    var status := JoinedCell(c.data, "status");
    var time := JoinedCell(c.data, "time");
    if status.Raised? then Raised(status.error)
    else if time.Raised? then Raised(time.error)
    else
      Ok(Columns13(Strip(subject), Strip(subjectName), Strip(c.number), Strip(c.name),
                   Cell(c.data, SectionIdKey), Cell(c.data, SectionLinkKey),
                   status.value, Cell(c.data, "waitlist"), Cell(c.data, "day"), time.value,
                   Cell(c.data, "location"), Cell(c.data, "units"), Cell(c.data, "instructor")))
  }

  /** The row builder for one subject. */
  function RowOf(subject: string, subjectName: string): Course -> Result<seq<string>> {
    (c: Course) => Row(subject, subjectName, c)
  }

  /** The rows written for `courses` in order, stopping at the first row that raises
      (the error is caught and reported; the rows already written stay in the file). */
  function Rows(subject: string, subjectName: string, courses: seq<Course>): seq<seq<string>> {
    OkPrefix(courses, RowOf(subject, subjectName))
  }

  /** `save_to_csv(term, subject, subject_name, courses, csv_filename)`: no file when there
      are no courses, otherwise the header followed by the rows. */
  function CsvOf(term: string, subject: string, subjectName: string, courses: seq<Course>,
                 given: Option<string>): Option<CsvFile>
  {
    if courses == [] then None
    else Some(CsvFile(CsvFileName(term, subject, given),
                      [Headers] + Rows(subject, subjectName, courses)))
  }

  /** The row-writing loop of `save_to_csv`, one course at a time, with `row` building the
      row of a course. */
  method WriteRows(courses: seq<Course>, row: Course -> Result<seq<string>>)
    returns (rows: seq<seq<string>>)
    ensures rows == OkPrefix(courses, row)
  {
    rows := [];
    var i := 0;
    while i < |courses|
      invariant 0 <= i <= |courses|
      invariant rows + OkPrefix(courses[i..], row) == OkPrefix(courses, row)
    {
      var r := row(courses[i]);
      if r.Raised? {
        OkPrefixStop(courses, row, i);
        return;
      }
      OkPrefixStep(courses, row, i);
      rows := rows + [r.value];
      i := i + 1;
    }
    assert courses[i..] == [];
  }

  /** `save_to_csv`: the header, then the rows. */
  method SaveToCsv(term: string, subject: string, subjectName: string, courses: seq<Course>,
                   given: Option<string>) returns (file: Option<CsvFile>)
    ensures file == CsvOf(term, subject, subjectName, courses, given)
  {
    var fileName := CsvFileName(term, subject, given);
    if courses == [] {
      return None;
    }
    var rows := WriteRows(courses, RowOf(subject, subjectName));
    return Some(CsvFile(fileName, [Headers] + rows));
  }

  /** Every written row has the header's 13 columns and is the row of the course at its
      position; writing stops only at a course whose status or time is `None`. */
  lemma RowsShape(subject: string, subjectName: string, courses: seq<Course>)
    ensures var rows := Rows(subject, subjectName, courses);
      (forall k :: 0 <= k < |rows| ==>
         Row(subject, subjectName, courses[k]) == Ok(rows[k]) && |rows[k]| == |Headers|) &&
      (|rows| < |courses| ==> Row(subject, subjectName, courses[|rows|]).Raised?)
  {
    OkPrefixShape(courses, RowOf(subject, subjectName));
  }

  /** A row is written for every course exactly when no course's status or time is `None`. */
  lemma RowsComplete(subject: string, subjectName: string, courses: seq<Course>)
    ensures |Rows(subject, subjectName, courses)| == |courses| <==>
      forall k :: 0 <= k < |courses| ==> Row(subject, subjectName, courses[k]).Ok?
  {
    OkPrefixComplete(courses, RowOf(subject, subjectName));
  }

  /** A list column can be read back: splitting its cell on single spaces gives the
      stripped items, provided there is at least one and none of them contains a space. */
  lemma ListCellReadBack(d: Dict, key: string, items: seq<string>)
    requires Get(d, key) == Some(Strs(items)) && items != []
    requires forall k :: 0 <= k < |items| ==> !Contains(Strip(items[k]), " ")
    ensures Split(JoinedCell(d, key).value, " ") == StripAll(items)
  {
    var parts := StripAll(items);
    assert JoinedCell(d, key) == Ok(Join(" ", parts));
    forall k | 0 <= k < |parts| ensures !Contains(parts[k], " ") {
      assert parts[k] == Strip(items[k]);
    }
    SplitJoin(" ", parts);
  }

  /** The status and time columns of a written row read back as their stripped items. */
  lemma RowListsReadBack(subject: string, subjectName: string, c: Course,
                         status: seq<string>, time: seq<string>)
    requires Get(c.data, "status") == Some(Strs(status)) && status != []
    requires Get(c.data, "time") == Some(Strs(time)) && time != []
    requires forall k :: 0 <= k < |status| ==> !Contains(Strip(status[k]), " ")
    requires forall k :: 0 <= k < |time| ==> !Contains(Strip(time[k]), " ")
    ensures Row(subject, subjectName, c).Ok?
    ensures Split(Row(subject, subjectName, c).value[6], " ") == StripAll(status)
    ensures Split(Row(subject, subjectName, c).value[9], " ") == StripAll(time)
  {
    ListCellReadBack(c.data, "status", status);
    ListCellReadBack(c.data, "time", time);
  }
}
