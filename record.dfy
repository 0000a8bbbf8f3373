/** The per-course record as the reconciliation passes it around: a Python dict from
    field names to values. After the external cleaner runs, any key may be missing and
    any value may have changed shape, so the record is a map rather than a fixed record. */
module Record {
  import opened Wrappers
  import opened Dom
  import opened CourseSummary

  /** A dict value: a string, a list of strings, or `None`. */
  datatype Value = Str(s: string) | Strs(items: seq<string>) | Null

  type Dict = map<string, Value>

  const SectionIdKey: string := "section_id"
  const SectionLinkKey: string := "section_link"

  /** The nine keys of a summary record. */
  const SummaryKeys: set<string> :=
    {"status", "waitlist", "day", "time", "location", "units", "instructor",
     SectionIdKey, SectionLinkKey}

  /** `d.get(k)`. */
  function Get(d: Dict, k: string): (r: Option<Value>)
    ensures r.Some? <==> k in d
  {
    if k in d then Some(d[k]) else None
  }

  /** Python truthiness of `d.get(k)`: a missing key and `None` are false, as are the
      empty string and the empty list. */
  predicate Truthy(v: Option<Value>) {
    match v
    case None => false
    case Some(Null) => false
    case Some(Str(s)) => s != ""
    case Some(Strs(items)) => items != []
  }

  function OptionValue(o: Option<string>): Value {
    match o
    case Some(s) => Str(s)
    case None => Null
  }

  /** A content node as a value: a text node is its string. An element's markup is not
      modelled; its text stands in for it. */
  function NodeValue(n: Node): Value {
    match n
    case Text(t) => Str(t)
    case Element(_, _, _, _) => Str(TextOf(n))
  }

  /** The dict `extract_course_summary` returns. */
  function SummaryDict(d: CourseData): (r: Dict)
    ensures r.Keys == SummaryKeys
    ensures r[SectionIdKey] == OptionValue(d.sectionId)
    ensures r[SectionLinkKey] == OptionValue(d.sectionLink)
  {
    map["status" := Strs(d.status),
        "waitlist" := NodeValue(d.waitlist),
        "day" := Str(d.day),
        "time" := Strs(d.time),
        "location" := Str(d.location),
        "units" := NodeValue(d.units),
        "instructor" := NodeValue(d.instructor),
        SectionIdKey := OptionValue(d.sectionId),
        SectionLinkKey := OptionValue(d.sectionLink)]
  }

  /** The placeholder record stored when a summary could not be obtained: the status
      carries the reason, every other text field is "Unknown", and both link fields are
      `None`. */
  function UnknownDict(status: string): (r: Dict)
    ensures r.Keys == SummaryKeys
    ensures r["status"] == Strs([status])
    ensures !Truthy(Get(r, SectionIdKey)) && !Truthy(Get(r, SectionLinkKey))
  {
    map["status" := Strs([status]),
        "waitlist" := Str("Unknown"),
        "day" := Str("Unknown"),
        "time" := Strs(["Unknown"]),
        "location" := Str("Unknown"),
        "units" := Str("Unknown"),
        "instructor" := Str("Unknown"),
        SectionIdKey := Null,
        SectionLinkKey := Null]
  }

  const ConnectionErrorStatus: string := "Unknown - Connection Error"
  const ExtractionErrorStatus: string := "Unknown - Extraction Error"
}
