/**
  The whole analysis of one report text, in the order the page runs it:
  identify the module, extract the records (stopping when there are none),
  resolve the weights, build the ranked table, answer the search and
  summarise the class.
 */
module Analyzer {
  import opened Students
  import opened ModuleHeader
  import opened RecordScan
  import opened Extraction
  import opened WeightPolicy
  import opened Ranking
  import opened ClassSummary
  import opened StudentSearch

  /** The records of every match in the text, in the order of the matches. */
  ghost function TableOf(text: string): (data: seq<Record>)
    ensures |data| == |FindAllGroups(text)|
  {
    var ms := FindAllGroups(text);
    seq(|ms|, k requires 0 <= k < |ms| => ToRecord(ms[k]))
  }

  /** Reordering the records into the ranked table keeps every registration number well formed. */
  lemma RegNosKept(data: seq<Record>, rows: seq<Row>)
    requires forall k :: 0 <= k < |data| ==> IsRegNo(data[k].regNo)
    requires multiset(RowRecords(rows)) == multiset(data)
    ensures forall k :: 0 <= k < |rows| ==> IsRegNo(rows[k].rec.regNo)
  {
    forall k | 0 <= k < |rows| ensures IsRegNo(rows[k].rec.regNo) {
      assert RowRecords(rows)[k] in multiset(data);
    }
  }

  /** What the page shows: the module heading alone, or the full analysis. */
  datatype Analysis =
    | Halted(info: ModuleInfo)
    | Analyzed(info: ModuleInfo, weights: Weights, rows: seq<Row>, search: SearchOutcome, summary: Summary)

  /**
    Runs the analysis. `finalPercent` is the value of the final-exam weight
    field, which the page asks for, within its bounds, only when the module is
    in neither fixed weighting set; `typed` is the search field.
   */
  method Analyze(text: string, finalPercent: int, typed: string) returns (a: Analysis)
    requires TakesInput(Identify(text).code) ==> MinFinalPercent <= finalPercent <= MaxFinalPercent
    ensures a.info == Identify(text)
    ensures a.Halted? <==> forall t :: !RecordShape(text, t)
    ensures a.Analyzed? ==> a.weights == Resolve(a.info.code, finalPercent) && Valid(a.weights)
    ensures a.Analyzed? ==> |a.rows| == |TableOf(text)| > 0 && multiset(RowRecords(a.rows)) == multiset(TableOf(text))
    ensures a.Analyzed? ==> RowsSortedDesc(a.rows) && Numbered(a.rows) && ScaledBy(a.rows, a.weights)
    ensures a.Analyzed? ==> forall k :: 0 <= k < |a.rows| ==> IsRegNo(a.rows[k].rec.regNo)
    ensures a.Analyzed? ==> forall k :: 0 <= k < |a.rows| ==> a.rows[k].performance == PerformanceCategory(a.rows[k].rec.caMarksPercent)
    ensures a.Analyzed? ==> a.search == Search(a.rows, a.weights, typed)
    ensures a.Analyzed? ==> a.summary == Summarize(a.rows)
  {
    var info := Identify(text);
    var extracted := ExtractRecords(text);
    if extracted.NoStudentData? {
      return Halted(info);
    }
    var data := extracted.data;
    assert data == TableOf(text);
    var w := Resolve(info.code, finalPercent);
    var rows := RankTable(data, w);
    RegNosKept(data, rows);
    var outcome := Search(rows, w, typed);
    var summary := Summarize(rows);
    return Analyzed(info, w, rows, outcome, summary);
  }
}
