/** `saveToCSV`: the empty-input short-circuit, the fixed column order and the
    name of the file written. The CSV text itself (quoting, escaping) belongs to
    a foreign library and is represented by the table of cells handed to it. */
module Report {
  import opened Wrappers
  import opened Decimal
  import opened PageInspector

  /** The `fields` option passed to the CSV writer, in this order. */
  const Columns: seq<string> := ["pageUrl", "name", "imageSrc", "isMissing"]

  const ReportPrefix := "missing-images-"
  const ReportSuffix := ".csv"

  /** The directory part of the path returned; `process.cwd()` is not modelled. */
  const PublicDir := "public/"

  /** A written report: its file name, header and one row of cells per record. */
  datatype CsvFile = CsvFile(name: string, fields: seq<string>, rows: seq<seq<string>>)

  /** What `saveToCSV` returns and what it wrote, if anything. */
  datatype Saved = Saved(path: string, file: Option<CsvFile>)

  /** The file name built from `Date.now()`. */
  function ReportName(now: nat): string {
    ReportPrefix + NatToString(now) + ReportSuffix
  }

  /** The value the CSV writer takes from a record for the named field. */
  function Cell(r: ProductRecord, field: string): string {
    match field
    case "pageUrl" => r.pageUrl
    case "name" => r.name
    case "imageSrc" => r.imageSrc
    case "isMissing" => if r.isMissing then "true" else "false"
    case _ => ""
  }

  function Row(r: ProductRecord): (cells: seq<string>)
    ensures |cells| == |Columns|
    ensures forall j :: 0 <= j < |Columns| ==> cells[j] == Cell(r, Columns[j])
  {
    seq(|Columns|, j requires 0 <= j < |Columns| => Cell(r, Columns[j]))
  }

  /** `saveToCSV(data)` with `Date.now()` given as `now`. */
  function SaveToCsv(data: seq<ProductRecord>, now: nat): (s: Saved)
    ensures s.path == "" <==> data == []
    ensures s.file.None? <==> data == []
    ensures s.file.Some? ==>
      && s.file.value.name == ReportName(now)
      && s.path == PublicDir + ReportName(now)
      && s.file.value.fields == Columns
      && |s.file.value.rows| == |data|
      && (forall i :: 0 <= i < |data| ==> |s.file.value.rows[i]| == |Columns|)
      && forall i, j :: 0 <= i < |data| && 0 <= j < |Columns| ==>
           s.file.value.rows[i][j] == Cell(data[i], Columns[j])
  {
    if |data| == 0 then Saved("", None)
    else
      var rows := seq(|data|, i requires 0 <= i < |data| => Row(data[i]));
      Saved(PublicDir + ReportName(now), Some(CsvFile(ReportName(now), Columns, rows)))
  }
}
