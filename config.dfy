/** The settings module (`config.py`): the fiscal year derived from the
    month, and the file-system locations of the current outputs and of the
    previous year's data. A path is a root plus its segments, joined by
    `/`. The month and the operating system are parameters. */
module Config {

  import opened Wrappers
  import opened Text

  /** `os.name == 'nt'` or anything else. */
  datatype Platform = Windows | Posix

  /** A `pathlib.Path`: a root followed by segments. */
  datatype Path = Path(root: string, parts: seq<string>)

  /** `p / segment` */
  function Join(p: Path, segment: string): Path {
    Path(p.root, p.parts + [segment])
  }

  /** `get_base_path()` */
  function BasePath(platform: Platform): Path {
    match platform
    case Windows => Path("D:/Skit_Actual", [])
    case Posix => Path("/mnt/d/Skit_Actual", [])
  }

  function ExcelDir(platform: Platform): Path {
    Join(BasePath(platform), "EXCEL")
  }

  const Term: string := "年度"
  const StartYear: int := 2015

  /** `(year, last_year, current_year)` as `get_fiscal_years` returns it. */
  datatype FiscalYears = FiscalYears(year: string, lastYear: string, currentYear: int)

  /** `get_fiscal_years(base_year)` in month `month`: from April on the
      fiscal year is the base year, before April the year before. */
  function GetFiscalYears(month: int, baseYear: int): (r: FiscalYears)
    ensures r.currentYear == if month >= 4 then baseYear else baseYear - 1
    ensures ParseInt(r.year) == Some(r.currentYear)
    ensures ParseInt(r.lastYear) == Some(r.currentYear - 1)
  {
    var current := if month >= 4 then baseYear else baseYear - 1;
    IntRoundTrip(current);
    IntRoundTrip(current - 1);
    FiscalYears(IntToString(current), IntToString(current - 1), current)
  }

  /** The workbook name shared by the output and the previous year's copy. */
  function RankingWorkbook(term: string): string {
    term + "_ランキング（得意先）.xlsx"
  }

  /** `get_excel_output_path(term)` */
  function ExcelOutputPath(platform: Platform, term: string): (r: Path)
    ensures r.root == BasePath(platform).root
    ensures r.parts == ["EXCEL", "累計", RankingWorkbook(term)]
  {
    Join(Join(ExcelDir(platform), "累計"), RankingWorkbook(term))
  }

  /** `get_past_excel_path(last_year, term)` */
  function PastExcelPath(platform: Platform, lastYear: string, term: string): (r: Path)
    ensures r.root == BasePath(platform).root
    ensures r.parts == ["EXCEL", lastYear, "累計", RankingWorkbook(term)]
  {
    Join(Join(Join(ExcelDir(platform), lastYear), "累計"), RankingWorkbook(term))
  }

  /** The previous year's workbook sits where the current one does, with
      the year's folder inserted right after the Excel directory. */
  lemma PastExcelPathInsertsYear(platform: Platform, lastYear: string, term: string)
    ensures var out := ExcelOutputPath(platform, term);
      var past := PastExcelPath(platform, lastYear, term);
      && past.root == out.root
      && past.parts == out.parts[..1] + [lastYear] + out.parts[1..]
  {
  }

  /** `get_past_parquet_dir()` */
  function PastParquetDir(platform: Platform): (r: Path)
    ensures r.root == BasePath(platform).root
    ensures r.parts == ["PG", "累計", "昨年度データ", "parquet"]
  {
    Join(Join(Join(Join(BasePath(platform), "PG"), "累計"), "昨年度データ"), "parquet")
  }

  function ParquetFileName(term: string, dataType: string): string {
    term + "_ランキング（得意先）_" + dataType + ".parquet"
  }

  /** `get_past_parquet_path(last_year, term, data_type)`: the file lies
      directly in the past-parquet directory. `last_year` is accepted but
      plays no part in the result. */
  function PastParquetPath(platform: Platform, lastYear: string, term: string, dataType: string): (r: Path)
    ensures r.root == PastParquetDir(platform).root
    ensures r.parts == PastParquetDir(platform).parts + [ParquetFileName(term, dataType)]
  {
    Join(PastParquetDir(platform), ParquetFileName(term, dataType))
  }

  /** The path does not depend on `last_year`. */
  lemma PastParquetPathIgnoresYear(platform: Platform, y1: string, y2: string, term: string, dataType: string)
    ensures PastParquetPath(platform, y1, term, dataType) == PastParquetPath(platform, y2, term, dataType)
  {
  }

  /** Different data types get different files. */
  lemma PastParquetPathInjective(platform: Platform, lastYear: string, term: string, d1: string, d2: string)
    requires PastParquetPath(platform, lastYear, term, d1) == PastParquetPath(platform, lastYear, term, d2)
    ensures d1 == d2
  {
    var n1, n2 := ParquetFileName(term, d1), ParquetFileName(term, d2);
    var pre := term + "_ランキング（得意先）_";
    assert PastParquetPath(platform, lastYear, term, d1).parts[4] == n1;
    assert PastParquetPath(platform, lastYear, term, d2).parts[4] == n2;
    assert n1 == n2;
    assert n1[|pre|..|n1| - |".parquet"|] == d1;
    assert n2[|pre|..|n2| - |".parquet"|] == d2;
  }
}
