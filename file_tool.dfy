/** `FileTool.forward`: check that the path exists, lower-case its suffix and
    dispatch to the CSV, Excel or JSON reader, or report the suffix as
    unsupported; a reader's exception becomes an error message. */
module FileTool {
  import opened Environment
  import opened Strings
  import opened Paths

  const NotFoundPrefix := "File not found: "
  const UnsupportedPrefix := "Unsupported file type: "

  /** The four branches of the dispatch. */
  datatype Branch = CsvBranch | ExcelBranch | JsonBranch | Unsupported

  /** The foreign readers, each applied to the path: pandas `read_csv` then
      `to_csv`, `read_excel` then `to_csv`, and `read_text`, `json.loads`
      then `json.dumps`. Each returns the text or raises. */
  datatype Readers = Readers(
    csv: string -> Outcome<string>,
    excel: string -> Outcome<string>,
    json: string -> Outcome<string>)

  /** The branch taken for a suffix `ext` (compared after `ext.lower()`). */
  function BranchFor(suffix: string): (b: Branch)
    ensures b == CsvBranch <==> SameIgnoringCase(suffix, ".csv")
    ensures b == ExcelBranch <==> SameIgnoringCase(suffix, ".xls") || SameIgnoringCase(suffix, ".xlsx")
    ensures b == JsonBranch <==> SameIgnoringCase(suffix, ".json")
  {
    var ext := Lower(suffix);
    LowerEqualsIff(suffix, ".csv");
    LowerEqualsIff(suffix, ".xls");
    LowerEqualsIff(suffix, ".xlsx");
    LowerEqualsIff(suffix, ".json");
    if ext == ".csv" then CsvBranch
    else if ext == ".xls" || ext == ".xlsx" then ExcelBranch
    else if ext == ".json" then JsonBranch
    else Unsupported
  }

  /** The suffix of the path's final component. */
  function PathSuffix(filePath: string): (r: string)
    ensures r != "" ==> r[0] == '.' && '/' !in r
  {
    Suffix(Name(filePath))
  }

  /** The reader a branch calls. */
  function ReaderOf(readers: Readers, b: Branch): (reader: string -> Outcome<string>)
    requires b != Unsupported
  {
    match b
    case CsvBranch => readers.csv
    case ExcelBranch => readers.excel
    case JsonBranch => readers.json
  }

  /** `FileTool.forward(file_path)`. */
  function Forward(filePath: string, fs: FileSystem, readers: Readers): (r: string)
    ensures !Exists(fs, filePath) ==> r == NotFoundPrefix + filePath
    ensures Exists(fs, filePath) && BranchFor(PathSuffix(filePath)) == Unsupported ==>
              r == UnsupportedPrefix + Lower(PathSuffix(filePath))
    ensures Exists(fs, filePath) && BranchFor(PathSuffix(filePath)) != Unsupported ==>
              var outcome := ReaderOf(readers, BranchFor(PathSuffix(filePath)))(filePath);
              (outcome.Done? ==> r == outcome.value)
              && (outcome.Raised? ==> r == "Error reading " + filePath + ": " + outcome.msg)
  {
    if !Exists(fs, filePath) then NotFoundPrefix + filePath
    else
      var suffix := PathSuffix(filePath);
      match BranchFor(suffix)
      case Unsupported => UnsupportedPrefix + Lower(suffix)
      case b => Report(filePath, ReaderOf(readers, b)(filePath))
  }

  /** The `try`/`except` around a reader: its text passes through, and its
      exception becomes a message naming the path. */
  function Report(filePath: string, outcome: Outcome<string>): (r: string)
    ensures outcome.Done? ==> r == outcome.value
    ensures outcome.Raised? ==> r == "Error reading " + filePath + ": " + outcome.msg
  {
    match outcome
    case Done(text) => text
    case Raised(msg) => "Error reading " + filePath + ": " + msg
  }

  /** Suffixes that differ only in letter case take the same branch. */
  lemma BranchIgnoresCase(a: string, b: string)
    requires SameIgnoringCase(a, b)
    ensures BranchFor(a) == BranchFor(b)
  {
    forall lit: string | lit in {".csv", ".xls", ".xlsx", ".json"}
      ensures SameIgnoringCase(a, lit) <==> SameIgnoringCase(b, lit)
    {
      SameIgnoringCaseTransitive(a, b, lit);
      SameIgnoringCaseTransitive(b, a, lit);
    }
  }

  lemma SameIgnoringCaseTransitive(a: string, b: string, c: string)
    requires SameIgnoringCase(a, b)
    ensures SameIgnoringCase(b, c) ==> SameIgnoringCase(a, c)
  {
  }

  /** An existing file named `stem.csv` takes the CSV branch and returns
      what the CSV reader returns. */
  lemma CsvNameIsRead(stem: string, fs: FileSystem, readers: Readers, text: string)
    requires stem != "" && '/' !in stem && '.' !in stem
    requires Exists(fs, stem + ".csv") && readers.csv(stem + ".csv") == Done(text)
    ensures Forward(stem + ".csv", fs, readers) == text
  {
    var name := stem + ".csv";
    NameOfFileName(name);
    assert name[|stem|..] == ".csv";
    assert name[|stem| + 1..] == "csv";
    assert LastDotAt(name, |stem|);
    assert PathSuffix(name) == ".csv";
    assert BranchFor(".csv") == CsvBranch;
  }

  /** The smoke script's `test.csv`. */
  lemma CsvFileIsRead(fs: FileSystem, readers: Readers, text: string)
    requires Exists(fs, "test.csv") && readers.csv("test.csv") == Done(text)
    ensures Forward("test.csv", fs, readers) == text
  {
    assert "test" + ".csv" == "test.csv";
    CsvNameIsRead("test", fs, readers, text);
  }

  lemma SuffixAfterStem(dir: string, stem: string, ext: string)
    requires stem != "" && '/' !in stem && '.' !in stem
    requires |ext| > 1 && ext[0] == '.' && '/' !in ext && '.' !in ext[1..]
    ensures PathSuffix(dir + "/" + stem + ext) == ext
  {
    var name := stem + ext;
    assert dir + "/" + stem + ext == dir + "/" + name;
    NameInDirectory(dir, name);
    assert name[|stem|..] == ext;
    assert name[|stem| + 1..] == ext[1..];
    assert LastDotAt(name, |stem|);
  }

  /** An unsupported suffix is reported lower-cased, here ".TXT" as ".txt". */
  lemma UnsupportedSuffixReported(dir: string, stem: string, fs: FileSystem, readers: Readers)
    requires stem != "" && '/' !in stem && '.' !in stem
    requires Exists(fs, dir + "/" + stem + ".TXT")
    ensures Forward(dir + "/" + stem + ".TXT", fs, readers) == "Unsupported file type: .txt"
  {
    SuffixAfterStem(dir, stem, ".TXT");
    TxtIsUnsupported();
  }

  lemma TxtIsUnsupported()
    ensures Lower(".TXT") == ".txt" && BranchFor(".TXT") == Unsupported
  {
    assert Lower(".TXT") == ".txt";
  }

  /** A name whose only dot is leading, here ".csv", has no suffix, so it is
      not read as CSV. */
  lemma HiddenFileUnsupported(fs: FileSystem, readers: Readers)
    requires Exists(fs, ".csv")
    ensures Forward(".csv", fs, readers) == "Unsupported file type: "
  {
    NameOfFileName(".csv");
    assert LastDotAt(".csv", 0);
  }

  /** A directory passes the existence check; without a supported suffix it
      gets the unsupported-type message and no reader is called. */
  lemma DirectoryWithoutSuffix(fs: FileSystem, readers: Readers)
    requires "data" in fs && fs["data"] == Directory
    ensures Forward("data", fs, readers) == "Unsupported file type: "
  {
    NameOfFileName("data");
  }
}
