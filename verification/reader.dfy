/** Input validation and the column-schema check performed before the CSV
    scan is handed to the aggregation step (src/reader.py).

    The file system is not modelled: the metadata `validate_file` queries
    (existence, regular-file flag, size, suffix of the final path
    component) arrive as a `FileInfo` record, and the header row the scan
    reports arrives as a sequence of column names. */
module Reader {
  import opened Wrappers
  import Ranking
  import Text

  /** EXPECTED_COLUMNS: the six columns every input must carry. */
  const ExpectedColumns: set<string> :=
    {"campaign_id", "date", "impressions", "clicks", "spend", "conversions"}

  /** The columns the scan is restricted to, in the order `sorted` gives
      the expected set. */
  const SelectedColumns: seq<string> :=
    ["campaign_id", "clicks", "conversions", "date", "impressions", "spend"]

  /** What `validate_file` learns about a path from the file system. */
  datatype FileInfo = FileInfo(
    path: string,
    pathExists: bool,
    isFile: bool,
    size: nat,
    suffix: string)

  /** The causes carried by the validation (ValueError) error kind. */
  datatype Invalid =
    | NotAFile(path: string)
    | EmptyFile(path: string)
    | WrongSuffix(suffix: string)
    | MissingColumns(missing: seq<string>, found: seq<string>)

  /** The two error kinds: the path is absent (FileNotFoundError), or the
      input is unusable (ValueError). */
  datatype ReadError = FileNotFound(path: string) | InvalidInput(cause: Invalid)

  /** The suffix is ".csv" in any mix of upper and lower case. */
  predicate IsCsvSuffix(s: string) {
    && |s| == 4
    && s[0] == '.'
    && (s[1] == 'c' || s[1] == 'C')
    && (s[2] == 's' || s[2] == 'S')
    && (s[3] == 'v' || s[3] == 'V')
  }

  /** The extension test of `validate_file` (lower-case the suffix and
      compare with ".csv") accepts exactly the case variants of ".csv". */
  lemma SuffixTestIsCaseInsensitive(s: string)
    ensures Text.Lower(s) == ".csv" <==> IsCsvSuffix(s)
  {
    var l := Text.Lower(s);
    if |s| == 4 {
      assert l[0] == Text.LowerChar(s[0]) && l[1] == Text.LowerChar(s[1]);
      assert l[2] == Text.LowerChar(s[2]) && l[3] == Text.LowerChar(s[3]);
      if l == ".csv" {
        assert l[0] == '.' && l[1] == 'c' && l[2] == 's' && l[3] == 'v';
      }
      if IsCsvSuffix(s) {
        assert l == ".csv";
      }
    } else {
      assert |l| != |".csv"|;
    }
  }

  /** The four checks of `validate_file`, in order: the path exists, it is
      a regular file, it is not empty, and its suffix lower-cases to
      ".csv". The first one that fails decides the error. */
  function ValidateFile(f: FileInfo): (r: Result<string, ReadError>)
    ensures r.Success? <==> f.pathExists && f.isFile && f.size > 0 && IsCsvSuffix(f.suffix)
    ensures r.Success? ==> r.value == f.path
    ensures r == Failure(FileNotFound(f.path)) <==> !f.pathExists
    ensures r == Failure(InvalidInput(NotAFile(f.path))) <==> f.pathExists && !f.isFile
    ensures r == Failure(InvalidInput(EmptyFile(f.path))) <==>
      f.pathExists && f.isFile && f.size == 0
    ensures r == Failure(InvalidInput(WrongSuffix(f.suffix))) <==>
      f.pathExists && f.isFile && f.size > 0 && !IsCsvSuffix(f.suffix)
  {
    SuffixTestIsCaseInsensitive(f.suffix);
    if !f.pathExists then Failure(FileNotFound(f.path))
    else if !f.isFile then Failure(InvalidInput(NotAFile(f.path)))
    else if f.size == 0 then Failure(InvalidInput(EmptyFile(f.path)))
    else if Text.Lower(f.suffix) != ".csv" then Failure(InvalidInput(WrongSuffix(f.suffix)))
    else Success(f.path)
  }

  /** No column name occurs twice. */
  predicate Distinct(s: seq<string>) {
    forall i, j :: 0 <= i < j < |s| ==> s[i] != s[j]
  }

  /** The column list the scan is restricted to is the expected set in
      sorted order, each name once. */
  lemma SelectedColumnsAreSortedExpected()
    ensures forall c :: c in SelectedColumns <==> c in ExpectedColumns
    ensures Ranking.Sorted(SelectedColumns, Text.StrLe)
    ensures Distinct(SelectedColumns)
  {
    SelectedColumnsSorted();
    SelectedColumnsDistinct();
    assert forall c :: c in SelectedColumns <==> c in ExpectedColumns;
  }

  lemma SelectedColumnsDistinct()
    ensures Distinct(SelectedColumns)
  {
    var s := SelectedColumns;
    assert s[0][..2] == "ca" && s[1][..2] == "cl" && s[2][..2] == "co";
    assert s[3][..2] == "da" && s[4][..2] == "im" && s[5][..2] == "sp";
    forall i, j | 0 <= i < j < |s| ensures s[i] != s[j] {
      assert s[i][..2] != s[j][..2];
    }
  }

  lemma SelectedColumnsSorted()
    ensures Ranking.Sorted(SelectedColumns, Text.StrLe)
  {
    SelectedNeighboursOrdered();
    Text.StrLeIsTotalPreorder();
    Ranking.SortedFromNeighbours(SelectedColumns, Text.StrLe);
  }

  lemma SelectedNeighboursOrdered()
    ensures forall i :: 0 <= i < |SelectedColumns| - 1 ==>
      Text.StrLe(SelectedColumns[i], SelectedColumns[i + 1])
  {
    var s := SelectedColumns;
    assert Text.StrLe(s[0], s[1]) by {
      assert s[0][1..] == "ampaign_id" && s[1][1..] == "licks";
    }
    assert Text.StrLe(s[1], s[2]) by {
      assert s[1][1..] == "licks" && s[2][1..] == "onversions";
    }
    assert Text.StrLe(s[2], s[3]);
    assert Text.StrLe(s[3], s[4]);
    assert Text.StrLe(s[4], s[5]);
  }

  /** Two sorted lists without repeats that hold the same names are the
      same list: sorting a set has exactly one outcome. */
  lemma {:induction false} SortedSetOrderIsUnique(a: seq<string>, b: seq<string>)
    requires Ranking.Sorted(a, Text.StrLe) && Distinct(a)
    requires Ranking.Sorted(b, Text.StrLe) && Distinct(b)
    requires forall c :: c in a <==> c in b
    ensures a == b
  {
    assert a != [] ==> a[0] in b;
    assert b != [] ==> b[0] in a;
    if a != [] && b != [] {
      var i :| 0 <= i < |b| && b[i] == a[0];
      var j :| 0 <= j < |a| && a[j] == b[0];
      if a[0] != b[0] {
        assert 0 < i && 0 < j;
        assert Text.StrLe(a[0], a[j]) && Text.StrLe(b[0], b[i]);
        Text.StrLeAntisymmetric(a[0], b[0]);
      }
      forall c ensures c in a[1..] <==> c in b[1..] {
        if c in a[1..] {
          var k :| 0 <= k < |a[1..]| && a[1..][k] == c;
          assert a[k + 1] == c && c in a;
          assert c in b;
          var m :| 0 <= m < |b| && b[m] == c;
          assert m != 0;
          assert b[1..][m - 1] == c;
        }
        if c in b[1..] {
          var k :| 0 <= k < |b[1..]| && b[1..][k] == c;
          assert b[k + 1] == c && c in b;
          assert c in a;
          var m :| 0 <= m < |a| && a[m] == c;
          assert m != 0;
          assert a[1..][m - 1] == c;
        }
      }
      SortedSetOrderIsUnique(a[1..], b[1..]);
      assert a == [a[0]] + a[1..] && b == [b[0]] + b[1..];
    }
  }

  /** The names of `cols` that the header lacks, in the order of `cols`. */
  function Absent(cols: seq<string>, header: seq<string>): (r: seq<string>)
    ensures forall c :: c in r <==> c in cols && c !in header
    ensures Ranking.Sorted(cols, Text.StrLe) && Distinct(cols) ==>
      Ranking.Sorted(r, Text.StrLe) && Distinct(r)
  {
    if cols == [] then []
    else
      var rest := Absent(cols[1..], header);
      if cols[0] in header then rest
      else
        assert forall k :: 0 <= k < |rest| ==> rest[k] in cols[1..];
        [cols[0]] + rest
  }

  /** The missing-column check of `load_csv_lazy`: the scan fails when a
      required column is absent from the header, naming the missing ones and
      the ones found, both sorted; otherwise it is restricted to the
      required columns in sorted order. */
  function CheckColumns(header: seq<string>): (r: Result<seq<string>, ReadError>)
    ensures r.Success? <==> forall c :: c in ExpectedColumns ==> c in header
    ensures r.Success? ==>
      && (forall c :: c in r.value <==> c in ExpectedColumns)
      && Ranking.Sorted(r.value, Text.StrLe)
      && Distinct(r.value)
      && (forall c :: c in r.value ==> c in header)
    ensures r.Failure? ==>
      && r.error.InvalidInput?
      && r.error.cause.MissingColumns?
      && (forall c :: c in r.error.cause.missing <==> c in ExpectedColumns && c !in header)
      && Ranking.Sorted(r.error.cause.missing, Text.StrLe)
      && Distinct(r.error.cause.missing)
      && multiset(r.error.cause.found) == multiset(header)
      && Ranking.Sorted(r.error.cause.found, Text.StrLe)
  {
    SelectedColumnsAreSortedExpected();
    Text.StrLeIsTotalPreorder();
    var missing := Absent(SelectedColumns, header);
    NothingAbsentMeansAllPresent(header);
    if |missing| > 0 then
      Failure(InvalidInput(MissingColumns(missing, Ranking.SortBy(header, Text.StrLe))))
    else
      Success(SelectedColumns)
  }

  lemma NothingAbsentMeansAllPresent(header: seq<string>)
    ensures |Absent(SelectedColumns, header)| == 0 <==>
      forall c :: c in ExpectedColumns ==> c in header
  {
    SelectedColumnsAreSortedExpected();
    var missing := Absent(SelectedColumns, header);
    if |missing| > 0 {
      assert missing[0] in missing;
    } else {
      forall c | c in ExpectedColumns ensures c in header {
        assert c in SelectedColumns;
      }
    }
  }

  /** `load_csv_lazy` up to the scan: validate the file, then check the
      header. A file error always wins over a column error, an existing
      path that is unusable is an invalid-input error and never a
      not-found one, and a successful load projects onto the required
      columns in sorted order. */
  function LoadCsvLazy(f: FileInfo, header: seq<string>): (r: Result<seq<string>, ReadError>)
    ensures r.Success? <==>
      && f.pathExists && f.isFile && f.size > 0 && IsCsvSuffix(f.suffix)
      && (forall c :: c in ExpectedColumns ==> c in header)
    ensures !f.pathExists ==> r == Failure(FileNotFound(f.path))
    ensures r.Failure? && r.error.InvalidInput? && r.error.cause.MissingColumns? ==>
      && f.pathExists && f.isFile && f.size > 0 && IsCsvSuffix(f.suffix)
      && (forall c :: c in r.error.cause.missing <==> c in ExpectedColumns && c !in header)
    ensures r.Success? ==> forall c :: c in r.value <==> c in ExpectedColumns
    ensures r.Success? ==> r.value == SelectedColumns
    ensures ValidateFile(f).Failure? ==> r == Failure(ValidateFile(f).error)
    ensures r.Failure? && r.error.FileNotFound? ==> !f.pathExists
    ensures f.pathExists && !(f.isFile && f.size > 0 && IsCsvSuffix(f.suffix)) ==>
      r.Failure? && r.error.InvalidInput? && !r.error.cause.MissingColumns?
  {
    match ValidateFile(f)
    case Failure(e) => Failure(e)
    case Success(_) => CheckColumns(header)
  }

  /** A header with none of the required columns (`id,value`) fails the
      check, naming all six required columns as missing. */
  lemma MissingColumnsExample(header: seq<string>)
    requires header == ["id", "value"]
    ensures CheckColumns(header).Failure?
    ensures CheckColumns(header).error.cause.missing == SelectedColumns
  {
    SelectedColumnsAreSortedExpected();
    assert "spend"[0] != "value"[0];
    forall c | c in ExpectedColumns ensures c !in header {
      assert |c| != 2;
    }
    var r := CheckColumns(header);
    SortedSetOrderIsUnique(r.error.cause.missing, SelectedColumns);
  }

  /** Outcomes the checks of `validate_file` give on typical inputs: an
      upper-case ".CSV" suffix is accepted; an empty ".txt" file is reported
      as empty, because size is checked before the extension; a missing path
      is reported as not found whatever its other attributes. */
  lemma ValidateFileExamples(path: string)
    ensures ValidateFile(FileInfo(path, true, true, 12, ".CSV")) == Success(path)
    ensures ValidateFile(FileInfo(path, true, true, 0, ".txt")) ==
      Failure(InvalidInput(EmptyFile(path)))
    ensures ValidateFile(FileInfo(path, true, true, 12, ".txt")) ==
      Failure(InvalidInput(WrongSuffix(".txt")))
    ensures forall isFile: bool, size: nat, suffix: string ::
      ValidateFile(FileInfo(path, false, isFile, size, suffix)) == Failure(FileNotFound(path))
  {
  }
}
