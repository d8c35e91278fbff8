/** What `Gen3Submission.submit_file` (gen3/submission.py) decides before it
    sends anything: the file format from the file name, the column names with
    their leading asterisks removed, the `submitter_id` column and the
    uniqueness of its values, and the program and project named by the
    project id. Reading the file itself is not modelled: the table a reader
    would produce is an input. */
module SubmitPrechecks {
  import opened Text

  /** The readers `submit_file` chooses between. */
  datatype Format = Csv | Excel | TabSeparated

  /** The exceptions `submit_file` raises, before and during the submission. */
  datatype SubmitError =
    | UnsupportedFormat        // not a CSV, TSV, TXT or XLSX file name
    | NoSubmitterIdColumn      // `df.submitter_id` names no column
    | DuplicateSubmitterIds
    | MalformedProjectId       // `project_id.split("-", 1)` gives one piece
    | UnparseableResponse      // the response is not JSON
    | ValidEntitiesRejected    // valid entities failed with no invalid ones
    | TimingOut                // overloaded with a chunk size of 1

  datatype Result<T> = Ok(value: T) | Err(error: SubmitError)

  /** The format chosen for `filename`: `.csv` and `.xlsx` are tested on the
      lower-cased last path component, `.tsv` and `.txt` on the lower-cased
      whole name. */
  function FormatOf(filename: string): (r: Result<Format>)
    ensures r == Ok(Csv) <==> EndsWith(Lower(filename), ".csv")
    ensures r == Ok(Excel) <==> !EndsWith(Lower(filename), ".csv") && EndsWith(Lower(filename), ".xlsx")
    ensures r == Ok(TabSeparated) <==>
              && !EndsWith(Lower(filename), ".csv") && !EndsWith(Lower(filename), ".xlsx")
              && (EndsWith(Lower(filename), ".tsv") || EndsWith(Lower(filename), ".txt"))
    ensures r.Err? <==>
              && !EndsWith(Lower(filename), ".csv") && !EndsWith(Lower(filename), ".xlsx")
              && !EndsWith(Lower(filename), ".tsv") && !EndsWith(Lower(filename), ".txt")
    ensures r.Err? ==> r.error == UnsupportedFormat
  {
    var f := Lower(Basename(filename));
    BasenameSuffixes(filename);
    if EndsWith(f, ".csv") then Ok(Csv)
    else if EndsWith(f, ".xlsx") then Ok(Excel)
    else if EndsWith(Lower(filename), ".tsv") || EndsWith(Lower(filename), ".txt") then Ok(TabSeparated)
    else Err(UnsupportedFormat)
  }

  /** The lower-cased last path component is what follows the last `/` of
      the lower-cased path. */
  lemma LowerBasename(path: string)
    ensures AfterSlash(Lower(path), Lower(Basename(path)))
  {
    var b := Basename(path);
    var dir := path[..|path| - |b|];
    assert path == dir + b;
    LowerAppend(dir, b);
    var lowerDir := Lower(dir);
    assert lowerDir == [] || lowerDir[|lowerDir| - 1] == '/';
    AfterSlashAppend(lowerDir, Lower(b));
  }

  lemma AfterSlashAppend(dir: string, tail: string)
    requires dir == [] || dir[|dir| - 1] == '/'
    ensures AfterSlash(dir + tail, tail)
  {
    assert (dir + tail)[|dir|..] == tail;
  }

  /** `tail` ends `path` and is all of it or follows a `/` in it. */
  predicate AfterSlash(path: string, tail: string) {
    && EndsWith(path, tail)
    && (|tail| < |path| ==> path[|path| - |tail| - 1] == '/')
  }

  /** The suffixes tested on the base name can be tested on the whole path. */
  lemma BasenameSuffixes(path: string)
    ensures EndsWith(Lower(Basename(path)), ".csv") == EndsWith(Lower(path), ".csv")
    ensures EndsWith(Lower(Basename(path)), ".xlsx") == EndsWith(Lower(path), ".xlsx")
  {
    LowerBasename(path);
    SuffixesAfterSlash(Lower(path), Lower(Basename(path)));
  }

  lemma SuffixesAfterSlash(path: string, tail: string)
    requires AfterSlash(path, tail)
    ensures EndsWith(tail, ".csv") == EndsWith(path, ".csv")
    ensures EndsWith(tail, ".xlsx") == EndsWith(path, ".xlsx")
  {
    SuffixAfterSlash(path, tail, ".csv");
    SuffixAfterSlash(path, tail, ".xlsx");
  }

  lemma LowerTwice(s: string)
    ensures Lower(Lower(s)) == Lower(s)
  {
  }

  /** The format does not depend on letter case. */
  lemma FormatIgnoresCase(filename: string)
    ensures FormatOf(Lower(filename)) == FormatOf(filename)
  {
    LowerTwice(filename);
  }

  /** A suffix without `/` of a path is a suffix of the part after its
      last `/`, and the other way round. */
  lemma SuffixAfterSlash(path: string, tail: string, suffix: string)
    requires AfterSlash(path, tail) && '/' !in suffix
    ensures EndsWith(path, suffix) <==> EndsWith(tail, suffix)
  {
    if |tail| < |suffix| <= |path| {
      var end := path[|path| - |suffix|..];
      assert end[|suffix| - |tail| - 1] == path[|path| - |tail| - 1] == '/';
      assert end != suffix;
    }
    if EndsWith(tail, suffix) {
      assert path[|path| - |suffix|..] == tail[|tail| - |suffix|..];
    }
  }

  /** The directories in front of a file name do not change its format. */
  lemma FormatIgnoresDirectory(dir: string, name: string)
    ensures FormatOf(dir + "/" + name) == FormatOf(name)
  {
    var path := Lower(dir + "/" + name);
    var tail := Lower(name);
    assert path[|path| - |tail|..] == tail;
    SuffixAfterSlash(path, tail, ".csv");
    SuffixAfterSlash(path, tail, ".xlsx");
    SuffixAfterSlash(path, tail, ".tsv");
    SuffixAfterSlash(path, tail, ".txt");
  }

  /** Python's `s.lstrip(c)`: `s` without the run of `c` at its front. */
  function LStrip(s: string, c: char): (r: string)
    ensures r == [] || r[0] != c
    ensures |r| <= |s| && s == Repeat(c, |s| - |r|) + r
  {
    if |s| == 0 || s[0] != c then
      assert Repeat(c, 0) + s == s;
      s
    else
      var r := LStrip(s[1..], c);
      RepeatCons(c, |s| - 1 - |r|);
      assert s == [c] + s[1..];
      r
  }

  /** Removing a run of `c` from the front of a text that does not start
      with `c` gives that text back. */
  lemma {:induction false} LStripRepeat(n: nat, c: char, t: string)
    requires t == [] || t[0] != c
    ensures LStrip(Repeat(c, n) + t, c) == t
    decreases n
  {
    if n > 0 {
      assert (Repeat(c, n) + t)[1..] == Repeat(c, n - 1) + t;
      LStripRepeat(n - 1, c, t);
    }
  }

  lemma LStripIdempotent(s: string, c: char)
    ensures LStrip(LStrip(s, c), c) == LStrip(s, c)
  {
  }

  /** The renaming `{c: c.lstrip('*') for c in df.columns}`. */
  function RenameColumns(columns: seq<string>): (r: seq<string>)
    ensures |r| == |columns|
    ensures forall k :: 0 <= k < |r| ==> r[k] == LStrip(columns[k], '*')
  {
    seq(|columns|, k requires 0 <= k < |columns| => LStrip(columns[k], '*'))
  }

  /** Marked columns such as `*submitter_id` lose their asterisks and
      unmarked columns keep their names. */
  lemma RenameStripsMarks(columns: seq<string>, k: nat, n: nat, name: string)
    requires k < |columns| && columns[k] == Repeat('*', n) + name
    requires name == [] || name[0] != '*'
    ensures RenameColumns(columns)[k] == name
  {
    LStripRepeat(n, '*', name);
  }

  /** The position of the first column called `name`, as attribute access on
      the data frame finds it. */
  function FindColumn(columns: seq<string>, name: string): (r: Option<nat>)
    ensures r.None? <==> name !in columns
    ensures r.Some? ==> r.value < |columns| && columns[r.value] == name && name !in columns[..r.value]
  {
    if name !in columns then None
    else Some(IndexOfString(columns, name))
  }

  function IndexOfString(xs: seq<string>, x: string): (i: nat)
    requires x in xs
    ensures i < |xs| && xs[i] == x && x !in xs[..i]
  {
    if xs[0] == x then 0
    else
      var i := IndexOfString(xs[1..], x);
      assert xs[..i + 1] == [xs[0]] + xs[1..][..i];
      i + 1
  }

  /** The table a reader produces: column names and rows of cells. A row
      shorter than the header reads as empty cells. */
  datatype Table = Table(columns: seq<string>, rows: seq<seq<string>>)

  function Cell(row: seq<string>, column: nat): string {
    if column < |row| then row[column] else ""
  }

  function ColumnValues(rows: seq<seq<string>>, column: nat): (vs: seq<string>)
    ensures |vs| == |rows|
    ensures forall k :: 0 <= k < |rows| ==> vs[k] == Cell(rows[k], column)
  {
    seq(|rows|, k requires 0 <= k < |rows| => Cell(rows[k], column))
  }

  predicate Distinct(xs: seq<string>) {
    forall i, j :: 0 <= i < j < |xs| ==> xs[i] != xs[j]
  }

  /** pandas' `Series.unique()`: each value once, in order of first appearance. */
  function Unique(xs: seq<string>): (r: seq<string>)
    ensures Distinct(r) && |r| <= |xs|
    ensures forall x :: x in r <==> x in xs
  {
    if |xs| == 0 then []
    else
      var u := Unique(xs[..|xs| - 1]);
      assert xs == xs[..|xs| - 1] + [xs[|xs| - 1]];
      if xs[|xs| - 1] in u then u else u + [xs[|xs| - 1]]
  }

  /** The length test of `submit_file` detects exactly a repeated value. */
  lemma {:induction false} UniqueKeepsLengthIffDistinct(xs: seq<string>)
    ensures |Unique(xs)| == |xs| <==> Distinct(xs)
  {
    if |xs| > 0 {
      var init := xs[..|xs| - 1];
      var last := xs[|xs| - 1];
      UniqueKeepsLengthIffDistinct(init);
      if last in init {
        var i :| 0 <= i < |init| && init[i] == last;
        assert xs[i] == xs[|xs| - 1];
      } else {
        assert Distinct(xs) <==> Distinct(init) by {
          if Distinct(init) {
            forall i, j | 0 <= i < j < |xs| ensures xs[i] != xs[j] {
              if j < |xs| - 1 {
                assert xs[i] == init[i] && xs[j] == init[j];
              } else {
                assert xs[i] == init[i];
              }
            }
          }
          if Distinct(xs) {
            forall i, j | 0 <= i < j < |init| ensures init[i] != init[j] {
              assert xs[i] == init[i] && xs[j] == init[j];
            }
          }
        }
      }
    }
  }

  /** `program, project = project_id.split("-", 1)`: split at the first
      hyphen; an id without one cannot be unpacked. */
  function SplitProject(projectId: string): (r: Result<(string, string)>)
    ensures r.Err? <==> '-' !in projectId
    ensures r.Err? ==> r.error == MalformedProjectId
    ensures r.Ok? ==> '-' !in r.value.0 && r.value.0 + "-" + r.value.1 == projectId
  {
    if '-' !in projectId then Err(MalformedProjectId)
    else
      var i := IndexOf(projectId, '-');
      assert projectId == projectId[..i] + "-" + projectId[i + 1..];
      Ok((projectId[..i], projectId[i + 1..]))
  }

  /** The split is the only one whose program has no hyphen. */
  lemma SplitProjectUnique(program: string, project: string)
    requires '-' !in program
    ensures SplitProject(program + "-" + project) == Ok((program, project))
  {
    var id := program + "-" + project;
    assert id[|program|] == '-';
    assert id[..|program|] == program;
    var i := IndexOf(id, '-');
    assert i == |program|;
    assert id[..i] == program && id[i + 1..] == project;
  }

  /** Everything the chunk loop needs: the target, the renamed header, the
      rows and the submitter id of each row. */
  datatype Job = Job(
    format: Format,
    program: string,
    project: string,
    columns: seq<string>,
    rows: seq<seq<string>>,
    ids: seq<string>)

  /** The checks `submit_file` makes before its first request, in its order. */
  function Prepare(projectId: string, filename: string, table: Table): (r: Result<Job>)
    ensures r.Ok? ==>
              && FormatOf(filename) == Ok(r.value.format)
              && r.value.columns == RenameColumns(table.columns)
              && "submitter_id" in r.value.columns
              && r.value.rows == table.rows
              && |r.value.ids| == |r.value.rows|
              && Distinct(r.value.ids)
              && '-' !in r.value.program
              && r.value.program + "-" + r.value.project == projectId
    ensures FormatOf(filename).Err? ==> r == Err(UnsupportedFormat)
    ensures FormatOf(filename).Ok? && "submitter_id" !in RenameColumns(table.columns) ==>
              r == Err(NoSubmitterIdColumn)
  {
    match FormatOf(filename)
    case Err(e) => Err(e)
    case Ok(format) =>
      var columns := RenameColumns(table.columns);
      match FindColumn(columns, "submitter_id")
      case None => Err(NoSubmitterIdColumn)
      case Some(column) =>
        var ids := ColumnValues(table.rows, column);
        UniqueKeepsLengthIffDistinct(ids);
        if |ids| != |Unique(ids)| then Err(DuplicateSubmitterIds)
        else
          match SplitProject(projectId)
          case Err(e) => Err(e)
          case Ok((program, project)) => Ok(Job(format, program, project, columns, table.rows, ids))
  }

  /** The submitter ids of a table: the first `submitter_id` column after
      the renaming. */
  function SubmitterIds(table: Table): seq<string>
    requires "submitter_id" in RenameColumns(table.columns)
  {
    ColumnValues(table.rows, FindColumn(RenameColumns(table.columns), "submitter_id").value)
  }

  /** A repeated submitter id is reported whatever the project id. */
  lemma DuplicateIdsRejected(projectId: string, filename: string, table: Table)
    requires FormatOf(filename).Ok?
    requires "submitter_id" in RenameColumns(table.columns)
    requires !Distinct(SubmitterIds(table))
    ensures Prepare(projectId, filename, table) == Err(DuplicateSubmitterIds)
  {
    UniqueKeepsLengthIffDistinct(SubmitterIds(table));
  }

  /** A table that passes the file checks is accepted exactly when the
      project id names a program. */
  lemma PrepareNeedsHyphen(projectId: string, filename: string, table: Table)
    requires FormatOf(filename).Ok?
    requires "submitter_id" in RenameColumns(table.columns)
    requires Distinct(SubmitterIds(table))
    ensures Prepare(projectId, filename, table).Ok? <==> '-' in projectId
    ensures '-' !in projectId ==> Prepare(projectId, filename, table) == Err(MalformedProjectId)
    ensures Prepare(projectId, filename, table).Ok? ==>
              Prepare(projectId, filename, table).value.ids == SubmitterIds(table)
  {
    UniqueKeepsLengthIffDistinct(SubmitterIds(table));
  }
}
