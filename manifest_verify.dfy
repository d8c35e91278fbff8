/** The per-row checks of gen3/tools/indexing/verify_manifest.py: a parsed
    manifest row is compared with the index record fetched for its guid, and
    every disagreement becomes a discrepancy line. The concurrent producer and
    consumer are modelled as one sequential pass: the producer trims each row
    and queues it, then queues the end marker; the consumer takes rows off the
    queue until the marker and appends the lines for each row to the log. */
module ManifestVerify {
  import opened Text
  import opened Sorting
  import opened ManifestRows

  /** The fields of an index record that the checks read. */
  datatype IndexRecord = IndexRecord(
    authz: seq<string>,
    acl: seq<string>,
    size: PyVal,
    md5: PyVal,          // `hashes.get("md5")`
    urls: seq<string>,
    fileName: PyVal)

  /** What the index fetch for one guid gives: a record, nothing (a falsy
      record), or an exception with its text. */
  datatype Fetched = Found(record: IndexRecord) | NotFound | FetchFailed(message: string)

  /** The field name of a discrepancy line. */
  datatype Field = NoRecord | Authz | Acl | FileSize | Md5 | Urls | FileName

  /** Where the checks write a field, in the order they are made. */
  function Rank(f: Field): nat {
    match f
    case NoRecord => 0
    case Authz => 1
    case Acl => 2
    case FileSize => 3
    case Md5 => 4
    case Urls => 5
    case FileName => 6
  }

  /** What a line shows as expected or actual: a scalar, a list, or the whole
      manifest row. */
  datatype Shown = Value(v: PyVal) | List(items: seq<string>) | Manifest(row: Row)

  /** One line `{guid}|{field}|expected {expected}|actual {actual}`. */
  datatype Discrepancy = Discrepancy(guid: PyVal, field: Field, expected: Shown, actual: Shown)

  /** Python's `f"{v}"` of a scalar. */
  function Str(v: PyVal): string {
    match v
    case PyNone => "None"
    case PyStr(s) => s
    case PyInt(n) => ShowInt(n)
  }

  function NotFoundMessage(guid: PyVal): string {
    "Index client could not find record for GUID: " + Str(guid)
  }

  /** `sorted(expected) != sorted(actual)`, the test for `authz`, `acl` and `urls`. */
  predicate ListsDiffer(expected: seq<string>, actual: seq<string>) {
    Sort(expected) != Sort(actual)
  }

  /** The list test ignores order and counts repetitions. */
  lemma ListsDifferIffElementsDiffer(expected: seq<string>, actual: seq<string>)
    ensures ListsDiffer(expected, actual) <==> multiset(expected) != multiset(actual)
  {
    SortEqualIffSameElements(expected, actual);
  }

  /** Permuting either side never changes the verdict of the list test. */
  lemma ListsDifferIgnoresOrder(expected: seq<string>, expected': seq<string>,
                                actual: seq<string>, actual': seq<string>)
    requires multiset(expected) == multiset(expected') && multiset(actual) == multiset(actual')
    ensures ListsDiffer(expected, actual) == ListsDiffer(expected', actual')
  {
    ListsDifferIffElementsDiffer(expected, actual);
    ListsDifferIffElementsDiffer(expected', actual');
  }

  /** A repeated element is a difference: `[x, x]` is not `[x]`. */
  lemma ListsDifferOnRepeat(xs: seq<string>, x: string)
    ensures ListsDiffer(xs + [x], xs + [x, x])
  {
    ListsDifferIffElementsDiffer(xs + [x], xs + [x, x]);
    assert multiset(xs + [x, x])[x] == multiset(xs + [x])[x] + 1;
  }

  /** `not v and v != 0`: the value stands for "no value". */
  predicate NullLike(v: PyVal) {
    !Truthy(v) && v != PyInt(0)
  }

  lemma NullLikeIsNoneOrEmpty(v: PyVal)
    ensures NullLike(v) <==> v == PyNone || v == PyStr("")
  {
  }

  /** The test for `file_size` and `md5`: the values differ and are not both
      null-like. */
  predicate ValuesDiffer(expected: PyVal, actual: PyVal) {
    expected != actual && !(NullLike(expected) && NullLike(actual))
  }

  /** The null-equivalence rule on the cases that matter: an empty string and
      `None` agree; `0` and `None` do not; a value and an empty string do not. */
  lemma NullEquivalence(s: string)
    ensures !ValuesDiffer(PyStr(""), PyNone) && !ValuesDiffer(PyNone, PyStr(""))
    ensures ValuesDiffer(PyInt(0), PyNone) && ValuesDiffer(PyNone, PyInt(0))
    ensures s != "" ==> ValuesDiffer(PyStr(s), PyStr(""))
    ensures s != "" ==> ValuesDiffer(PyStr(s), PyNone)
  {
  }

  /** The test for `file_name`: the index has no name and the manifest names one. */
  predicate NameMissing(expected: PyVal, actual: PyVal) {
    !Truthy(actual) && Truthy(expected)
  }

  /** The two scalar tests against the values they compare: `file_size` and
      `md5` differ unless equal or both `None`/`""`; `file_name` is flagged only
      when the index has `None`, `""` or `0` and the manifest a non-empty
      name. */
  lemma ScalarTestsIff(expected: PyVal, actual: PyVal)
    ensures ValuesDiffer(expected, actual) <==>
              expected != actual && !(expected in {PyNone, PyStr("")} && actual in {PyNone, PyStr("")})
    ensures NameMissing(expected, actual) <==>
              actual in {PyNone, PyStr(""), PyInt(0)} && expected !in {PyNone, PyStr(""), PyInt(0)}
  {
    NullLikeIsNoneOrEmpty(expected);
    NullLikeIsNoneOrEmpty(actual);
  }

  function Report(failed: bool, d: Discrepancy): (r: seq<Discrepancy>)
    ensures |r| <= 1
  {
    if failed then [d] else []
  }

  /** The checks of one fetched record, in the order the source makes them. */
  function CheckRecord(m: ManifestRecord, rec: IndexRecord): seq<Discrepancy> {
    Report(ListsDiffer(m.authz, rec.authz), Discrepancy(m.guid, Authz, List(m.authz), List(rec.authz)))
    + Report(ListsDiffer(m.acl, rec.acl), Discrepancy(m.guid, Acl, List(m.acl), List(rec.acl)))
    + Report(ValuesDiffer(m.fileSize, rec.size), Discrepancy(m.guid, FileSize, Value(m.fileSize), Value(rec.size)))
    + Report(ValuesDiffer(m.md5, rec.md5), Discrepancy(m.guid, Md5, Value(m.md5), Value(rec.md5)))
    + Report(ListsDiffer(m.urls, rec.urls), Discrepancy(m.guid, Urls, List(m.urls), List(rec.urls)))
    + Report(NameMissing(m.fileName, rec.fileName),
             Discrepancy(m.guid, FileName, Value(m.fileName), Value(rec.fileName)))
  }

  /** The fields named by some line. */
  function FieldsOf(lines: seq<Discrepancy>): set<Field> {
    set i | 0 <= i < |lines| :: lines[i].field
  }

  /** The lines the consumer writes for one trimmed row, given what the fetch
      of its guid gave. */
  function VerifyRow(row: Row, fetched: Fetched): seq<Discrepancy> {
    var m := ParseRow(row);
    match fetched
    case NotFound => [Discrepancy(m.guid, NoRecord, Manifest(row), Value(PyStr(NotFoundMessage(m.guid))))]
    case FetchFailed(message) => [Discrepancy(m.guid, NoRecord, Manifest(row), Value(PyStr(message)))]
    case Found(rec) => CheckRecord(m, rec)
  }

  /** A failed or empty fetch gives one `no_record` line, showing the row, and
      no field checks. */
  lemma VerifyRowWithoutRecord(row: Row, fetched: Fetched)
    requires !fetched.Found?
    ensures var lines := VerifyRow(row, fetched);
            && |lines| == 1
            && lines[0].guid == GuidOf(row)
            && lines[0].field == NoRecord
            && lines[0].expected == Manifest(row)
            && lines[0].actual == Value(PyStr(if fetched.NotFound? then NotFoundMessage(GuidOf(row))
                                              else fetched.message))
  {
  }

  /** Whether the check of field `f` fails for this manifest row and record. */
  predicate FieldFails(m: ManifestRecord, rec: IndexRecord, f: Field) {
    match f
    case NoRecord => false
    case Authz => ListsDiffer(m.authz, rec.authz)
    case Acl => ListsDiffer(m.acl, rec.acl)
    case FileSize => ValuesDiffer(m.fileSize, rec.size)
    case Md5 => ValuesDiffer(m.md5, rec.md5)
    case Urls => ListsDiffer(m.urls, rec.urls)
    case FileName => NameMissing(m.fileName, rec.fileName)
  }

  /** What the line for field `f` shows as expected: the manifest's value. */
  function ExpectedOf(m: ManifestRecord, f: Field): Shown {
    match f
    case NoRecord => Value(PyNone)
    case Authz => List(m.authz)
    case Acl => List(m.acl)
    case FileSize => Value(m.fileSize)
    case Md5 => Value(m.md5)
    case Urls => List(m.urls)
    case FileName => Value(m.fileName)
  }

  /** What the line for field `f` shows as actual: the index record's value. */
  function ActualOf(rec: IndexRecord, f: Field): Shown {
    match f
    case NoRecord => Value(PyNone)
    case Authz => List(rec.authz)
    case Acl => List(rec.acl)
    case FileSize => Value(rec.size)
    case Md5 => Value(rec.md5)
    case Urls => List(rec.urls)
    case FileName => Value(rec.fileName)
  }

  /** Every line shows the manifest's and the index's value of its own field. */
  predicate ShowsValues(lines: seq<Discrepancy>, m: ManifestRecord, rec: IndexRecord) {
    forall i :: 0 <= i < |lines| ==>
      lines[i].expected == ExpectedOf(m, lines[i].field) && lines[i].actual == ActualOf(rec, lines[i].field)
  }

  /** With a record, the line for a field is there exactly when that field's
      test fails; lines carry the row's guid, come in the order of the checks,
      name each field at most once, and show the manifest's value as expected
      and the index's value as actual. */
  lemma CheckRecordReports(m: ManifestRecord, rec: IndexRecord)
    ensures var lines := CheckRecord(m, rec);
            && InCheckOrder(lines, m.guid)
            && (forall f :: f in FieldsOf(lines) <==> FieldFails(m, rec, f))
            && ShowsValues(lines, m, rec)
  {
    CheckRecordShows(m, rec);
    SixReportsOrdered(ListsDiffer(m.authz, rec.authz), Discrepancy(m.guid, Authz, List(m.authz), List(rec.authz)),
               ListsDiffer(m.acl, rec.acl), Discrepancy(m.guid, Acl, List(m.acl), List(rec.acl)),
               ValuesDiffer(m.fileSize, rec.size), Discrepancy(m.guid, FileSize, Value(m.fileSize), Value(rec.size)),
               ValuesDiffer(m.md5, rec.md5), Discrepancy(m.guid, Md5, Value(m.md5), Value(rec.md5)),
               ListsDiffer(m.urls, rec.urls), Discrepancy(m.guid, Urls, List(m.urls), List(rec.urls)),
               NameMissing(m.fileName, rec.fileName),
               Discrepancy(m.guid, FileName, Value(m.fileName), Value(rec.fileName)));
    SixReportsFields(ListsDiffer(m.authz, rec.authz), Discrepancy(m.guid, Authz, List(m.authz), List(rec.authz)),
                     ListsDiffer(m.acl, rec.acl), Discrepancy(m.guid, Acl, List(m.acl), List(rec.acl)),
                     ValuesDiffer(m.fileSize, rec.size), Discrepancy(m.guid, FileSize, Value(m.fileSize), Value(rec.size)),
                     ValuesDiffer(m.md5, rec.md5), Discrepancy(m.guid, Md5, Value(m.md5), Value(rec.md5)),
                     ListsDiffer(m.urls, rec.urls), Discrepancy(m.guid, Urls, List(m.urls), List(rec.urls)),
                     NameMissing(m.fileName, rec.fileName),
                     Discrepancy(m.guid, FileName, Value(m.fileName), Value(rec.fileName)));
  }

  lemma CheckRecordShows(m: ManifestRecord, rec: IndexRecord)
    ensures ShowsValues(CheckRecord(m, rec), m, rec)
  {
    var l1 := Report(ListsDiffer(m.authz, rec.authz), Discrepancy(m.guid, Authz, List(m.authz), List(rec.authz)));
    var l2 := l1 + Report(ListsDiffer(m.acl, rec.acl), Discrepancy(m.guid, Acl, List(m.acl), List(rec.acl)));
    var l3 := l2 + Report(ValuesDiffer(m.fileSize, rec.size),
                          Discrepancy(m.guid, FileSize, Value(m.fileSize), Value(rec.size)));
    var l4 := l3 + Report(ValuesDiffer(m.md5, rec.md5), Discrepancy(m.guid, Md5, Value(m.md5), Value(rec.md5)));
    var l5 := l4 + Report(ListsDiffer(m.urls, rec.urls), Discrepancy(m.guid, Urls, List(m.urls), List(rec.urls)));
    assert l1 == [] + l1;
    AddShows([], ListsDiffer(m.authz, rec.authz), Discrepancy(m.guid, Authz, List(m.authz), List(rec.authz)), m, rec);
    AddShows(l1, ListsDiffer(m.acl, rec.acl), Discrepancy(m.guid, Acl, List(m.acl), List(rec.acl)), m, rec);
    AddShows(l2, ValuesDiffer(m.fileSize, rec.size),
             Discrepancy(m.guid, FileSize, Value(m.fileSize), Value(rec.size)), m, rec);
    AddShows(l3, ValuesDiffer(m.md5, rec.md5), Discrepancy(m.guid, Md5, Value(m.md5), Value(rec.md5)), m, rec);
    AddShows(l4, ListsDiffer(m.urls, rec.urls), Discrepancy(m.guid, Urls, List(m.urls), List(rec.urls)), m, rec);
    AddShows(l5, NameMissing(m.fileName, rec.fileName),
             Discrepancy(m.guid, FileName, Value(m.fileName), Value(rec.fileName)), m, rec);
  }

  /** One more check whose line shows its field's values keeps every line
      showing its own field's values. */
  lemma AddShows(lines: seq<Discrepancy>, failed: bool, d: Discrepancy, m: ManifestRecord, rec: IndexRecord)
    requires ShowsValues(lines, m, rec)
    requires d.expected == ExpectedOf(m, d.field) && d.actual == ActualOf(rec, d.field)
    ensures ShowsValues(lines + Report(failed, d), m, rec)
  {
  }

  /** Six checks made in the order of the fields, all for one guid, give
      their lines in that order. */
  lemma SixReportsOrdered(c1: bool, d1: Discrepancy, c2: bool, d2: Discrepancy, c3: bool, d3: Discrepancy,
                          c4: bool, d4: Discrepancy, c5: bool, d5: Discrepancy, c6: bool, d6: Discrepancy)
    requires d2.guid == d1.guid && d3.guid == d1.guid && d4.guid == d1.guid
    requires d5.guid == d1.guid && d6.guid == d1.guid
    requires d1.field == Authz && d2.field == Acl && d3.field == FileSize
    requires d4.field == Md5 && d5.field == Urls && d6.field == FileName
    ensures InCheckOrder(Report(c1, d1) + Report(c2, d2) + Report(c3, d3)
                         + Report(c4, d4) + Report(c5, d5) + Report(c6, d6), d1.guid)
  {
    var g := d1.guid;
    var l1 := Report(c1, d1);
    var l2 := l1 + Report(c2, d2);
    var l3 := l2 + Report(c3, d3);
    var l4 := l3 + Report(c4, d4);
    var l5 := l4 + Report(c5, d5);
    assert l1 == [] + Report(c1, d1);
    AddOrdered([], c1, d1, g);
    AddOrdered(l1, c2, d2, g);
    AddOrdered(l2, c3, d3, g);
    AddOrdered(l3, c4, d4, g);
    AddOrdered(l4, c5, d5, g);
    AddOrdered(l5, c6, d6, g);
  }

  /** Six checks of six different fields name a field exactly when its
      check fails, and never name `no_record`. */
  lemma SixReportsFields(c1: bool, d1: Discrepancy, c2: bool, d2: Discrepancy, c3: bool, d3: Discrepancy,
                         c4: bool, d4: Discrepancy, c5: bool, d5: Discrepancy, c6: bool, d6: Discrepancy)
    requires d1.field == Authz && d2.field == Acl && d3.field == FileSize
    requires d4.field == Md5 && d5.field == Urls && d6.field == FileName
    ensures forall f :: f in FieldsOf(Report(c1, d1) + Report(c2, d2) + Report(c3, d3)
                                      + Report(c4, d4) + Report(c5, d5) + Report(c6, d6))
                        <==> Flagged(f, c1, c2, c3, c4, c5, c6)
  {
    var l1 := Report(c1, d1);
    var l2 := l1 + Report(c2, d2);
    var l3 := l2 + Report(c3, d3);
    var l4 := l3 + Report(c4, d4);
    var l5 := l4 + Report(c5, d5);
    assert l1 == [] + Report(c1, d1);
    assert FieldsOf([]) == {};
    AddField([], c1, d1);
    AddField(l1, c2, d2);
    AddField(l2, c3, d3);
    AddField(l3, c4, d4);
    AddField(l4, c5, d5);
    AddField(l5, c6, d6);
  }

  /** Which field is flagged by six outcomes given in check order. */
  predicate Flagged(f: Field, c1: bool, c2: bool, c3: bool, c4: bool, c5: bool, c6: bool) {
    match f
    case NoRecord => false
    case Authz => c1
    case Acl => c2
    case FileSize => c3
    case Md5 => c4
    case Urls => c5
    case FileName => c6
  }

  /** Lines of one guid whose fields come in the order of the checks. */
  predicate InCheckOrder(lines: seq<Discrepancy>, g: PyVal) {
    && (forall i :: 0 <= i < |lines| ==> lines[i].guid == g)
    && (forall i, j :: 0 <= i < j < |lines| ==> Rank(lines[i].field) < Rank(lines[j].field))
  }

  /** One more check, made after the checks that wrote `lines`, keeps the
      lines in check order. */
  lemma AddOrdered(lines: seq<Discrepancy>, failed: bool, d: Discrepancy, g: PyVal)
    requires InCheckOrder(lines, g) && d.guid == g
    requires forall i :: 0 <= i < |lines| ==> Rank(lines[i].field) < Rank(d.field)
    ensures InCheckOrder(lines + Report(failed, d), g)
    ensures forall i :: 0 <= i < |lines + Report(failed, d)| ==>
              Rank((lines + Report(failed, d))[i].field) <= Rank(d.field)
  {
  }

  /** One more check names its field exactly when it fails. */
  lemma AddField(lines: seq<Discrepancy>, failed: bool, d: Discrepancy)
    ensures forall f :: f in FieldsOf(lines + Report(failed, d)) <==> f in FieldsOf(lines) || (failed && f == d.field)
  {
    var all := lines + Report(failed, d);
    forall f | f in FieldsOf(all) ensures f in FieldsOf(lines) || (failed && f == d.field) {
      var i :| 0 <= i < |all| && all[i].field == f;
      if i < |lines| {
        assert lines[i] == all[i];
      }
    }
    forall f | f in FieldsOf(lines) ensures f in FieldsOf(all) {
      var i :| 0 <= i < |lines| && lines[i].field == f;
      assert all[i] == lines[i];
    }
    if failed {
      assert all[|lines|] == d;
    }
  }

  /** The lines of each row, when the fetch for the row at position `i` with
      guid `g` gives `fetch(i, g)`. */
  function RowLines(rows: seq<Row>, fetch: (nat, PyVal) -> Fetched): (parts: seq<seq<Discrepancy>>)
    ensures |parts| == |rows|
  {
    seq(|rows|, i requires 0 <= i < |rows| => VerifyRow(rows[i], fetch(i, GuidOf(rows[i]))))
  }

  /** The lines of several rows, one row after another. */
  function Concat(parts: seq<seq<Discrepancy>>): seq<Discrepancy> {
    if |parts| == 0 then [] else Concat(parts[..|parts| - 1]) + parts[|parts| - 1]
  }

  /** The log written for a manifest. */
  function Log(rows: seq<Row>, fetch: (nat, PyVal) -> Fetched): seq<Discrepancy> {
    Concat(RowLines(rows, fetch))
  }

  lemma {:induction false} ConcatEmptyIff(parts: seq<seq<Discrepancy>>)
    ensures Concat(parts) == [] <==> forall i :: 0 <= i < |parts| ==> parts[i] == []
  {
    if |parts| > 0 {
      var n := |parts| - 1;
      ConcatEmptyIff(parts[..n]);
      assert forall i :: 0 <= i < n ==> parts[..n][i] == parts[i];
    }
  }

  lemma {:induction false} ConcatAppend(parts: seq<seq<Discrepancy>>, more: seq<seq<Discrepancy>>)
    ensures Concat(parts + more) == Concat(parts) + Concat(more)
    decreases |more|
  {
    if |more| > 0 {
      var all := parts + more;
      var n := |all| - 1;
      assert all[..n] == parts + more[..|more| - 1];
      ConcatAppend(parts, more[..|more| - 1]);
    } else {
      assert parts + more == parts;
    }
  }

  /** A file name the index already holds is never reported, even when the
      manifest names the file differently. */
  lemma FileNameReportedOnlyWhenMissing(m: ManifestRecord, rec: IndexRecord)
    requires Truthy(rec.fileName)
    ensures forall i :: 0 <= i < |CheckRecord(m, rec)| ==> CheckRecord(m, rec)[i].field != FileName
  {
    var lines := CheckRecord(m, rec);
    CheckRecordReports(m, rec);
    assert !FieldFails(m, rec, FileName);
    forall i | 0 <= i < |lines| ensures lines[i].field != FileName {
      assert lines[i].field in FieldsOf(lines);
    }
  }

  /** A row contributes nothing exactly when its record was found and agrees
      with it on every checked field. */
  lemma VerifyRowEmptyIff(row: Row, fetched: Fetched)
    ensures VerifyRow(row, fetched) == [] <==>
              fetched.Found? && CheckRecord(ParseRow(row), fetched.record) == []
  {
  }

  /** The log is empty exactly when every row's record was found and agrees
      with the row on every checked field. */
  lemma LogEmptyIff(rows: seq<Row>, fetch: (nat, PyVal) -> Fetched)
    ensures Log(rows, fetch) == [] <==>
              forall i :: 0 <= i < |rows| ==>
                var f := fetch(i, GuidOf(rows[i]));
                f.Found? && CheckRecord(ParseRow(rows[i]), f.record) == []
  {
    var parts := RowLines(rows, fetch);
    ConcatEmptyIff(parts);
    forall i | 0 <= i < |rows|
      ensures parts[i] == [] <==>
                var f := fetch(i, GuidOf(rows[i]));
                f.Found? && CheckRecord(ParseRow(rows[i]), f.record) == []
    {
      VerifyRowEmptyIff(rows[i], fetch(i, GuidOf(rows[i])));
    }
  }

  /** The lines of a manifest are the lines of its first rows followed by the
      lines of the rest: each row's lines sit together, in row order. */
  lemma LogSplits(rows: seq<Row>, k: nat, fetch: (nat, PyVal) -> Fetched)
    requires k <= |rows|
    ensures Log(rows, fetch) == Log(rows[..k], fetch) + Concat(RowLines(rows, fetch)[k..])
  {
    var parts := RowLines(rows, fetch);
    RowLinesPrefix(rows, k, fetch);
    assert parts == parts[..k] + parts[k..];
    ConcatAppend(parts[..k], parts[k..]);
  }

  lemma RowLinesPrefix(rows: seq<Row>, k: nat, fetch: (nat, PyVal) -> Fetched)
    requires k <= |rows|
    ensures RowLines(rows, fetch)[..k] == RowLines(rows[..k], fetch)
  {
    forall i | 0 <= i < k ensures RowLines(rows, fetch)[i] == RowLines(rows[..k], fetch)[i] {
      assert rows[..k][i] == rows[i];
    }
  }

  /** An item of the queue between the producer and the consumer. */
  datatype QueueItem = Item(row: Row) | Done

  /** The rows queued before the first end marker. */
  function RowsBeforeDone(queue: seq<QueueItem>): (rows: seq<Row>)
    requires Done in queue
    ensures |rows| < |queue|
  {
    if queue[0].Done? then [] else [queue[0].row] + RowsBeforeDone(queue[1..])
  }

  lemma {:induction false} RowsBeforeDoneAt(queue: seq<QueueItem>, i: nat)
    requires i < |queue| && Done !in queue[..i] && Done in queue
    ensures i <= |RowsBeforeDone(queue)|
    ensures RowsBeforeDone(queue)[..i] == seq(i, k requires 0 <= k < i => queue[k].row)
    ensures queue[i].Done? <==> i == |RowsBeforeDone(queue)|
    ensures queue[i].Item? ==> RowsBeforeDone(queue)[i] == queue[i].row
  {
    if i > 0 && !queue[0].Done? {
      assert queue[1..][..i - 1] == queue[..i][1..];
      RowsBeforeDoneAt(queue[1..], i - 1);
    }
  }

  /** Taking one more row off the queue adds that row's lines to the log. */
  lemma TakeRow(queue: seq<QueueItem>, fetch: (nat, PyVal) -> Fetched, next: nat)
    requires next < |queue| && Done !in queue[..next] && Done in queue && queue[next].Item?
    ensures next + 1 < |queue| && Done !in queue[..next + 1]
    ensures var rows := RowsBeforeDone(queue);
            var parts := RowLines(rows, fetch);
            && next + 1 <= |rows|
            && (queue[next + 1].Done? <==> next + 1 == |rows|)
            && Concat(parts[..next + 1]) ==
                 Concat(parts[..next]) + VerifyRow(queue[next].row, fetch(next, GuidOf(queue[next].row)))
  {
    QueueAdvance(queue, next);
    ConcatPrefix(RowLines(RowsBeforeDone(queue), fetch), next);
  }

  /** The row at position `next` before the end marker is the next row the
      consumer handles. */
  lemma QueueAdvance(queue: seq<QueueItem>, next: nat)
    requires next < |queue| && Done !in queue[..next] && Done in queue && queue[next].Item?
    ensures next + 1 < |queue| && Done !in queue[..next + 1]
    ensures var rows := RowsBeforeDone(queue);
            && next + 1 <= |rows|
            && rows[next] == queue[next].row
            && (queue[next + 1].Done? <==> next + 1 == |rows|)
  {
    RowsBeforeDoneAt(queue, next);
    assert queue[..next + 1] == queue[..next] + [queue[next]];
    RowsBeforeDoneAt(queue, next + 1);
  }

  lemma ConcatPrefix(parts: seq<seq<Discrepancy>>, i: nat)
    requires i < |parts|
    ensures Concat(parts[..i + 1]) == Concat(parts[..i]) + parts[i]
  {
    assert parts[..i + 1][..i] == parts[..i];
  }

  /** `_parse_from_queue`: takes rows off the queue until the end marker and
      writes the lines of every row to the log. */
  method ParseFromQueue(queue: seq<QueueItem>, fetch: (nat, PyVal) -> Fetched)
    returns (log: seq<Discrepancy>)
    requires Done in queue
    ensures log == Log(RowsBeforeDone(queue), fetch)
  {
    ghost var rows := RowsBeforeDone(queue);
    log := [];
    var next := 0;
    var item := queue[next];
    RowsBeforeDoneAt(queue, 0);
    while item != Done
      invariant next < |queue| && item == queue[next]
      invariant Done !in queue[..next]
      invariant next <= |rows| && (item.Done? <==> next == |rows|)
      invariant log == Concat(RowLines(rows, fetch)[..next])
      decreases |queue| - next
    {
      var row := item.row;
      var fetched := fetch(next, GuidOf(row));
      TakeRow(queue, fetch, next);
      log := log + VerifyRow(row, fetched);
      next := next + 1;
      item := queue[next];
    }
    assert RowLines(rows, fetch)[..next] == RowLines(rows, fetch);
  }

  /** `_verify_all_index_records_in_file`: the producer trims and queues every
      row of the manifest, then queues the end marker; the consumer drains the
      queue. */
  method VerifyAllIndexRecords(manifest: seq<seq<(string, string)>>, fetch: (nat, PyVal) -> Fetched)
    returns (log: seq<Discrepancy>)
    ensures log == Log(seq(|manifest|, i requires 0 <= i < |manifest| => Trimmed(manifest[i])), fetch)
  {
    var queue: seq<QueueItem> := [];
    for i := 0 to |manifest|
      invariant queue == seq(i, k requires 0 <= k < i => Item(Trimmed(manifest[k])))
    {
      var newRow := TrimRow(manifest[i]);
      queue := queue + [Item(newRow)];
    }
    ghost var rows := seq(|manifest|, i requires 0 <= i < |manifest| => Trimmed(manifest[i]));
    QueuedRows(rows, queue);
    queue := queue + [Done];
    log := ParseFromQueue(queue, fetch);
  }

  /** The rows queued one after another and then the end marker are the rows
      the consumer takes. */
  lemma QueuedRows(rows: seq<Row>, items: seq<QueueItem>)
    requires |items| == |rows| && forall k :: 0 <= k < |rows| ==> items[k] == Item(rows[k])
    ensures Done in items + [Done] && RowsBeforeDone(items + [Done]) == rows
  {
    var queue := items + [Done];
    assert queue[|rows|] == Done;
    assert queue[..|rows|] == items;
    RowsBeforeDoneAt(queue, |rows|);
    var taken := RowsBeforeDone(queue);
    assert taken == taken[..|rows|];
  }
}
