/** The manifest-row adapters of gen3/tools/indexing/verify_manifest.py:
    one function per expected index field, each reading a row of the manifest
    (column name to cell text) and accepting the synonyms the source accepts;
    the `manifest_row_parsers` table that applies them; and the trimming of
    keys and values of every row read from the manifest file. */
module ManifestRows {
  import opened Text

  /** The Python values the adapters and the index record hold in the
      scalar fields: `None`, a string, or an integer. */
  datatype PyVal = PyNone | PyStr(s: string) | PyInt(n: int)

  /** Python truthiness of such a value. */
  predicate Truthy(v: PyVal) {
    match v
    case PyNone => false
    case PyStr(s) => s != ""
    case PyInt(n) => n != 0
  }

  /** A manifest row after trimming: column name to cell text. */
  type Row = map<string, string>

  /** Python's `row.get(key, default)`. */
  function Get(row: Row, key: string, default: string): string {
    if key in row then row[key] else default
  }

  /** The cell of the first of `keys` that `row` has: the synonym priority
      an `if … elif … else None` chain over `in` tests gives. */
  function FirstPresent(row: Row, keys: seq<string>): (r: Option<string>)
    ensures r.None? <==> forall k :: 0 <= k < |keys| ==> keys[k] !in row
    ensures r.Some? ==> exists k :: 0 <= k < |keys| && keys[k] in row && r.value == row[keys[k]]
                                    && forall j :: 0 <= j < k ==> keys[j] !in row
  {
    if |keys| == 0 then None
    else if keys[0] in row then Some(row[keys[0]])
    else
      var r := FirstPresent(row, keys[1..]);
      assert forall k :: 0 < k < |keys| ==> keys[k] == keys[1..][k - 1];
      r
  }

  function AsPyVal(o: Option<string>): (v: PyVal)
    ensures !v.PyInt?
  {
    match o
    case Some(s) => PyStr(s)
    case None => PyNone
  }

  const Md5Columns: seq<string> := ["md5", "md5sum"]
  const SizeColumns: seq<string> := ["file_size", "size"]
  const FileNameColumns: seq<string> := ["file_name", "filename", "name"]

  /** How `FirstPresent` reads the three synonym lists. */
  lemma FirstPresentOfColumns(row: Row)
    ensures FirstPresent(row, Md5Columns) ==
              if "md5" in row then Some(row["md5"])
              else if "md5sum" in row then Some(row["md5sum"]) else None
    ensures FirstPresent(row, SizeColumns) ==
              if "file_size" in row then Some(row["file_size"])
              else if "size" in row then Some(row["size"]) else None
    ensures FirstPresent(row, FileNameColumns) ==
              if "file_name" in row then Some(row["file_name"])
              else if "filename" in row then Some(row["filename"])
              else if "name" in row then Some(row["name"]) else None
  {
    assert Md5Columns[1..] == ["md5sum"] && Md5Columns[1..][1..] == [];
    assert SizeColumns[1..] == ["size"] && SizeColumns[1..][1..] == [];
    assert FileNameColumns[1..] == ["filename", "name"];
    assert FileNameColumns[1..][1..] == ["name"] && FileNameColumns[1..][1..][1..] == [];
    FirstPresentStep(row, FileNameColumns);
    FirstPresentStep(row, FileNameColumns[1..]);
    FirstPresentStep(row, FileNameColumns[1..][1..]);
  }

  lemma FirstPresentStep(row: Row, keys: seq<string>)
    requires |keys| > 0
    ensures FirstPresent(row, keys) ==
              if keys[0] in row then Some(row[keys[0]]) else FirstPresent(row, keys[1..])
  {
  }

  /** `_get_guid_from_row`: `row.get("guid")`, or `row.get("GUID")` when the
      former is missing or empty. */
  function GuidOf(row: Row): (g: PyVal)
    ensures "guid" in row && row["guid"] != "" ==> g == PyStr(row["guid"])
    ensures !("guid" in row && row["guid"] != "") ==> g == AsPyVal(FirstPresent(row, ["GUID"]))
  {
    var guid := if "guid" in row then PyStr(row["guid"]) else PyNone;
    if !Truthy(guid) then
      (if "GUID" in row then PyStr(row["GUID"]) else PyNone)
    else guid
  }

  /** `_get_md5_from_row`: `md5` is preferred to `md5sum`; neither gives `None`. */
  function Md5Of(row: Row): (r: PyVal)
    ensures r == AsPyVal(FirstPresent(row, Md5Columns))
  {
    FirstPresentOfColumns(row);
    if "md5" in row then PyStr(row["md5"])
    else if "md5sum" in row then PyStr(row["md5sum"])
    else PyNone
  }

  /** `_get_file_size_from_row`: the integer in `file_size`, else the integer
      in `size`; when the chosen cell is not an integer, the raw `file_size`
      cell, or `None` when there is no `file_size` column. */
  function FileSizeOf(row: Row): (r: PyVal)
    ensures var chosen := FirstPresent(row, SizeColumns);
            r.PyInt? <==> chosen.Some? && ParseInt(chosen.value).Some?
    ensures var chosen := FirstPresent(row, SizeColumns);
            r.PyInt? ==> ParseInt(chosen.value) == Some(r.n)
    ensures r.PyStr? <==> "file_size" in row && ParseInt(row["file_size"]).None?
    ensures r.PyStr? ==> r.s == row["file_size"]
    ensures r == PyNone <==> "file_size" !in row && ("size" !in row || ParseInt(row["size"]).None?)
  {
    FirstPresentOfColumns(row);
    var converted :=
      if "file_size" in row then ParseInt(row["file_size"])
      else if "size" in row then ParseInt(row["size"])
      else Some(0);
    if converted.None? then
      (if "file_size" in row then PyStr(row["file_size"]) else PyNone)
    else if "file_size" in row || "size" in row then PyInt(converted.value)
    else PyNone
  }

  /** Drops the empty strings from a list, keeping the order of the rest:
      every non-empty item stays, as often as it occurs
      (`DropEmptyAppend` gives the order). */
  function DropEmpty(pieces: seq<string>): (r: seq<string>)
    ensures forall k :: 0 <= k < |r| ==> r[k] != [] && r[k] in pieces
    ensures forall x :: x != [] ==> multiset(r)[x] == multiset(pieces)[x]
  {
    if |pieces| == 0 then []
    else
      assert pieces == [pieces[0]] + pieces[1..];
      if pieces[0] == [] then DropEmpty(pieces[1..])
    else [pieces[0]] + DropEmpty(pieces[1..])
  }

  /** `[item for item in text.strip().split(" ") if item]`. */
  function Tokens(text: string): (r: seq<string>)
    ensures forall k :: 0 <= k < |r| ==> r[k] != [] && ' ' !in r[k]
  {
    DropEmpty(Split(Strip(text), ' '))
  }

  /** `_get_acl_from_row`: the tokens of the `acl` column, none when it is absent. */
  function AclOf(row: Row): (r: seq<string>)
    ensures forall k :: 0 <= k < |r| ==> r[k] != [] && ' ' !in r[k]
    ensures "acl" !in row ==> r == []
  {
    Tokens(Get(row, "acl", ""))
  }

  /** `_get_authz_from_row`: the tokens of the `authz` column, none when it is absent. */
  function AuthzOf(row: Row): (r: seq<string>)
    ensures forall k :: 0 <= k < |r| ==> r[k] != [] && ' ' !in r[k]
    ensures "authz" !in row ==> r == []
  {
    Tokens(Get(row, "authz", ""))
  }

  /** `_get_urls_from_row`. Both of its branches read the `urls` column, so a
      `url` column is never read. */
  function UrlsOf(row: Row): (r: seq<string>)
    ensures forall k :: 0 <= k < |r| ==> r[k] != [] && ' ' !in r[k]
    ensures r == Tokens(Get(row, "urls", ""))
  {
    if "urls" in row then Tokens(Get(row, "urls", ""))
    else if "url" in row then Tokens(Get(row, "urls", ""))
    else []
  }

  /** `_get_file_name_from_row`: `file_name`, then `filename`, then `name`, else `None`. */
  function FileNameOf(row: Row): (r: PyVal)
    ensures r == AsPyVal(FirstPresent(row, FileNameColumns))
  {
    FirstPresentOfColumns(row);
    if "file_name" in row then PyStr(row["file_name"])
    else if "filename" in row then PyStr(row["filename"])
    else if "name" in row then PyStr(row["name"])
    else PyNone
  }

  /** One manifest row as the seven expected index fields. */
  datatype ManifestRecord = ManifestRecord(
    guid: PyVal,
    authz: seq<string>,
    acl: seq<string>,
    fileSize: PyVal,
    md5: PyVal,
    urls: seq<string>,
    fileName: PyVal)

  /** The module-level `manifest_row_parsers` table applied to one row. Only
      the size can come out as an integer, the three lists hold non-empty
      space-free tokens (`ParseRowOfUnknownColumns` gives the row with no
      recognised column). */
  function ParseRow(row: Row): (r: ManifestRecord)
    ensures !r.guid.PyInt? && !r.md5.PyInt? && !r.fileName.PyInt?
    ensures forall k :: 0 <= k < |r.authz| ==> r.authz[k] != [] && ' ' !in r.authz[k]
    ensures forall k :: 0 <= k < |r.acl| ==> r.acl[k] != [] && ' ' !in r.acl[k]
    ensures forall k :: 0 <= k < |r.urls| ==> r.urls[k] != [] && ' ' !in r.urls[k]
  {
    ManifestRecord(GuidOf(row), AuthzOf(row), AclOf(row), FileSizeOf(row),
                   Md5Of(row), UrlsOf(row), FileNameOf(row))
  }

  /** Every column the parsers look at. */
  const ReadColumns: set<string> := {
    "guid", "GUID", "md5", "md5sum", "file_size", "size", "acl", "authz",
    "urls", "url", "file_name", "filename", "name"
  }

  /** A row with none of the recognised columns parses as `None` and empty
      lists throughout. */
  lemma ParseRowOfUnknownColumns(row: Row)
    requires forall c :: c in ReadColumns ==> c !in row
    ensures ParseRow(row) == ManifestRecord(PyNone, [], [], PyNone, PyNone, [], PyNone)
  {
    ParseRowReadsOnlyKnownColumns(row, map[]);
    assert Tokens("") == [] by {
      assert Split(Strip(""), ' ') == [""];
    }
    FirstPresentOfColumns(map[]);
  }

  /** Columns other than the recognised ones never change the parsed record. */
  lemma ParseRowReadsOnlyKnownColumns(row: Row, other: Row)
    requires forall c :: c in ReadColumns ==> (c in row <==> c in other)
    requires forall c :: c in ReadColumns && c in row ==> row[c] == other[c]
    ensures ParseRow(row) == ParseRow(other)
  {
    ScalarFieldsReadOnlyKnownColumns(row, other);
    ListFieldsReadOnlyKnownColumns(row, other);
  }

  lemma ScalarFieldsReadOnlyKnownColumns(row: Row, other: Row)
    requires forall c :: c in ReadColumns ==> (c in row <==> c in other)
    requires forall c :: c in ReadColumns && c in row ==> row[c] == other[c]
    ensures GuidOf(row) == GuidOf(other) && FileSizeOf(row) == FileSizeOf(other)
    ensures Md5Of(row) == Md5Of(other) && FileNameOf(row) == FileNameOf(other)
  {
    assert forall c :: c in Md5Columns + SizeColumns + FileNameColumns + ["guid", "GUID"] ==> c in ReadColumns;
    FirstPresentOfColumns(row);
    FirstPresentOfColumns(other);
  }

  lemma ListFieldsReadOnlyKnownColumns(row: Row, other: Row)
    requires forall c :: c in ReadColumns ==> (c in row <==> c in other)
    requires forall c :: c in ReadColumns && c in row ==> row[c] == other[c]
    ensures AuthzOf(row) == AuthzOf(other) && AclOf(row) == AclOf(other) && UrlsOf(row) == UrlsOf(other)
  {
    assert "authz" in ReadColumns && "acl" in ReadColumns && "urls" in ReadColumns;
  }

  /** The synonyms of one field give the same value for the same cell, in any
      row that lacks the columns read before them. */
  lemma SynonymsAgree(row: Row, v: string)
    ensures "guid" !in row && v != "" ==> GuidOf(row["guid" := v]) == GuidOf(row["GUID" := v])
    ensures "md5" !in row ==> Md5Of(row["md5" := v]) == Md5Of(row["md5sum" := v])
    ensures "file_size" !in row ==>
              (FileSizeOf(row["file_size" := v]).PyInt? <==> FileSizeOf(row["size" := v]).PyInt?)
    ensures "file_size" !in row && FileSizeOf(row["file_size" := v]).PyInt? ==>
              FileSizeOf(row["file_size" := v]) == FileSizeOf(row["size" := v])
    ensures "file_name" !in row && "filename" !in row ==>
              FileNameOf(row["file_name" := v]) == FileNameOf(row["filename" := v])
              == FileNameOf(row["name" := v])
  {
    Md5Synonyms(row, v);
    FileSizeSynonyms(row, v);
    FileNameSynonyms(row, v);
  }

  lemma Md5Synonyms(row: Row, v: string)
    ensures "md5" !in row ==> Md5Of(row["md5" := v]) == Md5Of(row["md5sum" := v])
  {
    FirstPresentOfColumns(row["md5" := v]);
    FirstPresentOfColumns(row["md5sum" := v]);
  }

  lemma FileSizeSynonyms(row: Row, v: string)
    ensures "file_size" !in row ==>
              (FileSizeOf(row["file_size" := v]).PyInt? <==> FileSizeOf(row["size" := v]).PyInt?)
    ensures "file_size" !in row && FileSizeOf(row["file_size" := v]).PyInt? ==>
              FileSizeOf(row["file_size" := v]) == FileSizeOf(row["size" := v])
  {
    FirstPresentOfColumns(row["file_size" := v]);
    FirstPresentOfColumns(row["size" := v]);
  }

  lemma FileNameSynonyms(row: Row, v: string)
    ensures "file_name" !in row && "filename" !in row ==>
              FileNameOf(row["file_name" := v]) == FileNameOf(row["filename" := v])
              == FileNameOf(row["name" := v])
  {
    FirstPresentOfColumns(row["file_name" := v]);
    FirstPresentOfColumns(row["filename" := v]);
    FirstPresentOfColumns(row["name" := v]);
  }

  /** A size written in decimal is read back as that integer, from either column. */
  lemma FileSizeReadsBackDecimal(n: int)
    ensures FileSizeOf(map["file_size" := ShowInt(n)]) == PyInt(n)
    ensures FileSizeOf(map["size" := ShowInt(n)]) == PyInt(n)
  {
    ParseShowInt(n);
    FirstPresentOfColumns(map["size" := ShowInt(n)]);
    FirstPresentOfColumns(map["file_size" := ShowInt(n)]);
  }

  /** A row with a `url` column and no `urls` column yields no urls, as a row
      with neither does. */
  lemma UrlColumnIgnored(row: Row)
    requires "urls" !in row
    ensures UrlsOf(row) == UrlsOf(row - {"url"}) == []
  {
    assert Split(Strip(""), ' ') == [""];
  }

  lemma {:induction false} JoinEnds(ts: seq<string>)
    requires |ts| >= 1 && forall k :: 0 <= k < |ts| ==> ts[k] != []
    ensures var j := Join(ts, ' ');
            |j| >= 1 && j[0] == ts[0][0] && j[|j| - 1] == ts[|ts| - 1][|ts[|ts| - 1]| - 1]
  {
    if |ts| > 1 {
      JoinEnds(ts[1..]);
    }
  }

  lemma {:induction false} DropEmptyKeeps(pieces: seq<string>)
    requires forall k :: 0 <= k < |pieces| ==> pieces[k] != []
    ensures DropEmpty(pieces) == pieces
  {
    if |pieces| > 0 {
      DropEmptyKeeps(pieces[1..]);
    }
  }

  /** Dropping the empty items of two lists one after the other keeps the
      items of the first list in front of those of the second. */
  lemma {:induction false} DropEmptyAppend(a: seq<string>, b: seq<string>)
    ensures DropEmpty(a + b) == DropEmpty(a) + DropEmpty(b)
  {
    if |a| > 0 {
      assert (a + b)[1..] == a[1..] + b;
      DropEmptyAppend(a[1..], b);
    } else {
      assert a + b == b;
    }
  }

  /** A run of spaces inside a list cell only separates tokens: between two
      stripped, non-empty texts, any number of spaces reads as one. */
  lemma TokensSkipRuns(a: string, b: string, k: nat)
    requires a != [] && b != [] && Strip(a) == a && Strip(b) == b && k >= 1
    ensures Tokens(a + Repeat(' ', k) + b) == Tokens(a) + Tokens(b)
  {
    var s := a + Repeat(' ', k) + b;
    assert s[0] == a[0] && s[|s| - 1] == b[|b| - 1];
    StripUnchanged(s);
    RepeatCons(' ', k - 1);
    var rest := Repeat(' ', k - 1) + b;
    assert s == a + [' '] + rest;
    SplitAppend(a, rest, ' ');
    DropEmptyAppend(Split(a, ' '), Split(rest, ' '));
    DropSplitSpaces(k - 1, b);
  }

  /** Spaces in front of a text add only empty pieces to its split. */
  lemma {:induction false} DropSplitSpaces(k: nat, b: string)
    ensures DropEmpty(Split(Repeat(' ', k) + b, ' ')) == DropEmpty(Split(b, ' '))
  {
    if k > 0 {
      RepeatCons(' ', k - 1);
      var rest := Repeat(' ', k - 1) + b;
      assert Repeat(' ', k) + b == [] + [' '] + rest;
      SplitAppend([], rest, ' ');
      assert Split([], ' ') == [[]];
      DropEmptyAppend([[]], Split(rest, ' '));
      DropSplitSpaces(k - 1, b);
    } else {
      assert Repeat(' ', k) + b == b;
    }
  }

  /** The two-space example: `"a  b"` reads as `["a", "b"]`. */
  lemma TokensSkipRepeatedSpaces()
    ensures Tokens("a  b") == ["a", "b"]
  {
    calc {
      Tokens("a  b");
      { TwoSpaces(); }
      Tokens("a" + Repeat(' ', 2) + "b");
      { OneCharToken('a'); OneCharToken('b'); TokensSkipRuns("a", "b", 2); }
      Tokens("a") + Tokens("b");
      { OneCharToken('a'); OneCharToken('b'); }
      ["a", "b"];
    }
  }

  lemma TwoSpaces()
    ensures "a  b" == "a" + Repeat(' ', 2) + "b"
  {
    assert Repeat(' ', 2) == "  ";
  }

  lemma OneCharToken(c: char)
    requires !IsSpace(c)
    ensures Strip([c]) == [c] && Tokens([c]) == [[c]]
  {
    StripUnchanged([c]);
    TokensRoundTrip([[c]]);
  }

  /** A token as `" ".join` can write it and the adapters read it back:
      not empty, and without whitespace. */
  predicate PlainToken(t: string) {
    t != [] && forall i :: 0 <= i < |t| ==> !IsSpace(t[i])
  }

  /** Tokens written out with single spaces, as `" ".join(tokens)`, parse
      back to the same tokens. */
  lemma TokensRoundTrip(ts: seq<string>)
    requires forall k :: 0 <= k < |ts| ==> PlainToken(ts[k])
    ensures Tokens(Join(ts, ' ')) == ts
  {
    if |ts| == 0 {
      assert Split(Strip(""), ' ') == [""];
    } else {
      JoinUnstripped(ts);
      assert forall k :: 0 <= k < |ts| ==> ' ' !in ts[k] by {
        assert IsSpace(' ');
      }
      SplitJoin(ts, ' ');
      DropEmptyKeeps(ts);
    }
  }

  /** Plain tokens joined with spaces have nothing for `strip` to remove. */
  lemma JoinUnstripped(ts: seq<string>)
    requires |ts| >= 1 && forall k :: 0 <= k < |ts| ==> PlainToken(ts[k])
    ensures Strip(Join(ts, ' ')) == Join(ts, ' ')
  {
    JoinEnds(ts);
    assert PlainToken(ts[0]) && PlainToken(ts[|ts| - 1]);
    StripUnchanged(Join(ts, ' '));
  }

  /** The trimmed row: every key and value of `items`, in order, stripped of
      surrounding whitespace; a later key that strips to the same name
      overwrites an earlier one. */
  function Trimmed(items: seq<(string, string)>): map<string, string>
  {
    if |items| == 0 then map[]
    else
      var last := items[|items| - 1];
      Trimmed(items[..|items| - 1])[Strip(last.0) := Strip(last.1)]
  }

  /** The loop that copies a row read from the manifest into `new_row`,
      stripping each key and value. */
  method TrimRow(items: seq<(string, string)>) returns (newRow: Row)
    ensures newRow == Trimmed(items)
  {
    newRow := map[];
    for i := 0 to |items|
      invariant newRow == Trimmed(items[..i])
    {
      var (key, value) := items[i];
      assert items[..i + 1][..i] == items[..i];
      newRow := newRow[Strip(key) := Strip(value)];
    }
    assert items[..|items|] == items;
  }

  /** The stripped keys of `items`. */
  function StrippedKeys(items: seq<(string, string)>): set<string> {
    if |items| == 0 then {} else StrippedKeys(items[..|items| - 1]) + {Strip(items[|items| - 1].0)}
  }

  /** The trimmed row has exactly the stripped keys, one for every item. */
  lemma {:induction false} TrimmedKeys(items: seq<(string, string)>)
    ensures Trimmed(items).Keys == StrippedKeys(items)
    ensures forall i :: 0 <= i < |items| ==> Strip(items[i].0) in Trimmed(items)
  {
    if |items| > 0 {
      var init := items[..|items| - 1];
      TrimmedKeys(init);
      forall i | 0 <= i < |items| - 1 ensures Strip(items[i].0) in Trimmed(items) {
        assert init[i] == items[i];
      }
    }
  }

  /** Each key holds the stripped value of the last item whose key strips to it. */
  lemma {:induction false} TrimmedLastWins(items: seq<(string, string)>, i: nat)
    requires i < |items|
    requires forall j :: i < j < |items| ==> Strip(items[j].0) != Strip(items[i].0)
    ensures Strip(items[i].0) in Trimmed(items)
    ensures Trimmed(items)[Strip(items[i].0)] == Strip(items[i].1)
  {
    if i < |items| - 1 {
      var init := items[..|items| - 1];
      assert init[i] == items[i];
      TrimmedLastWins(init, i);
    }
  }

  /** No key or value of a trimmed row has surrounding whitespace. */
  lemma {:induction false} TrimmedIsClean(items: seq<(string, string)>)
    ensures forall k :: k in Trimmed(items) ==> Strip(k) == k && Strip(Trimmed(items)[k]) == Trimmed(items)[k]
  {
    if |items| > 0 {
      var last := items[|items| - 1];
      TrimmedIsClean(items[..|items| - 1]);
      StripIdempotent(last.0);
      StripIdempotent(last.1);
    }
  }
}
