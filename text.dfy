/** Python `str` operations that both core files rely on: whitespace
    stripping, splitting on a separator, ASCII lowering, suffix and substring
    tests, the final component of a path, and decimal integers. */
module Text {

  datatype Option<T> = None | Some(value: T)

  /** The characters for which Python's `str.isspace()` is true. */
  const SpaceChars: set<char> := {
    '\t', '\n', '\U{B}', '\U{C}', '\r', '\U{1C}', '\U{1D}', '\U{1E}', '\U{1F}', ' ',
    '\U{85}', '\U{A0}', '\U{1680}',
    '\U{2000}', '\U{2001}', '\U{2002}', '\U{2003}', '\U{2004}', '\U{2005}',
    '\U{2006}', '\U{2007}', '\U{2008}', '\U{2009}', '\U{200A}',
    '\U{2028}', '\U{2029}', '\U{202F}', '\U{205F}', '\U{3000}'
  }

  predicate IsSpace(c: char) {
    c in SpaceChars
  }

  /** Number of whitespace characters at the front of `s`. */
  function LeadingSpaces(s: string): (n: nat)
    ensures n <= |s|
    ensures forall k :: 0 <= k < n ==> IsSpace(s[k])
    ensures n < |s| ==> !IsSpace(s[n])
  {
    if |s| == 0 || !IsSpace(s[0]) then 0 else 1 + LeadingSpaces(s[1..])
  }

  /** Number of whitespace characters at the back of `s`. */
  function TrailingSpaces(s: string): (n: nat)
    ensures n <= |s|
    ensures forall k :: |s| - n <= k < |s| ==> IsSpace(s[k])
    ensures n < |s| ==> !IsSpace(s[|s| - 1 - n])
  {
    if |s| == 0 || !IsSpace(s[|s| - 1]) then 0 else 1 + TrailingSpaces(s[..|s| - 1])
  }

  /** Python's `s.strip()`: the text between the leading and the trailing
      whitespace. The result is a slice of `s` with only whitespace cut off
      either end, and it neither starts nor ends with whitespace, which
      together fix it. */
  function Strip(s: string): (r: string)
    ensures exists i, j :: 0 <= i <= j <= |s| && r == s[i..j]
                           && (forall k :: 0 <= k < i ==> IsSpace(s[k]))
                           && (forall k :: j <= k < |s| ==> IsSpace(s[k]))
    ensures r == [] || (!IsSpace(r[0]) && !IsSpace(r[|r| - 1]))
    ensures (forall k :: 0 <= k < |s| ==> IsSpace(s[k])) <==> r == []
  {
    var lead := LeadingSpaces(s);
    if lead == |s| then
      assert s[lead..lead] == [];
      []
    else
      var trail := TrailingSpaces(s);
      var r := s[lead..|s| - trail];
      assert !IsSpace(s[lead]) && r[0] == s[lead];
      r
  }

  lemma StripUnchanged(s: string)
    requires s == [] || (!IsSpace(s[0]) && !IsSpace(s[|s| - 1]))
    ensures Strip(s) == s
  {
  }

  /** Stripping twice strips nothing more. */
  lemma StripIdempotent(s: string)
    ensures Strip(Strip(s)) == Strip(s)
  {
    StripUnchanged(Strip(s));
  }

  /** The position of the first `c` in `s`. */
  function IndexOf(s: string, c: char): (i: nat)
    requires c in s
    ensures i < |s| && s[i] == c && c !in s[..i]
  {
    if s[0] == c then 0 else 1 + IndexOf(s[1..], c)
  }

  /** Python's `sep.join(pieces)` for a one-character separator. */
  function Join(pieces: seq<string>, sep: char): string
  {
    if |pieces| == 0 then []
    else if |pieces| == 1 then pieces[0]
    else pieces[0] + [sep] + Join(pieces[1..], sep)
  }

  /** Python's `s.split(sep)` for a one-character separator: the pieces
      between separators, empty pieces included, never an empty list. */
  function Split(s: string, sep: char): (pieces: seq<string>)
    ensures |pieces| >= 1
    ensures forall k :: 0 <= k < |pieces| ==> sep !in pieces[k]
    ensures Join(pieces, sep) == s
    decreases |s|
  {
    if sep !in s then [s]
    else
      var i := IndexOf(s, sep);
      assert s == s[..i] + [sep] + s[i + 1..];
      [s[..i]] + Split(s[i + 1..], sep)
  }

  /** `n` copies of `c`. */
  function Repeat(c: char, n: nat): (r: string)
    ensures |r| == n && forall k :: 0 <= k < n ==> r[k] == c
  {
    seq(n, k => c)
  }

  lemma RepeatCons(c: char, n: nat)
    ensures Repeat(c, n + 1) == [c] + Repeat(c, n)
  {
    assert forall k :: 0 <= k < n + 1 ==> Repeat(c, n + 1)[k] == ([c] + Repeat(c, n))[k];
  }

  /** Splitting at a separator placed between two texts splits each text on
      its own: the pieces of `a` come first, then those of `b`. */
  lemma {:induction false} SplitAppend(a: string, b: string, sep: char)
    ensures Split(a + [sep] + b, sep) == Split(a, sep) + Split(b, sep)
    decreases |a|
  {
    if sep !in a {
      SplitAtFirst(a, b, sep);
    } else {
      var head, rest := SplitWithin(a, b, sep);
      SplitAppend(rest, b, sep);
      ConsAppend(head, Split(rest, sep), Split(b, sep));
    }
  }

  lemma ConsAppend(head: string, xs: seq<string>, ys: seq<string>)
    ensures [head] + (xs + ys) == [head] + xs + ys
  {
  }

  /** The separator after a separator-free `a` is where the split cuts. */
  lemma SplitAtFirst(a: string, b: string, sep: char)
    requires sep !in a
    ensures Split(a + [sep] + b, sep) == [a] + Split(b, sep)
  {
    var s := a + [sep] + b;
    FirstSeparatorAfter(a, b, sep);
    assert s[..|a|] == a;
    assert s[|a| + 1..] == b;
  }

  /** The first separator inside `a` is where the split of `a + [sep] + b`
      cuts, as it is for `a` alone. */
  lemma SplitWithin(a: string, b: string, sep: char) returns (head: string, rest: string)
    requires sep in a
    ensures |rest| < |a|
    ensures Split(a + [sep] + b, sep) == [head] + Split(rest + [sep] + b, sep)
    ensures Split(a, sep) == [head] + Split(rest, sep)
  {
    var s := a + [sep] + b;
    var j := IndexOf(a, sep);
    FirstSeparatorWithin(a, [sep] + b, sep);
    assert s == a + ([sep] + b);
    assert s[..j] == a[..j];
    assert s[j + 1..] == a[j + 1..] + [sep] + b;
    head, rest := a[..j], a[j + 1..];
  }

  lemma FirstSeparatorAfter(a: string, b: string, sep: char)
    requires sep !in a
    ensures sep in a + [sep] + b && IndexOf(a + [sep] + b, sep) == |a|
  {
    var s := a + [sep] + b;
    assert s[|a|] == sep;
    var i := IndexOf(s, sep);
    assert forall k :: 0 <= k < |a| ==> s[k] == a[k] != sep;
    assert forall k :: 0 <= k < i ==> s[..i][k] == s[k] != sep;
  }

  lemma FirstSeparatorWithin(a: string, rest: string, sep: char)
    requires sep in a
    ensures sep in a + rest && IndexOf(a + rest, sep) == IndexOf(a, sep)
  {
    var s := a + rest;
    var j := IndexOf(a, sep);
    assert s[j] == sep;
    var i := IndexOf(s, sep);
    assert forall k :: 0 <= k < j ==> s[k] == a[..j][k] != sep;
    assert forall k :: 0 <= k < i ==> s[..i][k] == s[k] != sep;
  }

  /** Splitting a join of separator-free pieces gives the pieces back. */
  lemma {:induction false} SplitJoin(pieces: seq<string>, sep: char)
    requires |pieces| >= 1
    requires forall k :: 0 <= k < |pieces| ==> sep !in pieces[k]
    ensures Split(Join(pieces, sep), sep) == pieces
  {
    if |pieces| > 1 {
      var s := Join(pieces, sep);
      var tail := Join(pieces[1..], sep);
      assert s == pieces[0] + [sep] + tail;
      assert s[|pieces[0]|] == sep;
      assert sep in s;
      var i := IndexOf(s, sep);
      assert s[..|pieces[0]|] == pieces[0];
      assert i == |pieces[0]|;
      assert s[i + 1..] == tail;
      SplitJoin(pieces[1..], sep);
    }
  }

  /** ASCII lowering of one character; every other character is unchanged. */
  function LowerChar(c: char): char {
    if 'A' <= c <= 'Z' then (c as int + 32) as char else c
  }

  function Lower(s: string): (r: string)
    ensures |r| == |s|
    ensures forall k :: 0 <= k < |s| ==> r[k] == LowerChar(s[k])
  {
    seq(|s|, k requires 0 <= k < |s| => LowerChar(s[k]))
  }

  lemma LowerAppend(a: string, b: string)
    ensures Lower(a + b) == Lower(a) + Lower(b)
  {
  }

  /** Python's `s.endswith(suffix)`. */
  predicate EndsWith(s: string, suffix: string) {
    |suffix| <= |s| && s[|s| - |suffix|..] == suffix
  }

  /** Python's `sub in s` for strings. */
  predicate Contains(s: string, sub: string)
    decreases |s|
  {
    |sub| <= |s| && (s[..|sub|] == sub || Contains(s[1..], sub))
  }

  /** `sub` occurs in `s` starting at position `i`. */
  predicate OccursAt(s: string, sub: string, i: int) {
    0 <= i <= |s| - |sub| && s[i..i + |sub|] == sub
  }

  /** `Contains` holds exactly when `sub` occurs at some position of `s`. */
  lemma {:induction false} ContainsIff(s: string, sub: string)
    ensures Contains(s, sub) <==> exists i :: OccursAt(s, sub, i)
    decreases |s|
  {
    if |sub| <= |s| && s[..|sub|] == sub {
      assert OccursAt(s, sub, 0);
    } else if |sub| <= |s| {
      ContainsIff(s[1..], sub);
      if Contains(s, sub) {
        var i :| OccursAt(s[1..], sub, i);
        assert s[1..][i..i + |sub|] == s[i + 1..i + 1 + |sub|];
        assert OccursAt(s, sub, i + 1);
      }
      if exists i :: OccursAt(s, sub, i) {
        var i :| OccursAt(s, sub, i);
        assert i != 0;
        assert s[1..][i - 1..i - 1 + |sub|] == s[i..i + |sub|];
        assert OccursAt(s[1..], sub, i - 1);
      }
    }
  }

  /** Some text of `subs` occurs in `s`: `any(sub in s for sub in subs)`. */
  predicate ContainsAny(s: string, subs: seq<string>)
    decreases |subs|
  {
    |subs| > 0 && (Contains(s, subs[0]) || ContainsAny(s, subs[1..]))
  }

  /** `ContainsAny` holds exactly when one of `subs` occurs at some position of `s`. */
  lemma {:induction false} ContainsAnyIff(s: string, subs: seq<string>)
    ensures ContainsAny(s, subs) <==> exists m, i :: m in subs && OccursAt(s, m, i)
    decreases |subs|
  {
    if |subs| > 0 {
      ContainsIff(s, subs[0]);
      ContainsAnyIff(s, subs[1..]);
      if ContainsAny(s, subs[1..]) {
        var m, i :| m in subs[1..] && OccursAt(s, m, i);
        assert m in subs;
      }
      if exists m, i :: m in subs && OccursAt(s, m, i) {
        var m, i :| m in subs && OccursAt(s, m, i);
        if m != subs[0] {
          assert m in subs[1..];
        }
      }
    }
  }

  /** `EndsWith` holds exactly when `s` is some text followed by `suffix`. */
  lemma EndsWithIff(s: string, suffix: string)
    ensures EndsWith(s, suffix) <==> exists p :: s == p + suffix
  {
    if EndsWith(s, suffix) {
      assert s == s[..|s| - |suffix|] + suffix;
    }
    if exists p :: s == p + suffix {
      var p :| s == p + suffix;
      assert s[|p|..] == suffix;
    }
  }

  /** The last component of a `/`-separated path: `os.path.basename`. */
  function Basename(path: string): (r: string)
    ensures '/' !in r
    ensures EndsWith(path, r)
    ensures |r| < |path| ==> path[|path| - |r| - 1] == '/'
  {
    if |path| == 0 then []
    else if path[|path| - 1] == '/' then []
    else Basename(path[..|path| - 1]) + [path[|path| - 1]]
  }

  predicate IsDigit(c: char) {
    '0' <= c <= '9'
  }

  function DigitValue(c: char): (d: nat)
    requires IsDigit(c)
    ensures d < 10
  {
    c as int - '0' as int
  }

  function DigitChar(d: nat): (c: char)
    requires d < 10
    ensures IsDigit(c) && DigitValue(c) == d
  {
    ('0' as int + d) as char
  }

  predicate AllDigits(s: string) {
    forall k :: 0 <= k < |s| ==> IsDigit(s[k])
  }

  /** The value of a string of decimal digits, most significant first. */
  function DigitsValue(s: string): (n: nat)
    requires AllDigits(s)
  {
    if |s| == 0 then 0 else 10 * DigitsValue(s[..|s| - 1]) + DigitValue(s[|s| - 1])
  }

  /** The decimal digits of `n`, without leading zeros. */
  function ShowNat(n: nat): (s: string)
    ensures |s| >= 1 && AllDigits(s)
    ensures DigitsValue(s) == n
  {
    if n < 10 then [DigitChar(n)]
    else
      var s := ShowNat(n / 10) + [DigitChar(n % 10)];
      assert s[..|s| - 1] == ShowNat(n / 10);
      s
  }

  /** Decimal rendering of an integer, as Python's `str(n)`. */
  function ShowInt(n: int): (s: string)
    ensures |s| >= 1
  {
    if n < 0 then "-" + ShowNat(-n) else ShowNat(n)
  }

  /** Python's `int(s)` on an already stripped string: an optional sign and
      one or more ASCII digits; anything else is a conversion failure. */
  function ParseInt(s: string): (r: Option<int>)
    ensures r.Some? <==> (|s| >= 1 && ((s[0] == '-' || s[0] == '+') ==> |s| >= 2)
                          && AllDigits(if s[0] == '-' || s[0] == '+' then s[1..] else s))
  {
    if |s| == 0 then None
    else if s[0] == '-' || s[0] == '+' then
      if |s| >= 2 && AllDigits(s[1..]) then
        var v: int := DigitsValue(s[1..]);
        Some(if s[0] == '-' then -v else v)
      else None
    else if AllDigits(s) then Some(DigitsValue(s))
    else None
  }

  /** Reading back the rendering of an integer gives the integer. */
  lemma ParseShowInt(n: int)
    ensures ParseInt(ShowInt(n)) == Some(n)
  {
    if n < 0 {
      assert ShowInt(n)[1..] == ShowNat(-n);
    }
  }
}
