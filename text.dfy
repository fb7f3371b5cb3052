/**
 * The Python string operations the core relies on, written out: substring
 * containment (`pat in s`), `str.strip()` with no argument, and the
 * `"\n".join(...)` / `str.split("\n")` pair used to store a list of links in
 * one text column.
 */
module Text {

  /** `pat` occurs in `s` starting at position `i`. */
  predicate OccursAt(s: string, pat: string, i: int) {
    0 <= i && i + |pat| <= |s| && s[i..i + |pat|] == pat
  }

  /** Python's `pat in s` on two strings: exact, case-sensitive substring test. */
  predicate Contains(s: string, pat: string) {
    exists i :: 0 <= i <= |s| - |pat| && OccursAt(s, pat, i)
  }

  /** Every character of a contained pattern is a character of the string. */
  lemma ContainsCharOf(s: string, pat: string, j: int)
    requires Contains(s, pat) && 0 <= j < |pat|
    ensures pat[j] in s
  {
  }

  /** The characters Python's `str.isspace` accepts, hence those `str.strip()` removes. */
  predicate IsSpace(c: char) {
    || '\U{0009}' <= c <= '\U{000D}'
    || '\U{001C}' <= c <= '\U{0020}'
    || c == '\U{0085}' || c == '\U{00A0}' || c == '\U{1680}'
    || '\U{2000}' <= c <= '\U{200A}'
    || c == '\U{2028}' || c == '\U{2029}' || c == '\U{202F}' || c == '\U{205F}' || c == '\U{3000}'
  }

  /** `s.lstrip()`: the suffix of `s` that starts at its first non-space character. */
  function StripLeft(s: string): (r: string)
    ensures |r| <= |s| && r == s[|s| - |r|..]
    ensures r != "" ==> !IsSpace(r[0])
    ensures forall k :: 0 <= k < |s| - |r| ==> IsSpace(s[k])
  {
    if s != "" && IsSpace(s[0]) then
      var r := StripLeft(s[1..]);
      assert forall k :: 1 <= k < |s| ==> s[k] == s[1..][k - 1];
      r
    else s
  }

  /** `s.rstrip()`: the prefix of `s` that ends at its last non-space character. */
  function StripRight(s: string): (r: string)
    ensures |r| <= |s| && r == s[..|r|]
    ensures r != "" ==> !IsSpace(r[|r| - 1])
    ensures forall k :: |r| <= k < |s| ==> IsSpace(s[k])
  {
    if s != "" && IsSpace(s[|s| - 1]) then
      var r := StripRight(s[..|s| - 1]);
      assert forall k :: 0 <= k < |s| - 1 ==> s[k] == s[..|s| - 1][k];
      r
    else s
  }

  /** A prefix `r` of a suffix `l` of `s`, cut off by spaces only, is empty exactly when `s`
      is all spaces, provided `l` does not start with a space. */
  lemma BlankIffEmptySlice(s: string, l: string, r: string)
    requires |l| <= |s| && l == s[|s| - |l|..]
    requires |r| <= |l| && r == l[..|r|]
    requires forall k :: 0 <= k < |s| - |l| ==> IsSpace(s[k])
    requires forall k :: |r| <= k < |l| ==> IsSpace(l[k])
    requires l != "" ==> !IsSpace(l[0])
    ensures r == "" <==> forall k :: 0 <= k < |s| ==> IsSpace(s[k])
  {
    if r != "" {
      assert s[|s| - |l|] == l[0];
    }
  }

  /** `s.strip()`: `s` without its leading and trailing whitespace; empty exactly when `s` is
      all whitespace. */
  function Strip(s: string): (r: string)
    ensures |r| <= |s|
    ensures r != "" ==> !IsSpace(r[0]) && !IsSpace(r[|r| - 1])
    ensures r == "" <==> forall k :: 0 <= k < |s| ==> IsSpace(s[k])
  {
    var l := StripLeft(s);
    var r := StripRight(l);
    assert r != "" ==> r[0] == l[0];
    BlankIffEmptySlice(s, l, r);
    r
  }

  /** A prefix `r` of a suffix `l` of `s` is the slice of `s` between the two cut points,
      with only spaces outside it when only spaces were cut. */
  lemma TrimmedSlice(s: string, l: string, r: string)
    requires |l| <= |s| && l == s[|s| - |l|..]
    requires |r| <= |l| && r == l[..|r|]
    requires forall k :: 0 <= k < |s| - |l| ==> IsSpace(s[k])
    requires forall k :: |r| <= k < |l| ==> IsSpace(l[k])
    ensures exists i, j ::
      && 0 <= i <= j <= |s| && r == s[i..j]
      && (forall k :: 0 <= k < i ==> IsSpace(s[k]))
      && (forall k :: j <= k < |s| ==> IsSpace(s[k]))
  {
    var i := |s| - |l|;
    var j := i + |r|;
    assert s[i..][..|r|] == s[i..j];
    forall k | j <= k < |s|
      ensures IsSpace(s[k])
    {
      assert s[k] == l[k - i];
    }
  }

  /** Strip keeps a contiguous run of `s` whose ends are not spaces and drops only spaces around it. */
  lemma StripIsTrimmedSlice(s: string)
    ensures exists i, j ::
      && 0 <= i <= j <= |s| && Strip(s) == s[i..j]
      && (forall k :: 0 <= k < i ==> IsSpace(s[k]))
      && (forall k :: j <= k < |s| ==> IsSpace(s[k]))
    ensures Strip(s) != "" ==> !IsSpace(Strip(s)[0]) && !IsSpace(Strip(s)[|Strip(s)| - 1])
  {
    TrimmedSlice(s, StripLeft(s), Strip(s));
  }

  /** Stripping twice changes nothing more. */
  lemma StripIdempotent(s: string)
    ensures Strip(Strip(s)) == Strip(s)
  {
    var t := Strip(s);
    assert StripLeft(t) == t;
    assert StripRight(t) == t;
  }

  /** `sep.join(parts)` for a one-character separator: the first part, then the separator
      when more parts follow; nothing at all for no parts. */
  function Join(parts: seq<string>, sep: char): (s: string)
    ensures |parts| == 0 ==> s == ""
    ensures |parts| >= 1 ==> |parts[0]| <= |s| && s[..|parts[0]|] == parts[0]
    ensures |parts| >= 2 ==> |parts[0]| < |s| && s[|parts[0]|] == sep
  {
    if |parts| == 0 then ""
    else if |parts| == 1 then parts[0]
    else parts[0] + [sep] + Join(parts[1..], sep)
  }

  /** `s.split(sep)` for a one-character separator: never empty, `""` splits to `[""]`, and no
      piece holds the separator. */
  function Split(s: string, sep: char): (parts: seq<string>)
    ensures |parts| >= 1
    ensures forall k :: 0 <= k < |parts| ==> sep !in parts[k]
  {
    if s == "" then [""]
    else
      var rest := Split(s[1..], sep);
      if s[0] == sep then [""] + rest
      else [[s[0]] + rest[0]] + rest[1..]
  }

  /** A string without the separator is one piece. */
  lemma {:induction false} SplitNoSeparator(s: string, sep: char)
    requires sep !in s
    ensures Split(s, sep) == [s]
  {
    if s != "" {
      SplitNoSeparator(s[1..], sep);
      assert [s[0]] + s[1..] == s;
    }
  }

  /** Splitting `a + sep + b`, where `a` holds no separator, cuts exactly after `a`. */
  lemma {:induction false} SplitAfterPiece(a: string, b: string, sep: char)
    requires sep !in a
    ensures Split(a + [sep] + b, sep) == [a] + Split(b, sep)
  {
    if a == "" {
      assert a + [sep] + b == [sep] + b;
      assert ([sep] + b)[1..] == b;
    } else {
      assert (a + [sep] + b)[1..] == a[1..] + [sep] + b;
      SplitAfterPiece(a[1..], b, sep);
      assert [a[0]] + a[1..] == a;
    }
  }

  /** Splitting a join gives the parts back, when no part holds the separator. */
  lemma {:induction false} SplitJoin(parts: seq<string>, sep: char)
    requires |parts| >= 1
    requires forall k :: 0 <= k < |parts| ==> sep !in parts[k]
    ensures Split(Join(parts, sep), sep) == parts
  {
    if |parts| == 1 {
      SplitNoSeparator(parts[0], sep);
    } else {
      SplitJoin(parts[1..], sep);
      SplitAfterPiece(parts[0], Join(parts[1..], sep), sep);
      assert [parts[0]] + parts[1..] == parts;
    }
  }

  /** Joining a split gives the string back, for every string. */
  lemma {:induction false} JoinSplit(s: string, sep: char)
    ensures Join(Split(s, sep), sep) == s
  {
    if s != "" {
      JoinSplit(s[1..], sep);
      var rest := Split(s[1..], sep);
      if s[0] == sep {
        assert ([""] + rest)[1..] == rest;
        assert [s[0]] + s[1..] == s;
      } else {
        var parts := [[s[0]] + rest[0]] + rest[1..];
        assert parts[1..] == rest[1..];
        if |rest| == 1 {
          assert [s[0]] + s[1..] == s;
        } else {
          assert Join(rest, sep) == rest[0] + [sep] + Join(rest[1..], sep);
          assert [s[0]] + s[1..] == s;
        }
      }
    }
  }

  /** A join whose first part is non-empty is non-empty. */
  lemma JoinNonEmpty(parts: seq<string>, sep: char)
    requires |parts| >= 1 && parts[0] != ""
    ensures Join(parts, sep) != ""
  {
  }
}
