/** Character classes and searches of the C and C++ libraries, on Dafny strings.
    Searches are given on suffixes ("what is left of the text") rather than on
    indices, so that they distribute over concatenation. */
module Text {

  datatype Option<+T> = None | Some(value: T)

  /** `tolower` in the C locale. */
  function Lower(c: char): char {
    if 'A' <= c <= 'Z' then (c as int + 32) as char else c
  }

  /** The set " \t\r\n" that the source hands to `span` and `cspan`. */
  predicate IsBlank(c: char) {
    c == ' ' || c == '\t' || c == '\r' || c == '\n'
  }

  /** `isspace` in the C locale: the blanks, vertical tab and form feed. */
  predicate IsSpace(c: char) {
    IsBlank(c) || c == '\U{000B}' || c == '\U{000C}'
  }

  predicate AllBlank(s: string) {
    forall i :: 0 <= i < |s| ==> IsBlank(s[i])
  }

  /** Equal in any case: `strncasecmp` on two views of one length. */
  predicate EqualNoCase(a: string, b: string) {
    |a| == |b| && forall i :: 0 <= i < |a| ==> Lower(a[i]) == Lower(b[i])
  }

  /** Whether `needle` occurs in `s` in any case. */
  predicate ContainsNoCase(s: string, needle: string) {
    exists at :: 0 <= at <= |s| - |needle| && EqualNoCase(s[at..][..|needle|], needle)
  }

  /** What is left of `s` past its leading blanks. */
  function DropBlanks(s: string): (r: string)
    ensures |r| <= |s|
    ensures r != "" ==> !IsBlank(r[0])
  {
    if s != "" && IsBlank(s[0]) then DropBlanks(s[1..]) else s
  }

  /** The part of `s` before its first `c`, all of `s` if it has none. */
  function UpTo(s: string, c: char): (r: string)
    ensures |r| <= |s| && c !in r
  {
    if s == "" || s[0] == c then "" else [s[0]] + UpTo(s[1..], c)
  }

  /** The characters that end an unquoted parameter value. */
  predicate EndsValue(c: char) {
    c == ' ' || c == ',' || c == '"' || c == '\r' || c == '\n'
  }

  /** The unquoted parameter value that `s` starts with. */
  function UnquotedValue(s: string): (r: string)
    ensures |r| <= |s|
  {
    if s == "" || EndsValue(s[0]) then "" else [s[0]] + UnquotedValue(s[1..])
  }

  lemma {:induction false} DropBlanksConcat(blanks: string, s: string)
    requires AllBlank(blanks)
    requires s == "" || !IsBlank(s[0])
    ensures DropBlanks(blanks + s) == s
  {
    if blanks == "" {
      assert blanks + s == s;
    } else {
      assert (blanks + s)[1..] == blanks[1..] + s;
      DropBlanksConcat(blanks[1..], s);
    }
  }

  lemma {:induction false} UpToConcat(a: string, c: char, s: string)
    ensures UpTo(a + [c] + s, c) == UpTo(a, c)
  {
    if a == "" || a[0] == c {
      assert (a + [c] + s)[0] == c;
    } else {
      assert (a + [c] + s)[1..] == a[1..] + [c] + s;
      UpToConcat(a[1..], c, s);
    }
  }

  lemma {:induction false} UpToNone(a: string, c: char)
    requires c !in a
    ensures UpTo(a, c) == a
  {
    if a != "" {
      UpToNone(a[1..], c);
    }
  }

  lemma {:induction false} UnquotedValueConcat(a: string, s: string)
    requires forall i :: 0 <= i < |a| ==> !EndsValue(a[i])
    requires s == "" || EndsValue(s[0])
    ensures UnquotedValue(a + s) == a
  {
    if a == "" {
      assert a + s == s;
    } else {
      assert (a + s)[1..] == a[1..] + s;
      UnquotedValueConcat(a[1..], s);
    }
  }
}
