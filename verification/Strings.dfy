/** The few operations of Go's `strings` package that the SDK's parsing relies on. */
module Strings {

  datatype Option<+T> = None | Some(value: T)

  /** `strings.ToLower`, on ASCII letters. */
  function ToLower(s: string): string {
    seq(|s|, i requires 0 <= i < |s| => if 'A' <= s[i] <= 'Z' then (s[i] as int + 32) as char else s[i])
  }

  /** `strings.Split` with a one-character separator: always at least one piece. */
  function Split(s: string, sep: char): (pieces: seq<string>)
    ensures |pieces| >= 1
  {
    if s == "" then [""]
    else if s[0] == sep then [""] + Split(s[1..], sep)
    else Prepend(s[0], Split(s[1..], sep))
  }

  function Prepend(c: char, pieces: seq<string>): (r: seq<string>)
    requires |pieces| >= 1
    ensures |r| == |pieces|
  {
    [[c] + pieces[0]] + pieces[1..]
  }

  lemma PrependConcat(c: char, p: seq<string>, q: seq<string>)
    requires |p| >= 1
    ensures Prepend(c, p + q) == Prepend(c, p) + q
  {
    assert (p + q)[1..] == p[1..] + q;
  }

  lemma {:induction false} SplitAtSeparator(a: string, sep: char, b: string)
    ensures Split(a + [sep] + b, sep) == Split(a, sep) + Split(b, sep)
  {
    var whole := a + [sep] + b;
    if a == "" {
      assert whole[1..] == b;
    } else {
      assert whole[1..] == a[1..] + [sep] + b;
      SplitAtSeparator(a[1..], sep, b);
      PrependConcat(a[0], Split(a[1..], sep), Split(b, sep));
    }
  }

  predicate IsSpace(c: char) {
    c == ' ' || c == '\t' || c == '\n' || c == '\r' || c == 11 as char || c == 12 as char
  }

  /** `strings.TrimSpace`, on ASCII white space. */
  function TrimSpace(s: string): string {
    TrimRight(TrimLeft(s))
  }

  function TrimLeft(s: string): string {
    if s != "" && IsSpace(s[0]) then TrimLeft(s[1..]) else s
  }

  function TrimRight(s: string): string {
    if s != "" && IsSpace(s[|s| - 1]) then TrimRight(s[..|s| - 1]) else s
  }

  /** `strings.ReplaceAll(s, "\r\n", "\n")`. */
  function UnixNewlines(s: string): string {
    if s == "" then ""
    else if |s| >= 2 && s[0] == '\r' && s[1] == '\n' then ['\n'] + UnixNewlines(s[2..])
    else [s[0]] + UnixNewlines(s[1..])
  }

  predicate EndsInNewline(s: string) {
    s != "" && s[|s| - 1] == '\n'
  }

  /** A cut right after a newline never separates a carriage return from its line feed. */
  lemma {:induction false} UnixNewlinesAtCut(a: string, b: string)
    requires EndsInNewline(a)
    ensures UnixNewlines(a + b) == UnixNewlines(a) + UnixNewlines(b)
    ensures EndsInNewline(UnixNewlines(a))
    decreases |a|
  {
    var s := a + b;
    assert s[0] == a[0];
    if |a| == 1 {
      assert s[1..] == b && a[1..] == "";
    } else if a[0] == '\r' && a[1] == '\n' {
      assert s[1] == '\n' && s[2..] == a[2..] + b;
      if |a| > 2 {
        UnixNewlinesAtCut(a[2..], b);
      } else {
        assert a[2..] == "" && s[2..] == b;
      }
    } else {
      assert s[1] == a[1] && s[1..] == a[1..] + b;
      UnixNewlinesAtCut(a[1..], b);
    }
  }

  predicate HasPrefix(s: string, p: string) { p <= s }

  predicate HasSuffix(s: string, p: string) { |p| <= |s| && s[|s| - |p|..] == p }

  predicate Contains(s: string, p: string) {
    exists i :: 0 <= i <= |s| && p <= s[i..]
  }
}
