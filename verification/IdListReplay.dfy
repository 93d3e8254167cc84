/** ID-list files: lines that add an id or take one away, replayed in order. */
module IdListReplay {
  import opened Strings

  datatype Op = Add(id: string) | Remove(id: string)

  /** A trimmed line of at most one character, or one that starts with neither sign, does nothing. */
  function LineOps(line: string): seq<Op> {
    var l := TrimSpace(line);
    if |l| <= 1 then []
    else if l[0] == '+' then [Add(l[1..])]
    else if l[0] == '-' then [Remove(l[1..])]
    else []
  }

  function LinesOps(lines: seq<string>): seq<Op> {
    if lines == [] then [] else LineOps(lines[0]) + LinesOps(lines[1..])
  }

  function Lines(content: string): seq<string> {
    Split(UnixNewlines(content), '\n')
  }

  function Ops(content: string): seq<Op> {
    LinesOps(Lines(content))
  }

  function ApplyOne(ids: set<string>, op: Op): set<string> {
    match op
    case Add(id) => ids + {id}
    case Remove(id) => ids - {id}
  }

  function Apply(ids: set<string>, ops: seq<Op>): set<string>
    decreases |ops|
  {
    if ops == [] then ids else Apply(ApplyOne(ids, ops[0]), ops[1..])
  }

  function Replay(ids: set<string>, content: string): set<string> {
    Apply(ids, Ops(content))
  }

  lemma {:induction false} LinesOpsConcat(a: seq<string>, b: seq<string>)
    ensures LinesOps(a + b) == LinesOps(a) + LinesOps(b)
  {
    if a == [] {
      assert a + b == b;
    } else {
      assert (a + b)[1..] == a[1..] + b;
      LinesOpsConcat(a[1..], b);
    }
  }

  lemma {:induction false} ApplyConcat(ids: set<string>, a: seq<Op>, b: seq<Op>)
    ensures Apply(ids, a + b) == Apply(Apply(ids, a), b)
    decreases |a|
  {
    if a == [] {
      assert a + b == b;
    } else {
      assert (a + b)[1..] == a[1..] + b;
      ApplyConcat(ApplyOne(ids, a[0]), a[1..], b);
    }
  }

  lemma NothingInNoText()
    ensures LinesOps([""]) == [] && Ops("") == []
  {
    assert TrimSpace("") == "";
    assert LinesOps([""]) == LineOps("") + LinesOps([""][1..]);
  }

  lemma LinesAtCut(u: string, v: string)
    requires EndsInNewline(u)
    ensures LinesOps(Split(u + v, '\n')) == LinesOps(Split(u, '\n')) + LinesOps(Split(v, '\n'))
  {
    var cut := u[..|u| - 1];
    var head := Split(cut, '\n');
    assert Split(u + v, '\n') == head + Split(v, '\n') by {
      assert u + v == cut + ['\n'] + v;
      SplitAtSeparator(cut, '\n', v);
    }
    assert Split(u, '\n') == head + [""] by {
      assert u == cut + ['\n'] + "";
      SplitAtSeparator(cut, '\n', "");
    }
    LinesOpsConcat(head, Split(v, '\n'));
    LinesOpsConcat(head, [""]);
    NothingInNoText();
  }

  /** Cutting a file after a newline cuts its operations in two. */
  lemma OpsAtCut(a: string, b: string)
    requires a == "" || EndsInNewline(a)
    ensures Ops(a + b) == Ops(a) + Ops(b)
  {
    if a == "" {
      assert a + b == b;
      NothingInNoText();
    } else {
      UnixNewlinesAtCut(a, b);
      LinesAtCut(UnixNewlines(a), UnixNewlines(b));
    }
  }

  /** Replaying a file in two pieces is replaying it whole, when the first piece ends a line. */
  lemma IncrementalReplay(ids: set<string>, a: string, b: string)
    requires a == "" || EndsInNewline(a)
    ensures Replay(ids, a + b) == Replay(Replay(ids, a), b)
  {
    OpsAtCut(a, b);
    ApplyConcat(ids, Ops(a), Ops(b));
  }

  /** Operation `k` is the last one about this id. */
  predicate LastAbout(ops: seq<Op>, k: nat, id: string) {
    k < |ops| && ops[k].id == id && forall j :: k < j < |ops| ==> ops[j].id != id
  }

  predicate Mentions(ops: seq<Op>, id: string) {
    exists op <- ops :: op.id == id
  }

  /** An id is in afterwards exactly when its last operation adds it, or it has none and was in before. */
  lemma {:induction false} LastOpWins(ids: set<string>, ops: seq<Op>, id: string)
    ensures id in Apply(ids, ops) <==>
            if Mentions(ops, id) then exists k: nat :: LastAbout(ops, k, id) && ops[k].Add? else id in ids
    ensures Mentions(ops, id) ==> exists k: nat :: LastAbout(ops, k, id)
    decreases |ops|
  {
    if ops != [] {
      var rest := ops[1..];
      LastOpWins(ApplyOne(ids, ops[0]), rest, id);
      assert Mentions(ops, id) <==> ops[0].id == id || Mentions(rest, id);
      forall k: nat | LastAbout(rest, k, id) ensures LastAbout(ops, k + 1, id) {
        forall j | k + 1 < j < |ops| ensures ops[j].id != id { assert ops[j] == rest[j - 1]; }
      }
      if Mentions(rest, id) {
        var op :| op in rest && op.id == id;
        var j :| 0 <= j < |rest| && rest[j] == op;
        assert ops[j + 1].id == id;
        forall k: nat | LastAbout(ops, k, id) ensures k > 0 && LastAbout(rest, k - 1, id) {}
      } else if ops[0].id == id {
        assert LastAbout(ops, 0, id) by {
          forall j | 0 < j < |ops| ensures ops[j].id != id { assert ops[j] == rest[j - 1] && rest[j - 1] in rest; }
        }
      }
    }
  }

  /** Replaying `first` before a whole file does no harm, whatever ids there were, exactly when the file has its own
      say on every id that `first` mentions. */
  lemma HarmlessBefore(first: string, whole: string)
    ensures (forall ids :: Replay(Replay(ids, first), whole) == Replay(ids, whole)) <==>
            (forall id :: Mentions(Ops(first), id) ==> Mentions(Ops(whole), id))
  {
    if forall id :: Mentions(Ops(first), id) ==> Mentions(Ops(whole), id) {
      forall ids ensures Replay(Replay(ids, first), whole) == Replay(ids, whole) {
        Overwritten(ids, Ops(first), Ops(whole));
      }
    } else {
      var id :| Mentions(Ops(first), id) && !Mentions(Ops(whole), id);
      var ids := if id in Replay({}, first) then {} else {id};
      LastOpWins({}, Ops(first), id);
      LastOpWins({id}, Ops(first), id);
      LastOpWins(Replay(ids, first), Ops(whole), id);
      LastOpWins(ids, Ops(whole), id);
      assert (id in Replay(Replay(ids, first), whole)) != (id in Replay(ids, whole));
    }
  }

  lemma Overwritten(ids: set<string>, first: seq<Op>, whole: seq<Op>)
    requires forall id :: Mentions(first, id) ==> Mentions(whole, id)
    ensures Apply(Apply(ids, first), whole) == Apply(ids, whole)
  {
    forall id ensures id in Apply(Apply(ids, first), whole) <==> id in Apply(ids, whole) {
      LastOpWins(ids, first, id);
      LastOpWins(Apply(ids, first), whole, id);
      LastOpWins(ids, whole, id);
    }
  }

  /** So a whole file may be replayed over any of its line-ended beginnings. */
  lemma ReplayOverPrefix(ids: set<string>, a: string, b: string)
    requires a == "" || EndsInNewline(a)
    ensures Replay(Replay(ids, a), a + b) == Replay(ids, a + b)
  {
    OpsAtCut(a, b);
    forall id | Mentions(Ops(a), id) ensures Mentions(Ops(a + b), id) {
      var op :| op in Ops(a) && op.id == id;
      assert op in Ops(a + b);
    }
    HarmlessBefore(a, a + b);
  }

  predicate Plain(s: string) { forall c <- s :: !IsSpace(c) }

  lemma {:induction false} PlainLine(s: string)
    requires Plain(s)
    ensures UnixNewlines(s) == s && Split(s, '\n') == [s]
  {
    if s != "" {
      assert s[0] in s && forall c <- s[1..] :: c in s;
      PlainLine(s[1..]);
      assert s == [s[0]] + s[1..];
      assert Split(s, '\n') == Prepend(s[0], [s[1..]]);
    }
  }

  lemma OpsOfPlainLine(s: string)
    requires s != "" && Plain(s)
    ensures Ops(s) == LineOps(s) && TrimSpace(s) == s
  {
    PlainLine(s);
    assert s[0] in s && s[|s| - 1] in s;
    assert LinesOps([s]) == LineOps(s) + LinesOps([s][1..]);
  }

  lemma {:induction false} EndedPlainLine(s: string)
    requires Plain(s)
    ensures UnixNewlines(s + "\n") == s + "\n"
  {
    var t := s + "\n";
    if s != "" {
      assert s[0] in s && forall c <- s[1..] :: c in s;
      EndedPlainLine(s[1..]);
      assert t[0] == s[0] && t[1..] == s[1..] + "\n";
      assert t == [s[0]] + t[1..];
    }
  }

  /** A line without white space and the newline that ends it. */
  lemma OpsOfEndedLine(s: string)
    requires s != "" && Plain(s)
    ensures Ops(s + "\n") == LineOps(s)
  {
    EndedPlainLine(s);
    PlainLine(s);
    OpsOfPlainLine(s);
    SplitAtSeparator(s, '\n', "");
    assert s + ['\n'] + "" == s + "\n";
    LinesOpsConcat([s], [""]);
    NothingInNoText();
  }

  // ----- What a file says, line by line. -----

  predicate AllSpace(s: string) { forall c <- s :: IsSpace(c) }

  lemma {:induction false} TrimLeftPads(pad: string, s: string)
    requires AllSpace(pad) && (s == "" || !IsSpace(s[0]))
    ensures TrimLeft(pad + s) == s
  {
    if pad == "" {
      assert pad + s == s;
    } else {
      assert pad[0] in pad && forall c <- pad[1..] :: c in pad;
      assert (pad + s)[1..] == pad[1..] + s;
      TrimLeftPads(pad[1..], s);
    }
  }

  lemma {:induction false} TrimRightPads(s: string, pad: string)
    requires AllSpace(pad) && (s == "" || !IsSpace(s[|s| - 1]))
    ensures TrimRight(s + pad) == s
  {
    if pad == "" {
      assert s + pad == s;
    } else {
      var k := |pad| - 1;
      assert pad[k] in pad && forall c <- pad[..k] :: c in pad;
      assert (s + pad)[..|s + pad| - 1] == s + pad[..k];
      TrimRightPads(s, pad[..k]);
    }
  }

  /** White space around a line does not count. What is left adds or removes the id after its sign, if it has both. */
  lemma LineSays(before: string, line: string, after: string)
    requires AllSpace(before) && AllSpace(after)
    requires line != "" ==> !IsSpace(line[0]) && !IsSpace(line[|line| - 1])
    ensures LineOps(before + line + after) ==
            if |line| >= 2 && line[0] == '+' then [Add(line[1..])]
            else if |line| >= 2 && line[0] == '-' then [Remove(line[1..])]
            else []
  {
    if line == "" {
      var all := before + after;
      assert before + line + after == all && AllSpace(all);
      TrimLeftPads(all, "");
      assert all + "" == all;
    } else {
      var rest := line + after;
      assert before + line + after == before + rest && rest[0] == line[0];
      TrimLeftPads(before, rest);
      TrimRightPads(line, after);
    }
  }

  predicate LineEnd(end: string) { end == "\n" || end == "\r\n" }

  /** The lines, each with its end. */
  function Text(lines: seq<string>, end: string): string {
    if lines == [] then "" else Text(lines[..|lines| - 1], end) + (lines[|lines| - 1] + end)
  }

  predicate OneLine(s: string) { forall c <- s :: c != '\n' && c != '\r' }

  lemma {:induction false} EndedLine(s: string, end: string)
    requires OneLine(s) && LineEnd(end)
    ensures UnixNewlines(s + end) == s + "\n" && Split(s + "\n", '\n') == [s, ""]
  {
    if s == "" {
      assert s + end == end && s + "\n" == "\n";
      assert "\n"[1..] == "" && "\r\n"[2..] == "";
    } else {
      assert s[0] in s && forall c <- s[1..] :: c in s;
      EndedLine(s[1..], end);
      assert (s + end)[1..] == s[1..] + end && (s + end)[0] == s[0];
      assert s + "\n" == [s[0]] + (s[1..] + "\n") && (s + "\n")[1..] == s[1..] + "\n";
      assert Prepend(s[0], [s[1..], ""]) == [[s[0]] + s[1..], ""] && [s[0]] + s[1..] == s;
    }
  }

  lemma OpsOfLine(s: string, end: string)
    requires OneLine(s) && LineEnd(end)
    ensures Ops(s + end) == LineOps(s) && EndsInNewline(s + end)
  {
    EndedLine(s, end);
    assert Ops(s + end) == LinesOps([s, ""]);
    assert [s] + [""] == [s, ""];
    LinesOpsConcat([s], [""]);
    NothingInNoText();
    LinesOfOne(s);
  }

  lemma OneMoreLine(text: string, line: string, end: string)
    requires (text == "" || EndsInNewline(text)) && OneLine(line) && LineEnd(end)
    ensures Ops(text + (line + end)) == Ops(text) + LineOps(line) && EndsInNewline(text + (line + end))
  {
    OpsOfLine(line, end);
    OpsAtCut(text, line + end);
  }

  lemma LinesOfOne(line: string)
    ensures LinesOps([line]) == LineOps(line)
  {
    assert [line][1..] == [];
  }

  lemma LinesOneMore(lines: seq<string>, line: string)
    ensures LinesOps(lines + [line]) == LinesOps(lines) + LineOps(line)
  {
    LinesOpsConcat(lines, [line]);
    LinesOfOne(line);
  }

  /** A file says what its lines say, in their order, whether they end in a newline or also a carriage return. */
  lemma {:induction false} FileSays(lines: seq<string>, end: string)
    requires (forall line <- lines :: OneLine(line)) && LineEnd(end)
    ensures Ops(Text(lines, end)) == LinesOps(lines)
    ensures lines == [] || EndsInNewline(Text(lines, end))
  {
    if lines == [] {
      NothingInNoText();
    } else {
      var init := lines[..|lines| - 1];
      FileSays(init, end);
      OneMoreLine(Text(init, end), lines[|lines| - 1], end);
      LinesOneMore(init, lines[|lines| - 1]);
      assert lines == init + [lines[|lines| - 1]];
    }
  }

  /** A beginning cut inside a line can do harm: it adds an id that the file never mentions. */
  lemma CutInsideALine()
    ensures "+a" <= "+ab" && exists ids :: Replay(Replay(ids, "+a"), "+ab") != Replay(ids, "+ab")
  {
    OpsOfPlainLine("+a");
    OpsOfPlainLine("+ab");
    assert "+a"[1..] == "a" && "+ab"[1..] == "ab";
    assert Add("a") in Ops("+a") && Mentions(Ops("+a"), "a");
    assert !Mentions(Ops("+ab"), "a") by { assert "a" != "ab"; }
    HarmlessBefore("+a", "+ab");
  }
}
