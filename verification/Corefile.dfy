/**
 The managed section of the CoreDNS Corefile: the block between two marker lines that forwards a
 zone to the loom DNS server.
 */
module Corefile {
  import opened Basics
  import Decimal

  // ---------------------------------------------------------------------------------------
  // Lines
  // ---------------------------------------------------------------------------------------

  /** The lines of a text, each with its newline; what follows the last newline is the last one. */
  function Lines(s: string): (r: seq<string>)
    ensures r != []
  {
    if s == "" then [""]
    else if s[0] == '\n' then ["\n"] + Lines(s[1..])
    else
      var rest := Lines(s[1..]);
      [[s[0]] + rest[0]] + rest[1..]
  }

  function Join(lines: seq<string>): string {
    if lines == [] then "" else lines[0] + Join(lines[1..])
  }

  predicate NoNewline(s: string) { '\n' !in s }

  /** One line with its newline. */
  predicate IsLine(s: string) { s != "" && s[|s| - 1] == '\n' && NoNewline(s[..|s| - 1]) }

  ghost predicate AllLines(lines: seq<string>) { forall i :: 0 <= i < |lines| ==> IsLine(lines[i]) }

  /** What Lines produces. */
  ghost predicate WellSplit(lines: seq<string>) {
    lines != [] && if |lines| == 1 then NoNewline(lines[0]) else IsLine(lines[0]) && WellSplit(lines[1..])
  }

  lemma IsLineCons(c: char, l: string)
    requires c != '\n'
    ensures IsLine([c] + l) <==> IsLine(l)
    ensures NoNewline([c] + l) <==> NoNewline(l)
  {
    if l != "" { assert ([c] + l)[..|l|] == [c] + l[..|l| - 1]; }
  }

  lemma ReplaceHead(rest: seq<string>, head: string)
    requires WellSplit(rest) && if |rest| == 1 then NoNewline(head) else IsLine(head)
    ensures WellSplit([head] + rest[1..]) && Join([head] + rest[1..]) == head + Join(rest[1..])
  {
    assert ([head] + rest[1..])[1..] == rest[1..];
  }

  lemma ConsChar(c: char, rest: seq<string>)
    requires WellSplit(rest) && c != '\n'
    ensures var lines := [[c] + rest[0]] + rest[1..];
            WellSplit(lines) && Join(lines) == [c] + Join(rest)
  {
    var head := [c] + rest[0];
    IsLineCons(c, rest[0]);
    ReplaceHead(rest, head);
    Assoc([c], rest[0], Join(rest[1..]));
  }

  lemma Assoc(a: string, b: string, c: string)
    ensures (a + b) + c == a + (b + c)
  {
  }

  lemma ConsNewline(rest: seq<string>)
    requires WellSplit(rest)
    ensures WellSplit(["\n"] + rest) && Join(["\n"] + rest) == "\n" + Join(rest)
  {
    assert (["\n"] + rest)[1..] == rest;
  }

  lemma {:induction false} LinesSplit(s: string)
    ensures WellSplit(Lines(s)) && Join(Lines(s)) == s
  {
    if s != "" {
      LinesSplit(s[1..]);
      if s[0] == '\n' { ConsNewline(Lines(s[1..])); } else { ConsChar(s[0], Lines(s[1..])); }
      assert s == [s[0]] + s[1..];
    }
  }

  lemma {:induction false} LinesOfLast(s: string)
    requires NoNewline(s)
    ensures Lines(s) == [s]
  {
    if s != "" {
      LinesOfLast(s[1..]);
      assert s[0] in s && s == [s[0]] + s[1..];
    }
  }

  lemma {:induction false} LinesOfLine(l: string, s: string)
    requires IsLine(l)
    ensures Lines(l + s) == [l] + Lines(s)
  {
    if |l| == 1 {
      assert l == "\n" && (l + s)[1..] == s;
    } else {
      assert l[0] == l[..|l| - 1][0] && l == [l[0]] + l[1..];
      IsLineCons(l[0], l[1..]);
      LinesOfLine(l[1..], s);
      assert (l + s)[1..] == l[1..] + s;
    }
  }

  /** A text has only one division into lines. */
  lemma {:induction false} LinesOfJoin(lines: seq<string>)
    requires WellSplit(lines)
    ensures Lines(Join(lines)) == lines
  {
    if |lines| == 1 {
      assert Join(lines) == lines[0] + Join(lines[1..]) == lines[0];
      LinesOfLast(lines[0]);
    } else {
      LinesOfJoin(lines[1..]);
      LinesOfLine(lines[0], Join(lines[1..]));
    }
  }

  lemma {:induction false} WellSplitAppend(a: seq<string>, b: seq<string>)
    requires AllLines(a) && WellSplit(b)
    ensures WellSplit(a + b)
  {
    if a == [] {
      assert a + b == b;
    } else {
      assert (a + b)[1..] == a[1..] + b;
      WellSplitAppend(a[1..], b);
    }
  }

  lemma {:induction false} WellSplitParts(lines: seq<string>, i: nat)
    requires WellSplit(lines) && i < |lines|
    ensures AllLines(lines[..i]) && WellSplit(lines[i..])
  {
    if i > 0 {
      WellSplitParts(lines[1..], i - 1);
      assert lines[..i] == [lines[0]] + lines[1..][..i - 1] && lines[i..] == lines[1..][i - 1..];
    }
  }

  lemma {:induction false} JoinAppend(a: seq<string>, b: seq<string>)
    ensures Join(a + b) == Join(a) + Join(b)
  {
    if a == [] {
      assert a + b == b;
    } else {
      assert (a + b)[1..] == a[1..] + b;
      JoinAppend(a[1..], b);
    }
  }

  // ---------------------------------------------------------------------------------------
  // Markers
  // ---------------------------------------------------------------------------------------

  const BEGIN := "# BEGIN loom-dns"
  const END := "# END loom-dns"

  /** White space, as strings.TrimSpace understands it. */
  predicate IsSpace(c: char) {
    || '\t' <= c <= '\r' || c == ' ' || c == '\U{85}' || c == '\U{A0}' || c == '\U{1680}' || '\U{2000}' <= c <= '\U{200A}'
    || c == '\U{2028}' || c == '\U{2029}' || c == '\U{202F}' || c == '\U{205F}' || c == '\U{3000}'
  }

  /** Of the ASCII characters these are six. */
  lemma AsciiSpaces(c: char)
    requires c < '\U{80}'
    ensures IsSpace(c) <==> c == ' ' || c == '\t' || c == '\n' || c == '\U{0B}' || c == '\U{0C}' || c == '\r'
  {
  }

  function TrimLeft(s: string): string { if s != "" && IsSpace(s[0]) then TrimLeft(s[1..]) else s }

  function TrimRight(s: string): string { if s != "" && IsSpace(s[|s| - 1]) then TrimRight(s[..|s| - 1]) else s }

  function TrimSpace(s: string): string { TrimRight(TrimLeft(s)) }

  predicate IsBegin(line: string) { BEGIN <= TrimSpace(line) }

  predicate IsEnd(line: string) { END <= TrimSpace(line) }

  predicate IsMarker(line: string) { IsBegin(line) || IsEnd(line) }

  lemma MarkersDiffer(line: string)
    ensures !(IsBegin(line) && IsEnd(line))
  {
    assert BEGIN[2] != END[2];
  }

  lemma {:induction false} TrimLeftNewline(s: string)
    ensures TrimLeft(s + "\n") == if TrimLeft(s) == "" then "" else TrimLeft(s) + "\n"
  {
    if s == "" {
      assert TrimLeft("\n") == TrimLeft("\n"[1..]);
    } else {
      assert (s + "\n")[1..] == s[1..] + "\n";
      if IsSpace(s[0]) { TrimLeftNewline(s[1..]); }
    }
  }

  /** A newline at the end makes no difference to a marker. */
  lemma TrimSpaceNewline(s: string)
    ensures TrimSpace(s + "\n") == TrimSpace(s)
  {
    TrimLeftNewline(s);
    var t := TrimLeft(s);
    assert (t + "\n")[..|t|] == t;
  }

  /** Trimming keeps a prefix that begins and ends with other characters. */
  lemma {:induction false} TrimRightKeeps(m: string, s: string)
    requires m != "" && !IsSpace(m[|m| - 1]) && m <= s
    ensures m <= TrimRight(s)
    decreases |s|
  {
    if IsSpace(s[|s| - 1]) { TrimRightKeeps(m, s[..|s| - 1]); }
  }

  /** A line whose first character other than white space is not `#` is no marker. */
  lemma NotMarker(s: string)
    requires TrimLeft(s) == "" || TrimLeft(s)[0] != '#'
    ensures !IsMarker(s)
  {
    TrimRightPrefix(TrimLeft(s));
  }

  lemma {:induction false} TrimRightPrefix(s: string)
    ensures TrimRight(s) <= s
    decreases |s|
  {
    if s != "" && IsSpace(s[|s| - 1]) { TrimRightPrefix(s[..|s| - 1]); }
  }

  predicate AllSpace(s: string) { forall i :: 0 <= i < |s| ==> IsSpace(s[i]) }

  lemma {:induction false} TrimLeftSplits(s: string)
    ensures var n := |s| - |TrimLeft(s)|;
            0 <= n <= |s| && AllSpace(s[..n]) && TrimLeft(s) == s[n..] && (n < |s| ==> !IsSpace(s[n]))
  {
    if s != "" && IsSpace(s[0]) {
      TrimLeftSplits(s[1..]);
      var n := |s| - |TrimLeft(s)|;
      assert s[n..] == s[1..][n - 1..];
      forall i | 0 <= i < n ensures IsSpace(s[i]) { if i > 0 { assert s[i] == s[1..][..n - 1][i - 1]; } }
    }
  }

  lemma {:induction false} TrimLeftOf(ws: string, t: string)
    requires AllSpace(ws) && t != "" && !IsSpace(t[0])
    ensures TrimLeft(ws + t) == t
  {
    if ws == "" {
      assert ws + t == t;
    } else {
      assert (ws + t)[1..] == ws[1..] + t;
      TrimLeftOf(ws[1..], t);
    }
  }

  /** A line is a marker exactly if, after white space, it starts with the text of the marker. */
  lemma MarkerIff(line: string, m: string)
    requires m == "# BEGIN loom-dns" || m == "# END loom-dns"
    ensures m <= TrimSpace(line) <==> exists n :: 0 <= n <= |line| && AllSpace(line[..n]) && m <= line[n..]
    ensures IsBegin(line) <==> "# BEGIN loom-dns" <= TrimSpace(line)
    ensures IsEnd(line) <==> "# END loom-dns" <= TrimSpace(line)
  {
    if m <= TrimSpace(line) {
      TrimLeftSplits(line);
      TrimRightPrefix(TrimLeft(line));
      var n := |line| - |TrimLeft(line)|;
      assert m <= line[n..];
    }
    if n :| 0 <= n <= |line| && AllSpace(line[..n]) && m <= line[n..] {
      assert line == line[..n] + line[n..];
      assert line[n..][0] == m[0];
      TrimLeftOf(line[..n], line[n..]);
      TrimRightKeeps(m, line[n..]);
    }
  }

  // ---------------------------------------------------------------------------------------
  // Removing the section
  // ---------------------------------------------------------------------------------------

  ghost predicate Plain(lines: seq<string>) { forall k :: 0 <= k < |lines| ==> !IsMarker(lines[k]) }

  /** The only markers are a begin marker at `i` and an end marker after it at `j`. */
  ghost predicate Section(lines: seq<string>, i: int, j: int) {
    && 0 <= i < j < |lines| && IsBegin(lines[i]) && IsEnd(lines[j])
    && forall k :: 0 <= k < |lines| && k != i && k != j ==> !IsMarker(lines[k])
  }

  /** The lines outside the section; none if the markers are not well placed. */
  ghost function Outside(lines: seq<string>): Option<seq<string>> {
    if Plain(lines) then Some(lines)
    else if exists i, j :: Section(lines, i, j) then
      var i, j :| Section(lines, i, j);
      Some(lines[..i] + lines[j + 1..])
    else None
  }

  lemma OutsideSection(lines: seq<string>, i: int, j: int)
    requires Section(lines, i, j)
    ensures Outside(lines) == Some(lines[..i] + lines[j + 1..])
  {
    forall i', j' | Section(lines, i', j') ensures i' == i && j' == j {
      MarkersDiffer(lines[i]);
      MarkersDiffer(lines[j]);
    }
  }

  method RemoveSection(corefile: string) returns (r: Option<string>)
    ensures r.Some? <==> Outside(Lines(corefile)).Some?
    ensures r.Some? ==> r.value == Join(Outside(Lines(corefile)).value)
  {
    var lines := Lines(corefile);
    var begin, end := -1, -1;
    for i := 0 to |lines|
      invariant begin == -1 ==> end == -1
      invariant begin != -1 ==> 0 <= begin < i && IsBegin(lines[begin])
      invariant end != -1 ==> begin < end < i && IsEnd(lines[end])
      invariant forall k :: 0 <= k < i && k != begin && k != end ==> !IsMarker(lines[k])
    {
      MarkersDiffer(lines[i]);
      var trimmed := TrimSpace(lines[i]);
      if BEGIN <= trimmed {
        if begin != -1 {
          NotWellPlaced(lines, begin, i);
          return None;
        }
        begin := i;
      } else if END <= trimmed {
        if begin == -1 || end != -1 {
          NotWellPlaced(lines, end, i);
          return None;
        }
        end := i;
      }
    }
    if begin == -1 {
      LinesSplit(corefile);
      return Some(corefile);
    }
    if end == -1 {
      NotWellPlaced(lines, begin, begin);
      return None;
    }
    OutsideSection(lines, begin, end);
    JoinAppend(lines[..begin], lines[end + 1..]);
    return Some(Join(lines[..begin]) + Join(lines[end + 1..]));
  }

  /** Two markers of one kind, an end marker with no begin marker before it, or a begin marker alone. */
  lemma NotWellPlaced(lines: seq<string>, a: int, b: nat)
    requires b < |lines| && IsMarker(lines[b])
    requires || (0 <= a < b && IsBegin(lines[a]) && IsBegin(lines[b]))
             || (0 <= a < b && IsEnd(lines[a]) && IsEnd(lines[b]))
             || (IsEnd(lines[b]) && forall k :: 0 <= k < b ==> !IsMarker(lines[k]))
             || (IsBegin(lines[b]) && forall k :: 0 <= k < |lines| && k != b ==> !IsMarker(lines[k]))
    ensures Outside(lines) == None
  {
    forall i, j ensures !Section(lines, i, j) {
      if Section(lines, i, j) {
        MarkersDiffer(lines[i]);
        MarkersDiffer(lines[j]);
      }
    }
  }

  // ---------------------------------------------------------------------------------------
  // Upsert
  // ---------------------------------------------------------------------------------------

  function TrimNewlines(s: string): string {
    if s != "" && s[|s| - 1] == '\n' then TrimNewlines(s[..|s| - 1]) else s
  }

  /** The block after what remains of a text without trailing newlines. */
  function Append(rest: string, block: string): string {
    if TrimNewlines(rest) == "" then block else TrimNewlines(rest) + "\n" + block
  }

  /** The new text; none on an error. */
  ghost function Upserted(corefile: string, block: string): Option<string> {
    var outside := Outside(Lines(corefile));
    if outside.None? then None else Some(Append(Join(outside.value), block))
  }

  method Upsert(corefile: string, block: string) returns (r: Option<(string, bool)>)
    ensures r.Some? <==> Upserted(corefile, block).Some?
    ensures r.Some? ==> Some(r.value.0) == Upserted(corefile, block) && (r.value.1 <==> r.value.0 != corefile)
  {
    var removed := RemoveSection(corefile);
    if removed.None? {
      return None;
    }
    var result := block;
    var rest := TrimNewlines(removed.value);
    if rest != "" {
      result := rest + "\n" + block;
    }
    return Some((result, result != corefile));
  }

  // ---------------------------------------------------------------------------------------
  // Texts without markers
  // ---------------------------------------------------------------------------------------

  /** The lines of a text put together from whole lines and a rest. */
  lemma LinesOfParts(a: seq<string>, b: seq<string>)
    requires AllLines(a) && WellSplit(b)
    ensures Lines(Join(a) + Join(b)) == a + b
  {
    JoinAppend(a, b);
    WellSplitAppend(a, b);
    LinesOfJoin(a + b);
  }

  /** A newline at the end of a text, line by line. */
  lemma LinesSnoc(s: string, ls: seq<string>, n: nat)
    requires ls == Lines(s) && n == |ls| - 1
    ensures Lines(s + "\n") == ls[..n] + [ls[n] + "\n", ""] && AllLines(ls[..n]) && IsLine(ls[n] + "\n")
  {
    LinesSplit(s);
    WellSplitParts(ls, n);
    var l := ls[n] + "\n";
    assert ls[n..] == [ls[n]];
    assert l[..|l| - 1] == ls[n];
    assert ls == ls[..n] + [ls[n]];
    JoinAppend(ls[..n], [ls[n]]);
    JoinOne(ls[n]);
    JoinOne("");
    assert [l, ""][1..] == [""];
    assert Join([l, ""]) == l + Join([""]);
    assert s + "\n" == Join(ls[..n]) + Join([l, ""]);
    LinesOfParts(ls[..n], [l, ""]);
  }

  lemma JoinOne(l: string)
    ensures Join([l]) == l
  {
    assert [l][1..] == [];
  }

  lemma PlainAppend(a: seq<string>, b: seq<string>)
    ensures Plain(a + b) <==> Plain(a) && Plain(b)
  {
    forall k | 0 <= k < |b| ensures b[k] == (a + b)[|a| + k] {}
    forall k | 0 <= k < |a| ensures a[k] == (a + b)[k] {}
  }

  lemma PlainSnoc(s: string)
    ensures Plain(Lines(s + "\n")) <==> Plain(Lines(s))
  {
    var ls, n := Lines(s), |Lines(s)| - 1;
    LinesSnoc(s, ls, n);
    assert ls == ls[..n] + [ls[n]];
    PlainAppend(ls[..n], [ls[n]]);
    PlainAppend(ls[..n], [ls[n] + "\n", ""]);
    PlainLast(ls[n]);
  }

  lemma PlainLast(l: string)
    ensures Plain([l + "\n", ""]) <==> Plain([l])
  {
    TrimSpaceNewline(l);
    NotMarker("");
    assert [l + "\n", ""][0] == l + "\n" && [l + "\n", ""][1] == "" && [l][0] == l;
  }

  lemma {:induction false} PlainTrimmed(s: string)
    requires Plain(Lines(s))
    ensures Plain(Lines(TrimNewlines(s)))
    decreases |s|
  {
    if s != "" && s[|s| - 1] == '\n' {
      assert s == s[..|s| - 1] + "\n";
      PlainSnoc(s[..|s| - 1]);
      PlainTrimmed(s[..|s| - 1]);
    }
  }

  lemma {:induction false} TrimTwice(s: string)
    ensures TrimNewlines(TrimNewlines(s)) == TrimNewlines(s)
    ensures TrimNewlines(TrimNewlines(s) + "\n") == TrimNewlines(s)
    decreases |s|
  {
    if s != "" && s[|s| - 1] == '\n' {
      TrimTwice(s[..|s| - 1]);
    } else {
      assert (s + "\n")[..|s|] == s;
    }
  }

  lemma JoinEmptyLast(lines: seq<string>)
    ensures Join(lines + [""]) == Join(lines)
  {
    JoinAppend(lines, [""]);
    JoinOne("");
  }

  /** Whole lines, followed by the lines of a text or by none. */
  lemma {:induction false} PlainParts(a: seq<string>, b: seq<string>)
    requires AllLines(a) && (b == [] || WellSplit(b)) && Plain(a) && Plain(b)
    ensures Plain(Lines(Join(a + b)))
    decreases b == []
  {
    if b == [] {
      NotMarker("");
      PlainParts(a, [""]);
      JoinEmptyLast(a);
      assert a + b == a;
    } else {
      JoinAppend(a, b);
      LinesOfParts(a, b);
      PlainAppend(a, b);
    }
  }

  /** Cutting lines out of a text. */
  lemma {:induction false} CutPlain(lines: seq<string>, i: nat, j: nat)
    requires WellSplit(lines) && i < j < |lines| && Plain(lines[..i]) && Plain(lines[j + 1..])
    ensures Plain(Lines(Join(lines[..i] + lines[j + 1..])))
  {
    WellSplitParts(lines, i);
    if j + 1 < |lines| { WellSplitParts(lines, j + 1); }
    PlainParts(lines[..i], lines[j + 1..]);
  }

  lemma SectionParts(lines: seq<string>, i: int, j: int)
    requires 0 <= i < j < |lines|
    ensures Section(lines, i, j) <==>
              IsBegin(lines[i]) && IsEnd(lines[j]) && Plain(lines[..i]) && Plain(lines[i + 1..j]) && Plain(lines[j + 1..])
  {
    forall k | 0 <= k < i ensures lines[..i][k] == lines[k] {}
    forall k | i < k < j ensures lines[i + 1..j][k - i - 1] == lines[k] {}
    forall k | j < k < |lines| ensures lines[j + 1..][k - j - 1] == lines[k] {}
  }

  /** What lies outside the section is a text without markers. */
  lemma OutsideIsPlain(corefile: string)
    requires Outside(Lines(corefile)).Some?
    ensures Plain(Lines(Join(Outside(Lines(corefile)).value)))
  {
    var lines := Lines(corefile);
    LinesSplit(corefile);
    if !Plain(lines) {
      var i, j :| Section(lines, i, j);
      OutsideSection(lines, i, j);
      SectionParts(lines, i, j);
      CutPlain(lines, i, j);
    }
  }

  /** The whole lines that Append puts before the block. */
  lemma HeadLines(rest: string) returns (pre: seq<string>)
    requires Plain(Lines(rest))
    ensures AllLines(pre) && Plain(pre)
    ensures Join(pre) == if TrimNewlines(rest) == "" then "" else TrimNewlines(rest) + "\n"
  {
    var t := TrimNewlines(rest);
    if t == "" {
      pre := [];
    } else {
      PlainTrimmed(rest);
      PlainSnoc(t);
      var ls, n := Lines(t), |Lines(t)| - 1;
      LinesSnoc(t, ls, n);
      LinesSplit(t + "\n");
      pre := ls[..n] + [ls[n] + "\n"];
      assert Lines(t + "\n") == pre + [""];
      JoinAppend(pre, [""]);
      PlainAppend(pre, [""]);
      JoinOne("");
    }
  }

  // ---------------------------------------------------------------------------------------
  // Main results
  // ---------------------------------------------------------------------------------------

  /** A block of whole lines: a begin marker, the body, and an end marker. */
  ghost predicate Managed(block: string, begin: string, body: seq<string>, end: string) {
    && IsLine(begin) && IsBegin(begin) && IsLine(end) && IsEnd(end) && AllLines(body)
    && block == Join([begin] + body + [end])
  }

  /** The lines of a text that ends with a managed block. */
  function WithBlock(pre: seq<string>, begin: string, body: seq<string>, end: string): seq<string> {
    pre + [begin] + body + [end] + [""]
  }

  lemma BlockIsLines(begin: string, body: seq<string>, end: string)
    requires IsLine(begin) && AllLines(body) && IsLine(end)
    ensures AllLines([begin] + body + [end]) && WellSplit([""])
  {
    var middle := [begin] + body + [end];
    forall k | 0 <= k < |middle| ensures IsLine(middle[k]) {
      if 0 < k <= |body| { assert middle[k] == body[k - 1]; }
    }
  }

  lemma {:induction false} WithBlockLines(pre: seq<string>, begin: string, body: seq<string>, end: string)
    requires AllLines(pre) && IsLine(begin) && AllLines(body) && IsLine(end)
    ensures Lines(Join(pre) + Join([begin] + body + [end])) == WithBlock(pre, begin, body, end)
  {
    var middle := [begin] + body + [end];
    JoinEmptyLast(middle);
    BlockIsLines(begin, body, end);
    WellSplitAppend(middle, [""]);
    LinesOfParts(pre, middle + [""]);
    assert pre + (middle + [""]) == WithBlock(pre, begin, body, end);
  }

  lemma BlockSlices(pre: seq<string>, begin: string, body: seq<string>, end: string)
    ensures var lines, i, j := WithBlock(pre, begin, body, end), |pre|, |pre| + 1 + |body|;
            && |lines| == j + 2 && lines[i] == begin && lines[j] == end
            && lines[..i] == pre && lines[i + 1..j] == body && lines[j + 1..] == [""]
  {
  }

  lemma MarkerInside(lines: seq<string>, i: nat, k: nat, j: nat)
    requires i < k < j < |lines| && IsBegin(lines[i]) && IsEnd(lines[j]) && IsMarker(lines[k])
    ensures Outside(lines) == None
  {
    if IsBegin(lines[k]) { NotWellPlaced(lines, i, k); } else { NotWellPlaced(lines, k, j); }
  }

  /** A text framed by markers has a section exactly if there is no other marker between them. */
  lemma FramedSection(lines: seq<string>, i: nat, j: nat)
    requires i < j < |lines| && IsBegin(lines[i]) && IsEnd(lines[j]) && Plain(lines[..i]) && Plain(lines[j + 1..])
    ensures Outside(lines) == if Plain(lines[i + 1..j]) then Some(lines[..i] + lines[j + 1..]) else None
  {
    if Plain(lines[i + 1..j]) {
      SectionParts(lines, i, j);
      OutsideSection(lines, i, j);
    } else {
      var k :| 0 <= k < |lines[i + 1..j]| && IsMarker(lines[i + 1..j][k]);
      MarkerInside(lines, i, i + 1 + k, j);
    }
  }

  /** Such a text has a well placed section exactly if the body has no marker, and then the section is the block. */
  lemma SectionIsBlock(pre: seq<string>, begin: string, body: seq<string>, end: string)
    requires Plain(pre) && IsBegin(begin) && IsEnd(end)
    ensures Outside(WithBlock(pre, begin, body, end)) == if Plain(body) then Some(pre + [""]) else None
  {
    BlockSlices(pre, begin, body, end);
    NotMarker("");
    FramedSection(WithBlock(pre, begin, body, end), |pre|, |pre| + 1 + |body|);
  }

  lemma AppendIs(rest: string, block: string, head: string)
    requires head == if TrimNewlines(rest) == "" then "" else TrimNewlines(rest) + "\n"
    ensures Append(rest, block) == head + block && TrimNewlines(head) == TrimNewlines(rest)
  {
    TrimTwice(rest);
  }

  /** A text without markers, after a managed block has been put in. */
  lemma AfterAppend(rest: string, block: string, begin: string, body: seq<string>, end: string)
    requires Plain(Lines(rest)) && Managed(block, begin, body, end)
    ensures var outside := Outside(Lines(Append(rest, block)));
            if Plain(body) then outside.Some? && TrimNewlines(Join(outside.value)) == TrimNewlines(rest) else outside == None
  {
    var pre := HeadLines(rest);
    AppendIs(rest, block, Join(pre));
    WithBlockLines(pre, begin, body, end);
    SectionIsBlock(pre, begin, body, end);
    JoinEmptyLast(pre);
  }

  /**
   The last block wins, and the lines outside survive: after a block has been put in, putting in
   another gives what the other alone would have given, and the text outside is the same up to
   trailing newlines. This holds exactly if the first block's body contains no marker: otherwise
   every later Upsert is refused.
   */
  lemma LastBlockWins(corefile: string, block: string, begin: string, body: seq<string>, end: string, other: string)
    requires Upserted(corefile, block).Some? && Managed(block, begin, body, end)
    ensures var text := Upserted(corefile, block).value;
            if Plain(body) then
              && Upserted(text, other) == Upserted(corefile, other)
              && Outside(Lines(text)).Some?
              && TrimNewlines(Join(Outside(Lines(text)).value)) == TrimNewlines(Join(Outside(Lines(corefile)).value))
            else Upserted(text, other) == None
  {
    OutsideIsPlain(corefile);
    AfterAppend(Join(Outside(Lines(corefile)).value), block, begin, body, end);
  }

  /** Upsert is idempotent exactly if the block's body contains no marker: then it reports no change. */
  lemma UpsertIdempotent(corefile: string, block: string, begin: string, body: seq<string>, end: string)
    requires Upserted(corefile, block).Some? && Managed(block, begin, body, end)
    ensures Upserted(Upserted(corefile, block).value, block) == Upserted(corefile, block) <==> Plain(body)
  {
    LastBlockWins(corefile, block, begin, body, end, block);
  }

  // ---------------------------------------------------------------------------------------
  // The loom block
  // ---------------------------------------------------------------------------------------

  const NOTE := " (managed by loom-dns, do not edit)"
  const BEGIN_LINE := BEGIN + NOTE + "\n"
  const END_LINE := END + "\n"

  function TrimDot(zone: string): string {
    if zone != "" && zone[|zone| - 1] == '.' then zone[..|zone| - 1] else zone
  }

  function ZoneLine(zone: string): string { TrimDot(zone) + ":53 {\n" }

  function Body(zone: string, ip: string, ttl: nat): seq<string> {
    [ZoneLine(zone), "    errors\n"] + CacheLine(ttl) + ["    forward . " + ip + "\n", "}\n"]
  }

  function CacheLine(ttl: nat): seq<string> {
    if ttl > 0 then ["    cache " + Decimal.Spell(ttl) + "\n"] else []
  }

  method Block(zone: string, ip: string, ttl: nat) returns (b: string)
    ensures b == Join([BEGIN_LINE] + Body(zone, ip, ttl) + [END_LINE])
    ensures b == "# BEGIN loom-dns" + " (managed by loom-dns, do not edit)" + "\n"
                 + (TrimDot(zone) + ":53 {\n") + "    errors\n" + (if ttl > 0 then "    cache " + Decimal.Spell(ttl) + "\n" else "")
                 + ("    forward . " + ip + "\n") + "}\n" + ("# END loom-dns" + "\n")
  {
    BlockText(zone, ip, ttl);
    ghost var lines: seq<string> := [];
    b := "";
    b, lines := JoinNext(b, lines, BEGIN + NOTE + "\n");
    b, lines := JoinNext(b, lines, TrimDot(zone) + ":53 {\n");
    b, lines := JoinNext(b, lines, "    errors\n");
    b, lines := JoinCache(b, lines, ttl);
    b, lines := JoinNext(b, lines, "    forward . " + ip + "\n");
    b, lines := JoinNext(b, lines, "}\n");
    b, lines := JoinNext(b, lines, END + "\n");
    BlockLines(BEGIN_LINE, ZoneLine(zone), "    errors\n", CacheLine(ttl), "    forward . " + ip + "\n", "}\n", END_LINE);
  }

  /** The text of the block. */
  lemma BlockText(zone: string, ip: string, ttl: nat)
    ensures Join([BEGIN_LINE] + Body(zone, ip, ttl) + [END_LINE])
         == "# BEGIN loom-dns" + " (managed by loom-dns, do not edit)" + "\n"
            + (TrimDot(zone) + ":53 {\n") + "    errors\n" + (if ttl > 0 then "    cache " + Decimal.Spell(ttl) + "\n" else "")
            + ("    forward . " + ip + "\n") + "}\n" + ("# END loom-dns" + "\n")
  {
    MarkerText();
    JoinCacheLine(ttl);
    JoinSeven(BEGIN_LINE, ZoneLine(zone), "    errors\n", CacheLine(ttl), "    forward . " + ip + "\n", "}\n", END_LINE);
  }

  lemma MarkerText()
    ensures BEGIN_LINE == "# BEGIN loom-dns" + " (managed by loom-dns, do not edit)" + "\n" && END_LINE == "# END loom-dns" + "\n"
  {
  }

  lemma JoinCacheLine(ttl: nat)
    ensures Join(CacheLine(ttl)) == if ttl > 0 then "    cache " + Decimal.Spell(ttl) + "\n" else ""
  {
    JoinOne("    cache " + Decimal.Spell(ttl) + "\n");
  }

  lemma JoinSeven(a: string, b: string, c: string, ds: seq<string>, e: string, f: string, g: string)
    ensures Join([a] + ([b, c] + ds + [e, f]) + [g]) == a + b + c + Join(ds) + e + f + g
  {
    BlockLines(a, b, c, ds, e, f, g);
    JoinSnoc([] + [a] + [b] + [c] + ds + [e] + [f], g);
    JoinSnoc([] + [a] + [b] + [c] + ds + [e], f);
    JoinSnoc([] + [a] + [b] + [c] + ds, e);
    JoinAppend([] + [a] + [b] + [c], ds);
    JoinSnoc([] + [a] + [b], c);
    JoinSnoc([] + [a], b);
    JoinSnoc([], a);
  }

  /** One dot at the end of a zone is taken off. */
  lemma DotIsTrimmed(zone: string)
    ensures TrimDot(zone + ".") == zone
    ensures zone == "" || zone[|zone| - 1] != '.' ==> TrimDot(zone) == zone
  {
    assert (zone + ".")[..|zone|] == zone;
  }

  /** The cache line, for a positive ttl. */
  method JoinCache(b: string, ghost lines: seq<string>, ttl: nat) returns (b': string, ghost lines': seq<string>)
    requires b == Join(lines)
    ensures lines' == lines + CacheLine(ttl) && b' == Join(lines')
  {
    b', lines' := b, lines;
    if ttl > 0 {
      b', lines' := JoinNext(b, lines, "    cache " + Decimal.Spell(ttl) + "\n");
    }
  }

  /** The lines in the order of writing. */
  lemma BlockLines(begin: string, zone: string, errors: string, cache: seq<string>, forward: string, brace: string, end: string)
    ensures [] + [begin] + [zone] + [errors] + cache + [forward] + [brace] + [end]
         == [begin] + ([zone, errors] + cache + [forward, brace]) + [end]
  {
  }

  lemma JoinSnoc(lines: seq<string>, l: string)
    ensures Join(lines + [l]) == Join(lines) + l
  {
    JoinAppend(lines, [l]);
    JoinOne(l);
  }

  /** Writes one more line to the builder. */
  method JoinNext(b: string, ghost lines: seq<string>, l: string) returns (b': string, ghost lines': seq<string>)
    requires b == Join(lines)
    ensures lines' == lines + [l] && b' == Join(lines')
  {
    b', lines' := b + l, lines + [l];
    JoinSnoc(lines, l);
  }

  lemma TrimOneSpace(t: string)
    ensures TrimLeft(" " + t) == TrimLeft(t)
  {
    assert (" " + t)[1..] == t;
  }

  /** A line of the block's body, which is indented or not, and does not start with `#`. */
  lemma IndentedIsPlain(t: string)
    requires t != "" && !IsSpace(t[0]) && t[0] != '#'
    ensures !IsMarker("    " + t) && !IsMarker(t)
  {
    NotMarker(t);
    TrimOneSpace(t);
    TrimOneSpace(" " + t);
    TrimOneSpace(" " + (" " + t));
    TrimOneSpace(" " + (" " + (" " + t)));
    assert "    " + t == " " + (" " + (" " + (" " + t)));
    NotMarker("    " + t);
  }

  lemma LiteralLinesPlain()
    ensures !IsMarker("    errors\n") && !IsMarker("}\n")
  {
    IndentedIsPlain("errors\n");
    IndentedIsPlain("}\n");
    assert "    " + "errors\n" == "    errors\n";
  }

  lemma ForwardPlain(ip: string)
    ensures !IsMarker("    forward . " + ip + "\n")
  {
    var t := "forward . " + ip + "\n";
    IndentedIsPlain(t);
    assert "    " + t == "    forward . " + ip + "\n";
  }

  lemma CachePlain(n: string)
    ensures !IsMarker("    cache " + n + "\n")
  {
    var t := "cache " + n + "\n";
    IndentedIsPlain(t);
    assert "    " + t == "    cache " + n + "\n";
  }

  lemma PlainLines(a: string, b: string, cs: seq<string>, d: string, e: string)
    ensures Plain([a, b] + cs + [d, e]) <==> !IsMarker(a) && !IsMarker(b) && Plain(cs) && !IsMarker(d) && !IsMarker(e)
  {
    PlainAppend([a, b] + cs, [d, e]);
    PlainAppend([a, b], cs);
    PlainTwo(a, b);
    PlainTwo(d, e);
  }

  lemma PlainTwo(a: string, b: string)
    ensures Plain([a, b]) <==> !IsMarker(a) && !IsMarker(b)
  {
    assert [a, b][0] == a && [a, b][1] == b;
  }

  /** Only the zone can be mistaken for a marker. */
  lemma BodyPlain(zone: string, ip: string, ttl: nat)
    ensures Plain(Body(zone, ip, ttl)) <==> !IsMarker(ZoneLine(zone))
  {
    LiteralLinesPlain();
    ForwardPlain(ip);
    CachePlain(Decimal.Spell(ttl));
    PlainLines(ZoneLine(zone), "    errors\n", CacheLine(ttl), "    forward . " + ip + "\n", "}\n");
  }

  lemma LineOf(s: string)
    requires NoNewline(s)
    ensures IsLine(s + "\n")
  {
    assert (s + "\n")[..|s|] == s;
  }

  lemma ZoneLineIsLine(zone: string)
    requires NoNewline(zone)
    ensures IsLine(ZoneLine(zone))
  {
    LineOf(TrimDot(zone) + ":53 {");
    assert TrimDot(zone) + ":53 {" + "\n" == ZoneLine(zone);
  }

  lemma CacheLineIsLine(ttl: nat)
    ensures AllLines(CacheLine(ttl))
  {
    LineOf("    cache " + Decimal.Spell(ttl));
  }

  lemma ForwardLineIsLine(ip: string)
    requires NoNewline(ip)
    ensures IsLine("    forward . " + ip + "\n")
  {
    LineOf("    forward . " + ip);
  }

  lemma LiteralLinesAreLines()
    ensures IsLine("    errors\n") && IsLine("}\n")
  {
    LineOf("    errors");
    assert "    errors" + "\n" == "    errors\n";
  }

  lemma FiveAreLines(a: string, b: string, cs: seq<string>, d: string, e: string)
    requires IsLine(a) && IsLine(b) && AllLines(cs) && IsLine(d) && IsLine(e)
    ensures AllLines([a, b] + cs + [d, e])
  {
    var lines := [a, b] + cs + [d, e];
    forall i | 0 <= i < |lines| ensures IsLine(lines[i]) {
      if 2 <= i < 2 + |cs| { assert lines[i] == cs[i - 2]; }
    }
  }

  lemma BodyIsLines(zone: string, ip: string, ttl: nat)
    requires NoNewline(zone) && NoNewline(ip)
    ensures AllLines(Body(zone, ip, ttl))
  {
    ZoneLineIsLine(zone);
    LiteralLinesAreLines();
    CacheLineIsLine(ttl);
    ForwardLineIsLine(ip);
    FiveAreLines(ZoneLine(zone), "    errors\n", CacheLine(ttl), "    forward . " + ip + "\n", "}\n");
  }

  /** A line that starts with a marker is one. */
  lemma MarkerLine(m: string, s: string)
    requires (m == BEGIN || m == END) && m <= s
    ensures m <= TrimSpace(s)
  {
    assert TrimLeft(s) == s;
    TrimRightKeeps(m, s);
  }

  lemma BlockIsManaged(zone: string, ip: string, ttl: nat)
    requires NoNewline(zone) && NoNewline(ip)
    ensures Managed(Join([BEGIN_LINE] + Body(zone, ip, ttl) + [END_LINE]), BEGIN_LINE, Body(zone, ip, ttl), END_LINE)
  {
    BeginIsLine();
    EndIsLine();
    BodyIsLines(zone, ip, ttl);
  }

  lemma BeginIsLine()
    ensures IsLine(BEGIN_LINE) && IsBegin(BEGIN_LINE)
  {
    MarkerLine(BEGIN, BEGIN_LINE);
    LineOf(BEGIN + NOTE);
  }

  lemma EndIsLine()
    ensures IsLine(END_LINE) && IsEnd(END_LINE)
  {
    MarkerLine(END, END_LINE);
    LineOf(END);
  }

  /**
   For the loom block: after Upsert with one zone and address, Upsert with others gives what the
   others alone would give (so repeating the first changes nothing), exactly if the line of the
   first zone is not a marker; for a domain name it never is.
   */
  lemma LoomBlockReplaced(corefile: string, zone: string, ip: string, ttl: nat, block: string, other: string)
    requires NoNewline(zone) && NoNewline(ip) && block == Join([BEGIN_LINE] + Body(zone, ip, ttl) + [END_LINE])
    requires Upserted(corefile, block).Some?
    ensures Upserted(Upserted(corefile, block).value, other) == Upserted(corefile, other) <==> !IsMarker(ZoneLine(zone))
    ensures zone != "" && zone[0] != '#' && !IsSpace(zone[0]) ==> !IsMarker(ZoneLine(zone))
  {
    BlockIsManaged(zone, ip, ttl);
    BodyPlain(zone, ip, ttl);
    LastBlockWins(corefile, block, BEGIN_LINE, Body(zone, ip, ttl), END_LINE, other);
    if zone != "" && zone[0] != '#' && !IsSpace(zone[0]) {
      var t := ZoneLine(zone);
      assert t[0] == if TrimDot(zone) == "" then ':' else zone[0];
      assert TrimLeft(t) == t;
      NotMarker(t);
    }
  }
}
