/** The document-stream splitter of `UnityYamlParser`: it cuts a Unity scene
    file into self-contained document texts, each made of the shared header,
    one `---` separator line and the body lines that follow it. */
module UnityYamlSplit {
  import opened Primitives

  /** A line as `StreamReader.ReadLine` returns it: without its terminator. */
  type Line = s: string | '\n' !in s && '\r' !in s

  /** The text the splitter works with for one line: `ReadLine() + '\n'`. */
  function Terminated(line: Line): string {
    line + "\n"
  }

  /** `StartsWith("---")`, compared character by character. */
  predicate IsSeparator(s: string) {
    |s| >= 3 && s[0] == '-' && s[1] == '-' && s[2] == '-'
  }

  /** The length of the longest run of ASCII digits at the end of `s`. */
  function TrailingDigits(s: string): (n: nat)
    ensures n <= |s|
    ensures forall k :: |s| - n <= k < |s| ==> IsDigit(s[k])
    ensures n < |s| ==> !IsDigit(s[|s| - n - 1])
  {
    if s != [] && IsDigit(s[|s| - 1]) then TrailingDigits(s[..|s| - 1]) + 1 else 0
  }

  /** The line ends in `<digits> &<digits> stripped\n`, the tag Unity writes on
      objects stripped from a prefab instance. */
  predicate HasStrippedDefect(line: string) {
    && |line| >= 10
    && line[|line| - 10..] == " stripped\n"
    && var body := line[..|line| - 10];
       var n := TrailingDigits(body);
       && n > 0
       && |body| >= n + 3
       && body[|body| - n - 2..|body| - n] == " &"
       && IsDigit(body[|body| - n - 3])
  }

  /** The rewrite `([0-9]+ &[0-9]+) stripped\n` to `$1\n` on one '\n'-terminated
      line: the trailing ` stripped` token is dropped. */
  function FixStripped(line: string): string {
    if HasStrippedDefect(line) then line[..|line| - 10] + "\n" else line
  }

  /** The regular expression matches `line` with its group spanning
      `line[i..|line| - 10]` and the ` &` of the group at position `m`. */
  predicate MatchAt(line: string, i: int, m: int) {
    && |line| >= 10
    && 0 <= i < m && m + 2 < |line| - 10
    && AllDigits(line[i..m])
    && line[m..m + 2] == " &"
    && AllDigits(line[m + 2..|line| - 10])
    && line[|line| - 10..] == " stripped\n"
  }

  lemma {:induction false} TrailingDigitsExact(s: string, j: nat)
    requires j <= |s| && AllDigits(s[j..])
    requires j > 0 && !IsDigit(s[j - 1])
    ensures TrailingDigits(s) == |s| - j
  {
    var n := TrailingDigits(s);
    assert !(n > |s| - j);
  }

  /** `HasStrippedDefect` is exactly "the regular expression matches", and the
      rewrite keeps everything up to the end of the group and then a newline. */
  lemma FixStrippedIsTheRegexRewrite(line: string)
    ensures HasStrippedDefect(line) <==> exists i, m :: MatchAt(line, i, m)
    ensures forall i, m :: MatchAt(line, i, m) ==> FixStripped(line) == line[..i] + line[i..|line| - 10] + "\n"
  {
    if HasStrippedDefect(line) {
      DefectMatches(line);
    }
    forall i, m | MatchAt(line, i, m)
      ensures HasStrippedDefect(line)
      ensures FixStripped(line) == line[..i] + line[i..|line| - 10] + "\n"
    {
      MatchIsDefect(line, i, m);
    }
  }

  /** A line with the defect matches, the group starting one digit before ` &`. */
  lemma DefectMatches(line: string)
    requires HasStrippedDefect(line)
    ensures MatchAt(line, |line| - 10 - TrailingDigits(line[..|line| - 10]) - 3,
                    |line| - 10 - TrailingDigits(line[..|line| - 10]) - 2)
  {
    var body := line[..|line| - 10];
    var n := TrailingDigits(body);
    var m := |body| - n - 2;
    assert line[m..m + 2] == body[m..m + 2];
    assert line[m + 2..|line| - 10] == body[m + 2..];
    assert AllDigits(line[m - 1..m]) by { assert line[m - 1..m][0] == body[m - 1]; }
  }

  /** A line the expression matches has the defect, and the rewrite drops the
      ` stripped` token. */
  lemma {:induction false} MatchIsDefect(line: string, i: int, m: int)
    requires MatchAt(line, i, m)
    ensures HasStrippedDefect(line)
    ensures FixStripped(line) == line[..i] + line[i..|line| - 10] + "\n"
  {
    var body := line[..|line| - 10];
    assert body[m + 2..] == line[m + 2..|line| - 10];
    assert body[m + 1] == line[m..m + 2][1];
    TrailingDigitsExact(body, m + 2);
    assert body[m..m + 2] == line[m..m + 2];
    assert body[m - 1] == line[i..m][m - 1 - i];
    assert line[..i] + line[i..|line| - 10] == body;
  }

  /** The rewrite never changes whether a line starts with `---`. */
  lemma FixStrippedKeepsSeparator(line: string)
    ensures IsSeparator(FixStripped(line)) <==> IsSeparator(line)
  {
    if HasStrippedDefect(line) {
      assert FixStripped(line)[..|line| - 10] == line[..|line| - 10];
    }
  }

  /** The strings of `ss` joined end to end. */
  function Concat(ss: seq<string>): string {
    if ss == [] then "" else Concat(ss[..|ss| - 1]) + ss[|ss| - 1]
  }

  /** The groups of `cs` joined end to end. */
  function Flatten(cs: seq<seq<string>>): seq<string> {
    if cs == [] then [] else Flatten(cs[..|cs| - 1]) + cs[|cs| - 1]
  }

  /** How many of `ls` start with `---`. */
  function CountSeparators(ls: seq<string>): nat {
    if ls == [] then 0
    else CountSeparators(ls[..|ls| - 1]) + if IsSeparator(ls[|ls| - 1]) then 1 else 0
  }

  /** Every line terminated, as the main loop of `ParseFileStream` reads them. */
  function Raw(lines: seq<Line>): (r: seq<string>)
    ensures |r| == |lines|
  {
    seq(|lines|, k requires 0 <= k < |lines| => Terminated(lines[k]))
  }

  /** Every line terminated and rewritten, as `ReadHeader` reads them. */
  function Repaired(lines: seq<Line>): (r: seq<string>)
    ensures |r| == |lines|
  {
    seq(|lines|, k requires 0 <= k < |lines| => FixStripped(Terminated(lines[k])))
  }

  /** The number of leading lines that do not start with `---`. */
  function HeaderLength(lines: seq<Line>): (h: nat)
    ensures h <= |lines|
  {
    if lines == [] || IsSeparator(Terminated(lines[0])) then 0 else 1 + HeaderLength(lines[1..])
  }

  /** The header is exactly the lines before the first one starting with `---`. */
  lemma {:induction false} HeaderLengthMeaning(lines: seq<Line>)
    ensures forall k :: 0 <= k < HeaderLength(lines) ==> !IsSeparator(Terminated(lines[k]))
    ensures HeaderLength(lines) < |lines| ==> IsSeparator(Terminated(lines[HeaderLength(lines)]))
    decreases |lines|
  {
    if lines != [] && !IsSeparator(Terminated(lines[0])) {
      HeaderLengthMeaning(lines[1..]);
      forall k | 0 < k < HeaderLength(lines)
        ensures !IsSeparator(Terminated(lines[k]))
      {
        assert lines[k] == lines[1..][k - 1];
      }
    }
  }

  /** The shared header: the leading non-separator lines, rewritten, in order. */
  function HeaderText(lines: seq<Line>): string {
    Concat(Repaired(lines[..HeaderLength(lines)]))
  }

  /** The lines from the first separator on, as `ParseFileStream` sees them: the
      first separator was read (and rewritten) by `ReadHeader`, the rest are read
      by the main loop and are not rewritten. */
  function StreamLines(lines: seq<Line>): seq<string>
    requires HeaderLength(lines) < |lines|
  {
    var h := HeaderLength(lines);
    [FixStripped(Terminated(lines[h]))] + Raw(lines[h + 1..])
  }

  /** Cuts `ls` before every line that starts with `---`. */
  function Chunks(ls: seq<string>): (cs: seq<seq<string>>)
    ensures |cs| == 0 <==> |ls| == 0
  {
    if ls == [] then []
    else
      var cs := Chunks(ls[..|ls| - 1]);
      var x := ls[|ls| - 1];
      if IsSeparator(x) || cs == [] then cs + [[x]]
      else cs[..|cs| - 1] + [cs[|cs| - 1] + [x]]
  }

  /** Every group is a separator line followed by non-separator lines. */
  ghost predicate Grouped(cs: seq<seq<string>>) {
    forall j :: 0 <= j < |cs| ==> WellFormedGroup(cs[j])
  }

  /** A separator line followed by non-separator lines. */
  ghost predicate WellFormedGroup(g: seq<string>) {
    && |g| > 0
    && IsSeparator(g[0])
    && forall k :: 0 < k < |g| ==> !IsSeparator(g[k])
  }

  /** The document texts: the header followed by each group's lines. */
  function Texts(header: string, cs: seq<seq<string>>): (docs: seq<string>)
    ensures |docs| == |cs|
  {
    seq(|cs|, j requires 0 <= j < |cs| => header + Concat(cs[j]))
  }

  /** The documents `ParseFileStream` yields for the file `lines`. */
  function SplitDocuments(lines: seq<Line>): seq<string> {
    if HeaderLength(lines) == |lines| then []
    else Texts(HeaderText(lines), Chunks(StreamLines(lines)))
  }

  lemma FlattenSnoc(cs: seq<seq<string>>, g: seq<string>)
    ensures Flatten(cs + [g]) == Flatten(cs) + g
  {
    assert (cs + [g])[..|cs|] == cs;
  }

  lemma CountSeparatorsAppend(a: seq<string>, b: seq<string>)
    ensures CountSeparators(a + b) == CountSeparators(a) + CountSeparators(b)
    decreases |b|
  {
    if b != [] {
      assert (a + b)[..|a + b| - 1] == a + b[..|b| - 1];
      CountSeparatorsAppend(a, b[..|b| - 1]);
    } else {
      assert a + b == a;
    }
  }

  /** Joining the groups gives back `ls`: no line is dropped, duplicated or moved. */
  lemma {:induction false} ChunksFlatten(ls: seq<string>)
    ensures Flatten(Chunks(ls)) == ls
    decreases |ls|
  {
    if ls != [] {
      var init := ls[..|ls| - 1];
      var x := ls[|ls| - 1];
      ChunksFlatten(init);
      var cs := Chunks(init);
      assert ls == init + [x];
      if IsSeparator(x) || cs == [] {
        FlattenSnoc(cs, [x]);
      } else {
        var last := cs[|cs| - 1];
        FlattenSnoc(cs[..|cs| - 1], last + [x]);
        assert init == Flatten(cs[..|cs| - 1]) + last;
        assert ls == Flatten(cs[..|cs| - 1]) + (last + [x]);
      }
    }
  }

  /** When `ls` starts with a separator, every group is a separator line
      followed by non-separator lines. */
  lemma {:induction false} ChunksGrouped(ls: seq<string>)
    requires ls == [] || IsSeparator(ls[0])
    ensures Grouped(Chunks(ls))
    decreases |ls|
  {
    if ls != [] {
      var init := ls[..|ls| - 1];
      assert init == [] || init[0] == ls[0];
      ChunksGrouped(init);
    }
  }

  /** When `ls` starts with a separator, there is one group per separator line. */
  lemma {:induction false} ChunksCount(ls: seq<string>)
    requires ls == [] || IsSeparator(ls[0])
    ensures |Chunks(ls)| == CountSeparators(ls)
    decreases |ls|
  {
    if ls != [] {
      var init := ls[..|ls| - 1];
      assert init == [] || init[0] == ls[0];
      ChunksCount(init);
    }
  }

  /** When `ls` starts with a separator, `Chunks` cuts it into well formed
      groups, one per separator line, that join back to `ls`. */
  lemma ChunksPartition(ls: seq<string>)
    requires ls == [] || IsSeparator(ls[0])
    ensures Grouped(Chunks(ls))
    ensures Flatten(Chunks(ls)) == ls
    ensures |Chunks(ls)| == CountSeparators(ls)
  {
    ChunksFlatten(ls);
    ChunksGrouped(ls);
    ChunksCount(ls);
  }

  lemma SplitLast<T>(g: seq<T>)
    requires g != []
    ensures g == g[..|g| - 1] + [g[|g| - 1]]
  {
  }

  /** The last line of a grouping is the last line of its last group. */
  lemma FlattenDropLast(ls: seq<string>, cs: seq<seq<string>>)
    requires Flatten(cs) == ls && cs != [] && cs[|cs| - 1] != []
    ensures ls != [] && ls[|ls| - 1] == cs[|cs| - 1][|cs[|cs| - 1]| - 1]
    ensures ls[..|ls| - 1] == Flatten(cs[..|cs| - 1]) + cs[|cs| - 1][..|cs[|cs| - 1]| - 1]
  {
    var last := cs[|cs| - 1];
    SplitLast(last);
    assert ls == (Flatten(cs[..|cs| - 1]) + last[..|last| - 1]) + [last[|last| - 1]];
  }

  /** Dropping a last group of one line from a well formed grouping. */
  lemma DropSingleGroup(ls: seq<string>, cs: seq<seq<string>>)
    requires Grouped(cs) && Flatten(cs) == ls
    requires cs != [] && |cs[|cs| - 1]| == 1
    ensures ls != [] && IsSeparator(ls[|ls| - 1])
    ensures cs == cs[..|cs| - 1] + [[ls[|ls| - 1]]]
    ensures Grouped(cs[..|cs| - 1]) && Flatten(cs[..|cs| - 1]) == ls[..|ls| - 1]
  {
    var n := |cs|;
    var last := cs[n - 1];
    var init := cs[..n - 1];
    FlattenDropLast(ls, cs);
    SplitLast(cs);
    assert last == [last[0]];
    assert WellFormedGroup(last);
    assert last[..0] == [];
    assert last == [ls[|ls| - 1]];
    assert Flatten(init) + [] == Flatten(init);
    forall j | 0 <= j < |init| ensures WellFormedGroup(init[j]) {
      assert init[j] == cs[j];
    }
  }

  /** Dropping the last line of a last group of several lines. */
  lemma DropLastLine(ls: seq<string>, cs: seq<seq<string>>)
    requires Grouped(cs) && Flatten(cs) == ls
    requires cs != [] && |cs[|cs| - 1]| > 1
    ensures ls != [] && !IsSeparator(ls[|ls| - 1])
    ensures cs == cs[..|cs| - 1] + [cs[|cs| - 1][..|cs[|cs| - 1]| - 1] + [ls[|ls| - 1]]]
    ensures Grouped(cs[..|cs| - 1] + [cs[|cs| - 1][..|cs[|cs| - 1]| - 1]])
    ensures Flatten(cs[..|cs| - 1] + [cs[|cs| - 1][..|cs[|cs| - 1]| - 1]]) == ls[..|ls| - 1]
  {
    var n := |cs|;
    var last := cs[n - 1];
    var shorter := cs[..n - 1] + [last[..|last| - 1]];
    FlattenDropLast(ls, cs);
    SplitLast(cs);
    SplitLast(last);
    assert shorter[..n - 1] == cs[..n - 1];
    forall j | 0 <= j < |shorter|
      ensures WellFormedGroup(shorter[j])
    {
      if j == n - 1 {
        assert shorter[j] == last[..|last| - 1];
      } else {
        assert shorter[j] == cs[j];
      }
    }
  }

  /** `Chunks` is the only grouping with these properties: any well formed
      grouping whose lines join to `ls` is `Chunks(ls)`. */
  lemma {:induction false} ChunksUnique(ls: seq<string>, cs: seq<seq<string>>)
    requires Grouped(cs) && Flatten(cs) == ls
    ensures cs == Chunks(ls)
    decreases |ls|, |cs|
  {
    if cs == [] {
      assert ls == [];
    } else {
      var n := |cs|;
      var last := cs[n - 1];
      if |last| == 0 {
        assert false;
      } else if |last| == 1 {
        DropSingleGroup(ls, cs);
        ChunksUnique(ls[..|ls| - 1], cs[..n - 1]);
      } else {
        var shorter := cs[..n - 1] + [last[..|last| - 1]];
        DropLastLine(ls, cs);
        ChunksUnique(ls[..|ls| - 1], shorter);
        assert shorter[..n - 1] == cs[..n - 1];
      }
    }
  }

  /** Every document is the shared header followed by its group of lines, and
      the groups are well formed and join back to exactly the lines from the
      first separator on. */
  lemma SplitRoundTrip(lines: seq<Line>)
    requires HeaderLength(lines) < |lines|
    ensures |SplitDocuments(lines)| == |Chunks(StreamLines(lines))|
    ensures forall j :: 0 <= j < |SplitDocuments(lines)| ==>
              SplitDocuments(lines)[j] == HeaderText(lines) + Concat(Chunks(StreamLines(lines))[j])
    ensures Grouped(Chunks(StreamLines(lines)))
    ensures Flatten(Chunks(StreamLines(lines))) == StreamLines(lines)
  {
    HeaderLengthMeaning(lines);
    FixStrippedKeepsSeparator(Terminated(lines[HeaderLength(lines)]));
    ChunksPartition(StreamLines(lines));
  }

  lemma SameFirstSameCount(x: string, y: string, rest: seq<string>)
    requires IsSeparator(x) == IsSeparator(y)
    ensures CountSeparators([x] + rest) == CountSeparators([y] + rest)
  {
    CountSeparatorsAppend([x], rest);
    CountSeparatorsAppend([y], rest);
    assert [x][..0] == [];
    assert [y][..0] == [];
  }

  lemma RawCons(lines: seq<Line>)
    requires lines != []
    ensures Raw(lines) == [Terminated(lines[0])] + Raw(lines[1..])
  {
  }

  lemma StreamSeparators(lines: seq<Line>)
    requires HeaderLength(lines) < |lines|
    ensures CountSeparators(StreamLines(lines)) == CountSeparators(Raw(lines[HeaderLength(lines)..]))
  {
    var h := HeaderLength(lines);
    var first := Terminated(lines[h]);
    RawFrom(lines, h);
    FixStrippedKeepsSeparator(first);
    SameFirstSameCount(FixStripped(first), first, Raw(lines[h + 1..]));
  }

  lemma RawFrom(lines: seq<Line>, h: nat)
    requires h < |lines|
    ensures Raw(lines[h..]) == [Terminated(lines[h])] + Raw(lines[h + 1..])
  {
    var rest := lines[h..];
    assert rest[1..] == lines[h + 1..] && rest[0] == lines[h];
    RawCons(rest);
  }

  /** Past the first separator, the stream holds the input lines unchanged. */
  lemma StreamAt(lines: seq<Line>, k: nat)
    requires HeaderLength(lines) < k < |lines|
    ensures |StreamLines(lines)| == |lines| - HeaderLength(lines)
    ensures StreamLines(lines)[k - HeaderLength(lines)] == Terminated(lines[k])
  {
    var h := HeaderLength(lines);
    var rest := lines[h + 1..];
    assert rest[k - h - 1] == lines[k];
    assert Raw(rest)[k - h - 1] == Terminated(rest[k - h - 1]);
  }

  lemma HeaderSeparators(lines: seq<Line>)
    ensures CountSeparators(Raw(lines)) == CountSeparators(Raw(lines[HeaderLength(lines)..]))
  {
    var h := HeaderLength(lines);
    HeaderLengthMeaning(lines);
    assert Raw(lines) == Raw(lines[..h]) + Raw(lines[h..]);
    CountSeparatorsAppend(Raw(lines[..h]), Raw(lines[h..]));
    NoSeparatorInHeader(lines[..h]);
  }

  /** Exactly one document per line that starts with `---`; none at all when
      no line does. */
  lemma DocumentCount(lines: seq<Line>)
    ensures |SplitDocuments(lines)| == CountSeparators(Raw(lines))
  {
    var h := HeaderLength(lines);
    HeaderSeparators(lines);
    if h < |lines| {
      HeaderLengthMeaning(lines);
      StreamSeparators(lines);
      FixStrippedKeepsSeparator(Terminated(lines[h]));
      ChunksCount(StreamLines(lines));
    } else {
      assert lines[h..] == [];
    }
  }

  lemma {:induction false} NoSeparatorInHeader(lines: seq<Line>)
    requires forall k :: 0 <= k < |lines| ==> !IsSeparator(Terminated(lines[k]))
    ensures CountSeparators(Raw(lines)) == 0
    decreases |lines|
  {
    if lines != [] {
      assert Raw(lines)[..|lines| - 1] == Raw(lines[..|lines| - 1]);
      NoSeparatorInHeader(lines[..|lines| - 1]);
    }
  }

  /** One line read by `ReadHeader`: it extends the header unless it is the
      first separator. */
  lemma HeaderStep(lines: seq<Line>, k: nat)
    requires k < |lines| && k <= HeaderLength(lines)
    ensures Concat(Repaired(lines[..k + 1])) == Concat(Repaired(lines[..k])) + FixStripped(Terminated(lines[k]))
    ensures IsSeparator(FixStripped(Terminated(lines[k]))) <==> k == HeaderLength(lines)
  {
    RepairedSnoc(lines, k);
    HeaderLengthMeaning(lines);
    FixStrippedKeepsSeparator(Terminated(lines[k]));
  }

  lemma RepairedSnoc(lines: seq<Line>, k: nat)
    requires k < |lines|
    ensures Concat(Repaired(lines[..k + 1])) == Concat(Repaired(lines[..k])) + FixStripped(Terminated(lines[k]))
  {
    var r := Repaired(lines[..k + 1]);
    assert r[..k] == Repaired(lines[..k]);
  }

  /** `ReadHeader`: reads lines (rewriting each) up to and including the first
      one that starts with `---`; returns the lines before it joined, that line
      (or "" when the file has none), and how many lines were read. */
  method ReadHeader(lines: seq<Line>) returns (header: string, firstLine: string, consumed: nat)
    ensures header == HeaderText(lines)
    ensures HeaderLength(lines) < |lines| ==>
              firstLine == FixStripped(Terminated(lines[HeaderLength(lines)])) && consumed == HeaderLength(lines) + 1
    ensures HeaderLength(lines) == |lines| ==> firstLine == "" && consumed == |lines|
  {
    header, firstLine, consumed := "", "", 0;
    while consumed < |lines|
      invariant consumed <= HeaderLength(lines)
      invariant header == Concat(Repaired(lines[..consumed]))
    {
      var currentLine := Terminated(lines[consumed]);
      currentLine := FixStripped(currentLine);
      HeaderStep(lines, consumed);
      consumed := consumed + 1;
      if !IsSeparator(currentLine) {
        header := header + currentLine;
      } else {
        firstLine := currentLine;
        return;
      }
    }
  }

  lemma TextsExtend(header: string, cs: seq<seq<string>>)
    requires cs != []
    ensures Texts(header, cs) == Texts(header, cs[..|cs| - 1]) + [header + Concat(cs[|cs| - 1])]
  {
  }

  lemma ConcatSnoc(ss: seq<string>, s: string)
    ensures Concat(ss + [s]) == Concat(ss) + s
  {
    assert (ss + [s])[..|ss|] == ss;
  }

  /** One step of `Chunks`: the effect of one more line. */
  lemma ChunksSnoc(ls: seq<string>, x: string)
    ensures Chunks(ls + [x])
            == if IsSeparator(x) || Chunks(ls) == [] then Chunks(ls) + [[x]]
               else Chunks(ls)[..|Chunks(ls)| - 1] + [Chunks(ls)[|Chunks(ls)| - 1] + [x]]
  {
    assert (ls + [x])[..|ls|] == ls;
  }

  /** The state of the main loop of `ParseFileStream` after it has read `ls`:
      `documents` holds the texts of the closed groups of `ls` and `current`
      the text of the open (last) one. */
  ghost predicate Splitting(header: string, ls: seq<string>, documents: seq<string>, current: string) {
    && |Chunks(ls)| == |documents| + 1
    && documents == Texts(header, Chunks(ls)[..|documents|])
    && current == header + Concat(Chunks(ls)[|documents|])
  }

  /** A separator line closes the open document and opens a new one. */
  lemma SplittingOpen(header: string, ls: seq<string>, x: string, documents: seq<string>, current: string)
    requires Splitting(header, ls, documents, current) && IsSeparator(x)
    ensures Splitting(header, ls + [x], documents + [current], header + x)
  {
    var cs := Chunks(ls);
    ChunksSnoc(ls, x);
    TextsExtend(header, cs);
    assert cs[..|documents| + 1] == cs;
    ConcatSnoc([], x);
    assert (cs + [[x]])[..|documents| + 1] == cs;
  }

  /** Any other line is appended to the open document. */
  lemma SplittingExtend(header: string, ls: seq<string>, x: string, documents: seq<string>, current: string)
    requires Splitting(header, ls, documents, current) && !IsSeparator(x)
    ensures Splitting(header, ls + [x], documents, current + x)
  {
    var cs := Chunks(ls);
    ChunksSnoc(ls, x);
    ConcatSnoc(cs[|documents|], x);
    var next := cs[..|documents|] + [cs[|documents|] + [x]];
    assert next[..|documents|] == cs[..|documents|];
  }

  lemma SplittingDone(header: string, ls: seq<string>, documents: seq<string>, current: string)
    requires Splitting(header, ls, documents, current)
    ensures documents + [current] == Texts(header, Chunks(ls))
  {
    TextsExtend(header, Chunks(ls));
    assert Chunks(ls)[..|documents|] == Chunks(ls)[..|Chunks(ls)| - 1];
  }

  /** The state of the main loop of `ParseFileStream` once it has read the
      first separator line. */
  lemma SplittingStart(lines: seq<Line>) returns (read: seq<string>)
    requires HeaderLength(lines) < |lines|
    ensures read == StreamLines(lines)[..1]
    ensures Splitting(HeaderText(lines), read, [],
                      HeaderText(lines) + FixStripped(Terminated(lines[HeaderLength(lines)])))
  {
    var first := FixStripped(Terminated(lines[HeaderLength(lines)]));
    read := [first];
    assert StreamLines(lines)[..1] == [] + [first];
    ChunksSnoc([], first);
    ConcatSnoc([], first);
  }

  /** Reading line `k` of the file extends the stream read so far by that line. */
  lemma StreamPrefix(lines: seq<Line>, k: nat)
    requires HeaderLength(lines) < k < |lines|
    ensures StreamLines(lines)[..k + 1 - HeaderLength(lines)]
            == StreamLines(lines)[..k - HeaderLength(lines)] + [Terminated(lines[k])]
  {
    var s := StreamLines(lines);
    var i := k - HeaderLength(lines);
    StreamAt(lines, k);
    PrefixSnoc(s, i);
    assert i + 1 == k + 1 - HeaderLength(lines);
  }

  lemma PrefixSnoc(s: seq<string>, i: nat)
    requires i < |s|
    ensures s[..i + 1] == s[..i] + [s[i]]
  {
  }

  /** At the end of the file the whole stream has been read. */
  lemma StreamWhole(lines: seq<Line>, read: seq<string>)
    requires HeaderLength(lines) < |lines|
    requires read == StreamLines(lines)[..|lines| - HeaderLength(lines)]
    ensures read == StreamLines(lines)
  {
    assert |StreamLines(lines)| == |lines| - HeaderLength(lines);
  }

  /** `ParseFileStream`: yields one document text per separator line, each
      being the header, the separator line and the body lines up to the next
      separator or the end of the file. */
  method ParseFileStream(lines: seq<Line>) returns (documents: seq<string>)
    ensures documents == SplitDocuments(lines)
  {
    var header, firstLine, next := ReadHeader(lines);
    ghost var h := HeaderLength(lines);
    if h < |lines| {
      FixStrippedKeepsSeparator(Terminated(lines[h]));
    }
    if firstLine == "" {
      return [];
    }
    ghost var stream := StreamLines(lines);
    var currentDocumentText := header + firstLine;
    documents := [];
    ghost var read := SplittingStart(lines);
    while next < |lines|
      invariant h + 1 <= next <= |lines|
      invariant read == stream[..next - h]
      invariant Splitting(header, read, documents, currentDocumentText)
    {
      var currentLine := Terminated(lines[next]);
      StreamPrefix(lines, next);
      next := next + 1;
      if IsSeparator(currentLine) {
        SplittingOpen(header, read, currentLine, documents, currentDocumentText);
        read := read + [currentLine];
        documents := documents + [currentDocumentText];
        currentDocumentText := header + currentLine;
      } else {
        SplittingExtend(header, read, currentLine, documents, currentDocumentText);
        read := read + [currentLine];
        currentDocumentText := currentDocumentText + currentLine;
      }
    }
    StreamWhole(lines, read);
    SplittingDone(header, read, documents, currentDocumentText);
    documents := documents + [currentDocumentText];
  }

  /** The splitter as evidently intended: every line, not only those read
      before the first separator, has its `stripped` tag repaired. */
  function SplitDocumentsRepaired(lines: seq<Line>): seq<string> {
    var h := HeaderLength(lines);
    if h == |lines| then []
    else Texts(HeaderText(lines), Chunks(Repaired(lines[h..])))
  }

  /** With the repair applied to every line, the parser sees each line of the
      file repaired exactly once: the header is the repaired header lines and
      the document bodies, joined, are the repaired remaining lines, one
      document per separator line. */
  lemma RepairedSplitSeesEveryLineRepaired(lines: seq<Line>)
    requires HeaderLength(lines) < |lines|
    ensures HeaderText(lines) == Concat(Repaired(lines)[..HeaderLength(lines)])
    ensures SplitDocumentsRepaired(lines) == Texts(HeaderText(lines), Chunks(Repaired(lines)[HeaderLength(lines)..]))
    ensures Flatten(Chunks(Repaired(lines)[HeaderLength(lines)..])) == Repaired(lines)[HeaderLength(lines)..]
    ensures Grouped(Chunks(Repaired(lines)[HeaderLength(lines)..]))
    ensures |SplitDocumentsRepaired(lines)| == CountSeparators(Repaired(lines))
  {
    var h := HeaderLength(lines);
    HeaderLengthMeaning(lines);
    RepairedSlices(lines, h);
    assert Repaired(lines[h..])[0] == FixStripped(Terminated(lines[h]));
    FixStrippedKeepsSeparator(Terminated(lines[h]));
    ChunksPartition(Repaired(lines[h..]));
    RepairedSeparators(lines);
  }

  lemma RepairedSlices(lines: seq<Line>, h: nat)
    requires h <= |lines|
    ensures Repaired(lines)[..h] == Repaired(lines[..h])
    ensures Repaired(lines)[h..] == Repaired(lines[h..])
    ensures Repaired(lines) == Repaired(lines[..h]) + Repaired(lines[h..])
  {
    assert Repaired(lines) == Repaired(lines)[..h] + Repaired(lines)[h..];
  }

  /** The repaired header holds no separator line. */
  lemma RepairedSeparators(lines: seq<Line>)
    ensures CountSeparators(Repaired(lines)) == CountSeparators(Repaired(lines[HeaderLength(lines)..]))
  {
    var h := HeaderLength(lines);
    HeaderLengthMeaning(lines);
    RepairedSlices(lines, h);
    CountSeparatorsAppend(Repaired(lines[..h]), Repaired(lines[h..]));
    RepairedHeaderHasNoSeparator(lines[..h]);
  }

  lemma {:induction false} RepairedHeaderHasNoSeparator(lines: seq<Line>)
    requires forall k :: 0 <= k < |lines| ==> !IsSeparator(Terminated(lines[k]))
    ensures CountSeparators(Repaired(lines)) == 0
    decreases |lines|
  {
    if lines != [] {
      assert Repaired(lines)[..|lines| - 1] == Repaired(lines[..|lines| - 1]);
      FixStrippedKeepsSeparator(Terminated(lines[|lines| - 1]));
      RepairedHeaderHasNoSeparator(lines[..|lines| - 1]);
    }
  }

  /** The file the two lemmas below split: a component, then a stripped prefab
      object whose separator carries the `stripped` tag. */
  const StrippedExample: seq<Line> := ["--- !u!1 &1", "--- !u!1001 &2 stripped"]

  /** Two separator lines make two documents of one line each. */
  lemma TwoSeparatorsSplit(header: string, x: string, y: string)
    requires IsSeparator(x) && IsSeparator(y)
    ensures Texts(header, Chunks([x, y])) == [header + x, header + y]
  {
    var cs := Chunks([x, y]);
    assert cs == [[x], [y]] by {
      ChunksSnoc([], x);
      assert [] + [x] == [x];
      ChunksSnoc([x], y);
      assert [x] + [y] == [x, y];
    }
    assert Texts(header, cs)[0] == header + x by {
      ConcatSnoc([], x);
      assert [] + [x] == [x];
    }
    assert Texts(header, cs)[1] == header + y by {
      ConcatSnoc([], y);
      assert [] + [y] == [y];
    }
  }

  /** The second line of the example carries the defect; the first does not. */
  lemma ExampleLines()
    ensures !HasStrippedDefect(Terminated(StrippedExample[0]))
    ensures HasStrippedDefect(Terminated(StrippedExample[1]))
    ensures FixStripped(Terminated(StrippedExample[1])) == "--- !u!1001 &2\n"
  {
    ExampleFirstLine();
    ExampleMatch();
    FixStrippedIsTheRegexRewrite(Terminated(StrippedExample[1]));
  }

  lemma ExampleFirstLine()
    ensures !HasStrippedDefect(Terminated(StrippedExample[0]))
  {
    var first := Terminated(StrippedExample[0]);
    assert first[|first| - 10..][0] == '-';
  }

  lemma ExampleMatch()
    ensures MatchAt(Terminated(StrippedExample[1]), 7, 11)
  {
    var second := Terminated(StrippedExample[1]);
    ExampleSecondLine();
    assert second[7..11] == "1001";
    assert second[11..13] == " &";
    assert second[13..14] == "2";
    assert second[14..] == " stripped\n";
  }

  lemma ExampleSecondLine()
    ensures Terminated(StrippedExample[1]) == "--- !u!1001 &2 stripped\n"
  {
  }

  lemma ExampleHeader()
    ensures HeaderLength(StrippedExample) == 0 && HeaderText(StrippedExample) == ""
  {
    assert StrippedExample[..0] == [];
  }

  lemma ExampleStream()
    requires HeaderLength(StrippedExample) == 0
    requires !HasStrippedDefect(Terminated(StrippedExample[0]))
    ensures StreamLines(StrippedExample) == [Terminated(StrippedExample[0]), Terminated(StrippedExample[1])]
  {
    var lines := StrippedExample;
    assert lines[1..] == [lines[1]];
    assert Raw(lines[1..]) == [Terminated(lines[1])];
  }

  /** As written, only lines read by `ReadHeader` are repaired: the second
      separator reaches the parser with its `stripped` tag still on it. */
  lemma StrippedTagSurvivesAfterFirstDocument()
    ensures SplitDocuments(StrippedExample) == ["--- !u!1 &1\n", "--- !u!1001 &2 stripped\n"]
    ensures HasStrippedDefect(SplitDocuments(StrippedExample)[1])
  {
    ExampleHeader();
    ExampleLines();
    ExampleSecondLine();
    ExampleStream();
    var stream := StreamLines(StrippedExample);
    TwoSeparatorsSplit("", stream[0], stream[1]);
    assert "" + stream[0] == "--- !u!1 &1\n";
    assert "" + stream[1] == "--- !u!1001 &2 stripped\n";
  }

  /** The corrected splitter hands the parser the second separator repaired. */
  lemma RepairedSplitRepairsEveryDocument()
    ensures SplitDocumentsRepaired(StrippedExample) == ["--- !u!1 &1\n", "--- !u!1001 &2\n"]
  {
    var lines := StrippedExample;
    ExampleHeader();
    ExampleLines();
    var fixedLines := Repaired(lines[0..]);
    assert lines[0..] == lines;
    assert fixedLines == [Terminated(lines[0]), "--- !u!1001 &2\n"];
    TwoSeparatorsSplit("", fixedLines[0], fixedLines[1]);
    assert "" + fixedLines[0] == "--- !u!1 &1\n";
    assert "" + fixedLines[1] == "--- !u!1001 &2\n";
  }
}
