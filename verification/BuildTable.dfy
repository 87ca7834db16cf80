/**
 The build table: one script prints the routes of a build as a Markdown table, another reads the
 table back to make a sitemap.
 */
module BuildTable {
  import opened Wrappers
  import opened Text

  /** What the route pattern captures from a build line. */
  datatype Capture = Capture(kind: char, route: string, size: string, firstLoad: string)

  /** What the pattern guarantees of its captures in a line without line breaks: the route starts
      with a slash and has no white space, the size is two words, the rest starts with a word. */
  predicate Captured(m: Capture) {
    && m.route != [] && m.route[0] == '/' && (forall c :: c in m.route ==> !IsSpace(c))
    && Trimmed(m.size) && '\n' !in m.size
    && m.firstLoad != [] && !IsSpace(m.firstLoad[0]) && '\n' !in m.firstLoad
  }

  /** One way the route pattern can read a line: tree mark, kind, route, size in two words, the rest. */
  datatype Reading = Reading(
    before: string, mark: char, gap1: string, gap2: string, gap3: string,
    first: string, gap: string, second: string, gap4: string, after: string)

  predicate Blank(s: string) { s != [] && forall c :: c in s ==> IsSpace(c) }

  predicate Word(s: string) { s != [] && forall c :: c in s ==> !IsSpace(c) }

  /** The characters that the pattern's dot does not match. */
  predicate EndsLine(c: char) { c in {'\n', '\r', '\U{2028}', '\U{2029}'} }

  // The line from each part of the pattern on.

  function FromRest(p: Reading, m: Capture): string { m.firstLoad + p.after }

  function FromSecond(p: Reading, m: Capture): string { p.second + (p.gap4 + FromRest(p, m)) }

  function FromFirst(p: Reading, m: Capture): string { p.first + (p.gap + FromSecond(p, m)) }

  function FromRoute(p: Reading, m: Capture): string { m.route + (p.gap3 + FromFirst(p, m)) }

  function FromKind(p: Reading, m: Capture): string { [m.kind] + (p.gap2 + FromRoute(p, m)) }

  function FromMark(p: Reading, m: Capture): string { [p.mark] + (p.gap1 + FromKind(p, m)) }

  predicate Reads(line: string, p: Reading, m: Capture) {
    && p.mark in {'\U{251C}', '\U{2514}', '\U{250C}'} && m.kind in {'\U{25CB}', '\U{0192}'}
    && Blank(p.gap1) && Blank(p.gap2) && Blank(p.gap3) && Blank(p.gap) && Blank(p.gap4)
    && Word(m.route) && m.route[0] == '/' && Word(p.first) && Word(p.second)
    && m.size == p.first + p.gap + p.second
    && m.firstLoad != [] && !IsSpace(m.firstLoad[0]) && (forall c :: c in m.firstLoad ==> !EndsLine(c))
    && (p.after != [] ==> EndsLine(p.after[0]))
    && line == p.before + FromMark(p, m)
  }

  /** What a reading of a single line captures can be printed as one row. */
  lemma ReadingIsCaptured(line: string, p: Reading, m: Capture)
    requires Reads(line, p, m) && '\n' !in line
    ensures Captured(m)
  {
    assert m.size[0] == p.first[0] && m.size[|m.size| - 1] == p.second[|p.second| - 1];
    assert '\n' !in p.first && '\n' !in p.gap && '\n' !in p.second;
  }

  /** Where a reading starts decides everything it captures. */
  lemma CaptureIsUnique(line: string, p: Reading, m: Capture, q: Reading, n: Capture)
    requires Reads(line, p, m) && Reads(line, q, n) && |p.before| == |q.before|
    ensures m == n
  {
    assert FromMark(p, m) == line[|p.before|..] == FromMark(q, n);
    assert FromMark(p, m)[1..] == p.gap1 + FromKind(p, m) && FromMark(q, n)[1..] == q.gap1 + FromKind(q, n);
    SameRun(p.gap1, FromKind(p, m), q.gap1, FromKind(q, n), IsSpace);
    assert m.kind == FromKind(p, m)[0] == n.kind;
    assert FromKind(p, m)[1..] == p.gap2 + FromRoute(p, m) && FromKind(q, n)[1..] == q.gap2 + FromRoute(q, n);
    SameRun(p.gap2, FromRoute(p, m), q.gap2, FromRoute(q, n), IsSpace);
    SameRoute(p, m, q, n);
  }

  lemma SameRoute(p: Reading, m: Capture, q: Reading, n: Capture)
    requires Word(m.route) && Blank(p.gap3) && Word(n.route) && Blank(q.gap3)
    requires Word(p.first) && Blank(p.gap) && Word(q.first) && Blank(q.gap)
    requires Word(p.second) && Blank(p.gap4) && Word(q.second) && Blank(q.gap4)
    requires m.firstLoad != [] && !IsSpace(m.firstLoad[0]) && (forall c :: c in m.firstLoad ==> !EndsLine(c))
    requires n.firstLoad != [] && !IsSpace(n.firstLoad[0]) && (forall c :: c in n.firstLoad ==> !EndsLine(c))
    requires (p.after != [] ==> EndsLine(p.after[0])) && (q.after != [] ==> EndsLine(q.after[0]))
    requires FromRoute(p, m) == FromRoute(q, n)
    ensures m.route == n.route && p.first == q.first && p.gap == q.gap && p.second == q.second && m.firstLoad == n.firstLoad
  {
    WordThenGap(m.route, p.gap3, FromFirst(p, m), n.route, q.gap3, FromFirst(q, n));
    WordThenGap(p.first, p.gap, FromSecond(p, m), q.first, q.gap, FromSecond(q, n));
    WordThenGap(p.second, p.gap4, FromRest(p, m), q.second, q.gap4, FromRest(q, n));
    SameRun(m.firstLoad, p.after, n.firstLoad, q.after, c => !EndsLine(c));
  }

  lemma WordThenGap(w: string, g: string, x: string, v: string, h: string, y: string)
    requires Word(w) && Blank(g) && Word(v) && Blank(h) && x != [] && !IsSpace(x[0]) && y != [] && !IsSpace(y[0])
    requires w + (g + x) == v + (h + y)
    ensures w == v && g == h && x == y
  {
    assert (g + x)[0] == g[0] && (h + y)[0] == h[0];
    SameRun(w, g + x, v, h + y, c => !IsSpace(c));
    SameRun(g, x, h, y, IsSpace);
  }

  /** What searching a line with the pattern gives: the capture of the leftmost reading, if any. */
  ghost predicate Search(line: string, found: Option<Capture>) {
    match found
    case None => forall p, m :: !Reads(line, p, m)
    case Some(m) => exists p :: Reads(line, p, m) && forall q, n :: Reads(line, q, n) ==> |p.before| <= |q.before|
  }

  /** The search has one result. */
  lemma SearchIsUnique(line: string, a: Option<Capture>, b: Option<Capture>)
    requires Search(line, a) && Search(line, b)
    ensures a == b
  {
    if a.Some? && b.Some? {
      var p :| Reads(line, p, a.value) && forall q, n :: Reads(line, q, n) ==> |p.before| <= |q.before|;
      var q :| Reads(line, q, b.value) && forall p, n :: Reads(line, p, n) ==> |q.before| <= |p.before|;
      CaptureIsUnique(line, p, a.value, q, b.value);
    }
  }

  datatype Route = Route(kind: string, route: string, size: string, firstLoadJs: string)

  function KindName(kind: char): string {
    if kind == '\U{25CB}' then "Static" else "Dynamic"
  }

  /** The row a capture stands for. */
  function RowOf(m: Capture): Route {
    Route(KindName(m.kind), m.route, m.size, Trim(m.firstLoad))
  }

  // ----- printing

  const HEADER: string := "|" + " Type " + "|" + " Route | Size | First Load JS |"
  const RULE: string := "|" + "------" + "|" + "-------|------|---------------|"

  function PrintRow(r: Route): string {
    "| " + r.kind + " | `" + r.route + "` | " + r.size + " | " + r.firstLoadJs + " |"
  }

  type Matcher = string -> Option<Capture>

  /** The captures of the lines that match, in order. */
  function Captures(lines: seq<string>, matcher: Matcher): seq<Capture> {
    Collect(Each(matcher, lines))
  }

  function PrintCapture(m: Capture): string { PrintRow(RowOf(m)) }

  function PrintedRows(ms: seq<Capture>): seq<string> { Each(PrintCapture, ms) }

  function Printed(ms: seq<Capture>): string {
    Join([HEADER, RULE] + PrintedRows(ms), '\n')
  }

  method FormatTableLines(lines: seq<string>, matcher: Matcher) returns (content: string)
    ensures content == Printed(Captures(lines, matcher))
  {
    var tableLines := [HEADER, RULE];
    ghost var found: seq<Capture> := [];
    for i := 0 to |lines|
      invariant found == Captures(lines[..i], matcher)
      invariant tableLines == [HEADER, RULE] + PrintedRows(found)
    {
      assert Each(matcher, lines[..i + 1])[..i] == Each(matcher, lines[..i]);
      match matcher(lines[i]) {
        case Some(m) =>
          tableLines := tableLines + ["| " + KindName(m.kind) + " | `" + m.route + "` | " + m.size + " | " + Trim(m.firstLoad) + " |"];
          assert PrintedRows(found + [m]) == PrintedRows(found) + [PrintRow(RowOf(m))];
          found := found + [m];
        case None =>
      }
    }
    assert lines[..|lines|] == lines;
    content := Join(tableLines, '\n');
  }

  // ----- parsing

  function ParseLine(line: string): Option<Route> {
    var cells := Each(Trim, Split(line, '|'));
    if |cells| < 5 || (cells[1] != "Static" && cells[1] != "Dynamic") then None
    else Some(Route(cells[1], Remove(cells[2], '`'), cells[3], cells[4]))
  }

  function ParseLines(lines: seq<string>): seq<Route> {
    Collect(Each(ParseLine, lines))
  }

  method ParseBuildMd(content: string) returns (routes: seq<Route>)
    ensures routes == ParseLines(Split(content, '\n'))
  {
    var lines := Split(content, '\n');
    routes := [];
    for i := 0 to |lines|
      invariant routes == ParseLines(lines[..i])
    {
      assert Each(ParseLine, lines[..i + 1])[..i] == Each(ParseLine, lines[..i]);
      var cells := Each(Trim, Split(lines[i], '|'));
      if |cells| < 5 { continue; }
      if cells[1] != "Static" && cells[1] != "Dynamic" { continue; }
      routes := routes + [Route(cells[1], Remove(cells[2], '`'), cells[3], cells[4])];
    }
    assert lines[..|lines|] == lines;
  }

  // ----- reading a printed row

  /** The cells can be printed and read back: no bar anywhere, and no backtick in the route. */
  predicate Clean(m: Capture) {
    '|' !in m.route && '`' !in m.route && '|' !in m.size && '|' !in Trim(m.firstLoad)
  }

  lemma TrimmedFirstLoad(m: Capture)
    requires Captured(m)
    ensures Trimmed(Trim(m.firstLoad)) && '\n' !in Trim(m.firstLoad)
  {
    assert TrimLeft(m.firstLoad) == m.firstLoad;
  }

  /** Splitting a printed row at its bars. */
  lemma RowCells(r: Route)
    requires '|' !in r.kind
    ensures Split(PrintRow(r), '|') ==
            [""] + ([" " + r.kind + " "] + (Split(" `" + r.route + "` ", '|') + (Split(" " + r.size + " ", '|') +
            (Split(" " + r.firstLoadJs + " ", '|') + [""]))))
  {
    var a, b, c, d := " " + r.kind + " ", " `" + r.route + "` ", " " + r.size + " ", " " + r.firstLoadJs + " ";
    assert PrintRow(r) == "" + "|" + (a + "|" + (b + "|" + (c + "|" + (d + "|" + ""))));
    BarredCells(a, b, c, d);
    SplitNone(a, '|');
  }

  lemma BarredCells(a: string, b: string, c: string, d: string)
    ensures Split("" + "|" + (a + "|" + (b + "|" + (c + "|" + (d + "|" + "")))), '|') ==
            [""] + (Split(a, '|') + (Split(b, '|') + (Split(c, '|') + (Split(d, '|') + [""]))))
  {
    TwoCells("", a, b + "|" + (c + "|" + (d + "|" + "")));
    TwoCells(b, c, d + "|" + "");
    SplitAppend(d, "", '|');
  }

  lemma TwoCells(a: string, b: string, rest: string)
    ensures Split(a + "|" + (b + "|" + rest), '|') == Split(a, '|') + (Split(b, '|') + Split(rest, '|'))
  {
    SplitAppend(a, b + "|" + rest, '|');
    SplitAppend(b, rest, '|');
  }

  lemma CleanCell(s: string)
    requires Trimmed(s) && '|' !in s
    ensures Split(" " + s + " ", '|') == [" " + s + " "] && Trim(" " + s + " ") == s
  {
    SplitNone(" " + s + " ", '|');
    TrimPadded(s);
  }

  /** A cell with a bar in it loses what follows the bar. */
  lemma BrokenCell(s: string)
    requires '|' in s
    ensures |Trim(Split(" " + s + " ", '|')[0])| < |s|
  {
    var t := s + " ";
    assert (" " + s + " ")[1..] == t && '|' in t;
    FirstPart(s, " ");
    var p := Split(t, '|')[0];
    assert Split(" " + s + " ", '|')[0] == " " + p;
    assert (" " + p)[1..] == p;
    assert TrimLeft(" " + p) == TrimLeft(p);
  }

  lemma {:induction false} FirstPart(s: string, more: string)
    requires '|' in s
    ensures Split(s + more, '|')[0] == Split(s, '|')[0] && |Split(s, '|')[0]| < |s|
    decreases |s|
  {
    assert (s + more)[1..] == s[1..] + more;
    if s[0] != '|' { FirstPart(s[1..], more); }
  }

  lemma RouteCell(route: string)
    requires '|' !in route
    ensures Split(" `" + route + "` ", '|') == [" `" + route + "` "]
    ensures Remove(Trim(" `" + route + "` "), '`') == Remove(route, '`')
  {
    var q := "`" + route + "`";
    assert " `" + route + "` " == " " + q + " ";
    CleanCell(q);
    assert q == "`" + (route + "`");
    RemoveAppend("`", route + "`", '`');
    RemoveAppend(route, "`", '`');
    assert Remove("`", '`') == "";
  }

  lemma BrokenRouteCell(route: string)
    requires '|' in route
    ensures |Remove(Trim(Split(" `" + route + "` ", '|')[0]), '`')| < |route|
  {
    var q := "`" + route + "`";
    assert " `" + route + "` " == " " + (q + " ");
    var p := Split(q + " ", '|')[0];
    assert (q + " ")[1..] == route + ("`" + " ");
    FirstPart(route, "`" + " ");
    assert p == "`" + Split(route, '|')[0];
    assert (" " + (q + " "))[1..] == q + " ";
    assert Split(" " + (q + " "), '|')[0] == " " + p;
    assert (" " + p)[1..] == p;
    assert TrimLeft(" " + p) == p;
    var t := TrimRight(p);
    assert t[0] == '`' && |t| <= |p|;
  }

  lemma KindCell(kind: char)
    ensures '|' !in KindName(kind) && Trim(" " + KindName(kind) + " ") == KindName(kind)
  {
    assert Trimmed(KindName(kind));
    TrimPadded(KindName(kind));
  }

  /** The cells the parser looks at, as far as no bar has shifted them. */
  lemma PrintedCells(r: Route)
    requires '|' !in r.kind && Trim(" " + r.kind + " ") == r.kind
    ensures
      var cells := Each(Trim, Split(PrintRow(r), '|'));
      var R, S, F := Split(" `" + r.route + "` ", '|'), Split(" " + r.size + " ", '|'), Split(" " + r.firstLoadJs + " ", '|');
      && |cells| >= 5 && cells[1] == r.kind && cells[2] == Trim(R[0])
      && (|R| == 1 ==> cells[3] == Trim(S[0]))
      && (|R| == |S| == 1 ==> cells[4] == Trim(F[0]))
  {
    RowCells(r);
  }

  /** A printed row is always read as some row, and as the same row exactly when its cells are clean. */
  lemma RowRoundTripIff(m: Capture)
    requires Captured(m)
    ensures ParseLine(PrintRow(RowOf(m))).Some?
    ensures ParseLine(PrintRow(RowOf(m))) == Some(RowOf(m)) <==> Clean(m)
  {
    var r := RowOf(m);
    KindCell(m.kind);
    PrintedCells(r);
    TrimmedFirstLoad(m);
    if '|' in r.route {
      BrokenRouteCell(r.route);
    } else {
      RouteCell(r.route);
      if '|' in r.size {
        BrokenCell(r.size);
      } else {
        CleanCell(r.size);
        if '|' in r.firstLoadJs { BrokenCell(r.firstLoadJs); } else { CleanCell(r.firstLoadJs); }
      }
    }
  }

  // ----- reading the whole table

  /** A one-line title: what stands between its first two bars is no kind. */
  ghost predicate Title(line: string) {
    '\n' !in line && exists cell, rest :: FirstCell(line, cell, rest)
  }

  ghost predicate FirstCell(line: string, cell: string, rest: string) {
    line == "|" + cell + "|" + rest && '|' !in cell && Trim(cell) != "Static" && Trim(cell) != "Dynamic"
  }

  lemma TitlesAreIgnored(line: string)
    requires Title(line)
    ensures ParseLine(line).None?
  {
    var cell, rest :| FirstCell(line, cell, rest);
    assert line == "" + "|" + (cell + "|" + rest);
    SplitAppend("", cell + "|" + rest, '|');
    SplitAppend(cell, rest, '|');
    SplitNone(cell, '|');
  }

  lemma MakeTitle(word: string, cell: string, rest: string)
    requires Trimmed(word) && '|' !in word && word != "Static" && word != "Dynamic"
    requires cell == word || cell == " " + word + " "
    requires '\n' !in cell && '\n' !in rest
    ensures Title("|" + cell + "|" + rest)
  {
    TrimPadded(word);
    assert FirstCell("|" + cell + "|" + rest, cell, rest);
  }

  lemma HeaderIsTitle()
    ensures Title(HEADER)
  {
    MakeTitle("Type", " Type ", " Route | Size | First Load JS |");
  }

  lemma RuleIsTitle()
    ensures Title(RULE)
  {
    MakeTitle("------", "------", "-------|------|---------------|");
  }

  function Rows(ms: seq<Capture>): seq<Route> { Each(RowOf, ms) }

  /** Each printed row is one line, read as some row, and as its own exactly when clean. */
  predicate ReadsBack(line: string, m: Capture) {
    '\n' !in line && ParseLine(line).Some? && (ParseLine(line) == Some(RowOf(m)) <==> Clean(m))
  }

  lemma RowReadsBack(m: Capture)
    requires Captured(m)
    ensures ReadsBack(PrintRow(RowOf(m)), m)
  {
    RowRoundTripIff(m);
    RowIsOneLine(m);
  }

  lemma RowIsOneLine(m: Capture)
    requires Captured(m)
    ensures '\n' !in PrintRow(RowOf(m))
  {
    TrimmedFirstLoad(m);
    assert '\n' !in m.route && '\n' !in KindName(m.kind);
  }

  /** Rows that are each present, and right just when clean, are right together just when all clean. */
  lemma OptionsReadBack(options: seq<Option<Route>>, rows: seq<Route>, ms: seq<Capture>)
    requires |options| == |ms| == |rows|
    requires forall i :: 0 <= i < |ms| ==> options[i].Some? && (options[i].value == rows[i] <==> Clean(ms[i]))
    ensures Collect(options) == rows <==> forall i :: 0 <= i < |ms| ==> Clean(ms[i])
  {
    CollectPresent(options);
    var parsed := Collect(options);
    assert forall i :: 0 <= i < |ms| ==> (parsed[i] == rows[i] <==> Clean(ms[i]));
  }

  lemma TitlesAreSkipped(title: string, rule: string, lines: seq<string>)
    requires Title(title) && Title(rule)
    ensures ParseLines([title, rule] + lines) == Collect(Each(ParseLine, lines))
  {
    TitlesAreIgnored(title);
    TitlesAreIgnored(rule);
    EachSkips(ParseLine, [title, rule], lines);
  }

  lemma LinesReadBack(lines: seq<string>, ms: seq<Capture>)
    requires |lines| == |ms| && forall i :: 0 <= i < |ms| ==> ReadsBack(lines[i], ms[i])
    ensures Collect(Each(ParseLine, lines)) == Rows(ms) <==> forall i :: 0 <= i < |ms| ==> Clean(ms[i])
    ensures forall l :: l in lines ==> '\n' !in l
  {
    var options := Each(ParseLine, lines);
    forall i | 0 <= i < |ms|
      ensures options[i].Some? && (options[i].value == Rows(ms)[i] <==> Clean(ms[i])) && '\n' !in lines[i]
    {
      assert ReadsBack(lines[i], ms[i]);
    }
    OptionsReadBack(options, Rows(ms), ms);
  }

  /** Parsing what was printed gives back exactly the printed rows, in order, with the title lines
      ignored, when and only when every cell is clean. */
  lemma TableRoundTripIff(ms: seq<Capture>)
    requires forall m :: m in ms ==> Captured(m)
    ensures ParseLines(Split(Printed(ms), '\n')) == Rows(ms) <==> forall i :: 0 <= i < |ms| ==> Clean(ms[i])
  {
    HeaderIsTitle();
    RuleIsTitle();
    forall i | 0 <= i < |ms|
      ensures ReadsBack(PrintedRows(ms)[i], ms[i])
    {
      RowReadsBack(ms[i]);
    }
    LinesReadBack(PrintedRows(ms), ms);
    SplitJoin([HEADER, RULE] + PrintedRows(ms), '\n');
    TitlesAreSkipped(HEADER, RULE, PrintedRows(ms));
  }

  /** The matcher searches each of these one-line strings with the pattern. */
  ghost predicate SearchesAll(lines: seq<string>, matcher: Matcher) {
    forall i :: 0 <= i < |lines| ==> '\n' !in lines[i] && Search(lines[i], matcher(lines[i]))
  }

  lemma CapturesArePrintable(lines: seq<string>, matcher: Matcher, m: Capture)
    requires SearchesAll(lines, matcher) && m in Captures(lines, matcher)
    ensures Captured(m)
  {
    var options := Each(matcher, lines);
    CollectMembers(options, m);
    var i :| 0 <= i < |options| && options[i] == Some(m);
    assert Search(lines[i], matcher(lines[i]));
    var p :| Reads(lines[i], p, m);
    ReadingIsCaptured(lines[i], p, m);
  }

  /** Reading back what was printed for the lines of a build gives exactly the rows captured from
      them, when and only when these are clean. */
  lemma BuildRoundTripIff(lines: seq<string>, matcher: Matcher)
    requires SearchesAll(lines, matcher)
    ensures
      var ms := Captures(lines, matcher);
      ParseLines(Split(Printed(ms), '\n')) == Rows(ms) <==> forall i :: 0 <= i < |ms| ==> Clean(ms[i])
  {
    var ms := Captures(lines, matcher);
    forall m | m in ms ensures Captured(m) { CapturesArePrintable(lines, matcher, m); }
    TableRoundTripIff(ms);
  }

  /** A bar inside a cell really changes what is read. */
  lemma BarredRouteIsMisread()
    ensures
      var m := Capture('\U{25CB}', "/a|b", "1 kB", "2 kB");
      Captured(m) && ParseLines(Split(Printed([m]), '\n')) != Rows([m])
  {
    var m := Capture('\U{25CB}', "/a|b", "1 kB", "2 kB");
    assert m.route[2] == '|' && !Clean([m][0]);
    TableRoundTripIff([m]);
  }

  /** Five cells make a row, whatever surrounds them, if the second names a kind; four do not. */
  lemma FiveCellsMakeARow(a: string, b: string, c: string, d: string, e: string)
    requires '|' !in a && '|' !in b && '|' !in c && '|' !in d && '|' !in e
    ensures ParseLine(a + "|" + (b + "|" + (c + "|" + (d + "|" + e)))) ==
            if Trim(b) == "Static" || Trim(b) == "Dynamic"
            then Some(Route(Trim(b), Remove(Trim(c), '`'), Trim(d), Trim(e))) else None
    ensures ParseLine(a + "|" + (b + "|" + (c + "|" + d))) == None
  {
    FiveCells(a, b, c, d, e);
    FourCells(a, b, c, d);
  }

  lemma FiveCells(a: string, b: string, c: string, d: string, e: string)
    requires '|' !in a && '|' !in b && '|' !in c && '|' !in d && '|' !in e
    ensures Split(a + "|" + (b + "|" + (c + "|" + (d + "|" + e))), '|') == [a, b, c, d, e]
  {
    TwoCells(a, b, c + "|" + (d + "|" + e));
    TwoCells(c, d, e);
    SplitNone(a, '|');
    SplitNone(b, '|');
    SplitNone(c, '|');
    SplitNone(d, '|');
    SplitNone(e, '|');
  }

  lemma FourCells(a: string, b: string, c: string, d: string)
    requires '|' !in a && '|' !in b && '|' !in c && '|' !in d
    ensures Split(a + "|" + (b + "|" + (c + "|" + d)), '|') == [a, b, c, d]
  {
    TwoCells(a, b, c + "|" + d);
    SplitAppend(c, d, '|');
    SplitNone(a, '|');
    SplitNone(b, '|');
    SplitNone(c, '|');
    SplitNone(d, '|');
  }

  // ----- the sitemap

  predicate OnSitemap(path: string) {
    !("/api/" <= path) && '[' !in path && path !in ["/_not-found", "/opengraph-image.png"]
  }

  predicate Listed(r: Route) { r.kind == "Static" && OnSitemap(r.route) }

  function ListedRoutes(rows: seq<Route>): seq<string> {
    if rows == [] then []
    else (if Listed(rows[0]) then [rows[0].route] else []) + ListedRoutes(rows[1..])
  }

  function ParseRoutes(content: string): seq<string> {
    ListedRoutes(ParseLines(Split(content, '\n')))
  }

  /** A page that is no interface, has no parameter, and is none of the two excluded ones. */
  predicate PublicPage(path: string) {
    && (|path| < 5 || path[..5] != "/api/")
    && (forall c :: c in path ==> c != '[')
    && path != "/_not-found" && path != "/opengraph-image.png"
  }

  lemma OnSitemapIsPublic(path: string)
    ensures OnSitemap(path) <==> PublicPage(path)
  {
  }

  /** The static pages of a build that belong on the sitemap: no interfaces, no parametrised pages,
      none of the excluded ones. */
  function StaticPages(ms: seq<Capture>): seq<string> {
    if ms == [] then []
    else (if ms[0].kind == '\U{25CB}' && PublicPage(ms[0].route) then [ms[0].route] else []) + StaticPages(ms[1..])
  }

  lemma {:induction false} ListedAreStaticPages(ms: seq<Capture>)
    ensures ListedRoutes(Rows(ms)) == StaticPages(ms)
    decreases |ms|
  {
    if ms != [] {
      assert Rows(ms)[1..] == Rows(ms[1..]);
      OnSitemapIsPublic(ms[0].route);
      ListedAreStaticPages(ms[1..]);
    }
  }

  /** The sitemap made from the table printed for a build lists exactly these pages, in the order of
      the build and as often as there. */
  lemma SitemapListsStaticPages(lines: seq<string>, matcher: Matcher)
    requires SearchesAll(lines, matcher)
    requires forall m :: m in Captures(lines, matcher) ==> Clean(m)
    ensures ParseRoutes(Printed(Captures(lines, matcher))) == StaticPages(Captures(lines, matcher))
  {
    BuildRoundTripIff(lines, matcher);
    ListedAreStaticPages(Captures(lines, matcher));
  }
}
