/** The minimal PDF writer (`scripts/generate_sample_tz_binary.py`), read back
    by a reader that follows ISO 32000-1. One character stands for one byte. */
module PdfWriter {
  import opened Options
  import opened Text

  // ---- Lines ---------------------------------------------------------------

  /** The ASCII line boundaries of `str.splitlines`. */
  predicate Break(c: char) {
    c == '\n' || c == '\r' || c as int == 11 || c as int == 12 || 28 <= c as int <= 30
  }

  function LineEnd(s: string): (n: nat)
    ensures n <= |s| && (n < |s| ==> Break(s[n]))
    ensures forall i :: 0 <= i < n ==> !Break(s[i])
  {
    if s == "" || Break(s[0]) then 0 else 1 + LineEnd(s[1..])
  }

  function SplitLines(s: string): (lines: seq<string>)
    ensures forall i :: 0 <= i < |lines| ==> forall c :: c in lines[i] ==> !Break(c)
  {
    if s == "" then [] else
    var n := LineEnd(s);
    if n == |s| then [s] else
    [s[..n]] + SplitLines(s[n + |FirstSep(s)|..])
  }

  /** What ends the first line: a line feed belongs to a carriage return before it. */
  function FirstSep(s: string): (sep: string)
    requires LineEnd(s) < |s|
    ensures var n := LineEnd(s); sep != "" && n + |sep| <= |s| && s[n..n + |sep|] == sep
  {
    var n := LineEnd(s);
    if s[n] == '\r' && n + 1 < |s| && s[n + 1] == '\n' then
      assert s[n..n + 2] == "\r\n";
      "\r\n"
    else
      assert s[n..n + 1] == [s[n]];
      [s[n]]
  }

  /** Line feed, carriage return, vertical tab, form feed and the three ASCII
      separators 28 to 30. */
  predicate LineBreak(c: char) { c as int in {10, 13, 11, 12, 28, 29, 30} }

  /** The lines, each with what separates it from the next. */
  function Joined(lines: seq<string>, seps: seq<string>): string
    requires |lines| == |seps|
  {
    if lines == [] then "" else lines[0] + (seps[0] + Joined(lines[1..], seps[1..]))
  }

  /** One line break, or the two characters \r\n; nothing only after a last line
      that is not empty. */
  ghost predicate SepAt(lines: seq<string>, seps: seq<string>, i: nat)
    requires |lines| == |seps| && i < |lines|
  {
    || seps[i] == "\r\n"
    || (|seps[i]| == 1 && LineBreak(seps[i][0]))
    || (seps[i] == "" && i == |lines| - 1 && lines[i] != "")
  }

  /** A \r that is a separator of its own has no \n behind it. */
  ghost predicate WholeAt(lines: seq<string>, seps: seq<string>, i: nat)
    requires |lines| == |seps| && i < |lines|
  {
    seps[i] == "\r" && i + 1 < |lines| && lines[i + 1] == "" ==> seps[i + 1] != "\n"
  }

  /** The text is these lines with separators between them. */
  ghost predicate Splits(s: string, lines: seq<string>, seps: seq<string>) {
    && |lines| == |seps| && s == Joined(lines, seps)
    && (forall i :: 0 <= i < |lines| ==> forall c :: c in lines[i] ==> !LineBreak(c))
    && (forall i :: 0 <= i < |lines| ==> SepAt(lines, seps, i) && WholeAt(lines, seps, i))
  }

  lemma SplitsTail(s: string, lines: seq<string>, seps: seq<string>)
    requires Splits(s, lines, seps) && lines != []
    ensures |lines| == |seps| && Splits(Joined(lines[1..], seps[1..]), lines[1..], seps[1..])
  {
    var ls, ss := lines[1..], seps[1..];
    forall i | 0 <= i < |ls| ensures SepAt(ls, ss, i) && WholeAt(ls, ss, i) {
      assert SepAt(lines, seps, i + 1) && WholeAt(lines, seps, i + 1);
    }
  }

  lemma SplitsCons(line: string, sep: string, s: string, lines: seq<string>, seps: seq<string>)
    requires Splits(s, lines, seps) && (forall c :: c in line ==> !LineBreak(c))
    requires SepAt([line] + lines, [sep] + seps, 0) && WholeAt([line] + lines, [sep] + seps, 0)
    ensures Splits(line + (sep + s), [line] + lines, [sep] + seps)
  {
    var ls, ss := [line] + lines, [sep] + seps;
    assert ls[1..] == lines && ss[1..] == seps;
    forall i | 0 <= i < |ls| ensures SepAt(ls, ss, i) && WholeAt(ls, ss, i) {
      if i > 0 { assert SepAt(lines, seps, i - 1) && WholeAt(lines, seps, i - 1); }
    }
  }

  /** Where the first line ends. */
  lemma LineEndIs(line: string, rest: string)
    requires (forall c :: c in line ==> !Break(c)) && (rest == "" || Break(rest[0]))
    ensures LineEnd(line + rest) == |line|
  {
    var s := line + rest;
    forall i | 0 <= i < |line| ensures s[i] == line[i] && s[i] in line {}
    assert rest != "" ==> s[|line|] == rest[0];
  }

  lemma BreakIs(c: char)
    ensures Break(c) <==> LineBreak(c)
  {
  }

  lemma SplitStep(s: string)
    requires LineEnd(s) < |s|
    ensures var n, m := LineEnd(s), LineEnd(s) + |FirstSep(s)|;
            m <= |s| && s[n..m] == FirstSep(s) && SplitLines(s) == [s[..n]] + SplitLines(s[m..])
  {
    hide LineEnd, FirstSep;
  }

  lemma CutTwice(s: string, n: nat, m: nat)
    requires n <= m <= |s|
    ensures s == s[..n] + (s[n..m] + s[m..])
  {
  }

  /** What the first separator leaves behind. */
  lemma FirstSepCuts(s: string, lines: seq<string>, seps: seq<string>)
    requires LineEnd(s) < |s| && Splits(s[LineEnd(s) + |FirstSep(s)|..], lines, seps)
    ensures var ls, ss := [s[..LineEnd(s)]] + lines, [FirstSep(s)] + seps;
            SepAt(ls, ss, 0) && WholeAt(ls, ss, 0)
  {
    var n, sep := LineEnd(s), FirstSep(s);
    BreakIs(s[n]);
    var rest := s[n + |sep|..];
    if lines != [] && sep == "\r" {
      assert lines[0] == "" ==> rest == seps[0] + Joined(lines[1..], seps[1..]);
      assert rest != "" ==> rest[0] == s[n + 1];
    }
  }

  lemma OneLine(s: string)
    requires s != "" && LineEnd(s) == |s|
    ensures SplitLines(s) == [s] && Splits(s, [s], [""])
  {
    hide LineEnd, FirstSep, Break, LineBreak;
    assert SplitLines(s) == [s];
    hide SplitLines;
    forall c | c in s ensures !LineBreak(c) { BreakIs(c); }
    JoinedOne(s);
  }

  lemma JoinedOne(s: string)
    ensures Joined([s], [""]) == s
  {
    assert [s][1..] == [] && [""][1..] == [];
    assert s + ("" + "") == s;
  }

  lemma SplitsFirst(s: string, lines: seq<string>, seps: seq<string>)
    requires LineEnd(s) < |s| && Splits(s[LineEnd(s) + |FirstSep(s)|..], lines, seps)
    ensures Splits(s, [s[..LineEnd(s)]] + lines, [FirstSep(s)] + seps)
  {
    hide SplitLines, Splits, SepAt, WholeAt, Break, LineBreak;
    var n := LineEnd(s);
    var m := n + |FirstSep(s)|;
    forall c | c in s[..n] ensures !LineBreak(c) { BreakIs(c); }
    FirstSepCuts(s, lines, seps);
    CutTwice(s, n, m);
    SplitsCons(s[..n], FirstSep(s), s[m..], lines, seps);
  }

  lemma NoLines()
    ensures SplitLines("") == [] && Splits("", [], [])
  {
  }

  /** The lines of a text, with their separators, are a splitting of it ... */
  lemma {:induction false} LinesSplit(s: string) returns (seps: seq<string>)
    ensures Splits(s, SplitLines(s), seps)
    decreases |s|
  {
    hide *;
    if s == "" {
      NoLines();
      return [];
    }
    if LineEnd(s) == |s| {
      OneLine(s);
      return [""];
    }
    SplitStep(s);
    var m := LineEnd(s) + |FirstSep(s)|;
    var tail := LinesSplit(s[m..]);
    seps := [FirstSep(s)] + tail;
    SplitsFirst(s, SplitLines(s[m..]), tail);
  }

  lemma SplitsLength(s: string, lines: seq<string>, seps: seq<string>)
    requires Splits(s, lines, seps)
    ensures |lines| == |seps| && (lines == [] ==> s == "")
  {
  }

  /** ... and the only one. */
  lemma {:induction false} SplittingIsUnique(s: string, lines: seq<string>, seps: seq<string>)
    requires Splits(s, lines, seps)
    ensures lines == SplitLines(s)
    decreases |lines|
  {
    hide *;
    SplitsLength(s, lines, seps);
    if lines == [] {
      NoLines();
      return;
    }
    var line, sep, rest := lines[0], seps[0], Joined(lines[1..], seps[1..]);
    FirstLine(s, lines, seps);
    SplitsTail(s, lines, seps);
    SplittingIsUnique(rest, lines[1..], seps[1..]);
    if sep == "" {
      OneLine(s);
      assert lines == [line];
    } else {
      FirstSepIs(s, lines, seps);
      UniqueStep(s, line, sep, rest);
      assert lines == [line] + lines[1..];
    }
  }

  lemma UniqueStep(s: string, line: string, sep: string, rest: string)
    requires s == line + (sep + rest) && LineEnd(s) == |line| < |s| && FirstSep(s) == sep
    ensures SplitLines(s) == [line] + SplitLines(rest)
  {
    hide *;
    SplitStep(s);
    assert s[..|line|] == line && s[|line| + |sep|..] == rest;
  }

  lemma FirstLine(s: string, lines: seq<string>, seps: seq<string>)
    requires Splits(s, lines, seps) && lines != []
    ensures |lines| == |seps| && s == lines[0] + (seps[0] + Joined(lines[1..], seps[1..]))
    ensures LineEnd(s) == |lines[0]|
    ensures seps[0] != "" ==> LineEnd(s) < |s|
    ensures seps[0] == "" ==> |lines| == 1 && s == lines[0] && s != ""
  {
    var line, sep, rest := lines[0], seps[0], Joined(lines[1..], seps[1..]);
    assert SepAt(lines, seps, 0);
    assert s == line + (sep + rest);
    forall c | c in line ensures !Break(c) { BreakIs(c); }
    if sep == "" {
      assert lines[1..] == [];
      assert sep + rest == "" && line + "" == line;
    } else {
      BreakIs(sep[0]);
      assert (sep + rest)[0] == sep[0];
    }
    hide LineEnd;
    LineEndIs(line, sep + rest);
  }

  lemma FirstSepIs(s: string, lines: seq<string>, seps: seq<string>)
    requires Splits(s, lines, seps) && lines != [] && seps[0] != "" && LineEnd(s) == |lines[0]|
    ensures FirstSep(s) == seps[0]
  {
    var line, sep, rest := lines[0], seps[0], Joined(lines[1..], seps[1..]);
    assert SepAt(lines, seps, 0) && WholeAt(lines, seps, 0);
    assert s[|line|] == sep[0];
    if sep == "\r\n" {
      assert s[|line| + 1] == '\n';
    } else if sep == "\r" && rest != "" {
      assert s[|line| + 1] == rest[0];
      assert SepAt(lines, seps, 1);
      BreakIs(rest[0]);
      if lines[1] == "" {
        assert rest[0] == seps[1][0];
      } else {
        assert rest[0] == lines[1][0] && lines[1][0] in lines[1];
      }
    }
  }

  /** Exactly the lines of the text, whatever separates them. */
  lemma SplitLinesIff(s: string, lines: seq<string>)
    ensures lines == SplitLines(s) <==> exists seps :: Splits(s, lines, seps)
  {
    hide Splits, SplitLines;
    if lines == SplitLines(s) { var seps := LinesSplit(s); }
    if seps :| Splits(s, lines, seps) { SplittingIsUnique(s, lines, seps); }
  }

  // ---- Writing -------------------------------------------------------------

  /** Three replacements in a row. */
  function Escape(line: string): string {
    Replace(Replace(Replace(line, "\\", "\\\\"), "(", "\\("), ")", "\\)")
  }

  const SHOW := " Tj T*\n"

  function Show(line: string): string { "(" + (Escape(line) + (")" + SHOW)) }

  function Shows(lines: seq<string>): string {
    if lines == [] then "" else Shows(lines[..|lines| - 1]) + Show(lines[|lines| - 1])
  }

  const PROLOGUE := "BT\n/F1 11 Tf\n72 770 Td\n14 TL\n"
  const EPILOGUE := "ET\n"

  function Content(lines: seq<string>): string { PROLOGUE + (Shows(lines) + EPILOGUE) }

  const LENGTH := "<< /Length "
  const STREAM := " >>\nstream\n"
  const END_STREAM := "endstream"

  function StreamObject(content: string): string {
    LENGTH + (Decimal(|content|) + (STREAM + (content + END_STREAM)))
  }

  const PAGE := "<< /Type /Page /Parent 2 0 R /MediaBox [0 0 595 842] "
                + "/Contents 4 0 R /Resources << /Font << /F1 5 0 R >> >> >>"

  function Objects(content: string): seq<string> {
    ["<< /Type /Catalog /Pages 2 0 R >>",
     "<< /Type /Pages /Kids [3 0 R] /Count 1 >>",
     PAGE,
     StreamObject(content),
     "<< /Type /Font /Subtype /Type1 /BaseFont /Helvetica >>"]
  }

  const HEADER := "%PDF-1.4\n"

  function Opening(k: nat): string { Decimal(k) + " 0 obj\n" }

  const CLOSING := "\nendobj\n"

  function Indirect(k: nat, obj: string): string { Opening(k) + (obj + CLOSING) }

  /** The header and the first k objects; objects are numbered from 1. */
  function Body(objs: seq<string>, k: nat): string
    requires k <= |objs|
  {
    if k == 0 then HEADER else Body(objs, k - 1) + Indirect(k, objs[k - 1])
  }

  function Offset(objs: seq<string>, k: nat): nat
    requires 1 <= k <= |objs|
  {
    |Body(objs, k - 1)|
  }

  function Zeros(n: nat): string { if n == 0 then "" else ['0'] + Zeros(n - 1) }

  /** `f"{n:010d}"` */
  function Padded(n: nat): string {
    var d := Decimal(n); if |d| < 10 then Zeros(10 - |d|) + d else d
  }

  const IN_USE := " 00000 n \n"

  function Entry(offset: nat): string { Padded(offset) + IN_USE }

  const FREE_ENTRY := "0000000000 65535 f \n"

  const XREF := "xref\n0 "
  const NEWLINE := "\n"

  function XrefHeader(n: nat): string { XREF + (Decimal(n + 1) + NEWLINE) }

  /** The entries of objects 0 to k. */
  function Entries(objs: seq<string>, k: nat): string
    requires k <= |objs|
  {
    if k == 0 then FREE_ENTRY else Entries(objs, k - 1) + Entry(Offset(objs, k))
  }

  function Trailer(n: nat): string { "trailer\n<< /Size " + Decimal(n + 1) + " /Root 1 0 R >>\n" }

  const START := "startxref\n"
  const EOF := "\n%%EOF\n"

  function Document(objs: seq<string>): string {
    var n := |objs|;
    Body(objs, n) + (XrefHeader(n) + (Entries(objs, n) + (Trailer(n) + (START + (Decimal(|Body(objs, n)|) + EOF)))))
  }

  /** `to_pdf`, from the ASCII text to the bytes of the file. */
  method ToPdf(text: string) returns (pdf: string)
    ensures pdf == Document(Objects(Content(SplitLines(text))))
  {
    hide Escape, Decimal, Padded, SplitLines, Objects, Document;
    var lines := SplitLines(text);
    var content := PROLOGUE;
    for i := 0 to |lines|
      invariant content == PROLOGUE + Shows(lines[..i])
    {
      var safe := Escape(lines[i]);
      content := content + ("(" + (safe + (")" + SHOW)));
      assert lines[..i + 1][..i] == lines[..i];
    }
    assert lines[..|lines|] == lines;
    content := content + EPILOGUE;
    assert content == Content(lines);
    pdf := Assemble(Objects(content));
  }

  /** The loops of `to_pdf` over its objects. */
  method Assemble(objects: seq<string>) returns (pdf: string)
    ensures pdf == Document(objects)
  {
    hide Decimal, Padded;
    var n := |objects|;
    pdf := HEADER;
    var offsets: seq<nat> := [];
    for i := 0 to n
      invariant pdf == Body(objects, i) && |offsets| == i
      invariant forall k :: 0 <= k < i ==> offsets[k] == Offset(objects, k + 1)
    {
      offsets := offsets + [|pdf|];
      pdf := pdf + Indirect(i + 1, objects[i]);
    }
    var xrefStart := |pdf|;
    var xref := FREE_ENTRY;
    for j := 0 to |offsets|
      invariant xref == Entries(objects, j)
    {
      xref := xref + Entry(offsets[j]);
    }
    pdf := pdf + (XrefHeader(n) + (xref + (Trailer(n) + (START + (Decimal(xrefStart) + EOF)))));
  }

  // ---- Escaping ------------------------------------------------------------

  function EscapeChar(c: char): string {
    if c == '\\' || c == '(' || c == ')' then ['\\', c] else [c]
  }

  /** One escape per character. */
  function EscapeEach(line: string): string {
    if line == "" then "" else EscapeChar(line[0]) + EscapeEach(line[1..])
  }

  lemma ReplaceStep(s: string, c: char, v: string)
    ensures Replace("", [c], v) == ""
    ensures s != "" ==> Replace(s, [c], v) == (if s[0] == c then v else [s[0]]) + Replace(s[1..], [c], v)
  {
    if s != "" { assert [c] <= s <==> s[0] == c; }
  }

  lemma {:induction false} ReplaceAppend(a: string, b: string, c: char, v: string)
    ensures Replace(a + b, [c], v) == Replace(a, [c], v) + Replace(b, [c], v)
  {
    hide Replace;
    ReplaceStep(a, c, v);
    if a == "" {
      assert a + b == b;
    } else {
      ReplaceAppend(a[1..], b, c, v);
      ReplaceStep(a + b, c, v);
      assert (a + b)[1..] == a[1..] + b;
    }
  }

  lemma ReplaceOne(d: char, c: char, v: string)
    ensures Replace([d], [c], v) == if c == d then v else [d]
  {
    hide Replace;
    ReplaceStep([d], c, v);
    assert [d][1..] == "";
    assert v + "" == v;
  }

  lemma ReplaceTwo(d: char, e: char, c: char, v: string)
    ensures Replace([d, e], [c], v) == (if c == d then v else [d]) + (if c == e then v else [e])
  {
    assert [d, e] == [d] + [e];
    ReplaceAppend([d], [e], c, v);
    ReplaceOne(d, c, v);
    ReplaceOne(e, c, v);
  }

  lemma EscapeOne(c: char)
    ensures Escape([c]) == EscapeChar(c)
  {
    hide Replace;
    ReplaceOne(c, '\\', "\\\\");
    if c == '\\' {
      ReplaceTwo('\\', '\\', '(', "\\(");
      ReplaceTwo('\\', '\\', ')', "\\)");
      assert "\\\\" == ['\\', '\\'] == ['\\'] + ['\\'];
    } else {
      ReplaceOne(c, '(', "\\(");
      if c == '(' {
        ReplaceTwo('\\', '(', ')', "\\)");
        assert "\\(" == ['\\'] + ['('];
      } else {
        ReplaceOne(c, ')', "\\)");
      }
    }
  }

  /** No replacement touches what an earlier one inserted. */
  lemma {:induction false} EscapeIsEach(line: string)
    ensures Escape(line) == EscapeEach(line)
  {
    if line != "" {
      hide Replace, EscapeChar;
      var a, b := [line[0]], line[1..];
      assert line == a + b;
      EscapeIsEach(b);
      EscapeOne(line[0]);
      ReplaceAppend(a, b, '\\', "\\\\");
      var a1, b1 := Replace(a, "\\", "\\\\"), Replace(b, "\\", "\\\\");
      ReplaceAppend(a1, b1, '(', "\\(");
      ReplaceAppend(Replace(a1, "(", "\\("), Replace(b1, "(", "\\("), ')', "\\)");
    }
  }

  // ---- A reader for literal strings (section 7.3.4.2) ----------------------

  predicate Octal(c: char) { '0' <= c <= '7' }

  function OctalDigits(s: string): (n: nat)
    ensures n <= |s| && n <= 3
  {
    if s == "" || !Octal(s[0]) then 0
    else if |s| < 2 || !Octal(s[1]) then 1
    else if |s| < 3 || !Octal(s[2]) then 2
    else 3
  }

  function OctalValue(s: string): nat
    requires forall c :: c in s ==> Octal(c)
  {
    if s == "" then 0 else
    assert Octal(s[|s| - 1]);
    OctalValue(s[..|s| - 1]) * 8 + (s[|s| - 1] as int - '0' as int)
  }

  function Unescaped(c: char): char {
    match c
    case 'n' => '\n'
    case 'r' => '\r'
    case 't' => '\t'
    case 'b' => 8 as char
    case 'f' => 12 as char
    case _ => c
  }

  type Parsed = Option<(string, string)>

  function Before(c: char, p: Parsed): Parsed {
    if p.Some? then Some(([c] + p.value.0, p.value.1)) else None
  }

  /** The value of a string whose opening parenthesis has been read, with depth
      further ones open, and what follows its closing parenthesis. */
  function ReadLiteral(s: string, depth: nat): Parsed
    decreases |s|
  {
    if s == "" then None
    else if s[0] == '\\' then
      if |s| < 2 then None
      else if Octal(s[1]) then
        var n := OctalDigits(s[1..]);
        Before((OctalValue(s[1..1 + n]) % 256) as char, ReadLiteral(s[1 + n..], depth))
      else if s[1] == '\r' then ReadLiteral(s[if |s| > 2 && s[2] == '\n' then 3 else 2..], depth)
      else if s[1] == '\n' then ReadLiteral(s[2..], depth)
      else Before(Unescaped(s[1]), ReadLiteral(s[2..], depth))
    else if s[0] == '(' then Before('(', ReadLiteral(s[1..], depth + 1))
    else if s[0] == ')' then
      if depth == 0 then Some(("", s[1..])) else Before(')', ReadLiteral(s[1..], depth - 1))
    else if s[0] == '\r' then Before('\n', ReadLiteral(s[if |s| > 1 && s[1] == '\n' then 2 else 1..], depth))
    else Before(s[0], ReadLiteral(s[1..], depth))
  }

  lemma ReadOne(c: char, next: string)
    requires c != '\r'
    ensures ReadLiteral(EscapeChar(c) + next, 0) == Before(c, ReadLiteral(next, 0))
  {
    hide OctalDigits, OctalValue;
    var s := EscapeChar(c) + next;
    assert s[|EscapeChar(c)|..] == next;
  }

  lemma {:induction false} ReadEach(line: string, rest: string)
    requires '\r' !in line
    ensures ReadLiteral(EscapeEach(line) + (")" + rest), 0) == Some((line, rest))
  {
    hide EscapeChar;
    if line == "" {
      assert "" + (")" + rest) == ")" + rest;
      assert (")" + rest)[1..] == rest;
    } else {
      hide ReadLiteral;
      var c, tail := line[0], line[1..];
      var next := EscapeEach(tail) + (")" + rest);
      ReadEach(tail, rest);
      ReadOne(c, next);
      assert EscapeEach(line) + (")" + rest) == EscapeChar(c) + next;
      assert [c] + tail == line;
    }
  }

  /** Reading undoes escaping, whatever parentheses and backslashes the line has. */
  lemma ReadEscaped(line: string, rest: string)
    requires '\r' !in line
    ensures ReadLiteral(Escape(line) + (")" + rest), 0) == Some((line, rest))
  {
    hide Escape, EscapeEach, ReadLiteral;
    EscapeIsEach(line);
    ReadEach(line, rest);
  }

  // ---- Numbers at a position -----------------------------------------------

  predicate At(s: string, i: nat, w: string) { i + |w| <= |s| && s[i..i + |w|] == w }

  predicate IsDigit(c: char) { '0' <= c <= '9' }

  predicate Numeral(s: string) { forall i :: 0 <= i < |s| ==> IsDigit(s[i]) }

  function ParseDec(s: string): nat
    requires Numeral(s)
  {
    if s == "" then 0 else
    assert IsDigit(s[|s| - 1]);
    ParseDec(s[..|s| - 1]) * 10 + (s[|s| - 1] as int - '0' as int)
  }

  lemma {:induction false} ParseDecimal(n: nat)
    ensures Numeral(Decimal(n)) && ParseDec(Decimal(n)) == n
  {
    if n >= 10 {
      ParseDecimal(n / 10);
      assert Decimal(n)[..|Decimal(n)| - 1] == Decimal(n / 10);
    } else {
      assert Decimal(n)[..0] == "";
    }
  }

  lemma {:induction false} OneMoreZero(d: string)
    requires Numeral(d)
    ensures Numeral(['0'] + d) && ParseDec(['0'] + d) == ParseDec(d)
  {
    var s := ['0'] + d;
    if d == "" {
      assert s[..0] == "";
    } else {
      assert s[..|s| - 1] == ['0'] + d[..|d| - 1];
      OneMoreZero(d[..|d| - 1]);
    }
  }

  lemma {:induction false} LeadingZeros(k: nat, d: string)
    requires Numeral(d)
    ensures |Zeros(k)| == k && Numeral(Zeros(k) + d) && ParseDec(Zeros(k) + d) == ParseDec(d)
  {
    hide ParseDec, Numeral;
    if k == 0 {
      assert "" + d == d;
    } else {
      LeadingZeros(k - 1, d);
      OneMoreZero(Zeros(k - 1) + d);
      assert Zeros(k) + d == ['0'] + (Zeros(k - 1) + d);
    }
  }

  /** A padded number has ten digits unless it needs more, and reads back. */
  lemma PaddedReads(n: nat)
    ensures Numeral(Padded(n)) && ParseDec(Padded(n)) == n
    ensures |Padded(n)| == 10 <==> n < Pow10(10)
  {
    hide Pow10, ParseDec;
    ParseDecimal(n);
    DecimalLength(n, 10);
    var d := Decimal(n);
    if |d| < 10 { LeadingZeros(10 - |d|, d); }
  }

  /** An entry of the cross-reference table is 20 bytes long (section 7.5.4)
      exactly when its offset is below 10^10. */
  lemma EntryLength(offset: nat)
    ensures |Entry(offset)| == 20 <==> offset < Pow10(10)
  {
    hide Pow10, Padded;
    PaddedReads(offset);
  }

  function DigitsStart(s: string, e: nat): (b: nat)
    requires e <= |s|
    ensures b <= e && Numeral(s[b..e])
  {
    if e > 0 && IsDigit(s[e - 1]) then
      var b := DigitsStart(s, e - 1);
      assert s[b..e] == s[b..e - 1] + [s[e - 1]];
      b
    else e
  }

  function DigitsEnd(s: string, b: nat): (e: nat)
    requires b <= |s|
    ensures b <= e <= |s| && Numeral(s[b..e])
    decreases |s| - b
  {
    if b < |s| && IsDigit(s[b]) then
      var e := DigitsEnd(s, b + 1);
      assert s[b..e] == [s[b]] + s[b + 1..e];
      e
    else b
  }

  lemma {:induction false} FindsDigitsStart(s: string, b: nat, e: nat)
    requires 0 < b <= e <= |s| && !IsDigit(s[b - 1]) && Numeral(s[b..e])
    ensures DigitsStart(s, e) == b
  {
    if b < e {
      assert s[b..e][e - 1 - b] == s[e - 1];
      assert s[b..e - 1] == s[b..e][..e - 1 - b];
      FindsDigitsStart(s, b, e - 1);
    }
  }

  lemma {:induction false} FindsDigitsEnd(s: string, b: nat, e: nat)
    requires b <= e < |s| && !IsDigit(s[e]) && Numeral(s[b..e])
    ensures DigitsEnd(s, b) == e
    decreases e - b
  {
    if b < e {
      assert s[b..e][0] == s[b];
      assert s[b + 1..e] == s[b..e][1..];
      FindsDigitsEnd(s, b + 1, e);
    }
  }

  // ---- A reader for the file (section 7.5) ---------------------------------

  /** The number between `before` and a final `after`. */
  function NumberBefore(doc: string, before: string, after: string): Option<nat> {
    if |doc| < |after| || !At(doc, |doc| - |after|, after) then None else
    var e := |doc| - |after|;
    var b := DigitsStart(doc, e);
    if b == e || b < |before| || !At(doc, b - |before|, before) then None else Some(ParseDec(doc[b..e]))
  }

  function StartXref(doc: string): Option<nat> { NumberBefore(doc, "startxref\n", "\n%%EOF\n") }

  /** The number after `before`, which begins at i, and where `after` ends. */
  function NumberAfter(s: string, i: nat, before: string, after: string): Option<(nat, nat)> {
    if !At(s, i, before) then None else
    var b := i + |before|;
    var e := DigitsEnd(s, b);
    if At(s, e, after) then Some((ParseDec(s[b..e]), e + |after|)) else None
  }

  /** Where the entry of object 0 begins. */
  function FirstEntry(doc: string): Option<nat> {
    var x := StartXref(doc);
    if x.None? then None else
    var count := NumberAfter(doc, x.value, "xref\n0 ", "\n");
    if count.None? then None else Some(count.value.1)
  }

  /** The offset in the 20 bytes of an entry. */
  function ReadEntry(entry: string): Option<nat>
    requires |entry| == 20
  {
    if Numeral(entry[..10]) && entry[10..] == " 00000 n \n" then Some(ParseDec(entry[..10])) else None
  }

  function Locate(doc: string, k: nat): Option<nat> {
    var base := FirstEntry(doc);
    if base.None? then None else
    var p := base.value + 20 * k;
    if p + 20 > |doc| then None else ReadEntry(doc[p..p + 20])
  }

  /** What follows `k 0 obj` where the table says object k is. */
  function ReadObject(doc: string, k: nat): Option<string> {
    var o := Locate(doc, k);
    var opening := Decimal(k) + " 0 obj\n";
    if o.None? || !At(doc, o.value, opening) then None else Some(doc[o.value + |opening|..])
  }

  /** A stream: as many bytes as `/Length` says (section 7.3.8). */
  function ReadStream(s: string): Option<string> {
    var len := NumberAfter(s, 0, "<< /Length ", " >>\nstream\n");
    if len.None? then None else
    var (n, b) := len.value;
    if b + n <= |s| && At(s, b + n, "endstream") then Some(s[b..b + n]) else None
  }

  function ReadShows(s: string): Option<seq<string>>
    decreases |s|
  {
    if s == "ET\n" then Some([])
    else if s == "" || s[0] != '(' then None else
    var p := ReadLiteral(s[1..], 0);
    if p.None? || |p.value.1| >= |s| || !At(p.value.1, 0, " Tj T*\n") then None else
    var rest := ReadShows(p.value.1[|" Tj T*\n"|..]);
    if rest.None? then None else Some([p.value.0] + rest.value)
  }

  function ReadContent(s: string): Option<seq<string>> {
    var prologue := "BT\n/F1 11 Tf\n72 770 Td\n14 TL\n";
    if At(s, 0, prologue) then ReadShows(s[|prologue|..]) else None
  }

  /** The lines of text a reader finds in the file. */
  function ReadLines(doc: string): Option<seq<string>> {
    var obj := ReadObject(doc, 4);
    if obj.None? then None else
    var content := ReadStream(obj.value);
    if content.None? then None else ReadContent(content.value)
  }

  // ---- The reader finds what was written -----------------------------------

  lemma Middle(a: string, w: string, b: string)
    ensures At(a + (w + b), |a|, w)
  {
  }

  lemma Shift(a: string, s: string, i: nat, w: string)
    requires At(s, i, w)
    ensures At(a + s, |a| + i, w)
  {
    assert (a + s)[|a| + i..|a| + i + |w|] == s[i..i + |w|];
  }

  ghost predicate EndsInNonDigit(s: string) { s != "" && !IsDigit(s[|s| - 1]) }
  ghost predicate BeginsWithNonDigit(s: string) { s != "" && !IsDigit(s[0]) }

  /** A number between two other bytes, read backwards and forwards. */
  lemma NumberBetween(a: string, n: nat, b: string)
    ensures var s, e := a + (Decimal(n) + b), |a| + |Decimal(n)|;
            && s[|a|..e] == Decimal(n)
            && (EndsInNonDigit(a) ==> DigitsStart(s, e) == |a|)
            && (BeginsWithNonDigit(b) ==> DigitsEnd(s, |a|) == e)
  {
    hide Decimal, ParseDec, DigitsStart, DigitsEnd, Numeral, IsDigit;
    var s, e := a + (Decimal(n) + b), |a| + |Decimal(n)|;
    ParseDecimal(n);
    assert s[|a|..e] == Decimal(n);
    if EndsInNonDigit(a) {
      assert s[|a| - 1] == a[|a| - 1];
      FindsDigitsStart(s, |a|, e);
    }
    if BeginsWithNonDigit(b) {
      assert s[e] == b[0];
      FindsDigitsEnd(s, |a|, e);
    }
  }

  lemma FindsNumberBefore(a: string, before: string, x: nat, after: string)
    requires EndsInNonDigit(before) && BeginsWithNonDigit(after)
    ensures NumberBefore(a + (before + (Decimal(x) + after)), before, after) == Some(x)
  {
    hide ParseDec, Decimal, At, DigitsStart, Numeral;
    var d := Decimal(x);
    var doc := a + (before + (d + after));
    var b, e := |a + before|, |doc| - |after|;
    ParseDecimal(x);
    assert DigitsStart(doc, e) == b && doc[b..e] == d by {
      assert doc == (a + before) + (d + after);
      assert EndsInNonDigit(a + before);
      NumberBetween(a + before, x, after);
    }
    assert At(doc, e, after) by {
      assert doc == (a + before + d) + (after + "");
      Middle(a + before + d, after, "");
    }
    Middle(a, before, d + after);
  }

  lemma Delimiters()
    ensures EndsInNonDigit(START) && BeginsWithNonDigit(EOF)
    ensures EndsInNonDigit(XREF) && EndsInNonDigit(LENGTH) && BeginsWithNonDigit(STREAM)
  {
  }

  /** `startxref` gives the place where the table begins. */
  lemma StartXrefReads(objs: seq<string>)
    ensures StartXref(Document(objs)) == Some(|Body(objs, |objs|)|)
  {
    hide Decimal, Body, Entries, XrefHeader, Trailer, NumberBefore, EndsInNonDigit, BeginsWithNonDigit;
    var n := |objs|;
    var x := |Body(objs, n)|;
    var a := Body(objs, n) + XrefHeader(n) + Entries(objs, n) + Trailer(n);
    assert Document(objs) == a + (START + (Decimal(x) + EOF));
    Delimiters();
    FindsNumberBefore(a, START, x, EOF);
  }

  lemma FindsNumberAfter(a: string, before: string, x: nat, after: string, b: string)
    requires BeginsWithNonDigit(after)
    ensures NumberAfter(a + (before + (Decimal(x) + (after + b))), |a|, before, after)
            == Some((x, |a| + |before| + |Decimal(x)| + |after|))
  {
    hide ParseDec, Decimal, At, DigitsEnd, Numeral;
    var d := Decimal(x);
    var s := a + (before + (d + (after + b)));
    var i, e := |a + before|, |a + before + d|;
    ParseDecimal(x);
    Middle(a, before, d + (after + b));
    assert DigitsEnd(s, i) == e && s[i..e] == d by {
      assert s == (a + before) + (d + (after + b));
      assert BeginsWithNonDigit(after + b);
      NumberBetween(a + before, x, after + b);
    }
    assert At(s, e, after) by {
      assert s == (a + before + d) + (after + b);
      Middle(a + before + d, after, b);
    }
  }

  /** The offsets have at most ten digits. */
  predicate Fits(objs: seq<string>) { objs != [] ==> Offset(objs, |objs|) < Pow10(10) }

  lemma {:induction false} OffsetsAscend(objs: seq<string>, k: nat, m: nat)
    requires 1 <= k <= m <= |objs|
    ensures Offset(objs, k) <= Offset(objs, m)
    decreases m
  {
    if k < m { OffsetsAscend(objs, k, m - 1); }
  }

  /** All entries are 20 bytes long exactly then. */
  lemma EntriesFitIff(objs: seq<string>)
    ensures Fits(objs) <==> forall k :: 1 <= k <= |objs| ==> |Entry(Offset(objs, k))| == 20
  {
    hide Entry, Pow10, Offset;
    forall k | 1 <= k <= |objs| ensures Offset(objs, k) <= Offset(objs, |objs|) { OffsetsAscend(objs, k, |objs|); }
    forall k | 1 <= k <= |objs| ensures |Entry(Offset(objs, k))| == 20 <==> Offset(objs, k) < Pow10(10) {
      EntryLength(Offset(objs, k));
    }
  }

  lemma ReadsEntry(offset: nat)
    requires offset < Pow10(10)
    ensures |Entry(offset)| == 20 && ReadEntry(Entry(offset)) == Some(offset)
  {
    hide Pow10, Padded, ParseDec, Numeral;
    PaddedReads(offset);
    var e := Entry(offset);
    assert e[..10] == Padded(offset) && e[10..] == IN_USE;
  }

  lemma Extend(s: string, i: nat, w: string, b: string)
    requires At(s, i, w)
    ensures At(s + b, i, w)
  {
    assert (s + b)[i..i + |w|] == s[i..i + |w|];
  }

  lemma {:induction false} EntriesLength(objs: seq<string>, m: nat)
    requires m <= |objs| && Fits(objs)
    ensures |Entries(objs, m)| == 20 * (m + 1)
  {
    if m > 0 {
      hide Entry, Pow10, Offset;
      OffsetsAscend(objs, m, |objs|);
      ReadsEntry(Offset(objs, m));
      EntriesLength(objs, m - 1);
    }
  }

  lemma {:induction false} EntriesAt(objs: seq<string>, m: nat, k: nat)
    requires 1 <= k <= m <= |objs| && Fits(objs)
    ensures At(Entries(objs, m), 20 * k, Entry(Offset(objs, k)))
    decreases m
  {
    hide Entry, Pow10, Body, At, Offset, Fits;
    var init, e := Entries(objs, m - 1), Entry(Offset(objs, m));
    if k < m {
      EntriesAt(objs, m - 1, k);
      Extend(init, 20 * k, Entry(Offset(objs, k)), e);
    } else {
      EntriesLength(objs, m - 1);
      assert init + e == init + (e + "");
      Middle(init, e, "");
    }
  }

  lemma {:induction false} BodyAt(objs: seq<string>, m: nat, k: nat)
    requires 1 <= k <= m <= |objs|
    ensures At(Body(objs, m), Offset(objs, k), Indirect(k, objs[k - 1]))
    decreases m
  {
    hide Indirect, At;
    var init, obj := Body(objs, m - 1), Indirect(m, objs[m - 1]);
    if k < m {
      BodyAt(objs, m - 1, k);
      Extend(init, Offset(objs, k), Indirect(k, objs[k - 1]), obj);
    } else {
      assert init + obj == init + (obj + "");
      Middle(init, obj, "");
    }
  }

  lemma FirstEntryReads(objs: seq<string>)
    ensures FirstEntry(Document(objs)) == Some(|Body(objs, |objs|)| + |XrefHeader(|objs|)|)
  {
    hide Decimal, Body, Entries, Trailer, StartXref, NumberAfter;
    var n := |objs|;
    StartXrefReads(objs);
    var rest := Entries(objs, n) + (Trailer(n) + (START + (Decimal(|Body(objs, n)|) + EOF)));
    assert Document(objs) == Body(objs, n) + (XREF + (Decimal(n + 1) + (NEWLINE + rest)));
    assert BeginsWithNonDigit(NEWLINE);
    FindsNumberAfter(Body(objs, n), XREF, n + 1, NEWLINE, rest);
  }

  /** Entry k of the table points at the first byte of object k. */
  lemma TableIsRight(objs: seq<string>, doc: string, k: nat)
    requires 1 <= k <= |objs| && Fits(objs) && doc == Document(objs)
    ensures Locate(doc, k) == Some(Offset(objs, k))
    ensures At(doc, Offset(objs, k), Indirect(k, objs[k - 1]))
    ensures StartXref(doc) == Some(|Body(objs, |objs|)|)
    ensures At(doc, |Body(objs, |objs|)|, XREF)
  {
    hide Decimal, Body, Entries, Trailer, StartXref, FirstEntry, Indirect, Entry, Offset, ReadEntry, At, Fits, Pow10;
    var n := |objs|;
    var body, head := Body(objs, n), XrefHeader(n);
    var after := Trailer(n) + (START + (Decimal(|body|) + EOF));
    StartXrefReads(objs);
    FirstEntryReads(objs);
    assert At(doc, |body|, XREF) by {
      assert doc == body + (XREF + (Decimal(n + 1) + NEWLINE + (Entries(objs, n) + after)));
      Middle(body, XREF, Decimal(n + 1) + NEWLINE + (Entries(objs, n) + after));
    }
    BodyAt(objs, n, k);
    Extend(body, Offset(objs, k), Indirect(k, objs[k - 1]), head + (Entries(objs, n) + after));
    EntriesAt(objs, n, k);
    Extend(Entries(objs, n), 20 * k, Entry(Offset(objs, k)), after);
    Shift(body + head, Entries(objs, n) + after, 20 * k, Entry(Offset(objs, k)));
    assert doc == (body + head) + (Entries(objs, n) + after);
    AtEntry(objs, doc, |body + head| + 20 * k, k);
  }

  lemma AtEntry(objs: seq<string>, doc: string, p: nat, k: nat)
    requires 1 <= k <= |objs| && Fits(objs) && At(doc, p, Entry(Offset(objs, k)))
    ensures p + 20 <= |doc| && ReadEntry(doc[p..p + 20]) == Some(Offset(objs, k))
  {
    hide Body, Entry, Pow10, ReadEntry;
    OffsetsAscend(objs, k, |objs|);
    ReadsEntry(Offset(objs, k));
  }

  lemma SplitAt(s: string, i: nat, w: string, v: string)
    requires At(s, i, w + v)
    ensures At(s, i, w) && s[i + |w|..] == v + s[i + |w| + |v|..]
  {
    assert s[i..i + |w|] == s[i..i + |w + v|][..|w|];
    assert s[i + |w|..i + |w| + |v|] == s[i..i + |w + v|][|w|..];
  }

  /** A reader that follows the table gets object k. */
  lemma ObjectReads(objs: seq<string>, doc: string, k: nat) returns (rest: string)
    requires 1 <= k <= |objs| && Fits(objs) && doc == Document(objs)
    ensures ReadObject(doc, k) == Some(objs[k - 1] + CLOSING + rest)
  {
    hide Document, Locate, Decimal, Fits, Offset, At;
    TableIsRight(objs, doc, k);
    var o := Offset(objs, k);
    SplitAt(doc, o, Opening(k), objs[k - 1] + CLOSING);
    rest := doc[o + |Opening(k)| + |objs[k - 1] + CLOSING|..];
  }

  /** `/Length` counts the bytes of the stream, whatever they are. */
  lemma StreamReads(content: string, rest: string)
    ensures ReadStream(StreamObject(content) + rest) == Some(content)
  {
    hide Decimal, NumberAfter, At;
    var n := |content|;
    var d := Decimal(n);
    var tail := content + (END_STREAM + rest);
    var s := StreamObject(content) + rest;
    assert s == "" + (LENGTH + (d + (STREAM + tail)));
    Delimiters();
    FindsNumberAfter("", LENGTH, n, STREAM, tail);
    var a := LENGTH + (d + STREAM);
    assert s == a + (content + (END_STREAM + rest));
    assert s[|a|..|a| + n] == content;
    assert s == (a + content) + (END_STREAM + rest);
    Middle(a + content, END_STREAM, rest);
  }

  lemma {:induction false} ShowsFront(line: string, lines: seq<string>)
    ensures Shows([line] + lines) == Show(line) + Shows(lines)
  {
    hide Show;
    var all := [line] + lines;
    if lines == [] {
      assert all[..0] == [];
    } else {
      assert all[..|all| - 1] == [line] + lines[..|lines| - 1];
      ShowsFront(line, lines[..|lines| - 1]);
    }
  }

  lemma ShowReads(line: string, after: string, rest: seq<string>)
    requires '\r' !in line && ReadShows(after) == Some(rest)
    ensures ReadShows(Show(line) + after) == Some([line] + rest)
  {
    hide ReadLiteral, Escape;
    var s := Show(line) + after;
    var tail := Escape(line) + (")" + (SHOW + after));
    assert s == "(" + tail;
    assert s[1..] == tail;
    ReadEscaped(line, SHOW + after);
    assert (SHOW + after)[|SHOW|..] == after;
  }

  lemma {:induction false} ShowsRead(lines: seq<string>)
    requires forall i :: 0 <= i < |lines| ==> '\r' !in lines[i]
    ensures ReadShows(Shows(lines) + EPILOGUE) == Some(lines)
  {
    if lines == [] {
      assert "" + EPILOGUE == EPILOGUE;
    } else {
      hide ReadShows, Show, Shows;
      var line, rest := lines[0], lines[1..];
      ShowsRead(rest);
      assert lines == [line] + rest;
      ShowsFront(line, rest);
      assert Show(line) + Shows(rest) + EPILOGUE == Show(line) + (Shows(rest) + EPILOGUE);
      ShowReads(line, Shows(rest) + EPILOGUE, rest);
    }
  }

  lemma ContentReads(lines: seq<string>)
    requires forall i :: 0 <= i < |lines| ==> '\r' !in lines[i]
    ensures ReadContent(Content(lines)) == Some(lines)
  {
    hide Shows, ReadShows;
    ShowsRead(lines);
    var after := Shows(lines) + EPILOGUE;
    Middle("", PROLOGUE, after);
    assert "" + (PROLOGUE + after) == Content(lines);
    assert Content(lines)[|PROLOGUE|..] == after;
  }

  lemma Regroup(a: string, b: string, c: string, d: string, e: string, f: string)
    ensures a + (b + (c + (d + (e + f)))) == (a + (b + c)) + ((d + e) + f)
    ensures At(a + (b + (c + (d + (e + f)))), |a + (b + c)|, d + e)
  {
    Middle(a + (b + c), d + e, f);
  }

  /** What frames the content: header and trailer ... */
  lemma FileFrame(content: string, doc: string)
    requires doc == Document(Objects(content))
    ensures At(doc, 0, "%PDF-1.4\n")
    ensures exists i: nat :: At(doc, i, "trailer\n<< /Size 6 /Root 1 0 R >>\nstartxref\n")
  {
    var objs := Objects(content);
    assert |objs| == 5;
    TrailerIs();
    HeaderFirst(objs, 5);
    hide Objects, Entries, Body, Decimal, Trailer, XrefHeader, At;
    var end := Decimal(|Body(objs, 5)|) + EOF;
    var rest := XrefHeader(5) + (Entries(objs, 5) + (Trailer(5) + (START + end)));
    assert doc == Body(objs, 5) + rest;
    Regroup(Body(objs, 5), XrefHeader(5), Entries(objs, 5), Trailer(5), START, end);
    Extend(Body(objs, 5), 0, HEADER, rest);
  }

  lemma TrailerIs()
    ensures Trailer(5) + START == "trailer\n<< /Size 6 /Root 1 0 R >>\nstartxref\n"
  {
    assert Decimal(6) == "6";
    hide Decimal;
    assert "trailer\n<< /Size " + "6" == "trailer\n<< /Size 6";
    assert Trailer(5) == "trailer\n<< /Size 6 /Root 1 0 R >>\n";
  }

  /** ... document catalog, page tree, page and font. */
  lemma FilePieces(content: string, doc: string, k: nat)
    requires doc == Document(Objects(content)) && Fits(Objects(content)) && k in {1, 2, 3, 5}
    ensures ReadObject(doc, k).Some?
    ensures At(ReadObject(doc, k).value, 0,
               (if k == 1 then "<< /Type /Catalog /Pages 2 0 R >>"
                else if k == 2 then "<< /Type /Pages /Kids [3 0 R] /Count 1 >>"
                else if k == 3 then "<< /Type /Page /Parent 2 0 R /MediaBox [0 0 595 842] "
                                    + "/Contents 4 0 R /Resources << /Font << /F1 5 0 R >> >> >>"
                else "<< /Type /Font /Subtype /Type1 /BaseFont /Helvetica >>") + "\nendobj\n")
  {
    var objs := Objects(content);
    hide Document, ReadObject, Fits, StreamObject, At;
    var rest := ObjectReads(objs, doc, k);
    var obj := objs[k - 1] + CLOSING;
    assert obj + rest == "" + (obj + rest);
    Middle("", obj, rest);
  }

  lemma {:induction false} HeaderFirst(objs: seq<string>, k: nat)
    requires k <= |objs|
    ensures At(Body(objs, k), 0, HEADER)
  {
    if k > 0 {
      HeaderFirst(objs, k - 1);
      Extend(Body(objs, k - 1), 0, HEADER, Indirect(k, objs[k - 1]));
    }
  }

  /** From the text to the bytes of the file and back: a reader finds exactly
      the lines of the text. */
  lemma FileReadsBack(text: string)
    requires Fits(Objects(Content(SplitLines(text))))
    ensures ReadLines(Document(Objects(Content(SplitLines(text))))) == Some(SplitLines(text))
    ensures exists seps :: Splits(text, ReadLines(Document(Objects(Content(SplitLines(text))))).value, seps)
  {
    SplitLinesIff(text, SplitLines(text));
    hide Content, Document, ReadObject, ReadStream, ReadContent, StreamObject, Fits, SplitLines;
    var lines := SplitLines(text);
    var content := Content(lines);
    forall i | 0 <= i < |lines| ensures '\r' !in lines[i] {
      assert forall c :: c in lines[i] ==> !Break(c);
    }
    var rest := ObjectReads(Objects(content), Document(Objects(content)), 4);
    assert Objects(content)[3] == StreamObject(content);
    StreamReads(content, CLOSING + rest);
    assert StreamObject(content) + CLOSING + rest == StreamObject(content) + (CLOSING + rest);
    ContentReads(lines);
  }
}
