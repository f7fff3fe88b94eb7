/** Line folding, TEXT escapes and the splitting of content lines. */
module TextUtils {
  import opened Text

  // ---- Unescaping --------------------------------------------------------

  predicate IsEscape(c: char) {
    c == 'n' || c == 'N' || c == ',' || c == ';' || c == '\\'
  }

  function Unescaped(c: char): char {
    if c == 'n' || c == 'N' then '\n' else c
  }

  function UnescapeText(s: string): string {
    if s == "" then ""
    else if s[0] == '\\' && |s| > 1 && IsEscape(s[1]) then [Unescaped(s[1])] + UnescapeText(s[2..])
    else [s[0]] + UnescapeText(s[1..])
  }

  lemma UnescapeStep(s: string, i: nat)
    requires i < |s|
    ensures UnescapeText(s[i..])
         == if s[i] == '\\' && i + 1 < |s| && IsEscape(s[i + 1])
            then [Unescaped(s[i + 1])] + UnescapeText(s[i + 2..])
            else [s[i]] + UnescapeText(s[i + 1..])
  {
  }

  /** The index loop; a recognised escape moves the index by one more. */
  method Unescape(value: string) returns (result: string)
    ensures result == UnescapeText(value)
  {
    result := "";
    var i := 0;
    assert value[0..] == value;
    hide UnescapeText;
    while i < |value|
      invariant 0 <= i <= |value|
      invariant UnescapeText(value) == result + UnescapeText(value[i..])
    {
      UnescapeStep(value, i);
      ghost var escape := value[i] == '\\' && i + 1 < |value| && IsEscape(value[i + 1]);
      ghost var before, c := result, if escape then Unescaped(value[i + 1]) else value[i];
      if value[i] == '\\' && i + 1 < |value| {
        var d := value[i + 1];
        if d == 'n' || d == 'N' {
          result := result + "\n";
          i := i + 1;
        } else if d == ',' || d == ';' || d == '\\' {
          result := result + [d];
          i := i + 1;
        } else {
          result := result + [value[i]];
        }
      } else {
        result := result + [value[i]];
      }
      i := i + 1;
      assert result == before + [c];
      AppendChar(before, c, UnescapeText(value[i..]));
    }
    UnescapeEmpty();
  }

  lemma AppendChar(s: string, c: char, rest: string)
    ensures s + ([c] + rest) == (s + [c]) + rest
  {
  }

  lemma UnescapeEmpty()
    ensures UnescapeText("") == ""
  {
  }

  /** TEXT escaping of section 3.3.11 of RFC 5545. */
  function EscapeText(s: string): string {
    if s == "" then ""
    else
      (match s[0]
       case '\n' => "\\n"
       case ',' => "\\,"
       case ';' => "\\;"
       case '\\' => "\\\\"
       case c => [c])
      + EscapeText(s[1..])
  }

  /** Unescaping undoes escaping, for every text. */
  lemma {:induction false} UnescapeInvertsEscape(s: string)
    ensures UnescapeText(EscapeText(s)) == s
  {
    if s != "" {
      UnescapeInvertsEscape(s[1..]);
      var e, rest := EscapeText(s), EscapeText(s[1..]);
      if s[0] == '\n' || s[0] == ',' || s[0] == ';' || s[0] == '\\' {
        assert e[2..] == rest;
      } else {
        assert e[1..] == rest;
      }
    }
  }

  /** What a backslash does: n and N make a line end, comma, semicolon and backslash
      stand for themselves, and before anything else, or at the end, it stays. */
  lemma EscapesRead(c: char, rest: string)
    ensures var r := UnescapeText("\\" + [c] + rest);
            && (c == 'n' || c == 'N' ==> r == "\n" + UnescapeText(rest))
            && (c == ',' || c == ';' || c == '\\' ==> r == [c] + UnescapeText(rest))
            && (c !in "nN,;\\" ==> r == "\\" + [c] + UnescapeText(rest))
    ensures UnescapeText("\\") == "\\"
  {
    var s := "\\" + [c] + rest;
    assert s[2..] == rest && s[1..] == [c] + rest && ([c] + rest)[1..] == rest;
    assert "\\"[1..] == "";
  }

  // ---- Unfolding ---------------------------------------------------------

  predicate EndsWith(s: string, c: char) {
    s != "" && s[|s| - 1] == c
  }

  // A line without one trailing '\r'.
  function Chomp(line: string): string {
    if EndsWith(line, '\r') then line[..|line| - 1] else line
  }

  predicate IsFoldBlank(c: char) {
    c == ' ' || c == '\t'
  }

  function CloseLine(acc: string): string {
    if acc != "" && !EndsWith(acc, '\n') then acc + "\n" else acc
  }

  function UnfoldLine(acc: string, line: string): string {
    if line == "" then acc + "\n"
    else if IsFoldBlank(line[0]) then
      (if EndsWith(acc, '\n') then acc[..|acc| - 1] else acc) + line[1..]
    else CloseLine(acc) + line + "\n"
  }

  function UnfoldFrom(acc: string, lines: seq<string>): string
    decreases |lines|
  {
    if lines == [] then acc else UnfoldFrom(UnfoldLine(acc, Chomp(lines[0])), lines[1..])
  }

  function UnfoldText(content: string): string {
    UnfoldFrom("", Lines(content))
  }

  lemma UnfoldStep(acc: string, lines: seq<string>, n: nat)
    requires n < |lines|
    ensures UnfoldFrom(acc, lines[n..]) == UnfoldFrom(UnfoldLine(acc, Chomp(lines[n])), lines[n + 1..])
  {
  }

  method Unfold(content: string) returns (lines: string)
    ensures lines == UnfoldText(content)
  {
    hide Lines, UnfoldFrom;
    lines := "";
    var stream := Lines(content);
    for n := 0 to |stream|
      invariant UnfoldText(content) == UnfoldFrom(lines, stream[n..])
    {
      UnfoldStep(lines, stream, n);
      var line := stream[n];
      if line != "" && line[|line| - 1] == '\r' {
        line := line[..|line| - 1];
      }
      if line == "" {
        lines := lines + "\n";
        continue;
      }
      if line[0] == ' ' || line[0] == '\t' {
        if lines != "" && lines[|lines| - 1] == '\n' {
          lines := lines[..|lines| - 1];
        }
        lines := lines + line[1..];
      } else {
        if lines != "" && lines[|lines| - 1] != '\n' {
          lines := lines + "\n";
        }
        lines := lines + line + "\n";
      }
    }
    assert stream[|stream|..] == [];
    UnfoldNothing(lines);
  }

  /** One physical line of a folded line: its text, the blank that marks it as a
      continuation, and whether it ends in CRLF or in LF. */
  datatype Piece = Piece(text: string, blank: char, crlf: bool)

  // A content line folded into pieces (section 3.1 of RFC 5545).
  type Folding = seq<Piece>

  predicate IsPlain(s: string) {
    '\n' !in s && '\r' !in s
  }

  ghost predicate ValidFolding(f: Folding) {
    && f != []
    && f[0].text != "" && !IsFoldBlank(f[0].text[0])
    && forall p :: p in f ==> IsPlain(p.text) && IsFoldBlank(p.blank)
  }

  ghost predicate ValidFile(fs: seq<Folding>) {
    forall i :: 0 <= i < |fs| ==> ValidFolding(fs[i])
  }

  function Content(f: Folding): string {
    if f == [] then "" else f[0].text + Content(f[1..])
  }

  function Physical(p: Piece, first: bool): string {
    (if first then "" else [p.blank]) + p.text + (if p.crlf then "\r" else "")
  }

  // The continuation pieces as physical lines.
  function Continuations(f: Folding): seq<string> {
    if f == [] then [] else [Physical(f[0], false)] + Continuations(f[1..])
  }

  function PhysicalLines(fs: seq<Folding>): seq<string>
    requires ValidFile(fs)
  {
    if fs == [] then []
    else [Physical(fs[0][0], true)] + Continuations(fs[0][1..]) + PhysicalLines(fs[1..])
  }

  // The folded file.
  function FoldedText(fs: seq<Folding>): string
    requires ValidFile(fs)
  {
    Terminated(PhysicalLines(fs), '\n')
  }

  function Contents(fs: seq<Folding>): (lines: seq<string>)
    ensures |lines| == |fs|
  {
    seq(|fs|, i requires 0 <= i < |fs| => Content(fs[i]))
  }

  lemma {:induction false} ContentIsPlain(f: Folding)
    requires forall p :: p in f ==> IsPlain(p.text)
    ensures IsPlain(Content(f))
    ensures f != [] && f[0].text != "" ==> Content(f) != ""
  {
    if f != [] {
      ContentIsPlain(f[1..]);
    }
  }

  lemma ChompPhysical(p: Piece, first: bool)
    requires IsPlain(p.text) && IsFoldBlank(p.blank)
    ensures Chomp(Physical(p, first)) == (if first then "" else [p.blank]) + p.text
    ensures '\n' !in Physical(p, first)
  {
  }

  // Continuations are appended to a line that is still open.
  lemma {:induction false} UnfoldContinuations(acc: string, f: Folding, rest: seq<string>)
    requires acc != "" && !EndsWith(acc, '\n')
    requires forall p :: p in f ==> IsPlain(p.text) && IsFoldBlank(p.blank)
    ensures UnfoldFrom(acc, Continuations(f) + rest) == UnfoldFrom(acc + Content(f), rest)
    decreases |f|
  {
    hide UnfoldFrom, Physical, Continuations, Content, EndsWith;
    ContentSplits(acc, f);
    if f == [] {
      NoContinuations(rest);
    } else {
      FirstContinuation(acc, acc, f, rest);
      StaysOpen(acc, f[0].text);
      UnfoldContinuations(acc + f[0].text, f[1..], rest);
    }
  }

  lemma ContentSplits(acc: string, f: Folding)
    ensures acc + Content(f) == if f == [] then acc else acc + f[0].text + Content(f[1..])
  {
  }

  lemma StaysOpen(acc: string, text: string)
    requires acc != "" && !EndsWith(acc, '\n') && IsPlain(text)
    ensures acc + text != "" && !EndsWith(acc + text, '\n')
  {
  }

  // One continuation, with the line end it takes away.
  lemma FirstContinuation(acc: string, s: string, f: Folding, rest: seq<string>)
    requires acc != "" && !EndsWith(acc, '\n') && (s == acc || s == acc + "\n")
    requires f != [] && IsPlain(f[0].text) && IsFoldBlank(f[0].blank)
    ensures UnfoldFrom(s, Continuations(f) + rest) == UnfoldFrom(acc + f[0].text, Continuations(f[1..]) + rest)
  {
    hide Physical, Chomp;
    var p := f[0];
    var lines := Continuations(f) + rest;
    assert lines[0] == Physical(p, false);
    assert lines[1..] == Continuations(f[1..]) + rest;
    ChompPhysical(p, false);
    assert ([p.blank] + p.text)[1..] == p.text;
    assert s != acc ==> s[..|s| - 1] == acc;
  }

  // A whole folded line.
  lemma UnfoldOne(acc: string, f: Folding, rest: seq<string>)
    requires ValidFolding(f)
    ensures UnfoldFrom(acc, [Physical(f[0], true)] + Continuations(f[1..]) + rest)
         == UnfoldFrom(CloseLine(acc) + Content(f) + (if |f| > 1 then "" else "\n"), rest)
  {
    hide UnfoldFrom, Physical, Continuations, CloseLine;
    var text, more := f[0].text, f[1..];
    var base := CloseLine(acc) + text;
    OpenLine(acc, f, rest);
    assert base + Content(more) == CloseLine(acc) + Content(f);
    if more == [] {
      NoContinuations(rest);
      assert CloseLine(acc) + Content(f) == base;
    } else {
      ClosedContinuations(CloseLine(acc), text, more, rest);
      assert CloseLine(acc) + Content(f) + "" == base + Content(more);
    }
  }

  lemma ClosedContinuations(acc: string, text: string, f: Folding, rest: seq<string>)
    requires text != "" && IsPlain(text)
    requires f != [] && forall p :: p in f ==> IsPlain(p.text) && IsFoldBlank(p.blank)
    ensures UnfoldFrom(acc + text + "\n", Continuations(f) + rest) == UnfoldFrom(acc + text + Content(f), rest)
  {
    hide UnfoldFrom, Physical, Continuations;
    var base, next := acc + text, acc + text + f[0].text;
    OpenText(acc, text);
    FirstContinuation(base, base + "\n", f, rest);
    assert next == acc + (text + f[0].text);
    OpenText(acc, text + f[0].text);
    UnfoldContinuations(next, f[1..], rest);
    assert next + Content(f[1..]) == base + Content(f);
  }

  lemma OpenText(acc: string, text: string)
    requires text != "" && IsPlain(text)
    ensures acc + text != "" && !EndsWith(acc + text, '\n')
  {
  }

  // The first physical line opens a new logical line.
  lemma OpenLine(acc: string, f: Folding, rest: seq<string>)
    requires ValidFolding(f)
    ensures UnfoldFrom(acc, [Physical(f[0], true)] + Continuations(f[1..]) + rest)
         == UnfoldFrom(CloseLine(acc) + f[0].text + "\n", Continuations(f[1..]) + rest)
  {
    hide Continuations, CloseLine, Physical, Chomp;
    var lines := [Physical(f[0], true)] + Continuations(f[1..]) + rest;
    assert lines[0] == Physical(f[0], true) && lines[1..] == Continuations(f[1..]) + rest;
    ChompPhysical(f[0], true);
    assert "" + f[0].text == f[0].text;
  }

  lemma NoContinuations(rest: seq<string>)
    ensures Continuations([]) + rest == rest
  {
  }

  // What unfolding makes of a folded file: a folded last line stays open.
  function Unfolded(fs: seq<Folding>): string {
    if fs == [] then ""
    else if |fs| == 1 then Content(fs[0]) + (if |fs[0]| > 1 then "" else "\n")
    else Content(fs[0]) + "\n" + Unfolded(fs[1..])
  }

  lemma {:induction false} UnfoldFoldings(acc: string, fs: seq<Folding>)
    requires ValidFile(fs)
    ensures UnfoldFrom(acc, PhysicalLines(fs)) == if fs == [] then acc else CloseLine(acc) + Unfolded(fs)
    decreases |fs|
  {
    hide Continuations, UnfoldFrom, Physical, Content;
    if fs == [] {
      UnfoldNothing(acc);
    } else {
      var f := fs[0];
      var c, base := Content(f), CloseLine(acc);
      UnfoldOne(acc, f, PhysicalLines(fs[1..]));
      ContentIsPlain(f);
      var next := base + c + (if |f| > 1 then "" else "\n");
      UnfoldFoldings(next, fs[1..]);
      assert next[|base| + |c| - 1] == c[|c| - 1] && c[|c| - 1] in c;
      assert CloseLine(next) == base + c + "\n";
      if |fs| > 1 {
        assert base + Unfolded(fs) == base + c + "\n" + Unfolded(fs[1..]);
      } else {
        assert base + Unfolded(fs) == next;
      }
    }
  }

  lemma UnfoldNothing(acc: string)
    ensures UnfoldFrom(acc, []) == acc
  {
  }

  lemma {:induction false} LinesOfUnfolded(fs: seq<Folding>)
    requires ValidFile(fs)
    ensures Lines(Unfolded(fs)) == Contents(fs)
    decreases |fs|
  {
    hide Content;
    if fs != [] {
      var c := Content(fs[0]);
      ContentIsPlain(fs[0]);
      hide Pieces;
      if |fs| == 1 {
        PiecesEmpty('\n');
        PiecesLast(c, '\n');
        PiecesStep(c, '\n', "");
        assert c + "\n" + "" == c + "\n";
        assert c + "" == c;
        assert Contents(fs) == [c];
      } else {
        LinesOfUnfolded(fs[1..]);
        PiecesStep(c, '\n', Unfolded(fs[1..]));
        assert Contents(fs) == [c] + Contents(fs[1..]);
      }
    }
  }

  lemma {:induction false} PhysicalHasNoNewline(fs: seq<Folding>)
    requires ValidFile(fs)
    ensures forall s :: s in PhysicalLines(fs) ==> '\n' !in s
  {
    if fs != [] {
      ChompPhysical(fs[0][0], true);
      ContinuationsHaveNoNewline(fs[0][1..]);
      PhysicalHasNoNewline(fs[1..]);
    }
  }

  lemma {:induction false} ContinuationsHaveNoNewline(f: Folding)
    requires forall p :: p in f ==> IsPlain(p.text) && IsFoldBlank(p.blank)
    ensures forall s :: s in Continuations(f) ==> '\n' !in s
  {
    if f != [] {
      ChompPhysical(f[0], false);
      ContinuationsHaveNoNewline(f[1..]);
    }
  }

  /** Folding content lines anywhere past their first character, with either blank
      and either line end, and unfolding gives the lines back.  The unfolded text
      lacks its last line end exactly when the last line was folded. */
  lemma UnfoldInvertsFold(fs: seq<Folding>)
    requires ValidFile(fs)
    ensures Lines(UnfoldText(FoldedText(fs))) == Contents(fs)
    ensures fs != [] ==> (EndsWith(UnfoldText(FoldedText(fs)), '\n') <==> |fs[|fs| - 1]| == 1)
  {
    hide Content, UnfoldFrom, Pieces, Terminated, PhysicalLines, Contents;
    PhysicalHasNoNewline(fs);
    PiecesOfTerminated(PhysicalLines(fs), '\n');
    UnfoldFoldings("", fs);
    assert "" + Unfolded(fs) == Unfolded(fs);
    LinesOfUnfolded(fs);
    if fs != [] {
      LastLineEnd(fs);
    }
  }

  lemma {:induction false} LastLineEnd(fs: seq<Folding>)
    requires fs != [] && ValidFile(fs)
    ensures Unfolded(fs) != "" && (EndsWith(Unfolded(fs), '\n') <==> |fs[|fs| - 1]| == 1)
  {
    if |fs| == 1 {
      var c := Content(fs[0]);
      ContentIsPlain(fs[0]);
      assert c[|c| - 1] in c;
    } else {
      LastLineEnd(fs[1..]);
      var u := Unfolded(fs[1..]);
      assert (Content(fs[0]) + "\n" + u)[|Content(fs[0])| + 1 + |u| - 1] == u[|u| - 1];
    }
  }

  /** A content line cut in two at any place past its first character, the rest behind a
      space or a tab. */
  lemma CutLineReadsBack(s: string, i: nat, end: string, blank: char)
    requires IsPlain(s) && 0 < i <= |s| && s[0] !in " \t"
    requires (end == "\n" || end == "\r\n") && blank in " \t"
    ensures Lines(UnfoldText(s[..i] + end + [blank] + s[i..] + end)) == [s]
  {
    hide Lines, UnfoldText, Terminated;
    var crlf := end == "\r\n";
    var f := [Piece(s[..i], blank, crlf), Piece(s[i..], blank, crlf)];
    assert f[0].text[0] == s[0];
    TwoPieces(f);
    assert f[0].text + f[1].text == s;
    UnfoldInvertsFold([f]);
    assert FoldedText([f]) == s[..i] + end + [blank] + s[i..] + end;
  }

  lemma TwoPieces(f: Folding)
    requires |f| == 2 && ValidFolding(f) && f[0].crlf == f[1].crlf
    ensures Contents([f]) == [f[0].text + f[1].text]
    ensures var end := if f[0].crlf then "\r\n" else "\n";
            FoldedText([f]) == f[0].text + end + [f[1].blank] + f[1].text + end
  {
    hide IsPlain;
    assert f[1..][1..] == [] && Content([]) == "" && f[1].text + "" == f[1].text;
    assert Content(f[1..]) == f[1].text && Content(f) == f[0].text + f[1].text;
    var a, b := Physical(f[0], true), Physical(f[1], false);
    assert [f][1..] == [] && PhysicalLines([]) == [];
    assert Continuations(f[1..]) == [b] + Continuations([]);
    assert PhysicalLines([f]) == [a, b];
    assert [a, b][1..] == [b] && [b][1..] == [];
    NothingTerminated();
    assert Terminated([b], '\n') == b + ['\n'] + Terminated([], '\n');
    assert Terminated([a, b], '\n') == a + ['\n'] + (b + ['\n'] + "");
  }

  lemma {:induction false} UnfoldSplits(acc: string, a: seq<string>, b: seq<string>)
    ensures UnfoldFrom(acc, a + b) == UnfoldFrom(UnfoldFrom(acc, a), b)
    decreases |a|
  {
    hide UnfoldLine, Chomp;
    if a == [] {
      assert a + b == b;
    } else {
      assert (a + b)[1..] == a[1..] + b;
      UnfoldSplits(UnfoldLine(acc, Chomp(a[0])), a[1..], b);
    }
  }

  /** A blank line between folded lines is kept as an empty line; behind a line that was
      folded it only ends that line. */
  lemma BlankLineReads(fs: seq<Folding>, gs: seq<Folding>)
    requires ValidFile(fs) && ValidFile(gs) && fs != []
    ensures Lines(UnfoldText(FoldedText(fs) + "\n" + FoldedText(gs)))
         == Contents(fs) + (if |fs[|fs| - 1]| > 1 then [] else [""]) + Contents(gs)
  {
    hide Content, UnfoldFrom, Pieces, Terminated, PhysicalLines, Contents, Unfolded, ValidFolding;
    var a, b := PhysicalLines(fs), PhysicalLines(gs);
    PhysicalHasNoNewline(fs);
    PhysicalHasNoNewline(gs);
    BlankLineText(a, b);
    UnfoldSplits("", a + [""], b);
    UnfoldSplits("", a, [""]);
    UnfoldFoldings("", fs);
    assert "" + Unfolded(fs) == Unfolded(fs);
    BlankUnfolds(Unfolded(fs));
    UnfoldFoldings(Unfolded(fs) + "\n", gs);
    LinesBehind(fs, gs);
  }

  lemma BlankLineText(a: seq<string>, b: seq<string>)
    requires forall s :: s in a || s in b ==> '\n' !in s
    ensures Lines(Terminated(a, '\n') + "\n" + Terminated(b, '\n')) == a + [""] + b
  {
    hide Terminated, Pieces;
    OneBlankLine();
    TerminatedSplits(a + [""], b, '\n');
    TerminatedSplits(a, [""], '\n');
    assert forall k :: 0 <= k < |a + [""] + b| ==> '\n' !in (a + [""] + b)[k];
    PiecesOfTerminated(a + [""] + b, '\n');
  }

  lemma OneBlankLine()
    ensures Terminated([""], '\n') == "\n"
  {
    assert [""][1..] == [];
  }

  lemma BlankUnfolds(acc: string)
    ensures UnfoldFrom(acc, [""]) == acc + "\n"
  {
    assert [""][1..] == [];
  }

  // The unfolded lines, a line end, and the rest.
  lemma LinesBehind(fs: seq<Folding>, gs: seq<Folding>)
    requires ValidFile(fs) && ValidFile(gs) && fs != []
    ensures var text := Unfolded(fs) + "\n";
            Lines(if gs == [] then text else CloseLine(text) + Unfolded(gs))
            == Contents(fs) + (if |fs[|fs| - 1]| > 1 then [] else [""]) + Contents(gs)
  {
    hide Content, Terminated, Pieces, Unfolded, ValidFolding, Contents;
    var lines := Contents(fs) + if |fs[|fs| - 1]| > 1 then [] else [""];
    UnfoldedIsTerminated(fs);
    UnfoldedNothing();
    var text := Unfolded(fs) + "\n";
    assert CloseLine(text) == text && text + "" == text;
    forall i | 0 <= i < |lines|
      ensures '\n' !in lines[i]
    {
      if i < |fs| {
        ContentHasNoNewline(fs, i);
      }
    }
    PiecesBehind(lines, Unfolded(gs));
    LinesOfUnfolded(gs);
  }

  lemma UnfoldedNothing()
    ensures Unfolded([]) == ""
  {
  }

  lemma ContentHasNoNewline(fs: seq<Folding>, i: nat)
    requires ValidFile(fs) && i < |fs|
    ensures '\n' !in Contents(fs)[i]
  {
    hide Content;
    ContentIsPlain(fs[i]);
  }

  lemma {:induction false} PiecesBehind(lines: seq<string>, rest: string)
    requires forall i :: 0 <= i < |lines| ==> '\n' !in lines[i]
    ensures Pieces(Terminated(lines, '\n') + rest, '\n') == lines + Pieces(rest, '\n')
  {
    hide Pieces;
    if lines == [] {
      assert Terminated(lines, '\n') + rest == rest;
    } else {
      var tail := Terminated(lines[1..], '\n') + rest;
      assert Terminated(lines, '\n') + rest == lines[0] + ['\n'] + tail;
      PiecesStep(lines[0], '\n', tail);
      PiecesBehind(lines[1..], rest);
    }
  }

  lemma {:induction false} UnfoldedIsTerminated(fs: seq<Folding>)
    requires fs != []
    ensures Unfolded(fs) + "\n" == Terminated(Contents(fs) + if |fs[|fs| - 1]| > 1 then [] else [""], '\n')
  {
    hide Content;
    var blank: seq<string> := if |fs[|fs| - 1]| > 1 then [] else [""];
    var lines := Contents(fs) + blank;
    var c := Content(fs[0]);
    assert lines[0] == c;
    if |fs| == 1 {
      assert lines[1..] == blank;
      OneBlankLine();
      NothingTerminated();
      assert Terminated(lines, '\n') == c + ['\n'] + Terminated(blank, '\n');
    } else {
      assert lines[1..] == Contents(fs[1..]) + blank;
      UnfoldedIsTerminated(fs[1..]);
      assert Unfolded(fs) + "\n" == c + ['\n'] + (Unfolded(fs[1..]) + "\n");
    }
  }

  lemma NothingTerminated()
    ensures Terminated([], '\n') == ""
  {
  }

  // ---- Content lines -----------------------------------------------------

  // KEY[;params]:value, with the key in upper case; all empty without a colon.
  datatype ContentLine = ContentLine(key: string, params: string, value: string)

  function SplitIcsLine(line: string): ContentLine {
    var colon := Find(line, ':');
    if colon == NPOS then ContentLine("", "", "")
    else
      var left, value := line[..colon], line[colon + 1..];
      var semi := Find(left, ';');
      if semi == NPOS then ContentLine(ToUpper(left), "", value)
      else ContentLine(ToUpper(left[..semi]), left[semi + 1..], value)
  }

  /** A printed content line splits into what it was printed from. */
  lemma SplitInvertsPrint(key: string, params: string, value: string)
    requires ':' !in key && ';' !in key && ':' !in params && ToUpper(key) == key
    ensures SplitIcsLine(key + ":" + value) == ContentLine(key, "", value)
    ensures SplitIcsLine(key + ";" + params + ":" + value) == ContentLine(key, params, value)
  {
    var plain := key + ":" + value;
    assert plain[..|key|] == key && plain[|key| + 1..] == value;
    FindIs(plain, ':', |key|);
    var left := key + ";" + params;
    var line := left + ":" + value;
    assert line[..|left|] == left && line[|left| + 1..] == value;
    FindIs(line, ':', |left|);
    assert left[..|key|] == key && left[|key| + 1..] == params;
    FindIs(left, ';', |key|);
  }

  /** The name of a property may be written in either case. */
  lemma KeysAreCaseless(key: string, other: string, rest: string)
    requires IsSameName(key, other) && ':' !in key + other && ';' !in key + other
    requires rest != "" && (rest[0] == ':' || rest[0] == ';')
    ensures SplitIcsLine(key + rest) == SplitIcsLine(other + rest)
  {
    UpperFoldsCase(key, other);
    hide ToUpper, IsSameName;
    SplitAfterKey(key, rest);
    SplitAfterKey(other, rest);
  }

  lemma SplitAfterKey(key: string, rest: string)
    requires ':' !in key && ';' !in key && rest != "" && (rest[0] == ':' || rest[0] == ';')
    ensures var colon := Find(rest, ':');
            SplitIcsLine(key + rest)
            == if colon == NPOS then ContentLine("", "", "")
               else if colon == 0 then ContentLine(ToUpper(key), "", rest[1..])
               else ContentLine(ToUpper(key), rest[1..colon], rest[colon + 1..])
  {
    hide ToUpper, Find;
    var line, colon := key + rest, Find(rest, ':');
    FindBehind(key, rest, ':');
    if colon != NPOS {
      var left := key + rest[..colon];
      assert line[..|key| + colon] == left && line[|key| + colon + 1..] == rest[colon + 1..];
      FindBehind(key, rest[..colon], ';');
      FirstIs(rest[..colon], ';');
      assert left[..|key|] == key && (colon > 0 ==> left[|key| + 1..] == rest[1..colon]);
    }
  }

  lemma FindBehind(key: string, rest: string, c: char)
    requires c !in key
    ensures Find(key + rest, c) == var k := Find(rest, c); if k == NPOS then NPOS else |key| + k
  {
    var k := Find(rest, c);
    if k != NPOS {
      assert (key + rest)[..|key| + k] == key + rest[..k];
      FindIs(key + rest, c, |key| + k);
    }
  }

  lemma FirstIs(s: string, c: char)
    ensures s == "" ==> Find(s, c) == NPOS
    ensures s != "" && s[0] == c ==> Find(s, c) == 0
  {
  }
}
