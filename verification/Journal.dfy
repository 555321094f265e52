/**
 * What the follower makes of journalctl's output (internal/reconcile/detached.go:155-176): the
 * entries' lines are written, the marker line at the end moves the cursor.
 */
module Journal {
  import opened Text

  const CURSOR := "-- cursor: "
  const NO_ENTRIES := "-- No entries --"

  // ------------------------------------------------------------------------ lines

  function LineEnd(s: string): (n: nat)
    ensures n <= |s| && (forall k :: 0 <= k < n - 1 ==> s[k] != '\n')
    ensures s != "" ==> n > 0
    ensures n < |s| ==> n > 0 && s[n - 1] == '\n'
  {
    if s == "" then 0 else if s[0] == '\n' then 1 else 1 + LineEnd(s[1..])
  }

  // strings.SplitAfter at line ends: the last piece is what follows the last one, maybe nothing.
  function Pieces(s: string): (r: seq<string>)
    ensures r != []
    decreases |s|
  {
    var n := LineEnd(s);
    if n == 0 || s[n - 1] != '\n' then [s] else [s[..n]] + Pieces(s[n..])
  }

  predicate Whole(s: string) { s == "" || s[|s| - 1] == '\n' }

  // Lines one after the other: a text of whole lines splits on its own.
  lemma {:induction false} PiecesConcat(a: string, b: string)
    requires Whole(a)
    ensures Pieces(a + b) == Pieces(a)[..|Pieces(a)| - 1] + Pieces(b)
    decreases |a|
  {
    hide LineEnd, Pieces;
    if a == "" {
      assert a + b == b;
      OnePiece("");
    } else {
      var n := LineEnd(a);
      LineEndOf(a, b);
      FirstPiece(a, n);
      FirstPiece(a + b, n);
      assert (a + b)[..n] == a[..n] && (a + b)[n..] == a[n..] + b;
      PiecesConcat(a[n..], b);
    }
  }

  lemma OnePiece(s: string)
    requires s == "" || LineEnd(s) == 0 || s[LineEnd(s) - 1] != '\n'
    ensures Pieces(s) == [s]
  {
  }

  lemma FirstPiece(s: string, n: nat)
    requires n == LineEnd(s) > 0 && s[n - 1] == '\n'
    ensures Pieces(s) == [s[..n]] + Pieces(s[n..])
  {
  }

  lemma {:induction false} LineEndOf(a: string, b: string)
    requires a != "" && Whole(a)
    ensures LineEnd(a + b) == LineEnd(a) && a[LineEnd(a) - 1] == '\n' && Whole(a[LineEnd(a)..])
  {
    if a[0] != '\n' {
      assert (a + b)[1..] == a[1..] + b;
      LineEndOf(a[1..], b);
      assert a[1..][LineEnd(a[1..])..] == a[LineEnd(a)..];
    }
  }

  // ----------------------------------------------------------------------- reading

  predicate MovesCursor(line: string) { HasPrefix(line, CURSOR) }
  predicate Skipped(line: string) { line == "" || HasPrefix(line, NO_ENTRIES) }

  // A line that would be taken for one of journalctl's own.
  predicate Imitates(line: string) { MovesCursor(line) || HasPrefix(line, NO_ENTRIES) }

  predicate Space(c: char) { c == ' ' || '\t' <= c <= '\r' }

  function TrimLeft(s: string): string { if s != "" && Space(s[0]) then TrimLeft(s[1..]) else s }
  function TrimRight(s: string): string
    decreases |s|
  {
    if s != "" && Space(s[|s| - 1]) then TrimRight(s[..|s| - 1]) else s
  }
  function Trim(s: string): string { TrimRight(TrimLeft(s)) }

  predicate Blanks(s: string) { forall k :: 0 <= k < |s| ==> s[k] in " \t\n\U{000B}\U{000C}\r" }

  // The white space around a text goes, and nothing else.
  lemma TrimsBlanks(before: string, s: string, after: string)
    requires Blanks(before) && Blanks(after)
    requires s != "" && '!' <= s[0] <= '~' && '!' <= s[|s| - 1] <= '~'
    ensures Trim(before + s + after) == s
  {
    TrimsLeft(before, s + after);
    TrimsRight(s, after);
    assert before + s + after == before + (s + after);
  }

  lemma {:induction false} TrimsLeft(before: string, s: string)
    requires Blanks(before) && s != "" && '!' <= s[0] <= '~'
    ensures TrimLeft(before + s) == s
  {
    if before == "" {
      assert before + s == s;
    } else {
      assert (before + s)[1..] == before[1..] + s;
      TrimsLeft(before[1..], s);
    }
  }

  lemma {:induction false} TrimsRight(s: string, after: string)
    requires Blanks(after) && s != "" && '!' <= s[|s| - 1] <= '~'
    ensures TrimRight(s + after) == s
    decreases |after|
  {
    var n := |after| - 1;
    if after == "" {
      assert s + after == s;
    } else {
      assert (s + after)[..|s + after| - 1] == s + after[..n];
      assert (s + after)[|s + after| - 1] == after[n];
      TrimsRight(s, after[..n]);
    }
  }

  function Written(lines: seq<string>): string {
    if lines == [] then ""
    else Written(lines[..|lines| - 1])
         + (if MovesCursor(lines[|lines| - 1]) || Skipped(lines[|lines| - 1]) then "" else lines[|lines| - 1])
  }

  function CursorAfter(lines: seq<string>, cursor: string): string {
    if lines == [] then cursor
    else
      var last := lines[|lines| - 1];
      if MovesCursor(last) then Trim(last[|CURSOR|..]) else CursorAfter(lines[..|lines| - 1], cursor)
  }

  method Drain(out: string, cursor: string) returns (written: string, moved: string)
    ensures written == Written(Pieces(out)) && moved == CursorAfter(Pieces(out), cursor)
  {
    hide HasPrefix;
    var lines := Pieces(out);
    written, moved := "", cursor;
    for n := 0 to |lines|
      invariant written == Written(lines[..n]) && moved == CursorAfter(lines[..n], cursor)
    {
      var line := lines[n];
      assert lines[..n + 1][..n] == lines[..n];
      PrefixIsShorter(line, CURSOR);
      if HasPrefix(line, CURSOR) {
        moved := Trim(line[|CURSOR|..]);
        assert written + "" == written;
      } else if line == "" || HasPrefix(line, NO_ENTRIES) {
        assert written + "" == written;
      } else {
        written := written + line;
      }
    }
    assert lines[..|lines|] == lines;
  }

  lemma PrefixIsShorter(s: string, p: string)
    ensures HasPrefix(s, p) ==> |p| <= |s|
  {
  }

  // What of a text reaches the output.
  function Visible(s: string): string { Written(Pieces(s)) }

  lemma {:induction false} WrittenConcat(a: seq<string>, b: seq<string>)
    ensures Written(a + b) == Written(a) + Written(b)
    decreases |b|
  {
    if b == [] {
      assert a + b == a && Written(a) + "" == Written(a);
    } else {
      hide MovesCursor, Skipped;
      var n := |b| - 1;
      assert (a + b)[..|a + b| - 1] == a + b[..n];
      WrittenConcat(a, b[..n]);
      Associate(Written(a), Written(b[..n]), if MovesCursor(b[n]) || Skipped(b[n]) then "" else b[n]);
    }
  }

  lemma {:induction false} LastPieceEmpty(a: string)
    requires Whole(a)
    ensures Pieces(a)[|Pieces(a)| - 1] == ""
    decreases |a|
  {
    if a != "" {
      LineEndOf(a, "");
      LastPieceEmpty(a[LineEnd(a)..]);
    }
  }

  lemma WholeVisible(a: string)
    requires Whole(a)
    ensures Written(Pieces(a)[..|Pieces(a)| - 1]) == Visible(a)
  {
    LastPieceEmpty(a);
    var p := Pieces(a);
    var n := |p| - 1;
    assert p == p[..n] + [p[n]];
    assert Written(p[..n]) + "" == Written(p[..n]);
  }

  lemma VisibleConcat(a: string, b: string)
    requires Whole(a)
    ensures Visible(a + b) == Visible(a) + Visible(b)
  {
    PiecesConcat(a, b);
    WrittenConcat(Pieces(a)[..|Pieces(a)| - 1], Pieces(b));
    WholeVisible(a);
  }

  // Nothing is dropped exactly when no line imitates journalctl's own.
  lemma {:induction false} AllVisible(s: string)
    ensures |Visible(s)| <= |s|
    ensures Visible(s) == s <==> forall k :: 0 <= k < |Pieces(s)| ==> !Imitates(Pieces(s)[k])
    decreases |s|
  {
    hide LineEnd, Imitates, Written;
    var n := LineEnd(s);
    if n == 0 || s[n - 1] != '\n' {
      VisibleOne(s);
      assert Pieces(s)[0] == s;
    } else {
      AllVisible(s[n..]);
      VisibleSplit(s, n);
    }
  }

  lemma VisibleSplit(s: string, n: nat)
    requires n == LineEnd(s) > 0 && s[n - 1] == '\n' && |Visible(s[n..])| <= |s[n..]|
    ensures |Visible(s)| <= |s|
    ensures Visible(s) == s <==> Visible(s[n..]) == s[n..] && !Imitates(s[..n])
    ensures |Pieces(s)| == 1 + |Pieces(s[n..])| && Pieces(s)[0] == s[..n]
    ensures forall k :: 0 < k < |Pieces(s)| ==> Pieces(s)[k] == Pieces(s[n..])[k - 1]
    ensures forall k :: 0 <= k < |Pieces(s[n..])| ==> Pieces(s[n..])[k] == Pieces(s)[k + 1]
  {
    hide LineEnd;
    var line, rest := s[..n], s[n..];
    assert s == line + rest;
    WrittenConcat([line], Pieces(rest));
    OneWritten(line);
    assert Visible(s) == Written([line]) + Visible(rest);
    assert line != "" && (Imitates(line) <==> MovesCursor(line) || Skipped(line));
    if Imitates(line) {
      assert |Visible(s)| < |s|;
    } else {
      assert Visible(s)[n..] == Visible(rest);
    }
  }

  lemma OneWritten(line: string)
    ensures Written([line]) == if MovesCursor(line) || Skipped(line) then "" else line
  {
    assert [line][..0] == [];
  }

  lemma VisibleOne(s: string)
    requires Pieces(s) == [s]
    ensures |Visible(s)| <= |s| && (Visible(s) == s <==> !Imitates(s))
  {
    OneWritten(s);
  }

  // ------------------------------------------------------------------------ entries

  // One journal entry: its message, and the cursor that names its place.
  datatype Entry = Entry(text: string, cursor: string)

  function Printed(entries: seq<Entry>): string {
    if entries == [] then "" else Printed(entries[..|entries| - 1]) + entries[|entries| - 1].text + "\n"
  }

  // A cursor as journalctl prints one: no blanks about it and no line end within.
  predicate GoodCursor(c: string) {
    c != "" && Trim(c) == c && !Space(c[0]) && !Space(c[|c| - 1]) && forall k :: 0 <= k < |c| ==> c[k] != '\n'
  }

  // journalctl -o cat --show-cursor: the entries, and the last one's cursor; where there are none it
  // says so or says nothing.
  function Shown(entries: seq<Entry>, says: bool): string {
    if entries == [] then (if says then NO_ENTRIES + "\n" else "")
    else Printed(entries) + CURSOR + entries[|entries| - 1].cursor + "\n"
  }

  lemma {:induction false} PrintedWhole(entries: seq<Entry>)
    ensures Whole(Printed(entries))
  {
  }

  lemma {:induction false} PrintedConcat(a: seq<Entry>, b: seq<Entry>)
    ensures Printed(a + b) == Printed(a) + Printed(b)
    decreases |b|
  {
    if b == [] {
      assert a + b == a && Printed(a) + "" == Printed(a);
    } else {
      var n := |b| - 1;
      assert (a + b)[..|a + b| - 1] == a + b[..n];
      PrintedConcat(a, b[..n]);
      assert Printed(a) + (Printed(b[..n]) + b[n].text + "\n") == Printed(a) + Printed(b[..n]) + b[n].text + "\n";
    }
  }

  lemma {:induction false} LineWithout(s: string)
    requires forall k :: 0 <= k < |s| ==> s[k] != '\n'
    ensures LineEnd(s + "\n") == |s| + 1
    decreases |s|
  {
    if s != "" {
      assert (s + "\n")[1..] == s[1..] + "\n";
      LineWithout(s[1..]);
    }
  }

  lemma OneLine(s: string)
    requires forall k :: 0 <= k < |s| ==> s[k] != '\n'
    ensures Pieces(s + "\n") == [s + "\n", ""]
  {
    hide LineEnd;
    LineWithout(s);
    assert (s + "\n")[..|s| + 1] == s + "\n" && (s + "\n")[|s| + 1..] == "";
  }

  lemma TrimmedCursor(c: string)
    requires GoodCursor(c)
    ensures Trim(c + "\n") == c
  {
    assert (c + "\n")[0] == c[0];
    assert TrimLeft(c + "\n") == c + "\n";
    assert (c + "\n")[..|c|] == c;
    assert TrimRight(c + "\n") == TrimRight(c);
    assert TrimLeft(c) == c;
  }

  lemma MarkerLine(c: string)
    requires GoodCursor(c)
    ensures var line := CURSOR + c + "\n";
            && Pieces(line) == [line, ""] && MovesCursor(line) && line[|CURSOR|..] == c + "\n"
  {
    OneLine(CURSOR + c);
    var line := CURSOR + c + "\n";
    assert line[..|CURSOR|] == CURSOR && line[|CURSOR|..] == c + "\n";
  }

  // One reading: what is visible of the entries is written, and the cursor is the last one's,
  // whatever the entries themselves say.
  lemma DrainShown(entries: seq<Entry>, says: bool, cursor: string)
    requires forall k :: 0 <= k < |entries| ==> GoodCursor(entries[k].cursor)
    ensures Written(Pieces(Shown(entries, says))) == Visible(Printed(entries))
    ensures CursorAfter(Pieces(Shown(entries, says)), cursor)
            == if entries == [] then cursor else entries[|entries| - 1].cursor
  {
    hide GoodCursor, Trim;
    if entries == [] {
      DrainNothing(says, cursor);
    } else {
      var c := entries[|entries| - 1].cursor;
      var line, text := CURSOR + c + "\n", Printed(entries);
      MarkerLine(c);
      PrintedWhole(entries);
      assert Shown(entries, says) == text + line;
      PiecesConcat(text, line);
      VisibleConcat(text, line);
      var before := Pieces(text)[..|Pieces(text)| - 1];
      EndsInMarker(before, line, cursor, c);
    }
  }

  lemma EndsInMarker(before: seq<string>, line: string, cursor: string, c: string)
    requires MovesCursor(line) && line[|CURSOR|..] == c + "\n" && GoodCursor(c)
    requires Pieces(line) == [line, ""]
    ensures CursorAfter(before + [line, ""], cursor) == c
    ensures Visible(line) == ""
  {
    var all := before + [line, ""];
    assert all[..|all| - 1] == before + [line];
    assert !MovesCursor("");
    TrimmedCursor(c);
    assert [line, ""] == [line] + [""];
    WrittenConcat([line], [""]);
    OneWritten(line);
    OneWritten("");
  }

  lemma DrainNothing(says: bool, cursor: string)
    ensures var out := if says then NO_ENTRIES + "\n" else "";
            Written(Pieces(out)) == Visible("") && CursorAfter(Pieces(out), cursor) == cursor
  {
    var line := NO_ENTRIES + "\n";
    assert Pieces("") == [""];
    OneWritten("");
    assert [""][..0] == [];
    OneLine(NO_ENTRIES);
    assert [line, ""] == [line] + [""];
    WrittenConcat([line], [""]);
    OneWritten(line);
    assert line[..|NO_ENTRIES|] == NO_ENTRIES;
    assert [line, ""][..1] == [line] && [line][..0] == [];
    assert line[3] == 'N' && CURSOR[3] == 'c';
    if |CURSOR| <= |line| {
      assert line[..|CURSOR|][3] == line[3];
    }
    assert !MovesCursor("") && !MovesCursor(line);
    assert CursorAfter([line], cursor) == CursorAfter([], cursor);
  }
}
