/**
 * What a later reading finds after an edit: the last write wins, exactly when the scan of the
 * file ends at top level or the file already declared its image, and nothing else changes.
 */
module PklLastWrite {
  import opened Options
  import opened PklScan
  import opened PklString
  import opened PklEdit
  import opened PklImageLine

  // ------------------------------------------------ one line of the file replaced

  // The parts of a replacement: `src` and what becomes of it, around the line at i.
  ghost predicate Replaces(src: string, i: nat, line: string, changed: string) {
    && i < |src| && TopLevel(src, i)
    && line == LineAt(src, i) && line != "" && changed != "" && Free(changed, '\n')
    && Run(TOP, line + "\n") == TOP && Run(TOP, changed + "\n") == TOP
  }

  // Where a position after the line is found in the original.
  function Back(k: nat, line: string, changed: string): int { k - |changed| + |line| }

  lemma LineEndIs(src: string, i: nat, e: nat)
    requires i <= e <= |src| && (e < |src| ==> src[e] == '\n') && forall k :: i <= k < e ==> src[k] != '\n'
    ensures LineEnd(src, i) == e
  {
  }

  lemma SameUpTo(a: string, b: string, i: nat, k: nat)
    requires i <= |a| && i <= |b| && a[..i] == b[..i] && LineStart(a, i) && k < i
    ensures TopLevel(a, k) == TopLevel(b, k)
    ensures TopLevel(a, k) ==> LineAt(a, k) == LineAt(b, k)
  {
    assert forall m :: 0 <= m < i ==> a[m] == a[..i][m] == b[..i][m] == b[m];
    assert a[..k] == a[..i][..k] && b[..k] == b[..i][..k];
    if TopLevel(a, k) {
      assert a[i - 1] == '\n';
      assert LineEnd(a, k) == LineEnd(b, k) < i;
      assert a[k..LineEnd(a, k)] == a[..i][k..LineEnd(a, k)];
    }
  }

  lemma BeforeTheLine(src: string, i: nat, line: string, changed: string, k: nat)
    requires Replaces(src, i, line, changed) && k <= i
    ensures var t := WithLine(src, i, changed);
            && TopLevel(t, k) == TopLevel(src, k)
            && (k < i && TopLevel(src, k) ==> LineAt(t, k) == LineAt(src, k))
            && (k == i ==> LineAt(t, k) == changed)
  {
    hide Run;
    var t, e := WithLine(src, i, changed), LineEnd(src, i);
    assert t[..i] == src[..i];
    if k < i {
      SameUpTo(src, t, i, k);
    } else {
      assert i > 0 ==> t[i - 1] == t[..i][i - 1];
      assert t[i..i + |changed|] == changed;
      assert e < |src| ==> t[i + |changed|] == src[e];
      assert forall m :: i <= m < i + |changed| ==> t[m] == changed[m - i];
      assert LineEnd(t, i) == i + |changed|;
    }
  }

  lemma OnTheLine(src: string, i: nat, line: string, changed: string, k: nat)
    requires Replaces(src, i, line, changed) && i < k <= i + |changed|
    ensures !TopLevel(WithLine(src, i, changed), k)
  {
    hide Run;
    assert WithLine(src, i, changed)[k - 1] == changed[k - 1 - i];
  }

  lemma AfterTheLine(src: string, i: nat, line: string, changed: string, k: nat)
    requires Replaces(src, i, line, changed) && k > i + |changed|
    ensures var t := WithLine(src, i, changed);
            && TopLevel(t, k) == TopLevel(src, Back(k, line, changed))
            && (TopLevel(t, k) ==> LineAt(t, k) == LineAt(src, Back(k, line, changed)))
  {
    hide Run;
    var t, e, o: nat := WithLine(src, i, changed), LineEnd(src, i), Back(k, line, changed);
    if k < |t| {
      var n := i + |changed|;
      assert forall m :: n <= m < |t| ==> t[m] == src[m - n + e];
      assert t[k..] == src[o..];
      SameRun(src, i, line, changed, k);
    }
  }

  lemma SameRun(src: string, i: nat, line: string, changed: string, k: nat)
    requires Replaces(src, i, line, changed) && i + |changed| < k < |WithLine(src, i, changed)|
    ensures Run(TOP, WithLine(src, i, changed)[..k]) == Run(TOP, src[..Back(k, line, changed)])
  {
    hide Run;
    var e, o: nat := LineEnd(src, i), Back(k, line, changed);
    var between := src[e + 1..o];
    assert src[..o] == src[..i] + (line + "\n") + between;
    assert WithLine(src, i, changed)[..k] == src[..i] + (changed + "\n") + between;
    RunThree(src[..i], line + "\n", between);
    RunThree(src[..i], changed + "\n", between);
  }

  lemma RunThree(a: string, b: string, c: string)
    requires Run(TOP, a) == TOP && Run(TOP, b) == TOP
    ensures Run(TOP, a + b + c) == Run(TOP, c)
  {
    RunConcat(TOP, a + b, c);
    RunConcat(TOP, a, b);
  }

  // Nothing but the one line is different: every other top-level line is still one, unchanged.
  lemma OneLineReplaced(src: string, i: nat, line: string, changed: string, k: nat)
    requires Replaces(src, i, line, changed)
    ensures var t := WithLine(src, i, changed);
            && (k < i ==> TopLevel(t, k) == TopLevel(src, k) && (TopLevel(src, k) ==> LineAt(t, k) == LineAt(src, k)))
            && (k == i ==> TopLevel(t, k) && LineAt(t, k) == changed)
            && (i < k <= i + |changed| ==> !TopLevel(t, k))
            && (k > i + |changed| ==>
                  && TopLevel(t, k) == TopLevel(src, Back(k, line, changed))
                  && (TopLevel(t, k) ==> LineAt(t, k) == LineAt(src, Back(k, line, changed))))
  {
    hide TopLevel, Run, LineAt, WithLine;
    if k <= i {
      BeforeTheLine(src, i, line, changed, k);
    } else if k <= i + |changed| {
      OnTheLine(src, i, line, changed, k);
    } else {
      AfterTheLine(src, i, line, changed, k);
    }
  }

  // ------------------------------------------------------------ the two kinds of edit

  // The file declares its image in one place, as a plain literal.
  ghost predicate Plainly(src: string, i: nat) {
    && i < |src| && Decls(src) == [i] && ImageLiteral(LineAt(src, i)).Some?
  }

  lemma Declared(src: string, i: nat)
    requires i < |src| && Decls(src) == [i]
    ensures Decl(src, i) && forall k: nat :: Decl(src, k) ==> k == i
  {
    DeclCases(src);
  }

  lemma LineIsFree(src: string, i: nat)
    requires i <= |src|
    ensures Free(LineAt(src, i), '\n')
  {
  }

  lemma ReplacesTheLiteral(src: string, i: nat, ref: string)
    requires Plainly(src, i) && Free(ref, '\n')
    ensures var line := LineAt(src, i); Replaces(src, i, line, WithLiteral(line, ref))
  {
    hide TopLevel, LineAt, ImageLiteral, WithLiteral;
    var line := LineAt(src, i);
    Declared(src, i);
    LineIsFree(src, i);
    LiteralStaysOnTheLine(line, ref);
    LiteralFound(line, ref);
    ImageLineReturns(line);
    ImageLineReturns(WithLiteral(line, ref));
  }

  lemma ReplacedIsDeclared(src: string, i: nat, ref: string)
    requires Plainly(src, i) && Free(ref, '\n')
    ensures var line := LineAt(src, i); var t := WithLine(src, i, WithLiteral(line, ref));
            Plainly(t, i) && LineAt(t, i) == WithLiteral(line, ref)
  {
    hide Run, LineAt, ImageLiteral, WithLiteral, WithLine, Decls;
    var line := LineAt(src, i);
    var changed := WithLiteral(line, ref);
    var t := WithLine(src, i, changed);
    Declared(src, i);
    ReplacesTheLiteral(src, i, ref);
    LiteralFound(line, ref);
    OneLineReplaced(src, i, line, changed, i);
    forall k: nat | Decl(t, k) ensures k == i {
      OneLineReplaced(src, i, line, changed, k);
      assert k < i ==> Decl(src, k);
      assert k > i + |changed| ==> Decl(src, Back(k, line, changed));
    }
    TheOnlyDecl(t, i);
  }

  // No declaration at all: a line is appended, and it counts exactly when the scan ends at top level.
  lemma Appended(src: string, ref: string)
    requires Decls(src) == [] && Free(ref, '\n')
    ensures var base := Terminated(src); var t := base + ImageLine(ref) + "\n";
            if Run(TOP, base) == TOP
            then Plainly(t, |base|) && LineAt(t, |base|) == ImageLine(ref)
            else Decls(t) == []
  {
    hide Run, ImageLine, IsImageDecl, ImageLiteral, Terminated;
    var base, line := Terminated(src), ImageLine(ref);
    var t := base + line + "\n";
    AppendedLine(src, ref);
    forall k: nat | Decl(t, k) ensures k == |base| {
      DeclCases(src);
      assert !Decl(src, k);
      if k < |base| { TerminatedKeeps(src, ref, k); }
    }
    FreshImageLine(ref);
    if Run(TOP, base) == TOP {
      TheOnlyDecl(t, |base|);
    } else {
      DeclCases(t);
    }
  }

  lemma AppendedLine(src: string, ref: string)
    requires Free(ref, '\n')
    ensures var base := Terminated(src); var t := base + ImageLine(ref) + "\n";
            && |base| < |t| && LineAt(t, |base|) == ImageLine(ref)
            && (TopLevel(t, |base|) <==> Run(TOP, base) == TOP)
            && forall k :: |base| < k ==> !TopLevel(t, k)
  {
    hide Run, ImageLine, Terminated;
    var base, line := Terminated(src), ImageLine(ref);
    var t := base + line + "\n";
    ImageLineIsFree(ref);
    EndsItsLine(src);
    assert forall k :: |base| <= k < |base| + |line| ==> t[k] == line[k - |base|];
    LineEndIs(t, |base|, |base| + |line|);
    assert t[|base|..|base| + |line|] == line;
    assert t[..|base|] == base;
    assert base != "" ==> t[|base| - 1] == base[|base| - 1] == '\n';
  }

  lemma ImageLineIsFree(ref: string)
    requires Free(ref, '\n')
    ensures Free(ImageLine(ref), '\n')
  {
    OneLine(ref, false);
  }

  lemma EndsItsLine(src: string)
    ensures Terminated(src) == "" || Terminated(src)[|Terminated(src)| - 1] == '\n'
  {
  }

  lemma TerminatedKeeps(src: string, ref: string, k: nat)
    requires var t := Terminated(src) + ImageLine(ref) + "\n"; k < |Terminated(src)| && TopLevel(t, k)
    ensures var t := Terminated(src) + ImageLine(ref) + "\n";
            TopLevel(src, k) && LineAt(t, k) == LineAt(src, k)
  {
    hide Run, ImageLine;
    var base := Terminated(src);
    var t := base + ImageLine(ref) + "\n";
    assert forall m :: 0 <= m < |base| ==> t[m] == base[m];
    assert forall m :: 0 <= m < |src| ==> t[m] == src[m];
    assert t[..k] == src[..k];
    LineEndIs(t, k, LineEnd(src, k));
    assert t[k..LineEnd(src, k)] == src[k..LineEnd(src, k)];
  }

  // ------------------------------------------------------------------- theorems

  // Checked before the edit: the file declares its image, or its scan ends outside everything.
  predicate EditLands(src: string) {
    Decls(src) != [] || Run(TOP, Terminated(src)) == TOP
  }

  lemma EditCases(src: string, ref: string)
    requires Rewritten(src, ref).Edited?
    ensures Decls(src) == [] || Plainly(src, Decls(src)[0])
  {
    hide LineAt, ImageLiteral, IsImageDecl;
    DeclsAreTheDeclarations(src);
  }

  lemma Replacing(src: string, i: nat, a: string, b: string)
    requires Plainly(src, i) && Free(a, '\n')
    ensures Rewritten(src, a) == Edited(WithLine(src, i, WithLiteral(LineAt(src, i), a)))
    ensures Rewritten(Rewritten(src, a).text, b) == Rewritten(src, b)
  {
    hide ImageLiteral, IsImageDecl, Run, Decls;
    var line := LineAt(src, i);
    var changed := WithLiteral(line, a);
    var t := WithLine(src, i, changed);
    ReplacedIsDeclared(src, i, a);
    LiteralTwice(line, a, b);
    assert LineAt(t, i) == changed;
    assert LineEnd(t, i) == i + |changed|;
    assert t[..i] == src[..i] && t[i + |changed|..] == src[LineEnd(src, i)..];
  }

  lemma Appending(src: string, a: string, b: string)
    requires Decls(src) == [] && Free(a, '\n')
    ensures Rewritten(src, a) == Edited(Terminated(src) + ImageLine(a) + "\n")
    ensures (Rewritten(Rewritten(src, a).text, b) == Rewritten(src, b)) <==> Run(TOP, Terminated(src)) == TOP
  {
    hide Rewritten, Run, Decls, ImageLine;
    AppendsLine(src, a);
    AppendsLine(src, b);
    if Run(TOP, Terminated(src)) == TOP {
      AppendedReplaced(src, a, b);
    } else {
      AppendedTwice(src, a, b);
    }
  }

  lemma AppendsLine(src: string, ref: string)
    requires Decls(src) == []
    ensures Rewritten(src, ref) == Edited(Terminated(src) + ImageLine(ref) + "\n")
  {
    hide Decls, ImageLine, Terminated;
  }

  // The appended line counts, and the next write changes it in place.
  lemma AppendedReplaced(src: string, a: string, b: string)
    requires Decls(src) == [] && Free(a, '\n') && Run(TOP, Terminated(src)) == TOP
    ensures Rewritten(Terminated(src) + ImageLine(a) + "\n", b) == Edited(Terminated(src) + ImageLine(b) + "\n")
  {
    hide ImageLiteral, IsImageDecl, Run, Decls, ImageLine, LineAt, Terminated, WithLiteral;
    var base, line := Terminated(src), ImageLine(a);
    var t := base + line + "\n";
    Appended(src, a);
    FreshImageLine(a);
    LineLength(t, |base|);
    assert Rewritten(t, b) == Edited(WithLine(t, |base|, WithLiteral(line, b)));
    assert WithLiteral(line, b) == ImageLine(b);
    assert t[..|base|] == base && t[|base| + |line|..] == "\n";
  }

  // The appended line is not seen, and the next write appends another.
  lemma AppendedTwice(src: string, a: string, b: string)
    requires Decls(src) == [] && Free(a, '\n') && Run(TOP, Terminated(src)) != TOP
    ensures Rewritten(Terminated(src) + ImageLine(a) + "\n", b) != Edited(Terminated(src) + ImageLine(b) + "\n")
  {
    hide Rewritten, Run, Decls, ImageLine;
    var base := Terminated(src);
    var t := base + ImageLine(a) + "\n";
    Appended(src, a);
    assert Terminated(t) == t;
    AppendsLine(t, b);
    assert |t + ImageLine(b) + "\n"| > |base + ImageLine(b) + "\n"|;
  }

  lemma LineLength(src: string, i: nat)
    requires i <= |src|
    ensures |LineAt(src, i)| == LineEnd(src, i) - i
  {
  }

  // The last write wins: setting `a` and then `b` is setting `b`, for every file that can be edited
  // at all, exactly when the first edit lands somewhere a later scan looks.
  lemma LastWriteWins(src: string, a: string, b: string)
    requires Rewritten(src, a).Edited? && Free(a, '\n')
    ensures (Rewritten(Rewritten(src, a).text, b) == Rewritten(src, b)) <==> EditLands(src)
  {
    hide Rewritten, Decls, Run, Terminated;
    EditCases(src, a);
    if Decls(src) == [] {
      Appending(src, a, b);
    } else {
      Replacing(src, Decls(src)[0], a, b);
    }
  }

  // And exactly then does the file, read again, declare the image it was given.
  lemma ReadsBack(src: string, ref: string)
    requires Rewritten(src, ref).Edited? && Free(ref, '\n')
    ensures ImageOf(Rewritten(src, ref).text) == (if EditLands(src) then Some(ref) else None)
  {
    hide Run, Terminated, ImageLine, IsImageDecl, WithLine, WithLiteral, LineAt, ImageLiteral, Decls;
    EditCases(src, ref);
    DecodeBody(ref, false);
    if Decls(src) == [] {
      Appending(src, ref, ref);
      Appended(src, ref);
      FreshImageLine(ref);
    } else {
      var i := Decls(src)[0];
      Replacing(src, i, ref, ref);
      ReplacedIsDeclared(src, i, ref);
      LiteralFound(LineAt(src, i), ref);
    }
  }

  // Where the edited line begins.
  function Place(src: string): nat {
    if Decls(src) == [] then |Terminated(src)| else Decls(src)[0]
  }

  // How far the edit moves what begins at k.
  function Shift(src: string, t: string, k: nat): int {
    if k < Place(src) then 0 else |t| - |src|
  }

  // One literal or one appended line is all that differs: every other top-level line is still one,
  // word for word, where the edit moved it to, and every other one there was one before.
  lemma OnlyTheImageChanges(src: string, ref: string, k: nat)
    requires Rewritten(src, ref).Edited? && Free(ref, '\n') && k != Place(src)
    ensures var t := Rewritten(src, ref).text;
            && (TopLevel(src, k) ==>
                  var m := k + Shift(src, t, k);
                  m >= 0 && TopLevel(t, m) && LineAt(t, m) == LineAt(src, k))
            && (TopLevel(t, k) ==>
                  var o := k - Shift(src, t, k);
                  o >= 0 && TopLevel(src, o) && LineAt(src, o) == LineAt(t, k))
  {
    hide TopLevel, LineAt, Decls, WithLine, WithLiteral, ImageLine, Rewritten, Terminated, ImageLiteral;
    EditCases(src, ref);
    if Decls(src) == [] {
      Appending(src, ref, ref);
      KeptByAppending(src, ref, k);
    } else {
      Replacing(src, Decls(src)[0], ref, ref);
      KeptByReplacing(src, Decls(src)[0], ref, k);
    }
  }

  lemma KeptByAppending(src: string, ref: string, k: nat)
    requires Free(ref, '\n') && k != |Terminated(src)|
    ensures var t := Terminated(src) + ImageLine(ref) + "\n";
            && (TopLevel(src, k) ==> TopLevel(t, k) && LineAt(t, k) == LineAt(src, k))
            && (TopLevel(t, k) ==> k < |Terminated(src)| && TopLevel(src, k) && LineAt(src, k) == LineAt(t, k))
  {
    hide Run, ImageLine;
    var base := Terminated(src);
    var t := base + ImageLine(ref) + "\n";
    AppendedLine(src, ref);
    if TopLevel(src, k) {
      assert forall m :: 0 <= m < |src| ==> t[m] == src[m];
      assert t[..k] == src[..k];
    }
    if TopLevel(t, k) {
      assert k < |base|;
      TerminatedKeeps(src, ref, k);
    }
  }

  lemma KeptByReplacing(src: string, i: nat, ref: string, k: nat)
    requires Plainly(src, i) && Free(ref, '\n') && k != i
    ensures var t := WithLine(src, i, WithLiteral(LineAt(src, i), ref));
            var moved := if k < i then 0 else |t| - |src|;
            && (TopLevel(src, k) ==>
                  k + moved >= 0 && TopLevel(t, k + moved) && LineAt(t, k + moved) == LineAt(src, k))
            && (TopLevel(t, k) ==>
                  k - moved >= 0 && TopLevel(src, k - moved) && LineAt(src, k - moved) == LineAt(t, k))
  {
    hide TopLevel, LineAt, ImageLiteral, Decls, WithLiteral, WithLine, IsImageDecl;
    var line := LineAt(src, i);
    var changed := WithLiteral(line, ref);
    ReplacesTheLiteral(src, i, ref);
    LongerBy(src, i, changed);
    OneLineReplaced(src, i, line, changed, k);
    if TopLevel(src, k) && k > i {
      LaterLine(src, i, k);
      OneLineReplaced(src, i, line, changed, k - |line| + |changed|);
    }
  }

  lemma LongerBy(src: string, i: nat, changed: string)
    requires i <= |src|
    ensures |WithLine(src, i, changed)| - |src| == |changed| - |LineAt(src, i)|
  {
  }

  lemma LaterLine(src: string, i: nat, k: nat)
    requires i < k && TopLevel(src, k)
    ensures k > i + |LineAt(src, i)|
  {
    hide Run;
  }

  // One edit after another; one that is refused changes nothing.
  function Edits(src: string, refs: seq<string>): string {
    if refs == [] then src
    else
      var before := Edits(src, refs[..|refs| - 1]);
      var e := Rewritten(before, refs[|refs| - 1]);
      if e.Edited? then e.text else before
  }

  function Lines(refs: seq<string>): string {
    if refs == [] then "" else Lines(refs[..|refs| - 1]) + ImageLine(refs[|refs| - 1]) + "\n"
  }

  lemma DeepLineReturns(ref: string, d: nat)
    requires Free(ref, '\n')
    ensures Run(State(Normal, d), ImageLine(ref) + "\n") == State(Normal, d)
  {
    hide Run;
    RunPlain("image = ", d);
    ReadQuoted(ref, false, d, "\n");
    RunPlain("\n", d);
    assert ImageLine(ref) + "\n" == "image = " + (Literal(ref) + "\n");
    RunConcat(State(Normal, d), "image = ", Literal(ref) + "\n");
  }

  // A file that ends inside a bracket never keeps its image: however often it is set, each edit
  // appends one line more and none of them is ever read.
  lemma {:induction false} UnclosedNeverLands(src: string, refs: seq<string>, d: nat)
    requires Decls(src) == [] && d > 0 && Run(TOP, Terminated(src)) == State(Normal, d)
    requires forall k :: 0 <= k < |refs| ==> Free(refs[k], '\n')
    ensures var t := Edits(src, refs);
            && Decls(t) == [] && ImageOf(t) == None && Run(TOP, Terminated(t)) == State(Normal, d)
            && (refs != [] ==> t == Terminated(src) + Lines(refs))
    decreases |refs|
  {
    hide Run, Decls, ImageLine;
    if refs != [] {
      var front, ref := refs[..|refs| - 1], refs[|refs| - 1];
      UnclosedNeverLands(src, front, d);
      var before := Edits(src, front);
      AppendsLine(before, ref);
      Appended(before, ref);
      DeepLineReturns(ref, d);
      RunConcat(TOP, Terminated(before), ImageLine(ref) + "\n");
      assert Terminated(before) + (ImageLine(ref) + "\n") == Terminated(before) + ImageLine(ref) + "\n";
      LinesEnd(src, front, ref, before);
    }
  }

  lemma LinesEnd(src: string, front: seq<string>, ref: string, before: string)
    requires if front == [] then before == src else before == Terminated(src) + Lines(front)
    ensures Terminated(before) + ImageLine(ref) + "\n" == Terminated(src) + Lines(front + [ref])
    ensures Terminated(Terminated(before) + ImageLine(ref) + "\n") == Terminated(before) + ImageLine(ref) + "\n"
  {
    hide ImageLine, Lines, Terminated;
    var base := Terminated(src);
    LinesSnoc(front, ref);
    if front == [] {
      NoLines();
    } else {
      var n := |front| - 1;
      LinesSnoc(front[..n], front[n]);
      assert front == front[..n] + [front[n]];
      LineEnds(base, Lines(front[..n]) + ImageLine(front[n]));
      assert before == base + (Lines(front[..n]) + ImageLine(front[n]) + "\n");
    }
    Regroup(base, Lines(front), ImageLine(ref));
    LineEnds(Terminated(before), ImageLine(ref));
  }

  lemma NoLines()
    ensures Lines([]) == "" && forall s: string :: s + "" == s
  {
  }

  lemma LinesSnoc(refs: seq<string>, ref: string)
    ensures Lines(refs + [ref]) == Lines(refs) + ImageLine(ref) + "\n"
  {
    hide ImageLine;
    assert (refs + [ref])[..|refs|] == refs;
  }

  lemma LineEnds(base: string, line: string)
    ensures Terminated(base + (line + "\n")) == base + (line + "\n")
    ensures base + (line + "\n") == base + line + "\n"
  {
  }

  lemma Regroup(a: string, b: string, c: string)
    ensures (a + b) + c + "\n" == a + (b + c + "\n")
  {
  }
}
