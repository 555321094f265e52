/**
 * The managed block of an instructions file (internal/agentcontext/render.go): what a write keeps
 * of the user's text, and when a second write replaces the first.
 */
module Splice {
  import opened Options
  import opened Text

  const BEGIN := "<!-- bivouac:begin -->"
  const END := "<!-- bivouac:end -->"

  // `marker` occurs in s at i.
  predicate Occurs(s: string, marker: string, i: nat) {
    i + |marker| <= |s| && s[i..i + |marker|] == marker
  }

  // It stands alone on its line.
  predicate Alone(s: string, marker: string, i: nat) {
    && Occurs(s, marker, i)
    && (i == 0 || s[i - 1] == '\n')
    && (i + |marker| == |s| || s[i + |marker|] == '\n')
  }

  // The first place at or after `from` where the marker stands alone.
  function First(s: string, marker: string, from: nat): (r: Option<nat>)
    ensures r.Some? ==> r.value >= from && Alone(s, marker, r.value)
    ensures forall i :: from <= i < (if r.Some? then r.value else |s| + 1) ==> !Alone(s, marker, i)
    decreases |s| + 1 - from
  {
    if from > |s| then None
    else if Alone(s, marker, from) then Some(from)
    else First(s, marker, from + 1)
  }

  // strings.Index, from i on.
  function Index(s: string, marker: string, i: nat): (r: Option<nat>)
    ensures r.Some? ==> r.value >= i && Occurs(s, marker, r.value)
    ensures forall k :: i <= k < (if r.Some? then r.value else |s| + 1) ==> !Occurs(s, marker, k)
    decreases |s| + 1 - i
  {
    if i > |s| then None else if Occurs(s, marker, i) then Some(i) else Index(s, marker, i + 1)
  }

  lemma FirstIs(s: string, marker: string, from: nat, r: Option<nat>)
    requires r.Some? ==> r.value >= from && Alone(s, marker, r.value)
    requires forall i :: from <= i < (if r.Some? then r.value else |s| + 1) ==> !Alone(s, marker, i)
    ensures First(s, marker, from) == r
  {
    var f := First(s, marker, from);
    assert r.Some? ==> r.value <= |s|;
    assert f.Some? ==> f.value <= |s|;
  }

  method LineIndex(s: string, marker: string, from: nat) returns (r: Option<nat>)
    ensures r == First(s, marker, from)
  {
    var i := from;
    while i <= |s|
      invariant from <= i
      invariant forall k :: from <= k < i ==> !Alone(s, marker, k)
      decreases |s| + 1 - i
    {
      var found := Index(s, marker, i);
      if found.None? {
        FirstIs(s, marker, from, None);
        return None;
      }
      var at := found.value;
      var after := at + |marker|;
      if (at == 0 || s[at - 1] == '\n') && (after == |s| || s[after] == '\n') {
        FirstIs(s, marker, from, Some(at));
        return Some(at);
      }
      i := at + 1;
    }
    FirstIs(s, marker, from, None);
    return None;
  }

  function Trimmed(block: string): string {
    if block != "" && block[|block| - 1] == '\n' then block[..|block| - 1] else block
  }

  function Terminated(s: string): string {
    if s != "" && s[|s| - 1] != '\n' then s + "\n" else s
  }

  function Spliced(existing: string, block: string): string {
    match First(existing, BEGIN, 0)
    case None => if existing == "" then block else Terminated(existing) + "\n" + block
    case Some(start) =>
      match First(existing, END, start + |BEGIN|)
      case None => existing[..start] + block
      case Some(end) => existing[..start] + Trimmed(block) + existing[end + |END|..]
  }

  // No begin marker stands alone in the file; the first that does is at `start`; and the first end
  // marker that stands alone after it is at `end`, or there is none.
  ghost predicate Unmanaged(s: string) { forall i: nat :: !Alone(s, BEGIN, i) }

  ghost predicate BeginsAt(s: string, start: nat) {
    Alone(s, BEGIN, start) && forall i :: 0 <= i < start ==> !Alone(s, BEGIN, i)
  }

  ghost predicate EndsAt(s: string, start: nat, end: nat) {
    start + |BEGIN| <= end && Alone(s, END, end) && forall i :: start + |BEGIN| <= i < end ==> !Alone(s, END, i)
  }

  ghost predicate CutShort(s: string, start: nat) { forall i :: start + |BEGIN| <= i ==> !Alone(s, END, i) }

  // What becomes of the file's own characters. Without a block they all stay, and the block follows
  // after one blank line; otherwise what stands before the block stays, and what follows its end
  // marker, if it has one.
  ghost predicate KeepsText(existing: string, block: string, r: string) {
    && (Unmanaged(existing) ==>
          r == if existing == "" then block
               else existing + (if existing[|existing| - 1] == '\n' then "\n" else "\n\n") + block)
    && (forall start: nat :: BeginsAt(existing, start) && CutShort(existing, start) ==> r == existing[..start] + block)
    && (forall start: nat, end: nat :: BeginsAt(existing, start) && EndsAt(existing, start, end) ==>
          r == existing[..start]
               + (if block != "" && block[|block| - 1] == '\n' then block[..|block| - 1] else block)
               + existing[end + |END|..])
  }

  lemma SplicedKeepsText(existing: string, block: string)
    ensures KeepsText(existing, block, Spliced(existing, block))
  {
    hide Alone, First, Unmanaged, BeginsAt, EndsAt, CutShort;
    if Unmanaged(existing) { NoneFirst(existing); }
    if existing != "" { EndedLine(existing, block); }
    forall start: nat | BeginsAt(existing, start)
      ensures First(existing, BEGIN, 0) == Some(start)
    {
      BeginIsFirst(existing, start);
    }
    forall start: nat | BeginsAt(existing, start) && CutShort(existing, start)
      ensures First(existing, END, start + |BEGIN|) == None
    {
      CutIsNone(existing, start);
    }
    forall start: nat, end: nat | BeginsAt(existing, start) && EndsAt(existing, start, end)
      ensures First(existing, END, start + |BEGIN|) == Some(end)
    {
      EndIsFirst(existing, start, end);
    }
  }

  lemma EndedLine(s: string, block: string)
    requires s != ""
    ensures Terminated(s) + "\n" + block == s + (if s[|s| - 1] == '\n' then "\n" else "\n\n") + block
  {
    assert s + "\n" + "\n" == s + "\n\n";
  }

  lemma NoneFirst(s: string)
    requires Unmanaged(s)
    ensures First(s, BEGIN, 0) == None
  {
    FirstIs(s, BEGIN, 0, None);
  }

  lemma BeginIsFirst(s: string, start: nat)
    requires BeginsAt(s, start)
    ensures First(s, BEGIN, 0) == Some(start)
  {
    FirstIs(s, BEGIN, 0, Some(start));
  }

  lemma EndIsFirst(s: string, start: nat, end: nat)
    requires EndsAt(s, start, end)
    ensures First(s, END, start + |BEGIN|) == Some(end)
  {
    FirstIs(s, END, start + |BEGIN|, Some(end));
  }

  lemma CutIsNone(s: string, start: nat)
    requires CutShort(s, start)
    ensures First(s, END, start + |BEGIN|) == None
  {
    FirstIs(s, END, start + |BEGIN|, None);
  }

  method SpliceBlock(existing: string, block: string) returns (r: string)
    ensures r == Spliced(existing, block)
    ensures KeepsText(existing, block, r)
  {
    SplicedKeepsText(existing, block);
    hide KeepsText;
    var start := LineIndex(existing, BEGIN, 0);
    if start.None? {
      if existing == "" {
        return block;
      }
      var base := existing;
      if existing[|existing| - 1] != '\n' {
        base := base + "\n";
      }
      return base + "\n" + block;
    }
    var afterBegin := start.value + |BEGIN|;
    var end := LineIndex(existing, END, afterBegin);
    if end.Some? {
      var tail := existing[end.value + |END|..];
      return existing[..start.value] + Trimmed(block) + tail;
    }
    return existing[..start.value] + block;
  }

  // ------------------------------------------------------------- the user's text

  // What lies before the managed block and what follows its end marker. Where there is no block, or
  // one cut short, this is where the next write will put one.
  function Outside(s: string): (string, string) {
    match First(s, BEGIN, 0)
    case None => (if s == "" then "" else Terminated(s) + "\n", "\n")
    case Some(start) =>
      match First(s, END, start + |BEGIN|)
      case None => (s[..start], "\n")
      case Some(end) => (s[..start], s[end + |END|..])
  }

  predicate EndsLine(s: string) { s != "" && s[|s| - 1] == '\n' }

  // What the renderer produces: whole lines between the two markers.
  predicate IsBlock(block: string) {
    && |block| > |BEGIN| + |END| + 1
    && block[..|BEGIN| + 1] == BEGIN + "\n"
    && block[|block| - |END| - 1..] == END + "\n"
    && block[|block| - |END| - 2] == '\n'
  }

  // Where the block's first end marker is, and whether that is its own.
  function FirstEnd(block: string): Option<nat> { First(block, END, |BEGIN|) }

  predicate Clean(block: string) { FirstEnd(block) == Some(|block| - |END| - 1) }

  // The rest of the block after its first end marker: nothing, if the block is clean.
  function Residue(block: string): string
    requires IsBlock(block)
  {
    EndFound(block);
    block[FirstEnd(block).value + |END|..|block| - 1]
  }

  lemma EndFound(block: string)
    requires IsBlock(block)
    ensures FirstEnd(block).Some? && FirstEnd(block).value <= |block| - |END| - 1
    ensures FirstEnd(block).value > |BEGIN|
  {
    var at := |block| - |END| - 1;
    assert block[at..at + |END|] == block[at..][..|END|] == END;
    assert block[at + |END|] == block[at..][|END|] == '\n';
    assert Alone(block, END, at);
    assert block[|BEGIN|] == block[..|BEGIN| + 1][|BEGIN|] == '\n';
    assert !Occurs(block, END, |BEGIN|) by { assert block[|BEGIN|..|BEGIN| + |END|][0] != END[0]; }
  }

  lemma SplicedAround(s: string, block: string)
    requires EndsLine(block)
    ensures Spliced(s, block) == Outside(s).0 + Trimmed(block) + Outside(s).1
  {
    assert Trimmed(block) + "\n" == block;
    var before := Outside(s).0;
    assert before + Trimmed(block) + "\n" == before + block;
  }

  // Where a managed block can stand: at a line's head, with nothing of the kind before it.
  ghost predicate Ready(before: string, after: string) {
    && (before == "" || before[|before| - 1] == '\n')
    && (after == "" || after[0] == '\n')
    && forall i :: 0 <= i < |before| ==> !Alone(before, BEGIN, i)
  }

  // A marker never lies across a line end.
  lemma WithinTheLine(s: string, marker: string, i: nat, cut: nat)
    requires Occurs(s, marker, i) && cut < |s| && s[cut] == '\n'
    requires forall k :: 0 <= k < |marker| ==> marker[k] != '\n'
    ensures cut < i || i + |marker| <= cut
  {
    forall k | i <= k < i + |marker| ensures s[k] != '\n' {
      assert s[k] == s[i..i + |marker|][k - i] == marker[k - i];
    }
  }

  // Before the line at `cut` nothing depends on what comes after it.
  lemma AloneInPrefix(s: string, t: string, cut: nat, marker: string, i: nat)
    requires 0 < cut <= |s| && cut <= |t| && s[..cut] == t[..cut] && s[cut - 1] == '\n' && i < cut && marker != ""
    requires forall k :: 0 <= k < |marker| ==> marker[k] != '\n'
    ensures Alone(s, marker, i) == Alone(t, marker, i)
  {
    assert forall k :: 0 <= k < cut ==> s[k] == s[..cut][k] == t[..cut][k] == t[k];
    if Occurs(s, marker, i) {
      WithinTheLine(s, marker, i, cut - 1);
      assert t[i..i + |marker|] == s[..cut][i..i + |marker|];
    }
    if Occurs(t, marker, i) {
      WithinTheLine(t, marker, i, cut - 1);
      assert s[i..i + |marker|] == t[..cut][i..i + |marker|];
    }
  }

  lemma OutsideIsReady(s: string)
    ensures Ready(Outside(s).0, Outside(s).1)
  {
    match First(s, BEGIN, 0)
    case None =>
      if s != "" { AppendedIsReady(s); }
    case Some(start) =>
      var before := s[..start];
      if start > 0 {
        assert before[start - 1] == s[start - 1];
        forall i | 0 <= i < |before| ensures !Alone(before, BEGIN, i) {
          assert before[..start] == s[..start];
          AloneInPrefix(before, s, start, BEGIN, i);
        }
      }
      var end := First(s, END, start + |BEGIN|);
      if end.Some? {
        var after := s[end.value + |END|..];
        assert after != "" ==> after[0] == s[end.value + |END|];
      }
  }

  lemma AppendedIsReady(s: string)
    requires s != "" && First(s, BEGIN, 0).None?
    ensures Ready(Terminated(s) + "\n", "\n")
  {
    hide Alone;
    var before := Terminated(s) + "\n";
    forall i: nat ensures Alone(before, BEGIN, i) ==> i <= |s| && Alone(s, BEGIN, i) {
      AloneAppended(s, i);
    }
  }

  // No marker stands alone in the line ends put after the text, or because of them.
  lemma AloneAppended(s: string, i: nat)
    requires s != ""
    ensures Alone(Terminated(s) + "\n", BEGIN, i) ==> i <= |s| && Alone(s, BEGIN, i)
  {
    var before := Terminated(s) + "\n";
    assert forall k :: 0 <= k < |s| ==> before[k] == s[k];
    if Alone(before, BEGIN, i) {
      WithinTheLine(before, BEGIN, i, |before| - 1);
      WithinTheLine(before, BEGIN, i, |before| - 2);
      assert i + |BEGIN| <= |s|;
      assert before[i..i + |BEGIN|] == s[i..i + |BEGIN|];
    }
  }

  // A block put there is found there, and ends at its first end marker.
  lemma BlockFound(before: string, block: string, after: string)
    requires Ready(before, after) && IsBlock(block)
    ensures FirstEnd(block).Some?
    ensures var s := before + block[..|block| - 1] + after;
            && First(s, BEGIN, 0) == Some(|before|)
            && First(s, END, |before| + |BEGIN|) == Some(|before| + FirstEnd(block).value)
  {
    hide First, Alone, IsBlock, Ready;
    EndFound(block);
    BeginFound(before, block, after);
    BlockLength(block);
    ReadyAfter(before, after);
    FirstInside(before, block, after, END, |BEGIN|);
  }

  lemma ReadyAfter(before: string, after: string)
    requires Ready(before, after)
    ensures after == "" || after[0] == '\n'
  {
  }

  lemma BlockLength(block: string)
    requires IsBlock(block)
    ensures |BEGIN| > 0 && |END| > 0 && EndsLine(block)
  {
  }

  lemma FirstInside(before: string, block: string, after: string, marker: string, from: nat)
    requires EndsLine(block) && (after == "" || after[0] == '\n') && from > 0 && marker != ""
    requires First(block, marker, from).Some? && First(block, marker, from).value + |marker| < |block|
    ensures First(before + block[..|block| - 1] + after, marker, |before| + from)
            == Some(|before| + First(block, marker, from).value)
  {
    hide Alone;
    var s, p := before + block[..|block| - 1] + after, First(block, marker, from).value;
    SameInside(before, block, after, marker, p);
    forall k | |before| + from <= k < |before| + p ensures !Alone(s, marker, k) {
      SameInside(before, block, after, marker, k - |before|);
    }
    FirstIs(s, marker, |before| + from, Some(|before| + p));
  }

  lemma SameInside(before: string, block: string, after: string, marker: string, i: nat)
    requires EndsLine(block) && (after == "" || after[0] == '\n')
    requires 0 < i && i + |marker| < |block|
    ensures Alone(before + block[..|block| - 1] + after, marker, |before| + i) == Alone(block, marker, i)
  {
    var s, n := before + block[..|block| - 1] + after, |before|;
    assert forall k :: 0 <= k < |block| - 1 ==> s[n + k] == block[k];
    assert s[n + i..n + i + |marker|] == block[i..i + |marker|];
    if i + |marker| == |block| - 1 {
      assert after != "" ==> s[n + i + |marker|] == after[0];
    }
  }

  lemma BeginFound(before: string, block: string, after: string)
    requires Ready(before, after) && IsBlock(block)
    ensures First(before + block[..|block| - 1] + after, BEGIN, 0) == Some(|before|)
  {
    hide IsBlock;
    BlockBegins(block);
    var s, n := before + block[..|block| - 1] + after, |before|;
    assert s[n..n + |BEGIN|] == block[..|BEGIN|];
    assert s[n + |BEGIN|] == block[|BEGIN|];
    assert n > 0 ==> s[n - 1] == before[n - 1];
    forall i | 0 <= i < n ensures !Alone(s, BEGIN, i) {
      assert s[..n] == before[..n];
      AloneInPrefix(before, s, n, BEGIN, i);
    }
    FirstIs(s, BEGIN, 0, Some(n));
  }

  lemma BlockBegins(block: string)
    requires IsBlock(block)
    ensures |block| > |BEGIN| + 1 && block[..|BEGIN|] == BEGIN && block[|BEGIN|] == '\n'
  {
    var head := block[..|BEGIN| + 1];
    assert block[..|BEGIN|] == head[..|BEGIN|] && block[|BEGIN|] == head[|BEGIN|];
  }

  lemma CutAt(before: string, middle: string, after: string, n: nat)
    requires n <= |middle|
    ensures var t := before + middle + after;
            t[..|before|] == before && t[|before| + n..] == middle[n..] + after
  {
  }

  // After a write the user's text is what it was, but for what the block left of itself.
  lemma UserTextKept(s: string, block: string)
    requires IsBlock(block)
    ensures Outside(Spliced(s, block)) == (Outside(s).0, Residue(block) + Outside(s).1)
  {
    hide First, Alone, Spliced;
    BlockLength(block);
    EndFound(block);
    OutsideIsReady(s);
    SplicedAround(s, block);
    var before, after := Outside(s).0, Outside(s).1;
    BlockFound(before, block, after);
    CutAt(before, block[..|block| - 1], after, FirstEnd(block).value + |END|);
    assert block[..|block| - 1][FirstEnd(block).value + |END|..] == Residue(block);
  }

  // The last write wins, for every file there was before, exactly when the earlier block has no
  // end marker of its own inside.
  lemma LastWriteWins(s: string, first: string, second: string)
    requires IsBlock(first) && IsBlock(second)
    ensures Spliced(Spliced(s, first), second) == Spliced(s, second) <==> Clean(first)
  {
    hide First, Outside, Spliced, Trimmed;
    UserTextKept(s, first);
    SplicedAround(s, second);
    SplicedAround(Spliced(s, first), second);
    EndFound(first);
    var before, middle, after := Outside(s).0, Trimmed(second), Outside(s).1;
    assert |before + middle + (Residue(first) + after)| == |before + middle + after| + |Residue(first)|;
    if Clean(first) {
      assert Residue(first) == "";
      assert Residue(first) + after == after;
    }
  }

  function Times(n: nat, s: string, block: string): string {
    if n == 0 then s else Spliced(Times(n - 1, s, block), block)
  }

  // Written n times over, the file has grown by n - 1 times what the block leaves of itself: by
  // nothing, if it is clean.
  lemma {:induction false} RepeatedWrites(n: nat, s: string, block: string)
    requires IsBlock(block) && n > 0
    ensures |Times(n, s, block)| == |Spliced(s, block)| + (n - 1) * |Residue(block)|
    ensures Clean(block) <==> Residue(block) == ""
    ensures Outside(Times(n, s, block)).0 == Outside(s).0
    ensures |Outside(Times(n, s, block)).1| == |Outside(s).1| + n * |Residue(block)|
  {
    hide First, Outside, Spliced, Trimmed;
    EndFound(block);
    var before := Times(n - 1, s, block);
    UserTextKept(before, block);
    SplicedAround(before, block);
    SplicedAround(s, block);
    if n > 1 {
      RepeatedWrites(n - 1, s, block);
      assert n * |Residue(block)| == (n - 1) * |Residue(block)| + |Residue(block)|;
    }
  }

  // ------------------------------------------------------------------- the block

  // A part as the renderer writes it: a blank line before it, and its last line ended.
  function Part(content: string): string {
    "\n" + (if content != "" && content[|content| - 1] == '\n' then content else content + "\n")
  }

  function Parts(contents: seq<string>): string {
    if contents == [] then "" else Parts(contents[..|contents| - 1]) + Part(contents[|contents| - 1])
  }

  // `facts` is the fixed text about the session, which ends its last line.
  function BlockOf(facts: string, contents: seq<string>): string {
    BEGIN + "\n" + facts + Parts(contents) + END + "\n"
  }

  function Contents(files: seq<Option<string>>): seq<string> {
    if files == [] then [] else Contents(files[..|files| - 1]) + [files[|files| - 1].GetOr("")]
  }

  // None stands for a file that cannot be read: the first one stops the rendering.
  method RenderBlock(facts: string, files: seq<Option<string>>) returns (r: Option<string>)
    ensures r.Some? <==> forall k :: 0 <= k < |files| ==> files[k].Some?
    ensures r.Some? ==> r.value == BlockOf(facts, Contents(files))
    ensures r.Some? ==> exists at :: Carries(r.value, facts, files, at)
  {
    hide Part, Parts, Contents, Carries;
    NoParts();
    var head := BEGIN + "\n" + facts;
    var b := head;
    for n := 0 to |files|
      invariant forall k :: 0 <= k < n ==> files[k].Some?
      invariant b == head + Parts(Contents(files[..n]))
    {
      if files[n].None? {
        return None;
      }
      var content := files[n].value;
      ghost var before := Parts(Contents(files[..n]));
      OnePartMore(files, n);
      PartOf(content);
      var part := "\n" + content;
      if content == "" || content[|content| - 1] != '\n' {
        part := part + "\n";
      }
      Associate(head, before, part);
      b := b + part;
    }
    assert files[..|files|] == files;
    ghost var at := BlockCarries(facts, files);
    return Some(b + END + "\n");
  }

  // From `from` up to `to` the text is a blank line and the content, character by character, with a line
  // end after it only where the content does not end its last line itself.
  predicate Verbatim(s: string, content: string, from: nat, to: nat) {
    && from < |s| && s[from] == '\n'
    && from + 1 + |content| <= to <= |s| && s[from + 1..from + 1 + |content|] == content
    && if content != "" && content[|content| - 1] == '\n' then to == from + 1 + |content|
       else to == from + 2 + |content| && s[to - 1] == '\n'
  }

  // Nothing but the facts and each file's content, in the files' order, between the two markers.
  predicate Carries(block: string, facts: string, files: seq<Option<string>>, at: seq<nat>) {
    && |at| == |files| + 1 && at[0] == |BEGIN| + 1 + |facts| && at[|files|] <= |block|
    && at[0] <= |block| && block[..at[0]] == BEGIN + "\n" + facts
    && (forall k :: 0 <= k < |files| ==> files[k].Some? && Verbatim(block, files[k].value, at[k], at[k + 1]))
    && block[at[|files|]..] == END + "\n"
  }

  lemma VerbatimStays(s: string, more: string, content: string, from: nat, to: nat)
    requires Verbatim(s, content, from, to)
    ensures Verbatim(s + more, content, from, to)
  {
    assert (s + more)[from + 1..from + 1 + |content|] == s[from + 1..from + 1 + |content|];
  }

  lemma PartVerbatim(s: string, content: string)
    ensures Verbatim(s + Part(content), content, |s|, |s + Part(content)|)
  {
    assert (s + Part(content))[|s| + 1..|s| + 1 + |content|] == content;
  }

  lemma {:induction false} PartsCarried(head: string, files: seq<Option<string>>) returns (at: seq<nat>)
    requires forall k :: 0 <= k < |files| ==> files[k].Some?
    ensures |at| == |files| + 1 && at[0] == |head| && at[|files|] == |head + Parts(Contents(files))|
    ensures forall k :: 0 <= k < |files| ==> Verbatim(head + Parts(Contents(files)), files[k].value, at[k], at[k + 1])
  {
    hide Verbatim, Part, Parts, Contents;
    if files == [] {
      NoParts();
      at := [|head|];
    } else {
      var n := |files| - 1;
      var front, part := head + Parts(Contents(files[..n])), Part(files[n].value);
      var before := PartsCarried(head, files[..n]);
      OnePartMore(files, n);
      assert files[..n + 1] == files;
      assert head + Parts(Contents(files)) == front + part;
      PartVerbatim(front, files[n].value);
      at := before + [|front + part|];
      forall k | 0 <= k < n ensures Verbatim(front + part, files[k].value, at[k], at[k + 1]) {
        VerbatimStays(front, part, files[..n][k].value, before[k], before[k + 1]);
      }
    }
  }

  lemma BlockCarries(facts: string, files: seq<Option<string>>) returns (at: seq<nat>)
    requires forall k :: 0 <= k < |files| ==> files[k].Some?
    ensures Carries(BlockOf(facts, Contents(files)), facts, files, at)
  {
    hide Verbatim, Part, Parts, Contents;
    var head := BEGIN + "\n" + facts;
    at := PartsCarried(head, files);
    var body := head + Parts(Contents(files));
    assert BlockOf(facts, Contents(files)) == body + (END + "\n");
    forall k | 0 <= k < |files| ensures Verbatim(body + (END + "\n"), files[k].value, at[k], at[k + 1]) {
      VerbatimStays(body, END + "\n", files[k].value, at[k], at[k + 1]);
    }
    assert (body + (END + "\n"))[..|head|] == head && (body + (END + "\n"))[|body|..] == END + "\n";
  }

  lemma NoParts()
    ensures Parts(Contents([])) == "" && forall s: string :: s + "" == s
  {
  }

  lemma OnePartMore(files: seq<Option<string>>, n: nat)
    requires n < |files|
    ensures Parts(Contents(files[..n + 1])) == Parts(Contents(files[..n])) + Part(files[n].GetOr(""))
  {
    hide Part;
    var before := Contents(files[..n]);
    assert files[..n + 1][..n] == files[..n];
    assert (before + [files[n].GetOr("")])[..|before|] == before;
  }

  lemma PartOf(content: string)
    ensures Part(content)
            == if content != "" && content[|content| - 1] == '\n' then "\n" + content else "\n" + content + "\n"
  {
    assert "\n" + (content + "\n") == "\n" + content + "\n";
  }

  // No line of s is the end marker.
  ghost predicate NoEnd(s: string) { forall i: nat :: !Alone(s, END, i) }

  lemma AloneAcross(a: string, b: string, marker: string, i: nat)
    requires EndsLine(a) && marker != "" && forall k :: 0 <= k < |marker| ==> marker[k] != '\n'
    ensures Alone(a + b, marker, i) == if i < |a| then Alone(a, marker, i) else Alone(b, marker, i - |a|)
  {
    var s, n := a + b, |a|;
    if i < n {
      assert s[..n] == a[..n];
      AloneInPrefix(a, s, n, marker, i);
    } else {
      var o := i - n;
      assert forall k :: n <= k < |s| ==> s[k] == b[k - n];
      assert o + |marker| <= |b| ==> s[i..i + |marker|] == b[o..o + |marker|];
    }
  }

  // A marker stands alone somewhere exactly if it is one of the lines.
  lemma {:induction false} AloneIsALine(s: string, marker: string)
    requires marker != "" && forall k :: 0 <= k < |marker| ==> marker[k] != '\n'
    ensures (exists i: nat :: Alone(s, marker, i)) <==> marker in Split(s)
    decreases |s|
  {
    hide Split, Alone;
    var n := LineEnd(s);
    if n < |s| {
      var line, rest := s[..n], s[n + 1..];
      assert s == line + "\n" + rest;
      SplitLine(line, rest);
      AloneIsALine(rest, marker);
      OnFirstLine(line, marker);
      forall i: nat ensures Alone(s, marker, i) <==> if i <= n then i == 0 && line == marker else Alone(rest, marker, i - n - 1) {
        AloneAcross(line + "\n", rest, marker, i);
        assert (line + "\n") + rest == s;
      }
      assert marker in Split(s) <==> marker == line || marker in Split(rest);
      if i: nat :| Alone(s, marker, i) {
        assert i > n ==> Alone(rest, marker, i - n - 1);
      }
      if line == marker {
        assert Alone(s, marker, 0);
      } else if i: nat :| Alone(rest, marker, i) {
        assert Alone(s, marker, i + n + 1);
      }
    } else {
      SplitOne(s);
      OnOnlyLine(s, marker);
    }
  }

  // The first line end, if there is one.
  lemma {:induction false} LineEnd(s: string) returns (n: nat)
    ensures n <= |s| && (forall k :: 0 <= k < n ==> s[k] != '\n') && (n < |s| ==> s[n] == '\n')
  {
    if s == "" || s[0] == '\n' {
      n := 0;
    } else {
      n := LineEnd(s[1..]);
      assert forall k :: 0 < k < |s| ==> s[k] == s[1..][k - 1];
      n := n + 1;
    }
  }

  lemma OnFirstLine(line: string, marker: string)
    requires marker != "" && (forall k :: 0 <= k < |line| ==> line[k] != '\n') && forall k :: 0 <= k < |marker| ==> marker[k] != '\n'
    ensures forall i: nat | i <= |line| :: Alone(line + "\n", marker, i) <==> i == 0 && line == marker
  {
    var s := line + "\n";
    forall i: nat | i <= |line| ensures Alone(s, marker, i) <==> i == 0 && line == marker {
      if Occurs(s, marker, i) {
        WithinTheLine(s, marker, i, |line|);
      }
      assert s[0..|line|] == line;
    }
  }

  lemma OnOnlyLine(line: string, marker: string)
    requires marker != "" && forall k :: 0 <= k < |line| ==> line[k] != '\n'
    ensures (exists i: nat :: Alone(line, marker, i)) <==> line == marker
  {
    if line == marker {
      assert line[0..|line|] == line && Alone(line, marker, 0);
    }
  }

  lemma NoEndAcross(a: string, b: string)
    requires EndsLine(a)
    ensures NoEnd(a + b) <==> NoEnd(a) && NoEnd(b)
  {
    hide Alone;
    forall i: nat
      ensures Alone(a + b, END, i) == if i < |a| then Alone(a, END, i) else Alone(b, END, i - |a|)
    {
      AloneAcross(a, b, END, i);
    }
    forall i: nat ensures Alone(b, END, i) == Alone(a + b, END, |a| + i) {
      AloneAcross(a, b, END, |a| + i);
    }
    forall i: nat ensures Alone(a, END, i) ==> i < |a| {
      AloneIsWithin(a, END, i);
    }
  }

  lemma AloneIsWithin(s: string, marker: string, i: nat)
    requires marker != ""
    ensures Alone(s, marker, i) ==> i < |s|
  {
  }

  lemma EndedAlike(s: string)
    ensures NoEnd(s) <==> NoEnd(s + "\n")
  {
    var t := s + "\n";
    forall i: nat ensures Alone(s, END, i) == Alone(t, END, i) {
      assert forall k :: 0 <= k < |s| ==> t[k] == s[k];
      if Occurs(t, END, i) {
        WithinTheLine(t, END, i, |s|);
      }
      assert i + |END| <= |s| ==> t[i..i + |END|] == s[i..i + |END|];
    }
  }

  lemma NoEndInPart(content: string)
    ensures NoEnd(Part(content)) <==> NoEnd(content)
    ensures EndsLine(Part(content))
  {
    hide NoEnd;
    assert EndsLine("\n");
    BlankLine();
    NoEndAcross("\n", content);
    NoEndAcross("\n", content + "\n");
    EndedAlike(content);
  }

  lemma BlankLine()
    ensures NoEnd("\n")
  {
  }

  lemma {:induction false} NoEndInParts(head: string, contents: seq<string>)
    requires EndsLine(head)
    ensures NoEnd(head + Parts(contents)) <==> NoEnd(head) && forall k :: 0 <= k < |contents| ==> NoEnd(contents[k])
    ensures EndsLine(head + Parts(contents))
    decreases |contents|
  {
    hide NoEnd, Part;
    if contents == [] {
      assert head + Parts(contents) == head;
    } else {
      var n := |contents| - 1;
      var front := Parts(contents[..n]);
      NoEndInParts(head, contents[..n]);
      NoEndInPart(contents[n]);
      NoEndAcross(head + front, Part(contents[n]));
      assert head + Parts(contents) == head + front + Part(contents[n]);
    }
  }

  // A rendered block is one, and it is clean exactly when no instructions file has a line that is
  // the end marker.
  lemma RenderedBlock(facts: string, contents: seq<string>)
    requires EndsLine(facts) && NoEnd(facts)
    ensures IsBlock(BlockOf(facts, contents))
    ensures Clean(BlockOf(facts, contents)) <==> forall k :: 0 <= k < |contents| ==> NoEnd(contents[k])
  {
    hide NoEnd, First, Alone, Part, Parts;
    var head := BEGIN + "\n";
    var body := head + facts + Parts(contents);
    assert EndsLine(head);
    HeadHasNone();
    NoEndAcross(head, facts);
    NoEndInParts(head + facts, contents);
    assert BlockOf(facts, contents) == body + (END + "\n");
    var block := BlockOf(facts, contents);
    assert block[..|BEGIN| + 1] == head;
    assert block[|block| - |END| - 1..] == END + "\n";
    assert block[|block| - |END| - 2] == body[|body| - 1];
    CleanMeans(body);
  }

  lemma HeadHasNone()
    ensures NoEnd(BEGIN + "\n")
  {
    var head := BEGIN + "\n";
    forall i: nat ensures !Alone(head, END, i) {
      if Occurs(head, END, i) {
        WithinTheLine(head, END, i, |BEGIN|);
        assert i > 0 ==> head[i - 1] != '\n';
        assert head[0..|END|][13] != END[13];
      }
    }
  }

  lemma CleanMeans(body: string)
    requires EndsLine(body) && |body| > |BEGIN| && body[..|BEGIN| + 1] == BEGIN + "\n"
    ensures Clean(body + (END + "\n")) <==> NoEnd(body)
  {
    var block := body + (END + "\n");
    var last := |body|;
    forall i: nat | i < last ensures Alone(block, END, i) == Alone(body, END, i) {
      AloneAcross(body, END + "\n", END, i);
    }
    AloneAcross(body, END + "\n", END, last);
    assert (END + "\n")[0..|END|] == END;
    NotInTheHead(body);
    if NoEnd(body) {
      FirstIs(block, END, |BEGIN|, Some(last));
    } else {
      var i: nat :| Alone(body, END, i);
      AloneIsWithin(body, END, i);
    }
  }

  lemma NotInTheHead(body: string)
    requires |body| > |BEGIN| && body[..|BEGIN| + 1] == BEGIN + "\n"
    ensures forall i :: 0 <= i < |BEGIN| ==> !Alone(body, END, i)
  {
    HeadHasNone();
    var head := BEGIN + "\n";
    forall i | 0 <= i < |BEGIN| ensures !Alone(body, END, i) {
      assert body[|BEGIN|] == body[..|BEGIN| + 1][|BEGIN|] == '\n';
      assert head[..|BEGIN| + 1] == head;
      AloneInPrefix(body, head, |BEGIN| + 1, END, i);
    }
  }
}
