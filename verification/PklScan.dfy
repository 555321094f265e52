/**
 * The scanner of internal/config/edit.go. A lexer that reads one character at a
 * time and never looks ahead says what a top-level line start is; the source's
 * loop, which looks ahead and jumps, is proved to return exactly those.
 * A string here is the file's bytes, one `char` for each.
 */
module PklScan {
  import opened Text

  // ---------------------------------------------------------------- the lexer

  // `multi` tells the two kinds of string apart, `h` is the number of # in the delimiter.
  datatype Mode =
    | Normal
    | Slash                                                   // one '/', maybe a comment
    | LineComment
    | BlockComment(star: bool)                                // star: the last character was '*'
    | Hashes(h: nat)                                          // h > 0 '#' outside a string
    | Opening(h: nat, quotes: nat)                            // one or two '"' after h '#'
    | Text(multi: bool, h: nat)
    | Escape(multi: bool, h: nat, seen: nat)                  // '\' and `seen` '#'
    | Closing(multi: bool, h: nat, quotes: nat, seen: nat)    // `quotes` '"' and `seen` '#'

  datatype State = State(mode: Mode, depth: nat)

  const TOP := State(Normal, 0)

  predicate Opens(c: char) { c == '{' || c == '(' || c == '[' }
  predicate Closes(c: char) { c == '}' || c == ')' || c == ']' }

  function Outside(d: nat, c: char): State {
    if c == '/' then State(Slash, d)
    else if c == '#' then State(Hashes(1), d)
    else if c == '"' then State(Opening(0, 1), d)
    else if Opens(c) then State(Normal, d + 1)
    else if Closes(c) && d > 0 then State(Normal, d - 1)
    else State(Normal, d)
  }

  function Needed(multi: bool): nat { if multi then 3 else 1 }

  function AfterQuote(multi: bool, h: nat, quotes: nat, d: nat): State {
    State(if quotes == Needed(multi) && h == 0 then Normal else Closing(multi, h, quotes, 0), d)
  }

  function Inside(multi: bool, h: nat, d: nat, c: char): State {
    if c == '\\' then State(Escape(multi, h, 0), d)
    else if c == '"' then AfterQuote(multi, h, 1, d)
    else if c == '\n' && !multi then State(Normal, d)
    else State(Text(multi, h), d)
  }

  function WhileClosing(multi: bool, h: nat, quotes: nat, seen: nat, d: nat, c: char): State {
    if c == '"' then
      AfterQuote(multi, h, if seen > 0 then 1 else if quotes < Needed(multi) then quotes + 1 else quotes, d)
    else if c == '#' && quotes == Needed(multi) then
      State(if seen + 1 >= h then Normal else Closing(multi, h, quotes, seen + 1), d)
    else Inside(multi, h, d, c)
  }

  function Step(s: State, c: char): State {
    var d := s.depth;
    match s.mode
    case Normal => Outside(d, c)
    case Slash =>
      if c == '/' then State(LineComment, d) else if c == '*' then State(BlockComment(false), d) else Outside(d, c)
    case LineComment => if c == '\n' then State(Normal, d) else s
    case BlockComment(star) =>
      if star && c == '/' then State(Normal, d) else State(BlockComment(c == '*'), d)
    case Hashes(h) =>
      if c == '#' then State(Hashes(h + 1), d) else if c == '"' then State(Opening(h, 1), d) else Outside(d, c)
    case Opening(h, quotes) =>
      if quotes == 1 then
        if c == '"' then State(Opening(h, 2), d) else Inside(false, h, d, c)
      else if c == '"' then State(Text(true, h), d)
      else if h == 0 then Outside(d, c)
      else WhileClosing(false, h, 1, 0, d, c)
    case Text(multi, h) => Inside(multi, h, d, c)
    case Escape(multi, h, seen) =>
      if seen >= h then State(Text(multi, h), d)
      else if c == '#' then State(Escape(multi, h, seen + 1), d)
      else Inside(multi, h, d, c)
    case Closing(multi, h, quotes, seen) => WhileClosing(multi, h, quotes, seen, d, c)
  }

  function Run(s: State, text: string): State
    decreases |text|
  {
    if text == "" then s else Run(Step(s, text[0]), text[1..])
  }

  lemma {:induction false} RunConcat(s: State, a: string, b: string)
    ensures Run(s, a + b) == Run(Run(s, a), b)
    decreases |a|
  {
    if a == "" {
      assert a + b == b;
    } else {
      assert (a + b)[1..] == a[1..] + b;
      RunConcat(Step(s, a[0]), a[1..], b);
    }
  }

  // -------------------------------------------------------- top-level lines

  predicate LineStart(src: string, i: nat)
    requires i <= |src|
  {
    i == 0 || src[i - 1] == '\n'
  }

  // A line of `src` begins at i, outside every bracket, comment and string.
  predicate TopLevel(src: string, i: nat) {
    i < |src| && LineStart(src, i) && Run(TOP, src[..i]) == TOP
  }

  function StartsBelow(src: string, n: nat): (starts: seq<nat>)
    requires n <= |src|
    ensures forall k :: 0 <= k < |starts| ==> starts[k] < n
  {
    if n == 0 then [] else StartsBelow(src, n - 1) + if TopLevel(src, n - 1) then [n - 1] else []
  }

  function TopLevelStarts(src: string): seq<nat> { StartsBelow(src, |src|) }

  lemma {:induction false} StartsAreTheTopLevelLines(src: string, n: nat)
    requires n <= |src|
    ensures forall i :: i in StartsBelow(src, n) <==> 0 <= i < n && TopLevel(src, i)
    ensures forall a, b :: 0 <= a < b < |StartsBelow(src, n)| ==> StartsBelow(src, n)[a] < StartsBelow(src, n)[b]
  {
    if n > 0 {
      StartsAreTheTopLevelLines(src, n - 1);
      var before := StartsBelow(src, n - 1);
      forall a, b | 0 <= a < b < |StartsBelow(src, n)|
        ensures StartsBelow(src, n)[a] < StartsBelow(src, n)[b]
      {
        assert before[a] in before;
      }
    }
  }

  // ------------------------------------------- the loop against the lexer

  function Repeat(c: char, n: nat): (r: string)
    ensures |r| == n && forall k :: 0 <= k < n ==> r[k] == c
  {
    seq(n, _ => c)
  }

  // Reading `s` from `a` comes, at every line start from n on, to what reading s[n..] from `b` comes to,
  // and no line starts strictly between 0 and n.
  predicate Skips(a: State, s: string, n: nat, b: State) {
    && n > 0
    && (forall k :: 0 <= k < n - 1 && k < |s| ==> s[k] != '\n')
    && (forall j :: n <= j <= |s| && s[j - 1] == '\n' ==> Run(a, s[..j]) == Run(b, s[n..j]))
  }

  // Two readings that meet before the next line start never part again.
  lemma Rejoin(a: State, s: string, n: nat, b: State, m: nat)
    requires 0 < n <= m <= |s|
    requires forall k :: 0 <= k < m - 1 ==> s[k] != '\n'
    requires Run(a, s[..m]) == Run(b, s[n..m])
    ensures Skips(a, s, n, b)
  {
    forall j | n <= j <= |s| && s[j - 1] == '\n'
      ensures Run(a, s[..j]) == Run(b, s[n..j])
    {
      assert m <= j;
      assert s[..j] == s[..m] + s[m..j];
      assert s[n..j] == s[n..m] + s[m..j];
      RunConcat(a, s[..m], s[m..j]);
      RunConcat(b, s[n..m], s[m..j]);
    }
  }

  lemma RunOne(s: State, c: char)
    ensures Run(s, [c]) == Step(s, c)
  {
    assert [c][1..] == "";
  }

  lemma RunSnoc(s: State, text: string, c: char)
    ensures Run(s, text + [c]) == Step(Run(s, text), c)
  {
    RunConcat(s, text, [c]);
    RunOne(Run(s, text), c);
  }

  // The last character of a slice, read on its own.
  lemma RunSlice(s: State, text: string, lo: nat, hi: nat)
    requires lo < hi <= |text|
    ensures Run(s, text[lo..hi]) == Step(Run(s, text[lo..hi - 1]), text[hi - 1])
  {
    assert text[lo..hi] == text[lo..hi - 1] + [text[hi - 1]];
    RunSnoc(s, text[lo..hi - 1], text[hi - 1]);
  }

  predicate AllHash(s: string, lo: nat, hi: nat)
    requires lo <= hi <= |s|
  {
    forall k :: lo <= k < hi ==> s[k] == '#'
  }

  // What a run of '#' does: counted where they may matter, plain text where they do not.
  function CountHashes(mode: Mode, n: nat): Mode {
    match mode
    case Normal => if n == 0 then Normal else Hashes(n)
    case Hashes(h) => Hashes(h + n)
    case Escape(multi, h, seen) => Escape(multi, h, seen + n)
    case Closing(multi, h, quotes, seen) =>
      if quotes == Needed(multi) then Closing(multi, h, quotes, seen + n)
      else if n == 0 then mode else Text(multi, h)
    case _ => mode
  }

  predicate Undecided(mode: Mode, n: nat) {
    match mode
    case Normal => true
    case Hashes(_) => true
    case Text(_, _) => true
    case Escape(_, h, seen) => seen + n <= h
    case Closing(multi, h, quotes, seen) => quotes == Needed(multi) ==> seen + n < h
    case _ => false
  }

  lemma {:induction false} RunHashes(s: State, text: string, lo: nat, hi: nat)
    requires lo <= hi <= |text| && AllHash(text, lo, hi)
    requires Undecided(s.mode, hi - lo)
    ensures Run(s, text[lo..hi]) == State(CountHashes(s.mode, hi - lo), s.depth)
    decreases hi - lo
  {
    if lo < hi {
      RunHashes(s, text, lo, hi - 1);
      RunSlice(s, text, lo, hi);
    }
  }

  function LeadingHashes(s: string, lo: nat): (n: nat)
    requires lo <= |s|
    ensures lo + n <= |s| && AllHash(s, lo, lo + n)
    ensures lo + n < |s| ==> s[lo + n] != '#'
    decreases |s| - lo
  {
    if lo < |s| && s[lo] == '#' then 1 + LeadingHashes(s, lo + 1) else 0
  }

  lemma ManyHashes(s: string, lo: nat, h: nat)
    requires lo <= |s|
    ensures HasPrefix(s[lo..], Repeat('#', h)) <==> LeadingHashes(s, lo) >= h
  {
    var n := LeadingHashes(s, lo);
    if n >= h {
      assert s[lo..][..h] == Repeat('#', h);
    }
    if HasPrefix(s[lo..], Repeat('#', h)) {
      forall k | lo <= k < lo + h ensures s[k] == '#' { assert s[lo..][..h][k - lo] == '#'; }
    }
  }

  lemma OneStep(a: State, s: string, b: State)
    requires s != "" && Step(a, s[0]) == b
    ensures Skips(a, s, 1, b)
  {
    RunSlice(a, s, 0, 1);
    assert s[..1] == s[0..1];
    Rejoin(a, s, 1, b, 1);
  }

  lemma CommentOpens(s: string, d: nat)
    requires |s| >= 2 && s[0] == '/' && (s[1] == '/' || s[1] == '*')
    ensures s[1] == '/' ==> Skips(State(Normal, d), s, 1, State(LineComment, d))
    ensures s[1] == '*' ==> Skips(State(Normal, d), s, 2, State(BlockComment(false), d))
  {
    var a := State(Normal, d);
    RunSlice(a, s, 0, 1);
    RunSlice(a, s, 0, 2);
    assert s[..2] == s[0..2];
    if s[1] == '/' {
      RunSlice(State(LineComment, d), s, 1, 2);
      Rejoin(a, s, 1, State(LineComment, d), 2);
    } else {
      Rejoin(a, s, 2, State(BlockComment(false), d), 2);
    }
  }

  lemma SlashAlone(s: string, d: nat)
    requires s != "" && s[0] == '/'
    requires |s| == 1 || (s[1] != '/' && s[1] != '*')
    ensures Skips(State(Normal, d), s, 1, State(Normal, d))
  {
    var a := State(Normal, d);
    if |s| > 1 {
      RunSlice(a, s, 0, 1);
      RunSlice(a, s, 0, 2);
      RunSlice(a, s, 1, 2);
      assert s[..2] == s[0..2];
      Rejoin(a, s, 1, a, 2);
    }
  }

  // Inside a block comment the source jumps over "*/" and otherwise goes on by one.
  lemma BlockCommentGoesOn(s: string, d: nat)
    requires s != ""
    ensures HasPrefix(s, "*/") ==> Skips(State(BlockComment(false), d), s, 2, State(Normal, d))
    ensures !HasPrefix(s, "*/") ==> Skips(State(BlockComment(false), d), s, 1, State(BlockComment(false), d))
  {
    var a := State(BlockComment(false), d);
    RunSlice(a, s, 0, 1);
    if s[0] != '*' {
      OneStep(a, s, a);
    } else if |s| > 1 {
      RunSlice(a, s, 0, 2);
      RunSlice(a, s, 1, 2);
      assert s[..2] == s[0..2];
      if s[1] == '/' {
        assert s[..2] == "*/";
        Rejoin(a, s, 2, State(Normal, d), 2);
      } else {
        assert !HasPrefix(s, "*/");
        Rejoin(a, s, 1, a, 2);
      }
    }
  }

  // Brackets of all three kinds nest, one more that closes than opened is nothing, and so is all else.
  lemma BracketsNest(d: nat, c: char)
    requires c !in "/#\""
    ensures Run(State(Normal, d), [c])
            == State(Normal, if c in "{([" then d + 1 else if c in "})]" && d > 0 then d - 1 else d)
  {
    RunOne(State(Normal, d), c);
  }

  // A line comment ends with its line, whatever it holds.
  lemma {:induction false} LineCommentEnds(d: nat, text: string)
    requires forall k :: 0 <= k < |text| ==> text[k] != '\n'
    ensures Run(State(LineComment, d), text) == State(LineComment, d)
    ensures Run(State(LineComment, d), text + "\n") == State(Normal, d)
  {
    if text != "" {
      LineCommentEnds(d, text[1..]);
    }
    RunConcat(State(LineComment, d), text, "\n");
    RunOne(State(LineComment, d), '\n');
  }

  // What a string holds is no bracket and no comment; a line end ends an unclosed one, a multi-line one goes on.
  lemma {:induction false} StringHolds(multi: bool, h: nat, d: nat, text: string)
    requires forall k :: 0 <= k < |text| ==> text[k] !in "\"\\\n"
    ensures Run(State(Text(multi, h), d), text) == State(Text(multi, h), d)
    ensures Run(State(Text(multi, h), d), text + "\n") == State(if multi then Text(true, h) else Normal, d)
  {
    if text != "" {
      StringHolds(multi, h, d, text[1..]);
    }
    RunConcat(State(Text(multi, h), d), text, "\n");
    RunOne(State(Text(multi, h), d), '\n');
  }

  // '#' that open nothing.
  lemma HashAlone(s: string, d: nat, n: nat)
    requires 0 < n <= |s| && AllHash(s, 0, n)
    requires n < |s| ==> s[n] != '#' && s[n] != '"'
    ensures Skips(State(Normal, d), s, 1, State(Normal, d))
  {
    var a := State(Normal, d);
    if n < |s| {
      RunHashes(a, s, 0, n);
      RunHashes(a, s, 1, n);
      RunSlice(a, s, 0, n + 1);
      RunSlice(a, s, 1, n + 1);
      assert s[..n + 1] == s[0..n + 1];
      Rejoin(a, s, 1, a, n + 1);
    }
  }

  lemma StringOpens(s: string, d: nat, n: nat)
    requires n < |s| && AllHash(s, 0, n) && s[n] == '"'
    ensures HasPrefix(s[n..], "\"\"\"") ==> Skips(State(Normal, d), s, n + 3, State(Text(true, n), d))
    ensures !HasPrefix(s[n..], "\"\"\"") ==> Skips(State(Normal, d), s, n + 1, State(Text(false, n), d))
  {
    var a := State(Normal, d);
    RunHashes(a, s, 0, n);
    RunSlice(a, s, 0, n + 1);
    if n + 1 < |s| {
      RunSlice(a, s, 0, n + 2);
      OneQuoteMore(s, d, n);
    }
  }

  lemma OneQuoteMore(s: string, d: nat, n: nat)
    requires n + 1 < |s| && AllHash(s, 0, n) && s[n] == '"'
    requires Run(State(Normal, d), s[0..n + 1]) == State(Opening(n, 1), d)
    requires Run(State(Normal, d), s[0..n + 2]) == Step(State(Opening(n, 1), d), s[n + 1])
    ensures HasPrefix(s[n..], "\"\"\"") ==> Skips(State(Normal, d), s, n + 3, State(Text(true, n), d))
    ensures !HasPrefix(s[n..], "\"\"\"") ==> Skips(State(Normal, d), s, n + 1, State(Text(false, n), d))
  {
    var a, b := State(Normal, d), State(Text(false, n), d);
    RunSlice(b, s, n + 1, n + 2);
    if s[n + 1] != '"' {
      assert !HasPrefix(s[n..], "\"\"\"") by { assert s[n..][1] != '"'; }
      assert s[..n + 2] == s[0..n + 2];
      Rejoin(a, s, n + 1, b, n + 2);
    } else if n + 2 < |s| {
      RunSlice(a, s, 0, n + 3);
      RunSlice(b, s, n + 1, n + 3);
      assert s[..n + 3] == s[0..n + 3];
      if s[n + 2] == '"' {
        assert s[n..][..3] == "\"\"\"";
        Rejoin(a, s, n + 3, State(Text(true, n), d), n + 3);
      } else {
        assert !HasPrefix(s[n..], "\"\"\"") by { assert s[n..][2] != '"'; }
        Rejoin(a, s, n + 1, b, n + 3);
      }
    }
  }

  function Delimiter(multi: bool, h: nat): string {
    (if multi then "\"\"\"" else "\"") + Repeat('#', h)
  }

  // A backslash and the string's own number of '#' take the next character with them, whatever it is.
  lemma EscapeSkips(s: string, d: nat, multi: bool, h: nat)
    requires s != "" && s[0] == '\\' && LeadingHashes(s, 1) >= h
    ensures Skips(State(Text(multi, h), d), s, h + 2, State(Text(multi, h), d))
  {
    var a := State(Text(multi, h), d);
    RunSlice(a, s, 0, 1);
    RunHashes(State(Escape(multi, h, 0), d), s, 1, h + 1);
    RunTwo(a, s, 0, 1, h + 1);
    if h + 1 < |s| {
      RunSlice(a, s, 0, h + 2);
      assert s[..h + 2] == s[0..h + 2];
      Rejoin(a, s, h + 2, a, h + 2);
    }
  }

  lemma EscapeIgnored(s: string, d: nat, multi: bool, h: nat)
    requires s != "" && s[0] == '\\' && LeadingHashes(s, 1) < h
    ensures Skips(State(Text(multi, h), d), s, 1, State(Text(multi, h), d))
  {
    var a, n := State(Text(multi, h), d), LeadingHashes(s, 1) + 1;
    RunSlice(a, s, 0, 1);
    RunHashes(State(Escape(multi, h, 0), d), s, 1, n);
    RunTwo(a, s, 0, 1, n);
    if n < |s| {
      RunSlice(a, s, 0, n + 1);
      RunHashes(a, s, 1, n);
      RunSlice(a, s, 1, n + 1);
      assert s[..n + 1] == s[0..n + 1];
      Rejoin(a, s, 1, a, n + 1);
    }
  }

  lemma CloseString(s: string, d: nat, h: nat)
    requires s != "" && s[0] == '"'
    ensures HasPrefix(s, Delimiter(false, h)) ==> Skips(State(Text(false, h), d), s, 1 + h, State(Normal, d))
    ensures !HasPrefix(s, Delimiter(false, h)) ==> Skips(State(Text(false, h), d), s, 1, State(Text(false, h), d))
  {
    var k := LeadingHashes(s, 1);
    DelimiterSplit(s, 1, false, h);
    CloseAfter(s, d, false, h, 1, if k < h then k else h);
  }

  // Enough quotes have been read: what matters is how many '#' follow them.
  lemma CloseAfter(s: string, d: nat, multi: bool, h: nat, q: nat, k: nat)
    requires q == Needed(multi) <= |s| && forall i :: 0 <= i < q ==> s[i] == '"'
    requires k == if LeadingHashes(s, q) < h then LeadingHashes(s, q) else h
    requires k < h && multi ==> q + k < |s| ==> s[q] != '"'
    ensures k == h ==> Skips(State(Text(multi, h), d), s, q + h, State(Normal, d))
    ensures k < h ==> Skips(State(Text(multi, h), d), s, 1, State(Text(multi, h), d))
  {
    var a := State(Text(multi, h), d);
    RunQuotes(a, s, multi, h, q);
    assert s[..q] == s[0..q];
    if k == h {
      ClosesHere(s, d, multi, h, q);
    } else if q + k < |s| {
      NotClosed(s, d, multi, h, q, k);
    }
  }

  lemma ClosesHere(s: string, d: nat, multi: bool, h: nat, q: nat)
    requires q == Needed(multi) <= |s| && forall i :: 0 <= i < q ==> s[i] == '"'
    requires LeadingHashes(s, q) >= h
    requires Run(State(Text(multi, h), d), s[0..q])
             == State(if h == 0 then Normal else Closing(multi, h, q, 0), d)
    ensures Skips(State(Text(multi, h), d), s, q + h, State(Normal, d))
  {
    var a := State(Text(multi, h), d);
    assert s[..q + h] == s[0..q + h];
    if h > 0 {
      var b := State(Closing(multi, h, q, 0), d);
      RunHashes(b, s, q, q + h - 1);
      RunSlice(b, s, q, q + h);
      RunTwo(a, s, 0, q, q + h);
    }
    Rejoin(a, s, q + h, State(Normal, d), q + h);
  }

  // One quote less: the text resumes, at most remembering the quotes.
  lemma OneQuoteLess(a: State, s: string, multi: bool, h: nat, q: nat)
    requires a.mode == Text(multi, h) && h > 0
    requires q == Needed(multi) <= |s| && forall i :: 0 <= i < q ==> s[i] == '"'
    ensures Run(a, s[1..q]) == if multi then State(Closing(multi, h, 2, 0), a.depth) else a
  {
    if multi {
      RunSlice(a, s, 1, 2);
      RunSlice(a, s, 1, 3);
    }
  }

  lemma RunTwo(a: State, s: string, lo: nat, mid: nat, hi: nat)
    requires lo <= mid <= hi <= |s|
    ensures Run(a, s[lo..hi]) == Run(Run(a, s[lo..mid]), s[mid..hi])
  {
    assert s[lo..hi] == s[lo..mid] + s[mid..hi];
    RunConcat(a, s[lo..mid], s[mid..hi]);
  }

  lemma NotClosed(s: string, d: nat, multi: bool, h: nat, q: nat, k: nat)
    requires q == Needed(multi) && q + k < |s| && forall i :: 0 <= i < q ==> s[i] == '"'
    requires k == LeadingHashes(s, q) < h
    requires multi ==> s[q] != '"'
    requires Run(State(Text(multi, h), d), s[0..q]) == State(Closing(multi, h, q, 0), d)
    ensures Skips(State(Text(multi, h), d), s, 1, State(Text(multi, h), d))
  {
    hide Needed;
    var a, e := State(Text(multi, h), d), q + k + 1;
    OneQuoteLess(a, s, multi, h, q);
    RunTwo(a, s, 0, q, e);
    RunTwo(a, s, 1, q, e);
    SameAfterHashes(Run(a, s[0..q]), Run(a, s[1..q]), s, d, multi, h, q, k);
    assert s[..e] == s[0..e];
    assert forall i :: q <= i < q + k ==> s[i] == '#';
    Rejoin(a, s, 1, a, e);
  }

  lemma SameAfterHashes(b: State, c: State, s: string, d: nat, multi: bool, h: nat, q: nat, k: nat)
    requires q == Needed(multi) && q + k < |s| && k == LeadingHashes(s, q) < h
    requires multi ==> s[q] != '"'
    requires b == State(Closing(multi, h, q, 0), d)
    requires c == if multi then State(Closing(multi, h, 2, 0), d) else State(Text(multi, h), d)
    ensures Run(b, s[q..q + k + 1]) == Run(c, s[q..q + k + 1])
  {
    RunHashes(b, s, q, q + k);
    RunHashes(c, s, q, q + k);
    RunSlice(b, s, q, q + k + 1);
    RunSlice(c, s, q, q + k + 1);
  }

  lemma RunQuotes(a: State, s: string, multi: bool, h: nat, q: nat)
    requires a.mode == Text(multi, h)
    requires q == Needed(multi) <= |s| && forall i :: 0 <= i < q ==> s[i] == '"'
    ensures Run(a, s[0..q]) == State(if h == 0 then Normal else Closing(multi, h, q, 0), a.depth)
  {
    RunSlice(a, s, 0, 1);
    if multi {
      RunSlice(a, s, 0, 2);
      RunSlice(a, s, 0, 3);
    }
  }

  lemma DelimiterSplit(s: string, q: nat, multi: bool, h: nat)
    requires q == Needed(multi) <= |s|
    ensures HasPrefix(s, Delimiter(multi, h))
            <==> (forall i :: 0 <= i < q ==> s[i] == '"') && LeadingHashes(s, q) >= h
  {
    ManyHashes(s, q, h);
    var quotes := if multi then "\"\"\"" else "\"";
    if HasPrefix(s, Delimiter(multi, h)) {
      assert s[..q] == s[..q + h][..q] == quotes;
      assert s[q..][..h] == s[..q + h][q..] == Repeat('#', h);
      forall i | 0 <= i < q ensures s[i] == '"' { assert s[..q][i] == '"'; }
    }
    if (forall i :: 0 <= i < q ==> s[i] == '"') && LeadingHashes(s, q) >= h {
      assert s[..q] == quotes;
      assert s[..q + h] == s[..q] + s[q..][..h];
    }
  }

  lemma CloseMulti(s: string, d: nat, h: nat)
    requires s != "" && s[0] == '"'
    ensures HasPrefix(s, Delimiter(true, h)) ==> Skips(State(Text(true, h), d), s, 3 + h, State(Normal, d))
    ensures !HasPrefix(s, Delimiter(true, h)) ==> Skips(State(Text(true, h), d), s, 1, State(Text(true, h), d))
  {
    var a := State(Text(true, h), d);
    if |s| >= 3 && s[1] == '"' && s[2] == '"' {
      DelimiterSplit(s, 3, true, h);
      if LeadingHashes(s, 3) < h && |s| > 3 && s[3] == '"' {
        FourQuotes(s, d, h);
      } else {
        CloseAfter(s, d, true, h, 3, if LeadingHashes(s, 3) < h then LeadingHashes(s, 3) else h);
      }
    } else {
      assert !HasPrefix(s, Delimiter(true, h)) by {
        if |s| >= 3 { DelimiterSplit(s, 3, true, h); }
      }
      FewQuotes(s, d, h);
    }
  }

  lemma FourQuotes(s: string, d: nat, h: nat)
    requires |s| > 3 && h > 0 && forall i :: 0 <= i < 4 ==> s[i] == '"'
    ensures Skips(State(Text(true, h), d), s, 1, State(Text(true, h), d))
  {
    var a := State(Text(true, h), d);
    RunQuotes(a, s, true, h, 3);
    RunSlice(a, s, 0, 4);
    RunQuotes(a, s[1..], true, h, 3);
    assert s[1..][0..3] == s[1..4];
    assert s[..4] == s[0..4];
    Rejoin(a, s, 1, a, 4);
  }

  lemma FewQuotes(s: string, d: nat, h: nat)
    requires s != "" && s[0] == '"' && (|s| < 3 || s[1] != '"' || s[2] != '"')
    ensures Skips(State(Text(true, h), d), s, 1, State(Text(true, h), d))
  {
    var a := State(Text(true, h), d);
    RunSlice(a, s, 0, 1);
    if |s| > 1 {
      RunSlice(a, s, 0, 2);
      RunSlice(a, s, 1, 2);
      assert s[..2] == s[0..2];
      if s[1] != '"' {
        Rejoin(a, s, 1, a, 2);
      } else if |s| > 2 {
        RunSlice(a, s, 0, 3);
        RunSlice(a, s, 1, 3);
        assert s[..3] == s[0..3];
        Rejoin(a, s, 1, a, 3);
      }
    }
  }

  // At every line start from i on, the loop's own state `rest` says what the lexer says.
  predicate Agrees(src: string, i: nat, rest: State) {
    forall j :: i <= j <= |src| && LineStart(src, j) ==> Run(rest, src[i..j]) == Run(TOP, src[..j])
  }

  function Min(a: nat, b: nat): nat { if a < b then a else b }

  lemma Advance(src: string, i: nat, rest: State, n: nat, next: State)
    requires i < |src| && Agrees(src, i, rest) && Skips(rest, src[i..], n, next)
    ensures Agrees(src, i + n, next)
    ensures StartsBelow(src, Min(i + n, |src|))
            == StartsBelow(src, i) + if LineStart(src, i) && rest == TOP then [i] else []
  {
    var s := src[i..];
    forall j | i + n <= j <= |src| && LineStart(src, j)
      ensures Run(next, src[i + n..j]) == Run(TOP, src[..j])
    {
      assert s[j - i - 1] == '\n';
      assert s[..j - i] == src[i..j];
      assert s[n..j - i] == src[i + n..j];
    }
    if LineStart(src, i) {
      assert src[i..i] == "";
      assert Run(TOP, src[..i]) == rest;
    }
    assert TopLevel(src, i) <==> LineStart(src, i) && rest == TOP;
    NoneBetween(src, i + 1, Min(i + n, |src|), i, n);
  }

  lemma {:induction false} NoneBetween(src: string, lo: nat, hi: nat, i: nat, n: nat)
    requires i < lo <= hi <= |src| && hi <= i + n
    requires forall k :: 0 <= k < n - 1 && k < |src[i..]| ==> src[i..][k] != '\n'
    ensures StartsBelow(src, hi) == StartsBelow(src, lo)
    decreases hi
  {
    if lo < hi {
      NoneBetween(src, lo, hi - 1, i, n);
      var k := hi - 2 - i;
      assert src[i..][k] == src[hi - 2];
      assert !LineStart(src, hi - 1);
    }
  }

  // ---------------------------------------------------------- the source's loop

  datatype Where = InCode | InLineComment | InBlockComment | InString | InMultiString

  function Resting(w: Where, hashes: nat, depth: nat): State {
    State(match w
          case InCode => Normal
          case InLineComment => LineComment
          case InBlockComment => BlockComment(false)
          case InString => Text(false, hashes)
          case InMultiString => Text(true, hashes), depth)
  }

  // One turn inside a string: how far it goes, and whether the string is over.
  method ReadString(src: string, i: nat, multi: bool, hashes: nat, ghost depth: nat)
    returns (n: nat, over: bool)
    requires i < |src|
    ensures Skips(State(Text(multi, hashes), depth), src[i..], n,
                  State(if over then Normal else Text(multi, hashes), depth))
  {
    var c := src[i];
    ghost var s, a := src[i..], State(Text(multi, hashes), depth);
    assert s[1..] == src[i + 1..];
    if c == '\\' && HasPrefix(src[i + 1..], Repeat('#', hashes)) {
      n, over := hashes + 2, false;
      ManyHashes(s, 1, hashes);
      EscapeSkips(s, depth, multi, hashes);
    } else if HasPrefix(src[i..], Delimiter(multi, hashes)) {
      n, over := (if multi then 3 else 1) + hashes, true;
      assert s[0] == s[..|Delimiter(multi, hashes)|][0] == '"';
      if multi { CloseMulti(s, depth, hashes); } else { CloseString(s, depth, hashes); }
    } else {
      n, over := 1, c == '\n' && !multi;
      if c == '\\' {
        ManyHashes(s, 1, hashes);
        EscapeIgnored(s, depth, multi, hashes);
      } else if c == '"' {
        if multi { CloseMulti(s, depth, hashes); } else { CloseString(s, depth, hashes); }
      } else {
        OneStep(a, s, State(if over then Normal else Text(multi, hashes), depth));
      }
    }
  }

  // One turn outside strings and comments.
  method ReadCode(src: string, i: nat, depth: nat)
    returns (n: nat, w: Where, hashes: nat, deeper: nat)
    requires i < |src|
    ensures Skips(State(Normal, depth), src[i..], n, Resting(w, hashes, deeper))
  {
    var c := src[i];
    ghost var s := src[i..];
    n, w, hashes, deeper := 1, InCode, 0, depth;
    if HasPrefix(src[i..], "//") {
      w := InLineComment;
      assert s[0] == s[..2][0] && s[1] == s[..2][1];
      CommentOpens(s, depth);
    } else if HasPrefix(src[i..], "/*") {
      n, w := 2, InBlockComment;
      assert s[0] == s[..2][0] && s[1] == s[..2][1];
      CommentOpens(s, depth);
    } else if c == '#' || c == '"' {
      var m := 0;
      while i + m < |src| && src[i + m] == '#'
        invariant i + m <= |src| && AllHash(s, 0, m)
      {
        m := m + 1;
      }
      assert s[m..] == src[i + m..];
      if i + m >= |src| || src[i + m] != '"' {
        HashAlone(s, depth, m);
      } else {
        hashes := m;
        StringOpens(s, depth, m);
        if HasPrefix(src[i + m..], "\"\"\"") {
          n, w := m + 3, InMultiString;
        } else {
          n, w := m + 1, InString;
        }
      }
    } else if Opens(c) {
      deeper := depth + 1;
      OneStep(State(Normal, depth), s, State(Normal, deeper));
    } else if Closes(c) && depth > 0 {
      deeper := depth - 1;
      OneStep(State(Normal, depth), s, State(Normal, deeper));
    } else if c == '/' {
      if |s| > 1 {
        assert s[..2] == [s[0], s[1]];
      }
      SlashAlone(s, depth);
    } else {
      OneStep(State(Normal, depth), s, State(Normal, depth));
    }
  }

  method TopLevelLineStarts(src: string) returns (starts: seq<nat>)
    ensures starts == TopLevelStarts(src)
  {
    var i, w := 0, InCode;
    var depth: nat, hashes: nat := 0, 0;
    starts := [];
    while i < |src|
      invariant Agrees(src, i, Resting(w, hashes, depth))
      invariant starts == StartsBelow(src, Min(i, |src|))
    {
      ghost var rest := Resting(w, hashes, depth);
      if (i == 0 || src[i - 1] == '\n') && w == InCode && depth == 0 {
        starts := starts + [i];
      }
      var n := 1;
      match w {
        case InLineComment =>
          if src[i] == '\n' { w := InCode; }
          OneStep(rest, src[i..], Resting(w, hashes, depth));
        case InBlockComment =>
          BlockCommentGoesOn(src[i..], depth);
          if HasPrefix(src[i..], "*/") { n, w := 2, InCode; }
        case InString =>
          var over;
          n, over := ReadString(src, i, false, hashes, depth);
          if over { w := InCode; }
        case InMultiString =>
          var over;
          n, over := ReadString(src, i, true, hashes, depth);
          if over { w := InCode; }
        case InCode =>
          n, w, hashes, depth := ReadCode(src, i, depth);
      }
      Advance(src, i, rest, n, Resting(w, hashes, depth));
      i := i + n;
    }
  }
}
