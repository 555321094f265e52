/**
 * The command strings of internal/shellcmd/shellcmd.go, read back by the token recognition of the
 * POSIX.1-2017 Shell Command Language: section 2.3 for words, section 2.2.1 for the backslash,
 * section 2.2.2 for single quotes. Anything a shell could take for more than plain words (an
 * operator, an expansion, a pattern, a comment, a double quote) stops the reader.
 */
module ShellQuote {
  import opened Options

  // ------------------------------------------------------------------ the reader

  datatype Mode = Bare | Backslash | SingleQuoted

  // `word` is the word being read; quotes begin one even where they hold nothing.
  datatype Reader = Reader(mode: Mode, word: Option<string>, words: seq<string>) | Stuck

  predicate Special(c: char) { c in "&|;<>()$`\"\n*?[#~{}!" }

  function Add(r: Reader, c: char): Reader
    requires r.Reader?
  {
    Reader(Bare, Some(r.word.GetOr("") + [c]), r.words)
  }

  function Read(r: Reader, c: char): Reader {
    if r.Stuck? then Stuck
    else
      match r.mode
      case SingleQuoted => if c == '\'' then r.(mode := Bare) else Reader(SingleQuoted, Some(r.word.GetOr("") + [c]), r.words)
      case Backslash => if c == '\n' then r.(mode := Bare) else Add(r, c)
      case Bare =>
        if c == '\'' then Reader(SingleQuoted, Some(r.word.GetOr("")), r.words)
        else if c == '\\' then r.(mode := Backslash)
        else if c == ' ' || c == '\t' then Reader(Bare, None, Done(r))
        else if Special(c) then Stuck
        else Add(r, c)
  }

  function Done(r: Reader): seq<string>
    requires r.Reader?
  {
    if r.word.None? then r.words else r.words + [r.word.value]
  }

  function ReadAll(r: Reader, s: string): Reader
    decreases |s|
  {
    if s == "" then r else ReadAll(Read(r, s[0]), s[1..])
  }

  const START := Reader(Bare, None, [])

  // The words of a command; None where it is more than words, or ends inside a quote.
  function Words(s: string): Option<seq<string>> {
    var r := ReadAll(START, s);
    if r.Stuck? || r.mode != Bare then None else Some(Done(r))
  }

  lemma {:induction false} ReadConcat(r: Reader, a: string, b: string)
    ensures ReadAll(r, a + b) == ReadAll(ReadAll(r, a), b)
    decreases |a|
  {
    if a == "" {
      assert a + b == b;
    } else {
      assert (a + b)[1..] == a[1..] + b;
      ReadConcat(Read(r, a[0]), a[1..], b);
    }
  }

  // ------------------------------------------------------------------- quoting

  function Escaped(s: string): string {
    if s == "" then "" else (if s[0] == '\'' then "'\\''" else [s[0]]) + Escaped(s[1..])
  }

  function Quote(s: string): string { "'" + Escaped(s) + "'" }

  function LoginShell(inner: string): string { "bash -lc " + Quote(inner) }

  lemma ReadOne(r: Reader, c: char)
    ensures ReadAll(r, [c]) == Read(r, c)
  {
    assert [c][1..] == "";
  }

  lemma ReadApostrophe(r: Reader)
    requires r.Reader? && r.mode == SingleQuoted && r.word.Some?
    ensures ReadAll(r, "'\\''") == r.(word := Some(r.word.value + "'"))
  {
    var s := "'\\''";
    assert s == ['\''] + (['\\'] + (['\''] + ['\'']));
    ReadConcat(r, ['\''], ['\\'] + (['\''] + ['\'']));
    ReadOne(r, '\'');
    var bare := r.(mode := Bare);
    ReadConcat(bare, ['\\'], ['\''] + ['\'']);
    ReadOne(bare, '\\');
    ReadConcat(bare.(mode := Backslash), ['\''], ['\'']);
    ReadOne(bare.(mode := Backslash), '\'');
    ReadOne(Add(bare, '\''), '\'');
  }

  lemma {:induction false} ReadEscaped(r: Reader, s: string)
    requires r.Reader? && r.mode == SingleQuoted && r.word.Some?
    ensures ReadAll(r, Escaped(s)) == r.(word := Some(r.word.value + s))
    decreases |s|
  {
    if s == "" {
      assert r.word.value + s == r.word.value;
    } else {
      var next := r.(word := Some(r.word.value + [s[0]]));
      ReadEscaped(next, s[1..]);
      assert r.word.value + [s[0]] + s[1..] == r.word.value + s;
      if s[0] == '\'' {
        ReadConcat(r, "'\\''", Escaped(s[1..]));
        ReadApostrophe(r);
      } else {
        ReadConcat(r, [s[0]], Escaped(s[1..]));
        ReadOne(r, s[0]);
      }
    }
  }

  // A quoted string is that string, added to the word it stands in; nothing in it is special.
  lemma ReadQuoted(r: Reader, s: string)
    requires r.Reader? && r.mode == Bare
    ensures ReadAll(r, Quote(s)) == r.(word := Some(r.word.GetOr("") + s))
  {
    var begun := Reader(SingleQuoted, Some(r.word.GetOr("")), r.words);
    assert Quote(s) == ['\''] + (Escaped(s) + ['\'']);
    ReadConcat(r, ['\''], Escaped(s) + ['\'']);
    ReadOne(r, '\'');
    ReadConcat(begun, Escaped(s), ['\'']);
    ReadEscaped(begun, s);
    ReadOne(begun.(word := Some(r.word.GetOr("") + s)), '\'');
  }

  // Characters that stand for themselves outside quotes.
  predicate Ordinary(s: string) {
    forall k :: 0 <= k < |s| ==> s[k] !in " \t'\\" && !Special(s[k])
  }

  lemma {:induction false} ReadOrdinary(r: Reader, s: string)
    requires r.Reader? && r.mode == Bare && Ordinary(s) && s != ""
    ensures ReadAll(r, s) == r.(word := Some(r.word.GetOr("") + s))
    decreases |s|
  {
    var next := Add(r, s[0]);
    assert s[0] !in " \t'\\";
    assert s[0] != '\'' && s[0] != '\\' && s[0] != ' ' && s[0] != '\t' by { NotBlank(s[0]); }
    assert Read(r, s[0]) == next;
    if |s| > 1 {
      assert forall k :: 0 <= k < |s[1..]| ==> s[1..][k] == s[k + 1];
      ReadOrdinary(next, s[1..]);
    } else {
      assert s == [s[0]] && s[1..] == "";
    }
    assert r.word.GetOr("") + [s[0]] + s[1..] == r.word.GetOr("") + s;
  }

  lemma NotBlank(c: char)
    requires c !in " \t'\\"
    ensures c != '\'' && c != '\\' && c != ' ' && c != '\t'
  {
    var s := " \t'\\";
    assert s[0] == ' ' && s[1] == '\t' && s[2] == '\'' && s[3] == '\\';
  }

  lemma ReadBlank(r: Reader, s: string)
    requires r.Reader? && r.mode == Bare
    ensures ReadAll(r, " " + s) == ReadAll(Reader(Bare, None, Done(r)), s)
  {
    ReadConcat(r, " ", s);
    ReadOne(r, ' ');
  }

  lemma ReadWord(words: seq<string>, word: string, rest: string)
    requires word != "" && Ordinary(word)
    ensures ReadAll(Reader(Bare, None, words), word + (" " + rest)) == ReadAll(Reader(Bare, None, words + [word]), rest)
  {
    var r := Reader(Bare, None, words);
    ReadConcat(r, word, " " + rest);
    ReadOrdinary(r, word);
    assert "" + word == word;
    ReadBlank(r.(word := Some(word)), rest);
  }

  lemma BashIsOrdinary()
    ensures Ordinary("bash") && Ordinary("-lc")
  {
  }

  // The outer shell sees three words, whatever the inner command is.
  lemma LoginShellWords(inner: string)
    ensures Words(LoginShell(inner)) == Some(["bash", "-lc", inner])
  {
    hide Quote, ReadAll, Ordinary;
    var q := Quote(inner);
    assert LoginShell(inner) == "bash" + (" " + ("-lc" + (" " + q)));
    BashIsOrdinary();
    ReadWord([], "bash", "-lc" + (" " + q));
    ReadWord([] + ["bash"], "-lc", q);
    assert [] + ["bash"] + ["-lc"] == ["bash", "-lc"];
    ReadQuoted(Reader(Bare, None, ["bash", "-lc"]), inner);
    assert "" + inner == inner;
    assert ["bash", "-lc"] + [inner] == ["bash", "-lc", inner];
  }

  // ---------------------------------------------------------------- Remote

  function Join(words: seq<string>): string {
    if words == [] then "" else if |words| == 1 then words[0] else Join(words[..|words| - 1]) + " " + words[|words| - 1]
  }

  function Quoted(args: seq<string>): seq<string> {
    if args == [] then [] else Quoted(args[..|args| - 1]) + [Quote(args[|args| - 1])]
  }

  // The command a login shell is given.
  function Inner(prefix: seq<string>, args: seq<string>): string { Join(prefix + Quoted(args)) }

  method Remote(prefix: seq<string>, args: seq<string>) returns (command: string)
    ensures command == LoginShell(Inner(prefix, args))
  {
    var words := prefix;
    for n := 0 to |args|
      invariant words == prefix + Quoted(args[..n])
    {
      assert args[..n + 1][..n] == args[..n];
      words := words + [Quote(args[n])];
    }
    assert args[..|args|] == args;
    command := LoginShell(Join(words));
  }

  // A reader between words, with these read.
  predicate Has(r: Reader, words: seq<string>) { r.Reader? && r.mode == Bare && Done(r) == words }

  lemma OneWordMore(command: string, words: seq<string>, arg: string)
    requires Has(ReadAll(START, command), words)
    ensures Has(ReadAll(START, command + " " + Quote(arg)), words + [arg])
  {
    hide Quote;
    var r := ReadAll(START, command);
    assert command + " " + Quote(arg) == command + (" " + Quote(arg));
    ReadConcat(START, command, " " + Quote(arg));
    ReadBlank(r, Quote(arg));
    ReadQuoted(Reader(Bare, None, words), arg);
    assert "" + arg == arg;
  }

  lemma OnlyWord(arg: string)
    ensures Has(ReadAll(START, Quote(arg)), [arg])
  {
    ReadQuoted(START, arg);
    assert "" + arg == arg;
  }

  // Whatever the prefix reads as, the arguments follow it: each as one word, unchanged.
  lemma {:induction false} ArgumentsArrive(prefix: seq<string>, args: seq<string>, words: seq<string>)
    requires Words(Join(prefix)) == Some(words)
    ensures Words(Inner(prefix, args)) == Some(words + args)
    decreases |args|
  {
    hide Quote, Quoted, Join, Words;
    if args == [] {
      NothingQuoted();
      assert prefix + [] == prefix && words + args == words;
    } else {
      var front, last := args[..|args| - 1], args[|args| - 1];
      assert args == front + [last];
      ArgumentsArrive(prefix, front, words);
      QuotedSnoc(front, last);
      assert prefix + Quoted(args) == (prefix + Quoted(front)) + [Quote(last)];
      LastArrives(prefix + Quoted(front), words + front, last);
      assert words + args == (words + front) + [last];
    }
  }

  // One more argument is one more word, whether the command is empty so far or not.
  lemma LastArrives(spelled: seq<string>, words: seq<string>, last: string)
    requires Words(Join(spelled)) == Some(words)
    ensures Words(Join(spelled + [Quote(last)])) == Some(words + [last])
  {
    hide Quote, Join, ReadAll;
    JoinSnoc(spelled, Quote(last));
    if spelled == [] {
      NoWords(words);
      OnlyWord(last);
      assert [] + [last] == [last];
    } else {
      OneWordMore(Join(spelled), words, last);
    }
  }

  lemma NothingQuoted()
    ensures Quoted([]) == []
  {
  }

  lemma QuotedSnoc(args: seq<string>, last: string)
    ensures Quoted(args + [last]) == Quoted(args) + [Quote(last)]
  {
    hide Quote;
    assert (args + [last])[..|args|] == args;
  }

  lemma NoWords(words: seq<string>)
    requires Words(Join([])) == Some(words)
    ensures words == []
  {
  }

  lemma JoinSnoc(words: seq<string>, last: string)
    ensures Join(words + [last]) == if words == [] then last else Join(words) + " " + last
  {
    assert (words + [last])[..|words|] == words;
  }

  // Through both shells: the outer one hands over one word, and that word reads as the prefix's own
  // words followed by exactly the arguments.
  lemma RemoteWords(prefix: seq<string>, args: seq<string>, words: seq<string>)
    requires Words(Join(prefix)) == Some(words)
    ensures Words(LoginShell(Inner(prefix, args))) == Some(["bash", "-lc", Inner(prefix, args)])
    ensures Words(Inner(prefix, args)) == Some(words + args)
  {
    LoginShellWords(Inner(prefix, args));
    ArgumentsArrive(prefix, args, words);
  }

  // A prefix the way callers build one: literals, and values they quoted themselves.
  datatype Word = Literal(text: string) | Value(text: string)

  function Spelled(w: Word): string { if w.Literal? then w.text else Quote(w.text) }

  function SpelledAll(ws: seq<Word>): seq<string> {
    if ws == [] then [] else SpelledAll(ws[..|ws| - 1]) + [Spelled(ws[|ws| - 1])]
  }

  function Texts(ws: seq<Word>): seq<string> {
    if ws == [] then [] else Texts(ws[..|ws| - 1]) + [ws[|ws| - 1].text]
  }

  lemma {:induction false} PrefixWords(ws: seq<Word>)
    requires forall k :: 0 <= k < |ws| && ws[k].Literal? ==> ws[k].text != "" && Ordinary(ws[k].text)
    ensures Words(Join(SpelledAll(ws))) == Some(Texts(ws))
    ensures |SpelledAll(ws)| == |ws|
    decreases |ws|
  {
    hide Words, Join, Ordinary, Spelled, SpelledAll, Texts;
    Nothing();
    if ws != [] {
      var front, last := ws[..|ws| - 1], ws[|ws| - 1];
      assert ws == front + [last];
      PrefixWords(front);
      SpelledSnoc(front, last);
      SpelledArrives(SpelledAll(front), Texts(front), last);
    }
  }

  lemma SpelledArrives(spelled: seq<string>, words: seq<string>, last: Word)
    requires Words(Join(spelled)) == Some(words) && (last.Literal? ==> last.text != "" && Ordinary(last.text))
    ensures Words(Join(spelled + [Spelled(last)])) == Some(words + [last.text])
  {
    hide Join, ReadAll, Ordinary, Spelled;
    JoinSnoc(spelled, Spelled(last));
    if spelled == [] {
      NoWords(words);
      OneWord(last, START, "");
      assert [] + [last.text] == [last.text];
    } else {
      var command := Join(spelled);
      assert command + " " + Spelled(last) == command + (" " + Spelled(last));
      ReadConcat(START, command, " " + Spelled(last));
      ReadBlank(ReadAll(START, command), Spelled(last));
      OneWord(last, Reader(Bare, None, words), "");
    }
  }

  lemma SpelledSnoc(ws: seq<Word>, w: Word)
    ensures SpelledAll(ws + [w]) == SpelledAll(ws) + [Spelled(w)] && Texts(ws + [w]) == Texts(ws) + [w.text]
  {
    hide Spelled;
    assert (ws + [w])[..|ws|] == ws;
  }

  lemma Nothing()
    ensures Words(Join(SpelledAll([]))) == Some([]) && SpelledAll([]) == [] && Texts([]) == []
  {
  }

  lemma OneWord(w: Word, r: Reader, none: string)
    requires w.Literal? ==> w.text != "" && Ordinary(w.text)
    requires r.Reader? && r.mode == Bare && r.word == None && none == ""
    ensures ReadAll(r, Spelled(w)) == r.(word := Some(w.text))
  {
    assert none + w.text == w.text;
    if w.Literal? {
      ReadOrdinary(r, w.text);
    } else {
      ReadQuoted(r, w.text);
    }
  }

  // Login shells inside login shells, n deep, and what peeling n of them off leaves.
  function Nested(n: nat, inner: string): string {
    if n == 0 then inner else LoginShell(Nested(n - 1, inner))
  }

  function Peeled(n: nat, command: string): Option<string> {
    if n == 0 then Some(command)
    else
      var words := Words(command);
      if words.Some? && |words.value| == 3 && words.value[..2] == ["bash", "-lc"] then Peeled(n - 1, words.value[2]) else None
  }

  lemma {:induction false} NestingUndone(n: nat, inner: string)
    ensures Peeled(n, Nested(n, inner)) == Some(inner)
  {
    if n > 0 {
      LoginShellWords(Nested(n - 1, inner));
      NestingUndone(n - 1, inner);
    }
  }
}
