/**
 * How a string is spelled in a Pkl file: `quote` (internal/config/write.go:302-311), the shorter
 * spelling of the image editor (internal/config/edit.go:108), and how Pkl reads them back.
 */
module PklString {
  import opened Options
  import opened PklScan

  // `controls`: line ends and tabs are spelled as escapes too, as write.go does and edit.go does not.
  function Spell(c: char, controls: bool): string {
    if c == '\\' then "\\\\"
    else if c == '"' then "\\\""
    else if controls && c == '\n' then "\\n"
    else if controls && c == '\t' then "\\t"
    else if controls && c == '\r' then "\\r"
    else [c]
  }

  function Body(s: string, controls: bool): string {
    if s == "" then "" else Spell(s[0], controls) + Body(s[1..], controls)
  }

  function Quote(s: string): string { "\"" + Body(s, true) + "\"" }

  function Literal(s: string): string { "\"" + Body(s, false) + "\"" }

  // What Pkl makes of the text between two quotes; None for an escape that is not a plain character,
  // among them the interpolation \(.
  function Unescaped(c: char): Option<char> {
    if c == '\\' || c == '"' then Some(c)
    else if c == 'n' then Some('\n')
    else if c == 't' then Some('\t')
    else if c == 'r' then Some('\r')
    else None
  }

  function Decode(body: string): Option<string>
    decreases |body|
  {
    if body == "" then Some("")
    else if body[0] == '"' then None
    else if body[0] != '\\' then Prepend(Some(body[0]), Decode(body[1..]))
    else if |body| == 1 then None
    else Prepend(Unescaped(body[1]), Decode(body[2..]))
  }

  function Prepend(c: Option<char>, rest: Option<string>): Option<string> {
    if c.Some? && rest.Some? then Some([c.value] + rest.value) else None
  }

  lemma {:induction false} DecodeBody(s: string, controls: bool)
    ensures Decode(Body(s, controls)) == Some(s)
  {
    if s != "" {
      DecodeBody(s[1..], controls);
      var word, rest := Spell(s[0], controls), Body(s[1..], controls);
      assert (word + rest)[|word|..] == rest;
      assert s == [s[0]] + s[1..];
    }
  }

  predicate Free(s: string, c: char) { forall k :: 0 <= k < |s| ==> s[k] != c }

  lemma {:induction false} SpelledAlike(s: string)
    requires Free(s, '\n') && Free(s, '\t') && Free(s, '\r')
    ensures Quote(s) == Literal(s)
  {
    if s != "" {
      SpelledAlike(s[1..]);
      assert Body(s[1..], true) == Body(s[1..], false) by { SameTail(Body(s[1..], true), Body(s[1..], false)); }
    }
  }

  lemma SameTail(a: string, b: string)
    requires "\"" + a + "\"" == "\"" + b + "\""
    ensures a == b
  {
    assert a == ("\"" + a + "\"")[1..|a| + 1];
    assert b == ("\"" + b + "\"")[1..|b| + 1];
  }

  // Neither spelling leaves a line end, unless the short one was given one.
  lemma {:induction false} OneLine(s: string, controls: bool)
    requires controls || Free(s, '\n')
    ensures Free(Body(s, controls), '\n')
  {
    if s != "" {
      OneLine(s[1..], controls);
    }
  }

  // A quoted string round-trips: on one line, between two quotes, decoding to itself.
  lemma QuoteRoundTrip(s: string)
    ensures var q := Quote(s);
            && Free(q, '\n') && |q| >= 2 && q[0] == q[|q| - 1] == '"'
            && Decode(q[1..|q| - 1]) == Some(s)
  {
    OneLine(s, true);
    DecodeBody(s, true);
    assert Quote(s)[1..|Quote(s)| - 1] == Body(s, true);
  }

  lemma {:induction false} ReadBody(s: string, controls: bool, d: nat)
    requires controls || Free(s, '\n')
    ensures Run(State(Text(false, 0), d), Body(s, controls)) == State(Text(false, 0), d)
  {
    var a := State(Text(false, 0), d);
    if s != "" {
      ReadBody(s[1..], controls, d);
      var word := Spell(s[0], controls);
      RunConcat(a, word, Body(s[1..], controls));
      if |word| == 2 {
        assert word == [word[0], word[1]];
        RunConcat(a, [word[0]], [word[1]]);
        RunOne(a, word[0]);
        RunOne(Step(a, word[0]), word[1]);
      } else {
        RunOne(a, word[0]);
      }
    }
  }

  // To the scanner a closed string is nothing at all, as long as no quote follows it at once.
  lemma QuotedThen(body: string, d: nat, tail: string)
    requires body != "" ==> body[0] != '"'
    requires Run(State(Text(false, 0), d), body + "\"") == State(Normal, d)
    requires tail != "" && tail[0] != '"'
    ensures Run(State(Normal, d), "\"" + body + "\"" + tail) == Run(State(Normal, d), tail)
  {
    var out, opening := State(Normal, d), State(Opening(0, 1), d);
    var closed := body + "\"";
    assert "\"" + body + "\"" + tail == ['"'] + (closed + tail);
    RunConcat(out, ['"'], closed + tail);
    RunOne(out, '"');
    if body == "" {
      assert closed + tail == ['"'] + tail;
      assert (closed + tail)[1..] == tail;
      assert Run(opening, closed + tail) == Run(State(Opening(0, 2), d), tail);
      assert Step(State(Opening(0, 2), d), tail[0]) == Step(out, tail[0]);
    } else {
      var inside := State(Text(false, 0), d);
      assert (closed + tail)[0] == body[0];
      assert Step(opening, body[0]) == Step(inside, body[0]);
      assert Run(opening, closed + tail) == Run(inside, closed + tail);
      RunConcat(inside, closed, tail);
    }
  }

  lemma ReadQuoted(s: string, controls: bool, d: nat, tail: string)
    requires controls || Free(s, '\n')
    requires tail != "" && tail[0] != '"'
    ensures Run(State(Normal, d), "\"" + Body(s, controls) + "\"" + tail) == Run(State(Normal, d), tail)
  {
    var body := Body(s, controls);
    ReadBody(s, controls, d);
    RunSnoc(State(Text(false, 0), d), body, '"');
    QuotedThen(body, d, tail);
  }
}
