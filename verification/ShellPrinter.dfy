// Printing a command so that a shell reads the same words back.
module ShellPrinter {
  import opened Common

  // A command is a list of words with line feed marks between them.
  datatype Arg = Word(text: string) | LF

  function Strip(cmd: seq<Arg>): seq<string> {
    if cmd == [] then []
    else
      var before := Strip(cmd[..|cmd| - 1]);
      match cmd[|cmd| - 1]
      case Word(w) => before + [w]
      case LF => before
  }

  // ---- Quoting, as the Python library documents shlex.quote ----

  predicate Safe(c: char) {
    || 'a' <= c <= 'z' || 'A' <= c <= 'Z' || '0' <= c <= '9'
    || c == '_' || c == '@' || c == '%' || c == '+' || c == '='
    || c == ':' || c == ',' || c == '.' || c == '/' || c == '-'
  }

  // Every quote becomes: close the quotes, a quote inside double quotes, open them again.
  function Escaped(w: string): string {
    if w == [] then []
    else Escaped(w[..|w| - 1]) + if w[|w| - 1] == '\'' then "'\"'\"'" else [w[|w| - 1]]
  }

  function Quote(w: string): string {
    if w == [] then "''"
    else if forall i | 0 <= i < |w| :: Safe(w[i]) then w
    else "'" + Escaped(w) + "'"
  }

  // ---- Reading a command, sections 2.2 and 2.3 of the Shell Command Language of POSIX.1-2017 ----

  datatype Token = Text(word: string) | Operator(op: char)

  // In the modes inside a word `cur` holds its characters without their quoting. Refused stands
  // for text with an expansion or with an operator other than the semicolon and the newline.
  datatype Mode = Between | Bare | Single | Double | BetweenEsc | BareEsc | DoubleEsc | Comment | Refused

  datatype Scan = Scan(mode: Mode, cur: string, tokens: seq<Token>)
  {
    function Emit(): Scan {
      Scan(Between, [], tokens + [Text(cur)])
    }

    function Push(m: Mode, c: char): Scan {
      Scan(m, cur + [c], tokens)
    }

    function To(m: Mode): Scan {
      this.(mode := m)
    }
  }

  predicate Unsupported(c: char) {
    c == '$' || c == '`' || c == '&' || c == '|' || c == '<' || c == '>' || c == '(' || c == ')'
  }

  function Next(st: Scan, c: char): Scan {
    match st.mode
    case Between =>
      if c == ' ' || c == '\t' then st
      else if c == ';' || c == '\n' then st.(tokens := st.tokens + [Operator(c)])
      else if c == '#' then st.To(Comment)
      else if c == '\\' then st.To(BetweenEsc)
      else if c == '\'' then st.To(Single)
      else if c == '"' then st.To(Double)
      else if Unsupported(c) then st.To(Refused)
      else st.Push(Bare, c)
    case Bare =>
      if c == ' ' || c == '\t' then st.Emit()
      else if c == ';' || c == '\n' then var e := st.Emit(); e.(tokens := e.tokens + [Operator(c)])
      else if c == '\\' then st.To(BareEsc)
      else if c == '\'' then st.To(Single)
      else if c == '"' then st.To(Double)
      else if Unsupported(c) then st.To(Refused)
      else st.Push(Bare, c)
    case Single => if c == '\'' then st.To(Bare) else st.Push(Single, c)
    case Double =>
      if c == '"' then st.To(Bare)
      else if c == '\\' then st.To(DoubleEsc)
      else if c == '$' || c == '`' then st.To(Refused)
      else st.Push(Double, c)
    case BetweenEsc => if c == '\n' then st.To(Between) else st.Push(Bare, c)
    case BareEsc => if c == '\n' then st.To(Bare) else st.Push(Bare, c)
    case DoubleEsc =>
      if c == '\n' then st.To(Double)
      else if c == '$' || c == '`' || c == '"' || c == '\\' then st.Push(Double, c)
      else st.Push(Double, '\\').Push(Double, c)
    case Comment => if c == '\n' then Scan(Between, [], st.tokens + [Operator(c)]) else st
    case Refused => st
  }

  function Run(st: Scan, text: string): Scan {
    if text == [] then st else Next(Run(st, text[..|text| - 1]), text[|text| - 1])
  }

  // The end of input delimits a word; unfinished quoting is refused.
  function Flush(st: Scan): Option<seq<Token>> {
    match st.mode
    case Between => Some(st.tokens)
    case Comment => Some(st.tokens)
    case Bare => Some(st.Emit().tokens)
    case _ => None
  }

  function Tokens(text: string): Option<seq<Token>> {
    Flush(Run(Scan(Between, [], []), text))
  }

  // ---- Printing ----

  const LAST_NEWLINE := " \\\n"
  const NEWLINE_SEPARATOR := " \\\n  "

  // Words on one line are separated by a blank; an LF between two words moves the second to
  // a continuation line.
  function Body(cmd: seq<Arg>): string {
    if cmd == [] then ""
    else
      var before := cmd[..|cmd| - 1];
      match cmd[|cmd| - 1]
      case LF => Body(before)
      case Word(w) =>
        if Strip(before) == [] then Quote(w)
        else if before[|before| - 1].LF? then Body(before) + NEWLINE_SEPARATOR + Quote(w)
        else Body(before) + " " + Quote(w)
  }

  function Words(words: seq<string>): (cmd: seq<Arg>)
    ensures |cmd| == |words| && forall i | 0 <= i < |words| :: cmd[i] == Word(words[i])
  {
    seq(|words|, i requires 0 <= i < |words| => Word(words[i]))
  }

  function WithNewlines(cmd: seq<Arg>): seq<Arg> {
    if cmd == [] then [] else WithNewlines(cmd[..|cmd| - 1]) + [cmd[|cmd| - 1], LF]
  }

  function CountLF(cmd: seq<Arg>): nat {
    if cmd == [] then 0 else CountLF(cmd[..|cmd| - 1]) + if cmd[|cmd| - 1].LF? then 1 else 0
  }

  // The documented layout: on one line; or, with no LF given, an LF after every word.
  function Layout(cmd: seq<Arg>, oneline: bool): seq<Arg> {
    if oneline then Words(Strip(cmd)) else if CountLF(cmd) == 0 then WithNewlines(cmd) else cmd
  }

  predicate Bracketed(cmd: seq<Arg>, oneline: bool) {
    !oneline && !(CountLF(cmd) == 1 && cmd[|cmd| - 1].LF?)
  }

  function CommandText(cmd: seq<Arg>, oneline: bool): string {
    Body(Layout(cmd, oneline)) + if Bracketed(cmd, oneline) then LAST_NEWLINE + ";" else ""
  }

  // ---- The scanner over pieces of text ----

  lemma RunSnoc(st: Scan, text: string, c: char)
    ensures Run(st, text + [c]) == Next(Run(st, text), c)
  {
    assert (text + [c])[..|text|] == text;
  }

  lemma {:induction false} RunConcat(st: Scan, a: string, b: string)
    ensures Run(st, a + b) == Run(Run(st, a), b)
  {
    if b == [] {
      assert a + b == a;
    } else {
      var n := |b| - 1;
      assert a + b == (a + b[..n]) + [b[n]];
      RunConcat(st, a, b[..n]);
      RunSnoc(st, a + b[..n], b[n]);
    }
  }

  lemma RunOne(st: Scan, c: char)
    ensures Run(st, [c]) == Next(st, c)
  {
    RunSnoc(st, [], c);
    assert [] + [c] == [c];
  }

  lemma RunFive(st: Scan, a: char, b: char, c: char, d: char, e: char)
    ensures Run(st, [a, b, c]) == Next(Next(Next(st, a), b), c)
    ensures Run(st, [a, b, c, d]) == Next(Next(Next(Next(st, a), b), c), d)
    ensures Run(st, [a, b, c, d, e]) == Next(Next(Next(Next(Next(st, a), b), c), d), e)
  {
    RunOne(st, a);
    RunSnoc(st, [a], b);
    assert [a] + [b] == [a, b];
    RunSnoc(st, [a, b], c);
    assert [a, b] + [c] == [a, b, c];
    RunSnoc(st, [a, b, c], d);
    assert [a, b, c] + [d] == [a, b, c, d];
    RunSnoc(st, [a, b, c, d], e);
    assert [a, b, c, d] + [e] == [a, b, c, d, e];
  }

  lemma {:induction false} RunSafe(tokens: seq<Token>, w: string)
    requires w != [] && forall i | 0 <= i < |w| :: Safe(w[i])
    ensures Run(Scan(Between, [], tokens), w) == Scan(Bare, w, tokens)
  {
    var n := |w| - 1;
    if n == 0 {
      RunOne(Scan(Between, [], tokens), w[0]);
      assert w == [w[0]];
    } else {
      RunSafe(tokens, w[..n]);
      assert w == w[..n] + [w[n]];
      assert Safe(w[n]);
    }
  }

  lemma {:induction false} RunEscaped(st: Scan, w: string)
    requires st.mode.Single?
    ensures Run(st, Escaped(w)) == Scan(Single, st.cur + w, st.tokens)
  {
    if w == [] {
      assert st.cur + w == st.cur;
    } else {
      var n := |w| - 1;
      RunEscaped(st, w[..n]);
      assert w == w[..n] + [w[n]];
      assert st.cur + w == (st.cur + w[..n]) + [w[n]];
      var mid := Scan(Single, st.cur + w[..n], st.tokens);
      if w[n] == '\'' {
        RunConcat(st, Escaped(w[..n]), "'\"'\"'");
        RunFive(mid, '\'', '"', '\'', '"', '\'');
      } else {
        RunConcat(st, Escaped(w[..n]), [w[n]]);
        RunOne(mid, w[n]);
      }
    }
  }

  lemma RunQuoted(tokens: seq<Token>, w: string)
    ensures Run(Scan(Between, [], tokens), "'" + Escaped(w) + "'") == Scan(Bare, w, tokens)
  {
    var st := Scan(Between, [], tokens);
    RunOne(st, '\'');
    RunConcat(st, "'", Escaped(w));
    RunEscaped(Scan(Single, [], tokens), w);
    assert [] + w == w;
    RunSnoc(st, "'" + Escaped(w), '\'');
  }

  // Quoting undone: whatever the word, the scanner reads it back as one word.
  lemma QuoteReadsBack(tokens: seq<Token>, w: string)
    ensures Run(Scan(Between, [], tokens), Quote(w)) == Scan(Bare, w, tokens)
  {
    if w == [] {
      RunQuoted(tokens, w);
      assert "'" + Escaped(w) + "'" == "''";
    } else if forall i | 0 <= i < |w| :: Safe(w[i]) {
      RunSafe(tokens, w);
    } else {
      RunQuoted(tokens, w);
    }
  }

  lemma SeparatorsDelimit(tokens: seq<Token>, w: string)
    ensures Run(Scan(Bare, w, tokens), " ") == Scan(Between, [], tokens + [Text(w)])
    ensures Run(Scan(Bare, w, tokens), NEWLINE_SEPARATOR) == Scan(Between, [], tokens + [Text(w)])
    ensures Run(Scan(Bare, w, tokens), LAST_NEWLINE + ";") == Scan(Between, [], tokens + [Text(w), Operator(';')])
  {
    var st := Scan(Bare, w, tokens);
    RunOne(st, ' ');
    RunFive(st, ' ', '\\', '\n', ' ', ' ');
    RunFive(st, ' ', '\\', '\n', ';', ';');
    assert LAST_NEWLINE + ";" == [' ', '\\', '\n', ';'];
    assert NEWLINE_SEPARATOR == [' ', '\\', '\n', ' ', ' '];
    assert tokens + [Text(w)] + [Operator(';')] == tokens + [Text(w), Operator(';')];
  }

  lemma EmptyCommandEnds()
    ensures Run(Scan(Between, [], []), LAST_NEWLINE + ";") == Scan(Between, [], [Operator(';')])
  {
    RunFive(Scan(Between, [], []), ' ', '\\', '\n', ';', ';');
    assert LAST_NEWLINE + ";" == [' ', '\\', '\n', ';'];
  }

  // ---- What a shell reads ----

  function Texts(words: seq<string>): (tokens: seq<Token>)
    ensures |tokens| == |words| && forall i | 0 <= i < |words| :: tokens[i] == Text(words[i])
  {
    seq(|words|, i requires 0 <= i < |words| => Text(words[i]))
  }

  // The scanner has read exactly these words and may still be inside the last one.
  predicate ReadsAs(text: string, words: seq<string>) {
    Run(Scan(Between, [], []), text)
    == if words == [] then Scan(Between, [], [])
       else Scan(Bare, words[|words| - 1], Texts(words[..|words| - 1]))
  }

  lemma FirstWordReadsBack(w: string)
    ensures ReadsAs(Quote(w), [w])
  {
    QuoteReadsBack([], w);
    assert Texts([w][..0]) == [];
  }

  lemma NextWordReadsBack(text: string, words: seq<string>, sep: string, w: string)
    requires ReadsAs(text, words) && words != []
    requires sep == " " || sep == NEWLINE_SEPARATOR
    ensures ReadsAs(text + sep + Quote(w), words + [w])
  {
    var n := |words| - 1;
    var st := Scan(Between, [], []);
    assert Texts(words[..n]) + [Text(words[n])] == Texts(words);
    SeparatorsDelimit(Texts(words[..n]), words[n]);
    QuoteReadsBack(Texts(words), w);
    RunConcat(st, text, sep);
    RunConcat(st, text + sep, Quote(w));
    assert (words + [w])[..|words|] == words;
  }

  lemma {:induction false} BodyReadsBack(cmd: seq<Arg>)
    ensures ReadsAs(Body(cmd), Strip(cmd))
  {
    if cmd != [] {
      var before := cmd[..|cmd| - 1];
      BodyReadsBack(before);
      match cmd[|cmd| - 1]
      case LF =>
      case Word(w) =>
        if Strip(before) == [] {
          FirstWordReadsBack(w);
        } else {
          var sep := if before[|before| - 1].LF? then NEWLINE_SEPARATOR else " ";
          NextWordReadsBack(Body(before), Strip(before), sep, w);
        }
    }
  }

  lemma {:induction false} StripWords(words: seq<string>)
    ensures Strip(Words(words)) == words
  {
    if words != [] {
      var n := |words| - 1;
      assert Words(words)[..n] == Words(words[..n]);
      StripWords(words[..n]);
      assert words == words[..n] + [words[n]];
    }
  }

  // add_newlines adds nothing that strip_newlines does not take away.
  lemma {:induction false} StripWithNewlines(cmd: seq<Arg>)
    ensures Strip(WithNewlines(cmd)) == Strip(cmd)
  {
    if cmd != [] {
      var n := |cmd| - 1;
      StripWithNewlines(cmd[..n]);
      var w := WithNewlines(cmd[..n]);
      assert WithNewlines(cmd) == w + [cmd[n], LF];
      assert (w + [cmd[n], LF])[..|w| + 1] == w + [cmd[n]];
      assert (w + [cmd[n]])[..|w|] == w;
    }
  }

  lemma LayoutKeepsWords(cmd: seq<Arg>, oneline: bool)
    ensures Strip(Layout(cmd, oneline)) == Strip(cmd)
  {
    StripWords(Strip(cmd));
    StripWithNewlines(cmd);
  }

  lemma BodyTokens(cmd: seq<Arg>)
    ensures Flush(Run(Scan(Between, [], []), Body(cmd))) == Some(Texts(Strip(cmd)))
    ensures Flush(Run(Scan(Between, [], []), Body(cmd) + (LAST_NEWLINE + ";")))
            == Some(Texts(Strip(cmd)) + [Operator(';')])
  {
    var words := Strip(cmd);
    BodyReadsBack(cmd);
    RunConcat(Scan(Between, [], []), Body(cmd), LAST_NEWLINE + ";");
    if words == [] {
      EmptyCommandEnds();
      assert Texts(words) == [];
    } else {
      var n := |words| - 1;
      SeparatorsDelimit(Texts(words[..n]), words[n]);
      assert Texts(words[..n]) + [Text(words[n])] == Texts(words);
      assert Texts(words[..n]) + [Text(words[n]), Operator(';')] == Texts(words) + [Operator(';')];
    }
  }

  function DropFinalSemicolon(tokens: seq<Token>): seq<Token> {
    if tokens != [] && tokens[|tokens| - 1] == Operator(';') then tokens[..|tokens| - 1] else tokens
  }

  lemma DropAfterWords(words: seq<string>)
    ensures DropFinalSemicolon(Texts(words)) == Texts(words)
    ensures DropFinalSemicolon(Texts(words) + [Operator(';')]) == Texts(words)
  {
    assert (Texts(words) + [Operator(';')])[..|words|] == Texts(words);
  }

  // A shell reads the printed command as its words, up to the final semicolon.
  lemma PrintedCommandReadsBack(cmd: seq<Arg>, oneline: bool)
    ensures Tokens(CommandText(cmd, oneline)).Some?
    ensures DropFinalSemicolon(Tokens(CommandText(cmd, oneline)).value) == Texts(Strip(cmd))
  {
    var layout := Layout(cmd, oneline);
    LayoutKeepsWords(cmd, oneline);
    BodyTokens(layout);
    DropAfterWords(Strip(cmd));
    assert Body(layout) + "" == Body(layout);
  }

  // So the text determines the words, whatever line feeds and settings produced it.
  lemma TextDeterminesWords(a: seq<Arg>, b: seq<Arg>, onelineA: bool, onelineB: bool)
    requires CommandText(a, onelineA) == CommandText(b, onelineB)
    ensures Strip(a) == Strip(b)
  {
    PrintedCommandReadsBack(a, onelineA);
    PrintedCommandReadsBack(b, onelineB);
    assert Texts(Strip(a)) == Texts(Strip(b));
    forall i | 0 <= i < |Strip(a)|
      ensures Strip(a)[i] == Strip(b)[i]
    {
      assert Texts(Strip(a))[i] == Texts(Strip(b))[i];
    }
  }

  lemma {:induction false} NoLFIsWords(cmd: seq<Arg>)
    requires CountLF(cmd) == 0
    ensures cmd == Words(Strip(cmd))
  {
    if cmd != [] {
      var n := |cmd| - 1;
      NoLFIsWords(cmd[..n]);
      assert cmd == cmd[..n] + [cmd[n]];
    }
  }

  // A single LF at the end asks for one line.
  lemma LoneFinalLF(cmd: seq<Arg>)
    requires CountLF(cmd) == 1 && cmd[|cmd| - 1].LF?
    ensures CommandText(cmd, false) == CommandText(cmd, true)
  {
    NoLFIsWords(cmd[..|cmd| - 1]);
  }

  // ---- Where the text breaks a line ----

  predicate OutsideQuotes(m: Mode) {
    m.Between? || m.Bare? || m.BetweenEsc? || m.BareEsc? || m.Comment?
  }

  function WordCount(tokens: seq<Token>): nat {
    if tokens == [] then 0
    else WordCount(tokens[..|tokens| - 1]) + if tokens[|tokens| - 1].Text? then 1 else 0
  }

  // For each newline outside quotes, the number of words that the scanner has completed before it.
  function BreaksFrom(st: Scan, text: string): seq<nat> {
    if text == [] then []
    else
      var n := |text| - 1;
      var before := Run(st, text[..n]);
      BreaksFrom(st, text[..n])
      + if text[n] == '\n' && OutsideQuotes(before.mode) then [WordCount(before.tokens)] else []
  }

  function LineBreaks(text: string): seq<nat> {
    BreaksFrom(Scan(Between, [], []), text)
  }

  // For each LF, the number of words before it.
  function LFs(cmd: seq<Arg>): seq<nat> {
    if cmd == [] then []
    else
      var before := cmd[..|cmd| - 1];
      LFs(before) + if cmd[|cmd| - 1].LF? then [|Strip(before)|] else []
  }

  // The LFs that have a word on both sides, adjacent LFs taken as one.
  function InnerLFs(cmd: seq<Arg>): seq<nat> {
    if cmd == [] then []
    else
      var before := cmd[..|cmd| - 1];
      InnerLFs(before)
      + if cmd[|cmd| - 1].Word? && Strip(before) != [] && before[|before| - 1].LF? then [|Strip(before)|] else []
  }

  // No LF comes first and no two are adjacent.
  predicate Spaced(cmd: seq<Arg>) {
    && (cmd != [] ==> cmd[0].Word?)
    && forall i | 0 < i < |cmd| :: cmd[i - 1].Word? || cmd[i].Word?
  }

  predicate Neat(cmd: seq<Arg>) {
    Spaced(cmd) && cmd != [] && cmd[|cmd| - 1].LF?
  }

  predicate Rising(s: seq<nat>) {
    && (forall i | 0 <= i < |s| :: s[i] > 0)
    && forall i, j | 0 <= i < j < |s| :: s[i] < s[j]
  }

  function UpTo(n: nat): (s: seq<nat>)
    ensures |s| == n && forall i | 0 <= i < n :: s[i] == i + 1
  {
    seq(n, i => i + 1)
  }

  lemma BreaksSnoc(st: Scan, text: string, c: char)
    ensures var before := Run(st, text);
            BreaksFrom(st, text + [c])
            == BreaksFrom(st, text)
               + if c == '\n' && OutsideQuotes(before.mode) then [WordCount(before.tokens)] else []
  {
    assert (text + [c])[..|text|] == text;
  }

  lemma {:induction false} BreaksConcat(st: Scan, a: string, b: string)
    ensures BreaksFrom(st, a + b) == BreaksFrom(st, a) + BreaksFrom(Run(st, a), b)
  {
    if b == [] {
      assert a + b == a;
    } else {
      var n := |b| - 1;
      assert a + b == (a + b[..n]) + [b[n]];
      BreaksConcat(st, a, b[..n]);
      BreaksSnoc(st, a + b[..n], b[n]);
      RunConcat(st, a, b[..n]);
    }
  }

  lemma {:induction false} NoNewlineNoBreak(st: Scan, text: string)
    requires '\n' !in text
    ensures BreaksFrom(st, text) == []
  {
    if text != [] {
      NoNewlineNoBreak(st, text[..|text| - 1]);
    }
  }

  lemma {:induction false} EscapedHasNoBreak(st: Scan, w: string)
    requires st.mode.Single?
    ensures BreaksFrom(st, Escaped(w)) == []
  {
    if w != [] {
      var n := |w| - 1;
      EscapedHasNoBreak(st, w[..n]);
      RunEscaped(st, w[..n]);
      if w[n] == '\'' {
        BreaksConcat(st, Escaped(w[..n]), "'\"'\"'");
        NoNewlineNoBreak(Scan(Single, st.cur + w[..n], st.tokens), "'\"'\"'");
      } else {
        BreaksSnoc(st, Escaped(w[..n]), w[n]);
      }
    }
  }

  lemma ThreePiecesDoNotBreak(st: Scan, a: string, b: string, c: string)
    requires '\n' !in a && '\n' !in c && BreaksFrom(Run(st, a), b) == []
    ensures BreaksFrom(st, a + b + c) == []
  {
    NoNewlineNoBreak(st, a);
    BreaksConcat(st, a, b);
    NoNewlineNoBreak(Run(st, a + b), c);
    BreaksConcat(st, a + b, c);
  }

  lemma QuoteHasNoBreak(tokens: seq<Token>, w: string)
    ensures BreaksFrom(Scan(Between, [], tokens), Quote(w)) == []
  {
    var st := Scan(Between, [], tokens);
    if w == [] {
      NoNewlineNoBreak(st, Quote(w));
    } else if forall i | 0 <= i < |w| :: Safe(w[i]) {
      NoNewlineNoBreak(st, Quote(w));
    } else {
      RunOne(st, '\'');
      EscapedHasNoBreak(Scan(Single, [], tokens), w);
      ThreePiecesDoNotBreak(st, "'", Escaped(w), "'");
    }
  }

  lemma {:induction false} TextsAreWords(words: seq<string>)
    ensures WordCount(Texts(words)) == |words|
  {
    if words != [] {
      assert Texts(words)[..|words| - 1] == Texts(words[..|words| - 1]);
      TextsAreWords(words[..|words| - 1]);
    }
  }

  lemma OneBreak(st: Scan, before: string, after: string)
    requires '\n' !in before && '\n' !in after && OutsideQuotes(Run(st, before).mode)
    ensures BreaksFrom(st, before + ['\n'] + after) == [WordCount(Run(st, before).tokens)]
  {
    NoNewlineNoBreak(st, before);
    BreaksSnoc(st, before, '\n');
    NoNewlineNoBreak(Run(st, before + ['\n']), after);
    BreaksConcat(st, before + ['\n'], after);
  }

  lemma RunTwo(st: Scan, a: char, b: char)
    ensures Run(st, [a, b]) == Next(Next(st, a), b)
  {
    RunOne(st, a);
    RunSnoc(st, [a], b);
    assert [a] + [b] == [a, b];
  }

  // After the last word of a line a continuation breaks once, and a blank not at all.
  lemma SeparatorBreaks(words: seq<string>, after: string)
    requires words != [] && '\n' !in after
    ensures var n := |words| - 1;
            var st := Scan(Bare, words[n], Texts(words[..n]));
            BreaksFrom(st, " ") == [] && BreaksFrom(st, LAST_NEWLINE + after) == [|words|]
  {
    var n := |words| - 1;
    var st := Scan(Bare, words[n], Texts(words[..n]));
    NoNewlineNoBreak(st, " ");
    RunTwo(st, ' ', '\\');
    assert Texts(words[..n]) + [Text(words[n])] == Texts(words);
    TextsAreWords(words);
    OneBreak(st, [' ', '\\'], after);
    assert LAST_NEWLINE == [' ', '\\'] + ['\n'];
  }

  lemma EmptyCommandBreaks()
    ensures BreaksFrom(Scan(Between, [], []), LAST_NEWLINE + ";") == [0]
  {
    RunTwo(Scan(Between, [], []), ' ', '\\');
    OneBreak(Scan(Between, [], []), [' ', '\\'], ";");
    assert LAST_NEWLINE == [' ', '\\'] + ['\n'];
  }

  lemma {:induction false} BodyBreaks(cmd: seq<Arg>)
    ensures LineBreaks(Body(cmd)) == InnerLFs(cmd)
  {
    if cmd != [] {
      var before := cmd[..|cmd| - 1];
      var st := Scan(Between, [], []);
      BodyBreaks(before);
      match cmd[|cmd| - 1]
      case LF =>
      case Word(w) =>
        var words := Strip(before);
        if words == [] {
          NoBreakYet(before);
          QuoteHasNoBreak([], w);
        } else {
          var n := |words| - 1;
          var bare := Scan(Bare, words[n], Texts(words[..n]));
          var sep := if before[|before| - 1].LF? then NEWLINE_SEPARATOR else " ";
          BodyReadsBack(before);
          SeparatorBreaks(words, "  ");
          SeparatorsDelimit(Texts(words[..n]), words[n]);
          assert NEWLINE_SEPARATOR == LAST_NEWLINE + "  ";
          QuoteHasNoBreak(Texts(words[..n]) + [Text(words[n])], w);
          assert Body(cmd) == Body(before) + sep + Quote(w);
          BreaksConcat(st, Body(before), sep);
          RunConcat(st, Body(before), sep);
          BreaksConcat(st, Body(before) + sep, Quote(w));
        }
    }
  }

  lemma {:induction false} NoBreakYet(cmd: seq<Arg>)
    requires Strip(cmd) == []
    ensures InnerLFs(cmd) == []
  {
    if cmd != [] {
      NoBreakYet(cmd[..|cmd| - 1]);
    }
  }

  lemma CommandBreaks(cmd: seq<Arg>, oneline: bool)
    ensures var layout := Layout(cmd, oneline);
            LineBreaks(CommandText(cmd, oneline))
            == InnerLFs(layout) + if Bracketed(cmd, oneline) then [|Strip(cmd)|] else []
  {
    var layout := Layout(cmd, oneline);
    var st := Scan(Between, [], []);
    var words := Strip(cmd);
    LayoutKeepsWords(cmd, oneline);
    BodyBreaks(layout);
    assert Body(layout) + "" == Body(layout);
    if Bracketed(cmd, oneline) {
      BodyReadsBack(layout);
      BreaksConcat(st, Body(layout), LAST_NEWLINE + ";");
      if words == [] {
        EmptyCommandBreaks();
      } else {
        SeparatorBreaks(words, ";");
      }
    }
  }

  lemma {:induction false} SpacedLFs(cmd: seq<Arg>)
    requires Spaced(cmd)
    ensures cmd != [] ==> Strip(cmd) != []
    ensures LFs(cmd) == InnerLFs(cmd) + if cmd != [] && cmd[|cmd| - 1].LF? then [|Strip(cmd)|] else []
  {
    if cmd != [] {
      var n := |cmd| - 1;
      var before := cmd[..n];
      assert Spaced(before);
      SpacedLFs(before);
      if before != [] {
        assert cmd[n - 1].Word? || cmd[n].Word?;
      }
    }
  }

  lemma {:induction false} InnerLFsRise(cmd: seq<Arg>)
    ensures Rising(InnerLFs(cmd))
    ensures forall i | 0 <= i < |InnerLFs(cmd)| :: InnerLFs(cmd)[i] < |Strip(cmd)|
  {
    if cmd != [] {
      InnerLFsRise(cmd[..|cmd| - 1]);
    }
  }

  lemma {:induction false} RisingIsSpaced(cmd: seq<Arg>)
    requires Rising(LFs(cmd))
    ensures Spaced(cmd)
  {
    if cmd != [] {
      var n := |cmd| - 1;
      var before := cmd[..n];
      var s := LFs(cmd);
      assert LFs(before) == s[..|LFs(before)|];
      RisingIsSpaced(before);
      LastLFCounts(before);
      LastLFCounts(cmd);
    }
  }

  lemma LastLFCounts(cmd: seq<Arg>)
    ensures cmd != [] && cmd[|cmd| - 1].LF? ==> LFs(cmd) != [] && LFs(cmd)[|LFs(cmd)| - 1] == |Strip(cmd)|
  {
  }

  lemma {:induction false} LFsAreCounted(cmd: seq<Arg>)
    ensures |LFs(cmd)| == CountLF(cmd)
  {
    if cmd != [] {
      LFsAreCounted(cmd[..|cmd| - 1]);
    }
  }

  // When LFs were given and the text is neither on one line nor ended by the only LF, it breaks
  // exactly at each LF if and only if no LF comes first, no two are adjacent, and one comes last.
  lemma BreaksAtEachLFIff(cmd: seq<Arg>)
    requires CountLF(cmd) > 0 && Bracketed(cmd, false)
    ensures LineBreaks(CommandText(cmd, false)) == LFs(cmd) <==> Neat(cmd)
  {
    CommandBreaks(cmd, false);
    var breaks := InnerLFs(cmd) + [|Strip(cmd)|];
    if Spaced(cmd) {
      SpacedLFs(cmd);
    } else if breaks == LFs(cmd) {
      if Strip(cmd) == [] {
        LFsAreCounted(cmd);
        NoBreakYet(cmd);
        OnlyLF(cmd);
      } else {
        InnerLFsRise(cmd);
        RisingIsSpaced(cmd);
      }
      assert false;
    }
  }

  lemma OnlyLF(cmd: seq<Arg>)
    requires Strip(cmd) == [] && cmd != []
    ensures cmd[|cmd| - 1].LF?
  {
  }

  // With no LF the text breaks after every word, and only an empty command has a break more.
  lemma BreaksAfterEachWordIff(cmd: seq<Arg>)
    requires CountLF(cmd) == 0
    ensures LineBreaks(CommandText(cmd, false)) == UpTo(|cmd|) <==> cmd != []
  {
    CommandBreaks(cmd, false);
    NewlinesAreUpTo(cmd);
    OneMoreIsUpTo(LineBreaks(CommandText(cmd, false)), |cmd|);
  }

  lemma OneMoreIsUpTo(breaks: seq<nat>, n: nat)
    requires breaks == UpTo(if n == 0 then 0 else n - 1) + [n]
    ensures breaks == UpTo(n) <==> n != 0
  {
    if n == 0 {
      assert |breaks| == 1;
    }
  }

  lemma {:induction false} NewlinesAreUpTo(cmd: seq<Arg>)
    requires CountLF(cmd) == 0
    ensures |Strip(cmd)| == |cmd|
    ensures InnerLFs(WithNewlines(cmd)) == UpTo(if cmd == [] then 0 else |cmd| - 1)
  {
    if cmd != [] {
      var n := |cmd| - 1;
      var w := WithNewlines(cmd[..n]);
      NewlinesAreUpTo(cmd[..n]);
      StripWithNewlines(cmd[..n]);
      assert (w + [cmd[n], LF])[..|w| + 1] == w + [cmd[n]];
      assert (w + [cmd[n]])[..|w|] == w;
    }
  }

  // On one line, or with a single LF at the end, it never breaks.
  lemma OneLineNeverBreaks(cmd: seq<Arg>, oneline: bool)
    requires !Bracketed(cmd, oneline)
    ensures LineBreaks(CommandText(cmd, oneline)) == []
  {
    if !oneline {
      LoneFinalLF(cmd);
    }
    CommandBreaks(cmd, true);
    WordsHaveNoInnerLF(Strip(cmd));
  }

  lemma {:induction false} WordsHaveNoInnerLF(words: seq<string>)
    ensures InnerLFs(Words(words)) == []
  {
    if words != [] {
      assert Words(words)[..|words| - 1] == Words(words[..|words| - 1]);
      WordsHaveNoInnerLF(words[..|words| - 1]);
    }
  }

  // The text ends with a semicolon exactly if it is on several lines.
  lemma FinalSemicolonIff(cmd: seq<Arg>, oneline: bool)
    ensures Tokens(CommandText(cmd, oneline)).Some?
    ensures var tokens := Tokens(CommandText(cmd, oneline)).value;
            tokens != [] && tokens[|tokens| - 1] == Operator(';') <==> LineBreaks(CommandText(cmd, oneline)) != []
  {
    var layout := Layout(cmd, oneline);
    BodyTokens(layout);
    assert Body(layout) + "" == Body(layout);
    if Bracketed(cmd, oneline) {
      CommandBreaks(cmd, oneline);
    } else {
      OneLineNeverBreaks(cmd, oneline);
    }
  }

  // Two words in each of the layouts, letter by letter.
  lemma TwoWords(a: string, b: string)
    ensures CommandText([Word(a), Word(b)], false) == Quote(a) + " \\\n  " + Quote(b) + " \\\n;"
    ensures CommandText([Word(a), LF, Word(b), LF], false) == Quote(a) + " \\\n  " + Quote(b) + " \\\n;"
    ensures CommandText([Word(a), Word(b), LF], false) == Quote(a) + " " + Quote(b)
    ensures CommandText([Word(a), Word(b)], true) == Quote(a) + " " + Quote(b)
  {
    var one := [Word(a)];
    var two, oneLF := one + [Word(b)], one + [LF];
    var twoLF, mixed := two + [LF], oneLF + [Word(b)];
    var all := mixed + [LF];
    assert two == [Word(a), Word(b)] && twoLF == [Word(a), Word(b), LF] && all == [Word(a), LF, Word(b), LF];
    OneWord(a);
    TwoWordsCount(a, b, one, two, oneLF, mixed);
    BodySnoc(one, b);
    BodySnoc(oneLF, b);
    BodySnoc(two, b);
    BodySnoc(mixed, b);
    assert twoLF[..2] == two && all[..3] == mixed;
    TwoWordsPlain(a, b, all);
    assert Body(twoLF) + "" == Body(twoLF) && Body(two) + "" == Body(two);
  }

  lemma OneWord(a: string)
    ensures Body([Word(a)]) == Quote(a) && Strip([Word(a)]) == [a] && CountLF([Word(a)]) == 0
    ensures Body([Word(a), LF]) == Quote(a) && Strip([Word(a), LF]) == [a] && CountLF([Word(a), LF]) == 1
  {
    assert [Word(a)][..0] == [] && [Word(a), LF][..1] == [Word(a)];
    assert Strip([]) == [] && CountLF([]) == 0;
  }

  lemma TwoWordsCount(a: string, b: string, one: seq<Arg>, two: seq<Arg>, oneLF: seq<Arg>, mixed: seq<Arg>)
    requires one == [Word(a)] && oneLF == one + [LF] && two == one + [Word(b)] && mixed == oneLF + [Word(b)]
    ensures Strip(two) == [a, b] && CountLF(two) == 0 && CountLF(mixed) == 1 && Words(Strip(two)) == two
  {
    OneWord(a);
    assert two[..1] == one && mixed[..2] == oneLF && oneLF == [Word(a), LF];
  }

  lemma TwoWordsPlain(a: string, b: string, all: seq<Arg>)
    requires all == [Word(a), LF, Word(b), LF]
    ensures WithNewlines([Word(a), Word(b)]) == all
  {
    assert [Word(a), Word(b)][..1] == [Word(a)] && [Word(a)][..0] == [];
    assert WithNewlines([]) == [];
    assert WithNewlines([Word(a)]) == [Word(a), LF];
  }

  lemma {:induction false} EscapedIsNoShorter(w: string)
    ensures |Escaped(w)| >= |w|
  {
    if w != [] {
      EscapedIsNoShorter(w[..|w| - 1]);
    }
  }

  // A word is left unquoted exactly if it is not empty and has no character that needs quoting.
  lemma UnquotedIff(w: string)
    ensures Quote(w) == w <==> w != [] && forall i | 0 <= i < |w| :: Safe(w[i])
  {
    EscapedIsNoShorter(w);
  }

  // A text that does not break exactly at each LF: the second LF has no effect, and the end of
  // the text breaks where there is no LF.
  lemma AdjacentLFsBreakOnce()
    ensures var cmd := [Word("a"), LF, LF, Word("b")];
            LineBreaks(CommandText(cmd, false)) == [1, 2] && LFs(cmd) == [1, 1]
  {
    AdjacentLFs([Word("a")], [Word("a"), LF], [Word("a"), LF, LF], [Word("a"), LF, LF, Word("b")]);
    CommandBreaks([Word("a"), LF, LF, Word("b")], false);
  }

  lemma AdjacentLFs(a: seq<Arg>, al: seq<Arg>, all: seq<Arg>, cmd: seq<Arg>)
    requires a == [Word("a")] && al == a + [LF] && all == al + [LF] && cmd == all + [Word("b")]
    ensures |Strip(cmd)| == 2 && CountLF(cmd) == 2
    ensures LFs(cmd) == [1, 1] && InnerLFs(cmd) == [1]
  {
    assert a[..0] == [] && al[..1] == a && all[..2] == al && cmd[..3] == all;
    assert Strip(a[..0]) == [] && LFs(a[..0]) == [] && InnerLFs(a[..0]) == [];
    assert |Strip(a)| == 1 && CountLF(a) == 0 && LFs(a) == [] && InnerLFs(a) == [];
    assert |Strip(al)| == 1 && CountLF(al) == 1 && LFs(al) == [1] && InnerLFs(al) == [];
    assert |Strip(all)| == 1 && CountLF(all) == 2 && LFs(all) == [1, 1] && InnerLFs(all) == [];
  }

  // ---- The printer's own steps ----

  function Join(sep: string, lines: seq<string>): string {
    if |lines| == 0 then ""
    else if |lines| == 1 then lines[0]
    else Join(sep, lines[..|lines| - 1]) + sep + lines[|lines| - 1]
  }

  lemma JoinSnoc(sep: string, lines: seq<string>, line: string)
    ensures Join(sep, lines + [line]) == if lines == [] then line else Join(sep, lines) + sep + line
  {
    assert (lines + [line])[..|lines|] == lines;
  }

  // The last line grows by one more word.
  lemma JoinGrow(sep: string, lines: seq<string>, line: string, more: string)
    ensures Join(sep, lines + [line + more]) == Join(sep, lines + [line]) + more
  {
    JoinSnoc(sep, lines, line);
    JoinSnoc(sep, lines, line + more);
    if lines != [] {
      assert Join(sep, lines) + sep + (line + more) == Join(sep, lines) + sep + line + more;
    }
  }

  function Quoted(cmd: seq<Arg>): (q: seq<Arg>)
    ensures |q| == |cmd|
    ensures forall i | 0 <= i < |cmd| :: q[i] == match cmd[i] case Word(w) => Word(Quote(w)) case LF => LF
  {
    seq(|cmd|, i requires 0 <= i < |cmd| => match cmd[i] case Word(w) => Word(Quote(w)) case LF => LF)
  }

  function ForceOneline(force: Option<bool>, byDefault: bool): bool {
    if force.Some? then force.value else byDefault
  }

  method AddNewlines(cmd: seq<Arg>) returns (out: seq<Arg>)
    ensures out == WithNewlines(cmd)
  {
    out := [];
    for i := 0 to |cmd|
      invariant out == WithNewlines(cmd[..i])
    {
      assert cmd[..i + 1][..i] == cmd[..i];
      out := out + [cmd[i], LF];
    }
    assert cmd[..|cmd|] == cmd;
  }

  // The lines made of the first elements of a command, and whether the last one is still open.
  ghost predicate Grouped(cmd: seq<Arg>, lines: seq<string>, open: bool) {
    && (lines == [] <==> Strip(cmd) == [])
    && (open <==> cmd != [] && cmd[|cmd| - 1].Word?)
    && (open ==> lines != [])
    && Join(NEWLINE_SEPARATOR, lines) == Body(cmd)
    && (CountLF(cmd) == 0 ==> (open <==> cmd != []) && |lines| == if cmd == [] then 0 else 1)
  }

  lemma GroupLF(cmd: seq<Arg>, lines: seq<string>, open: bool)
    requires Grouped(cmd, lines, open)
    ensures Grouped(cmd + [LF], lines, false)
  {
    assert (cmd + [LF])[..|cmd|] == cmd;
  }

  lemma ConcatThree(a: string, b: string, c: string)
    ensures a + b + c == a + (b + c)
  {
  }

  lemma SnocCounts(cmd: seq<Arg>, w: string)
    ensures Strip(cmd + [Word(w)]) == Strip(cmd) + [w] && CountLF(cmd + [Word(w)]) == CountLF(cmd)
  {
    assert (cmd + [Word(w)])[..|cmd|] == cmd;
  }

  lemma LastWordStays(cmd: seq<Arg>)
    requires cmd != [] && cmd[|cmd| - 1].Word?
    ensures Strip(cmd) != []
  {
  }

  lemma WordInLine(cmd: seq<Arg>, w: string)
    requires cmd != [] && cmd[|cmd| - 1].Word?
    ensures Body(cmd + [Word(w)]) == Body(cmd) + (" " + Quote(w))
  {
    LastWordStays(cmd);
    BodySnoc(cmd, w);
    ConcatThree(Body(cmd), " ", Quote(w));
  }

  lemma GroupWordInLine(cmd: seq<Arg>, before: seq<string>, line: string, w: string)
    requires Grouped(cmd, before + [line], true)
    ensures Grouped(cmd + [Word(w)], before + [line + (" " + Quote(w))], true)
  {
    JoinGrow(NEWLINE_SEPARATOR, before, line, " " + Quote(w));
    WordInLine(cmd, w);
    SnocCounts(cmd, w);
  }

  lemma GroupWordOnNewLine(cmd: seq<Arg>, lines: seq<string>, w: string)
    requires Grouped(cmd, lines, false)
    ensures Grouped(cmd + [Word(w)], lines + [Quote(w)], true)
  {
    JoinSnoc(NEWLINE_SEPARATOR, lines, Quote(w));
    BodySnoc(cmd, w);
    assert (cmd + [Word(w)])[..|cmd|] == cmd;
  }

  // The runs of words between line feeds, each joined on one line.
  method GroupLines(quoted: seq<Arg>, ghost cmd: seq<Arg>) returns (lines: seq<string>)
    requires quoted == Quoted(cmd)
    ensures Join(NEWLINE_SEPARATOR, lines) == Body(cmd)
    ensures CountLF(cmd) == 0 ==> |lines| <= 1
  {
    lines := [];
    var open := false;
    for i := 0 to |quoted|
      invariant Grouped(cmd[..i], lines, open)
    {
      assert cmd[..i + 1] == cmd[..i] + [cmd[i]];
      if quoted[i].LF? {
        GroupLF(cmd[..i], lines, open);
        open := false;
      } else if open {
        var n := |lines| - 1;
        assert lines == lines[..n] + [lines[n]];
        GroupWordInLine(cmd[..i], lines[..n], lines[n], cmd[i].text);
        lines := lines[..n] + [lines[n] + (" " + quoted[i].text)];
      } else {
        GroupWordOnNewLine(cmd[..i], lines, cmd[i].text);
        lines := lines + [quoted[i].text];
        open := true;
      }
    }
    assert cmd[..|cmd|] == cmd;
  }

  lemma BodySnoc(before: seq<Arg>, w: string)
    ensures Body(before + [Word(w)]) ==
            if Strip(before) == [] then Quote(w)
            else if before[|before| - 1].LF? then Body(before) + NEWLINE_SEPARATOR + Quote(w)
            else Body(before) + " " + Quote(w)
    ensures Body(before + [LF]) == Body(before)
  {
    assert (before + [Word(w)])[..|before|] == before;
    assert (before + [LF])[..|before|] == before;
  }

  lemma EndsWithLF(cmd: seq<Arg>)
    requires cmd != []
    ensures WithNewlines(cmd) == WithNewlines(cmd[..|cmd| - 1]) + [cmd[|cmd| - 1]] + [LF]
  {
    SplitPair(WithNewlines(cmd[..|cmd| - 1]), cmd[|cmd| - 1], LF);
  }

  lemma SplitPair(before: seq<Arg>, a: Arg, b: Arg)
    ensures before + [a, b] == before + [a] + [b]
  {
  }

  lemma BodyOfOneMore(cmd: seq<Arg>)
    requires cmd != [] && cmd[|cmd| - 1].Word? && CountLF(cmd) == 0
    ensures var n := |cmd| - 1;
            Body(WithNewlines(cmd))
            == (if n == 0 then "" else Body(WithNewlines(cmd[..n])) + NEWLINE_SEPARATOR) + Quote(cmd[n].text)
  {
    var n := |cmd| - 1;
    var w := WithNewlines(cmd[..n]);
    EndsWithLF(cmd);
    BodySnoc(w + [cmd[n]], "");
    BodySnoc(w, cmd[n].text);
    StripWithNewlines(cmd[..n]);
    NoLFIsWords(cmd[..n]);
    if n > 0 {
      EndsWithLF(cmd[..n]);
    }
  }

  // The words quoted; on one line the line feeds are dropped.
  function QuoteAll(cmd: seq<Arg>, oneline: bool): seq<Arg> {
    if cmd == [] then []
    else
      QuoteAll(cmd[..|cmd| - 1], oneline)
      + match cmd[|cmd| - 1]
        case Word(w) => [Word(Quote(w))]
        case LF => if oneline then [] else [LF]
  }

  lemma {:induction false} QuoteAllStrips(cmd: seq<Arg>)
    ensures QuoteAll(cmd, true) == Quoted(Words(Strip(cmd)))
  {
    if cmd != [] {
      QuoteAllStrips(cmd[..|cmd| - 1]);
    }
  }

  lemma {:induction false} QuoteAllKeeps(cmd: seq<Arg>)
    ensures QuoteAll(cmd, false) == Quoted(cmd)
  {
    if cmd != [] {
      QuoteAllKeeps(cmd[..|cmd| - 1]);
    }
  }

  method QuoteWords(cmd: seq<Arg>, oneline: bool) returns (quoted: seq<Arg>, newlineCount: nat)
    ensures quoted == QuoteAll(cmd, oneline)
    ensures newlineCount == if oneline then 0 else CountLF(cmd)
  {
    quoted, newlineCount := [], 0;
    for i := 0 to |cmd|
      invariant quoted == QuoteAll(cmd[..i], oneline)
      invariant newlineCount == if oneline then 0 else CountLF(cmd[..i])
    {
      assert cmd[..i + 1][..i] == cmd[..i];
      match cmd[i]
      case LF =>
        if !oneline {
          quoted := quoted + [LF];
          newlineCount := newlineCount + 1;
        }
      case Word(w) =>
        quoted := quoted + [Word(Quote(w))];
    }
    assert cmd[..|cmd|] == cmd;
  }

  method CmdToString(cmd: seq<Arg>, force: Option<bool>, byDefault: bool) returns (text: string)
    ensures text == CommandText(cmd, ForceOneline(force, byDefault))
    ensures force == Some(true) || (force.None? && byDefault) ==> LineBreaks(text) == []
    ensures force == Some(false) || (force.None? && !byDefault) ==> text == CommandText(cmd, false)
  {
    if ForceOneline(force, byDefault) {
      OneLineNeverBreaks(cmd, true);
    }
    var oneline := ForceOneline(force, byDefault);
    var quoted, newlineCount := QuoteWords(cmd, oneline);
    QuoteAllStrips(cmd);
    QuoteAllKeeps(cmd);
    var out: seq<string>;
    if oneline || newlineCount > 0 {
      out := GroupLines(quoted, if oneline then Words(Strip(cmd)) else cmd);
    } else {
      out := PlainLines(quoted, cmd);
    }
    if oneline {
      OnelineHasNoLF(cmd);
      out := [Join(" ", out)];
    }
    var ending := "";
    if !(oneline || (newlineCount == 1 && cmd[|cmd| - 1].LF?)) {
      ending := LAST_NEWLINE + ";";
    }
    text := Join(NEWLINE_SEPARATOR, out) + ending;
  }

  // No LF was given: every word gets its own line.
  method PlainLines(quoted: seq<Arg>, ghost cmd: seq<Arg>) returns (out: seq<string>)
    requires quoted == Quoted(cmd) && CountLF(cmd) == 0
    ensures Join(NEWLINE_SEPARATOR, out) == Body(WithNewlines(cmd))
  {
    out := [];
    for i := 0 to |quoted|
      invariant |out| == i
      invariant Join(NEWLINE_SEPARATOR, out) == Body(WithNewlines(cmd[..i]))
    {
      NoLFInPrefix(cmd, i + 1);
      assert cmd[..i + 1][..i] == cmd[..i];
      BodyOfOneMore(cmd[..i + 1]);
      JoinSnoc(NEWLINE_SEPARATOR, out, quoted[i].text);
      out := out + [quoted[i].text];
    }
    assert cmd[..|cmd|] == cmd;
  }

  lemma NoLFInPrefix(cmd: seq<Arg>, i: nat)
    requires CountLF(cmd) == 0 && i <= |cmd|
    ensures CountLF(cmd[..i]) == 0
    ensures forall j | 0 <= j < i :: cmd[j].Word?
  {
    NoLFIsWords(cmd);
    var words := Strip(cmd);
    assert cmd[..i] == Words(words[..i]);
    WordsHaveNoLF(words[..i]);
  }

  lemma OnelineHasNoLF(cmd: seq<Arg>)
    ensures CountLF(Words(Strip(cmd))) == 0
  {
    WordsHaveNoLF(Strip(cmd));
  }

  lemma {:induction false} WordsHaveNoLF(words: seq<string>)
    ensures CountLF(Words(words)) == 0
  {
    if words != [] {
      assert Words(words)[..|words| - 1] == Words(words[..|words| - 1]);
      WordsHaveNoLF(words[..|words| - 1]);
    }
  }
}
