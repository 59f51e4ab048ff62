/** One configuration line: splitting it into arguments and quoting an argument so
    that it survives the splitting. */
module ConfigLine {
  import opened Filters

  predicate IsSpace(c: char) {
    c == ' ' || c == '\t' || c == '\n' || c == '\U{0B}' || c == '\U{0C}' || c == '\r'
  }

  predicate IsMark(c: char) {
    c == '\'' || c == '"'
  }

  function DecodeEscape(escaped: char): char {
    match escaped
    case 'n' => '\n'
    case 'r' => '\r'
    case 't' => '\t'
    case 'b' => '\U{08}'
    case 'a' => '\U{07}'
    case _ => escaped
  }

  /** How an argument is written: up to a space or comment, or up to its mark. */
  datatype Style = Bare | Quoted(mark: char)

  predicate Ends(style: Style, c: char) {
    match style
    case Bare => IsSpace(c) || c == '#'
    case Quoted(mark) => c == mark
  }

  predicate Boundary(rest: string) {
    rest == "" || IsSpace(rest[0]) || rest[0] == '#'
  }

  // ----- splitting

  datatype Piece = Piece(text: string, rest: string, closed: bool)

  /** An escape takes two characters, unless the line ends after its backslash. */
  function Width(line: string): (w: nat)
    requires line != ""
    ensures 1 <= w <= |line|
  {
    if line[0] == '\\' && |line| > 1 then 2 else 1
  }

  function Decoded(line: string): char
    requires line != ""
  {
    if Width(line) == 2 then DecodeEscape(line[1]) else line[0]
  }

  /** The argument at the front of `line`, escapes decoded, and what follows it. */
  function Scan(line: string, style: Style): (p: Piece)
    ensures |p.rest| <= |line|
    ensures line != "" && !Ends(style, line[0]) ==> |p.rest| < |line|
  {
    if line == "" then Piece("", "", style.Bare?)
    else if Ends(style, line[0]) then Piece("", if style.Bare? then line else line[1..], true)
    else After([Decoded(line)], Scan(line[Width(line)..], style))
  }

  function After(token: string, p: Piece): Piece {
    p.(text := token + p.text)
  }

  datatype LineError = UnterminatedQuote | MissingGap

  datatype Line = Tokens(tokens: seq<string>) | Malformed(error: LineError)

  function Prefixed(tokens: seq<string>, line: Line): Line {
    match line
    case Tokens(more) => Tokens(tokens + more)
    case Malformed(_) => line
  }

  function StyleAt(line: string): Style
    requires line != ""
  {
    StyleFrom(line[0])
  }

  function Body(line: string): string
    requires line != ""
  {
    if IsMark(line[0]) then line[1..] else line
  }

  function Tokenize(line: string): (r: Line)
    decreases |line|
  {
    if line == "" || line[0] == '#' then Tokens([])
    else if IsSpace(line[0]) then Tokenize(line[1..])
    else
      var style := StyleAt(line);
      var p := Scan(Body(line), style);
      if !p.closed then Malformed(UnterminatedQuote)
      else if style.Quoted? && !Boundary(p.rest) then Malformed(MissingGap)
      else Prefixed([p.text], Tokenize(p.rest))
  }

  function StyleFrom(c: char): Style {
    if IsMark(c) then Quoted(c) else Bare
  }

  lemma TokenizeSpace(line: string, at: nat)
    requires at < |line| && IsSpace(line[at])
    ensures Tokenize(line[at..]) == Tokenize(line[at + 1..])
  {
    assert line[at..][1..] == line[at + 1..];
  }

  lemma TokenizeArgument(line: string, at: nat, style: Style, start: nat, f: Found)
    requires at < |line| && !IsSpace(line[at]) && line[at] != '#'
    requires style == StyleFrom(line[at]) && start == (if style.Quoted? then at + 1 else at)
    requires f == ScanAt(line, start, style)
    ensures at < f.next
    ensures Tokenize(line[at..]) ==
            if !f.closed then Malformed(UnterminatedQuote)
            else if style.Quoted? && f.next < |line| && !IsSpace(line[f.next]) && line[f.next] != '#'
            then Malformed(MissingGap)
            else Prefixed([f.token], Tokenize(line[f.next..]))
  {
    ScanByPosition(line, start, style);
    assert Body(line[at..]) == line[start..];
  }

  method ParseRedisConfigLine(line: string) returns (r: Line)
    ensures r == Tokenize(line)
  {
    var result: seq<string> := [];
    var position := 0;
    assert line[0..] == line;
    while position < |line|
      invariant 0 <= position <= |line|
      invariant Tokenize(line) == Prefixed(result, Tokenize(line[position..]))
      decreases |line| - position
    {
      ghost var before := position;
      while position < |line| && IsSpace(line[position])
        invariant before <= position <= |line|
        invariant Tokenize(line) == Prefixed(result, Tokenize(line[position..]))
      {
        TokenizeSpace(line, position);
        position := position + 1;
      }
      if position == |line| || line[position] == '#' { break; }
      var style := StyleFrom(line[position]);
      var start := if style.Quoted? then position + 1 else position;
      var token, next, closed := ScanArgument(line, start, style);
      TokenizeArgument(line, position, style, start, Found(token, next, closed));
      if !closed { return Malformed(UnterminatedQuote); }
      if style.Quoted? && next < |line| && !IsSpace(line[next]) && line[next] != '#' {
        return Malformed(MissingGap);
      }
      PrefixedTwice(result, [token], Tokenize(line[next..]));
      result := result + [token];
      position := next;
      if position < |line| && line[position] == '#' { break; }
    }
    NothingLeft(line, position, result);
    r := Tokens(result);
  }

  lemma NothingLeft(line: string, at: nat, result: seq<string>)
    requires at <= |line| && (at == |line| || line[at] == '#')
    ensures Prefixed(result, Tokenize(line[at..])) == Tokens(result)
  {
    assert result + [] == result;
  }

  lemma PrefixedTwice(front: seq<string>, more: seq<string>, line: Line)
    ensures Prefixed(front, Prefixed(more, line)) == Prefixed(front + more, line)
  {
    if line.Tokens? {
      assert front + (more + line.tokens) == front + more + line.tokens;
    }
  }

  function WidthAt(line: string, at: nat): (w: nat)
    requires at < |line|
    ensures 1 <= w <= |line| - at
  {
    if line[at] == '\\' && at + 1 < |line| then 2 else 1
  }

  function DecodedAt(line: string, at: nat): char
    requires at < |line|
  {
    if WidthAt(line, at) == 2 then DecodeEscape(line[at + 1]) else line[at]
  }

  datatype Found = Found(token: string, next: nat, closed: bool)

  /** The same argument, by position in the line. */
  ghost function ScanAt(line: string, at: nat, style: Style): (f: Found)
    requires at <= |line|
    ensures f.next <= |line|
    decreases |line| - at
  {
    if at == |line| then Found("", at, style.Bare?)
    else if Ends(style, line[at]) then Found("", if style.Bare? then at else at + 1, true)
    else
      var f := ScanAt(line, at + WidthAt(line, at), style);
      f.(token := [DecodedAt(line, at)] + f.token)
  }

  lemma {:induction false} ScanByPosition(line: string, at: nat, style: Style)
    requires at <= |line|
    ensures var f := ScanAt(line, at, style);
            Scan(line[at..], style) == Piece(f.token, line[f.next..], f.closed)
    decreases |line| - at
  {
    if at < |line| {
      if Ends(style, line[at]) {
        assert line[at..][1..] == line[at + 1..];
      } else {
        ScanByPosition(line, at + WidthAt(line, at), style);
        ScanOneMore(line, at, style);
      }
    }
  }

  lemma ScanOneMore(line: string, at: nat, style: Style)
    requires at < |line| && !Ends(style, line[at])
    ensures Scan(line[at..], style) == After([DecodedAt(line, at)], Scan(line[at + WidthAt(line, at)..], style))
  {
    var w := WidthAt(line, at);
    assert line[at..][w..] == line[at + w..];
    assert w == Width(line[at..]) && DecodedAt(line, at) == Decoded(line[at..]);
  }

  /** The inner loop: one argument, from its first character. */
  method ScanArgument(line: string, start: nat, style: Style) returns (token: string, next: nat, closed: bool)
    requires start <= |line|
    ensures Found(token, next, closed) == ScanAt(line, start, style)
  {
    token, next, closed := "", start, style.Bare?;
    while next < |line|
      invariant next <= |line| && closed == style.Bare?
      invariant var f := ScanAt(line, next, style); ScanAt(line, start, style) == f.(token := token + f.token)
    {
      var current := line[next];
      if style.Quoted? {
        if current == style.mark {
          next, closed := next + 1, true;
          break;
        }
      } else if IsSpace(current) || current == '#' {
        break;
      }
      Associates(token, [DecodedAt(line, next)], ScanAt(line, next + WidthAt(line, next), style).token);
      if current == '\\' && next + 1 < |line| {
        token := token + [DecodeEscape(line[next + 1])];
        next := next + 2;
      } else {
        token := token + [current];
        next := next + 1;
      }
    }
  }

  // ----- the written form of a line, and that splitting inverts it exactly

  /** `text` writes `token`: each character as itself or escaped. A final lone
      backslash stands for itself when the line ends there. */
  ghost predicate Spells(style: Style, text: string, token: string, last: bool) {
    if text == "" then token == ""
    else
      && token != "" && !Ends(style, text[0])
      && (text == "\\" ==> last)
      && token[0] == Decoded(text) && Spells(style, text[Width(text)..], token[1..], last)
  }

  function Open(style: Style): string {
    match style case Bare => "" case Quoted(mark) => [mark]
  }

  datatype Word = Word(lead: string, style: Style, text: string, token: string)

  ghost function Written(words: seq<Word>, tail: string): string {
    if words == [] then tail
    else
      var w := words[0];
      w.lead + (Open(w.style) + (w.text + (Open(w.style) + Written(words[1..], tail))))
  }

  ghost predicate AllSpace(s: string) {
    forall i :: 0 <= i < |s| ==> IsSpace(s[i])
  }

  /** Spaces, then perhaps a comment. */
  ghost predicate Trailer(tail: string) {
    exists n: nat :: n <= |tail| && AllSpace(tail[..n]) && (n == |tail| || tail[n] == '#')
  }

  ghost predicate WordOk(w: Word, rest: string) {
    && AllSpace(w.lead) && Boundary(rest)
    && Spells(w.style, w.text, w.token, w.style.Bare? && rest == "")
    && match w.style
       case Bare => w.text != "" && !IsMark(w.text[0])
       case Quoted(mark) => IsMark(mark)
  }

  ghost predicate WellWritten(words: seq<Word>, tail: string) {
    if words == [] then Trailer(tail)
    else WordOk(words[0], Written(words[1..], tail)) && WellWritten(words[1..], tail)
  }

  ghost function TokensOf(words: seq<Word>): seq<string> {
    seq(|words|, i requires 0 <= i < |words| => words[i].token)
  }

  lemma {:induction false} ScanReadsSpelling(style: Style, text: string, token: string, rest: string)
    requires Spells(style, text, token, style.Bare? && rest == "")
    requires style.Bare? ==> Boundary(rest)
    requires style.Quoted? ==> IsMark(style.mark)
    ensures Scan(text + (Open(style) + rest), style) == Piece(token, rest, true)
    decreases |text|
  {
    var line := text + (Open(style) + rest);
    if text == "" {
      assert line == Open(style) + rest;
      if style.Quoted? { assert line[1..] == rest; }
    } else {
      var w := Width(text);
      assert text == "\\" ==> line == text;
      assert line[w..] == text[w..] + (Open(style) + rest);
      ScanReadsSpelling(style, text[w..], token[1..], rest);
      assert token == [token[0]] + token[1..];
    }
  }

  lemma {:induction false} ScanIsSpelling(line: string, style: Style) returns (text: string)
    requires Scan(line, style).closed
    ensures var p := Scan(line, style);
            line == text + (Open(style) + p.rest) &&
            Spells(style, text, p.text, style.Bare? && p.rest == "") && (style.Bare? ==> Boundary(p.rest))
    decreases |line|
  {
    var p := Scan(line, style);
    if line == "" || Ends(style, line[0]) {
      text := "";
      if style.Quoted? { assert line == [style.mark] + line[1..]; }
    } else {
      var w := Width(line);
      var inner := ScanIsSpelling(line[w..], style);
      text := line[..w] + inner;
      SpellsOneMore(style, line[..w], inner, Scan(line[w..], style).text, style.Bare? && p.rest == "");
      JoinFirst(line, w, inner, Open(style) + p.rest);
    }
  }

  lemma JoinFirst(line: string, w: nat, inner: string, rest: string)
    requires w <= |line| && line[w..] == inner + rest
    ensures line == line[..w] + inner + rest
  {
    assert line == line[..w] + line[w..];
  }

  lemma SpellsOneMore(style: Style, head: string, text: string, token: string, last: bool)
    requires head != "" && |head| == Width(head) && !Ends(style, head[0])
    requires head == "\\" ==> last && text == ""
    requires Spells(style, text, token, last)
    ensures Spells(style, head + text, [Decoded(head)] + token, last)
  {
    assert (head + text)[|head|..] == text && ([Decoded(head)] + token)[1..] == token;
  }

  lemma {:induction false} SpacesVanish(lead: string, rest: string)
    requires AllSpace(lead)
    ensures Tokenize(lead + rest) == Tokenize(rest)
    decreases |lead|
  {
    if lead == "" {
      assert lead + rest == rest;
    } else {
      assert lead + rest == [lead[0]] + (lead[1..] + rest);
      SpaceVanishes(lead[0], lead[1..] + rest);
      SpacesVanish(lead[1..], rest);
    }
  }

  lemma SpaceVanishes(c: char, rest: string)
    requires IsSpace(c)
    ensures Tokenize([c] + rest) == Tokenize(rest)
  {
    assert ([c] + rest)[1..] == rest;
  }

  lemma TrailerIsEmpty(tail: string)
    requires Trailer(tail)
    ensures Tokenize(tail) == Tokens([])
  {
    var n: nat :| n <= |tail| && AllSpace(tail[..n]) && (n == |tail| || tail[n] == '#');
    SpacesVanish(tail[..n], tail[n..]);
    assert tail == tail[..n] + tail[n..];
  }

  lemma WordReads(w: Word, rest: string)
    requires WordOk(w, rest)
    ensures Tokenize(w.lead + (Open(w.style) + (w.text + (Open(w.style) + rest))))
         == Prefixed([w.token], Tokenize(rest))
  {
    var inner := w.text + (Open(w.style) + rest);
    SpacesVanish(w.lead, Open(w.style) + inner);
    ScanReadsSpelling(w.style, w.text, w.token, rest);
    WordStarts(w, rest, inner);
    TokenReads(Open(w.style) + inner, w.style, w.token, rest);
  }

  lemma WordStarts(w: Word, rest: string, inner: string)
    requires WordOk(w, rest) && inner == w.text + (Open(w.style) + rest)
    ensures var line := Open(w.style) + inner;
            line != "" && !IsSpace(line[0]) && line[0] != '#' && StyleAt(line) == w.style && Body(line) == inner
  {
    if w.style.Bare? { assert Open(w.style) + inner == inner; }
  }

  lemma TokenReads(line: string, style: Style, token: string, rest: string)
    requires line != "" && !IsSpace(line[0]) && line[0] != '#' && Boundary(rest)
    requires StyleAt(line) == style && Scan(Body(line), style) == Piece(token, rest, true)
    ensures Tokenize(line) == Prefixed([token], Tokenize(rest))
  {
  }

  /** Arguments in any style, any spacing and any comment read back as themselves. */
  lemma {:induction false} WrittenLineReads(words: seq<Word>, tail: string)
    requires WellWritten(words, tail)
    ensures Tokenize(Written(words, tail)) == Tokens(TokensOf(words))
    decreases |words|
  {
    if words == [] {
      TrailerIsEmpty(tail);
    } else {
      WrittenLineReads(words[1..], tail);
      WordReads(words[0], Written(words[1..], tail));
      assert TokensOf(words) == [words[0].token] + TokensOf(words[1..]);
    }
  }

  /** And every line that is accepted is such a written form of its arguments. */
  lemma {:induction false} AcceptedLineIsWritten(line: string) returns (words: seq<Word>, tail: string)
    requires Tokenize(line).Tokens?
    ensures WellWritten(words, tail) && Written(words, tail) == line
    ensures Tokenize(line) == Tokens(TokensOf(words))
    decreases |line|
  {
    if line == "" || line[0] == '#' {
      words, tail := [], line;
      assert AllSpace(tail[..0]);
    } else if IsSpace(line[0]) {
      words, tail := AcceptedLineIsWritten(line[1..]);
      words, tail := SpaceInFront(line[0], words, tail);
      assert line == [line[0]] + line[1..];
    } else {
      var w, rest := FirstWord(line);
      words, tail := AcceptedLineIsWritten(rest);
      words := WordInFront(w, words, tail);
    }
  }

  lemma FirstWord(line: string) returns (w: Word, rest: string)
    requires line != "" && !IsSpace(line[0]) && line[0] != '#' && Tokenize(line).Tokens?
    ensures WordOk(w, rest) && |rest| < |line|
    ensures line == w.lead + (Open(w.style) + (w.text + (Open(w.style) + rest)))
    ensures Tokenize(line) == Prefixed([w.token], Tokenize(rest))
  {
    var style := StyleAt(line);
    var p := Scan(Body(line), style);
    var text := ScanIsSpelling(Body(line), style);
    w, rest := Word("", style, text, p.text), p.rest;
    assert line == Open(style) + Body(line);
  }

  lemma WordInFront(w: Word, words: seq<Word>, tail: string) returns (words': seq<Word>)
    requires WordOk(w, Written(words, tail)) && WellWritten(words, tail)
    ensures WellWritten(words', tail) && TokensOf(words') == [w.token] + TokensOf(words)
    ensures Written(words', tail) == w.lead + (Open(w.style) + (w.text + (Open(w.style) + Written(words, tail))))
  {
    words' := [w] + words;
    assert words'[1..] == words;
  }

  lemma SpaceInFront(c: char, words: seq<Word>, tail: string) returns (words': seq<Word>, tail': string)
    requires IsSpace(c) && WellWritten(words, tail)
    ensures WellWritten(words', tail') && Written(words', tail') == [c] + Written(words, tail)
    ensures TokensOf(words') == TokensOf(words)
  {
    if words == [] {
      words', tail' := [], [c] + tail;
      var n: nat :| n <= |tail| && AllSpace(tail[..n]) && (n == |tail| || tail[n] == '#');
      assert tail'[..n + 1] == [c] + tail[..n];
      assert AllSpace(tail'[..n + 1]);
    } else {
      words', tail' := [words[0].(lead := [c] + words[0].lead)] + words[1..], tail;
      assert words'[1..] == words[1..];
      var rest := Open(words[0].style) + (words[0].text + (Open(words[0].style) + Written(words[1..], tail)));
      assert ([c] + words[0].lead) + rest == [c] + (words[0].lead + rest);
    }
  }

  // ----- quoting

  function EscapeChar(c: char): string {
    match c
    case '\\' => "\\\\"
    case '"' => "\\\""
    case '\n' => "\\n"
    case '\r' => "\\r"
    case '\t' => "\\t"
    case _ => [c]
  }

  function Escaped(value: string): string {
    if value == "" then "" else EscapeChar(value[0]) + Escaped(value[1..])
  }

  function Quote(value: string): string {
    "\"" + (Escaped(value) + "\"")
  }

  ghost predicate OneLine(s: string) {
    forall i :: 0 <= i < |s| ==> s[i] != '\n' && s[i] != '\r' && s[i] != '\t'
  }

  method QuoteRedisConfigArgument(value: string) returns (quoted: string)
    ensures quoted == Quote(value) && OneLine(quoted)
  {
    quoted := "\"";
    for i := 0 to |value|
      invariant quoted + Escaped(value[i..]) == "\"" + Escaped(value)
    {
      Associates(quoted, EscapeChar(value[i]), Escaped(value[i + 1..]));
      assert value[i..][1..] == value[i + 1..];
      quoted := quoted + EscapeChar(value[i]);
    }
    assert quoted + "" == quoted;
    Associates("\"", Escaped(value), "\"");
    quoted := quoted + "\"";
    EscapedIsOneLine(value);
  }

  /** No line break or tab is left in a quoted argument. */
  lemma {:induction false} EscapedIsOneLine(value: string)
    ensures OneLine(Escaped(value)) && OneLine(Quote(value))
    decreases |value|
  {
    if value != "" {
      EscapedIsOneLine(value[1..]);
      assert OneLine(EscapeChar(value[0]));
    }
  }

  lemma {:induction false} EscapedSpells(value: string)
    ensures Spells(Quoted('"'), Escaped(value), value, false)
    decreases |value|
  {
    if value != "" {
      EscapedSpells(value[1..]);
      EscapedCharSpells(value[0], Escaped(value[1..]), value[1..]);
      assert value == [value[0]] + value[1..];
    }
  }

  lemma EscapedCharSpells(c: char, text: string, token: string)
    requires Spells(Quoted('"'), text, token, false)
    ensures Spells(Quoted('"'), EscapeChar(c) + text, [c] + token, false)
  {
    SpellsOneMore(Quoted('"'), EscapeChar(c), text, token, false);
  }

  ghost function QuotedWord(lead: string, value: string): Word {
    Word(lead, Quoted('"'), Escaped(value), value)
  }

  ghost function QuotedWords(values: seq<string>): seq<Word> {
    seq(|values|, i requires 0 <= i < |values| => QuotedWord(" ", values[i]))
  }

  ghost function QuotedArguments(values: seq<string>): string {
    if values == [] then "" else " " + (Quote(values[0]) + QuotedArguments(values[1..]))
  }

  lemma QuoteThen(value: string, rest: string)
    ensures "\"" + (Escaped(value) + ("\"" + rest)) == Quote(value) + rest
  {
  }

  lemma {:induction false} QuotedArgumentsAreWritten(values: seq<string>)
    ensures WellWritten(QuotedWords(values), "")
    ensures Written(QuotedWords(values), "") == QuotedArguments(values)
    ensures TokensOf(QuotedWords(values)) == values
    decreases |values|
  {
    if values == [] {
      assert AllSpace(""[..0]);
    } else {
      QuotedArgumentsAreWritten(values[1..]);
      assert QuotedWords(values)[1..] == QuotedWords(values[1..]);
      EscapedSpells(values[0]);
      QuoteThen(values[0], QuotedArguments(values[1..]));
    }
  }

  /** Whatever the arguments hold, quoting them and splitting the line gives them
      back. */
  lemma QuotedLineReadsBack(values: seq<string>)
    ensures Tokenize(QuotedArguments(values)) == Tokens(values)
  {
    QuotedArgumentsAreWritten(values);
    WrittenLineReads(QuotedWords(values), "");
  }

  lemma QuoteReadsBack(value: string)
    ensures Tokenize(Quote(value)) == Tokens([value])
  {
    QuotedLineReadsBack([value]);
    SpacesVanish(" ", Quote(value) + "");
    assert Quote(value) + "" == Quote(value);
    assert QuotedArguments([value]) == " " + (Quote(value) + "");
  }
}
