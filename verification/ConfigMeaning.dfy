/** What a rewritten configuration file says. */
module ConfigMeaning {
  import opened ConfigLine
  import opened ConfigRewrite
  import opened Decimal
  import opened Filters

  // ----- the generated lines

  ghost predicate Plain(s: string) {
    forall i :: 0 <= i < |s| ==>
      !IsSpace(s[i]) && s[i] != '#' && s[i] != '\\' && !IsMark(s[i]) && LowerChar(s[i]) == s[i]
  }

  lemma {:induction false} PlainSpellsItself(s: string, last: bool)
    requires Plain(s)
    ensures Spells(Bare, s, s, last)
  {
    if s != "" {
      assert Plain(s[1..]);
      PlainSpellsItself(s[1..], last);
      assert Width(s) == 1;
    }
  }

  lemma PlainIsLower(s: string)
    requires Plain(s)
    ensures Lower(s) == s && NoBreak(s)
  {
  }

  ghost function PlainWord(lead: string, s: string): Word {
    Word(lead, Bare, s, s)
  }

  lemma PrintIsPlain(n: nat)
    ensures Plain(Print(n))
  {
    var s := Print(n);
    forall i | 0 <= i < |s|
      ensures !IsSpace(s[i]) && s[i] != '#' && s[i] != '\\' && !IsMark(s[i]) && LowerChar(s[i]) == s[i]
    {
      assert IsDigit(s[i]);
    }
  }

  lemma NamesArePlain()
    ensures Plain("replicaof") && Plain("redis-replicaof") && Plain("replica-priority")
  {
  }

  lemma PriorityLineReads(priority: nat)
    ensures Tokenize(PriorityLine(priority)) == Tokens(["replica-priority", Print(priority)])
  {
    NamesArePlain();
    TwoPlainWords("replica-priority", Print(priority), priority);
  }

  lemma LastWord(n: nat)
    ensures WellWritten([PlainWord(" ", Print(n))], "")
    ensures Written([PlainWord(" ", Print(n))], "") == " " + Print(n)
  {
    PrintIsPlain(n);
    PlainSpellsItself(Print(n), true);
    var words := [PlainWord(" ", Print(n))];
    assert words[1..] == [] && AllSpace(""[..0]);
    assert Print(n) + "" == Print(n);
    assert "" + (Print(n) + ("" + "")) == Print(n);
  }

  lemma TwoPlainWords(name: string, digits: string, n: nat)
    requires name != "" && Plain(name) && digits == Print(n)
    ensures Tokenize(name + (" " + digits)) == Tokens([name, digits])
  {
    LastWord(n);
    PlainSpellsItself(name, false);
    var last := [PlainWord(" ", digits)];
    var words := [PlainWord("", name)] + last;
    assert words[1..] == last;
    FrontWord(name, " " + digits);
    WrittenLineReads(words, "");
    assert TokensOf(words) == [name, digits];
  }

  lemma FrontWord(name: string, rest: string)
    ensures "" + ("" + (name + ("" + rest))) == name + rest
  {
    assert "" + rest == rest;
  }

  /** Any host text, name and port: the generated line reads as exactly these three. */
  lemma UpstreamLineReads(name: string, host: string, port: nat)
    requires name != "" && Plain(name)
    ensures Tokenize(UpstreamLine(name, host, port)) == Tokens([name, host, Print(port)])
  {
    LastWord(port);
    PlainSpellsItself(name, false);
    EscapedSpells(host);
    var last := [PlainWord(" ", Print(port))];
    var two := [QuotedWord(" ", host)] + last;
    var words := [PlainWord("", name)] + two;
    assert two[1..] == last && words[1..] == two;
    QuoteThen(host, " " + Print(port));
    FrontWord(name, " " + (Quote(host) + (" " + Print(port))));
    WrittenLineReads(words, "");
    assert TokensOf(words) == [name, host, Print(port)];
  }

  lemma HeaderReads()
    ensures Tokenize(HEADER) == Tokens([]) && NoBreak(HEADER)
  {
  }

  lemma UpstreamLineIsOneLine(name: string, host: string, port: nat)
    requires NoBreak(name)
    ensures NoBreak(UpstreamLine(name, host, port))
  {
    EscapedIsOneLine(host);
    PrintIsPlain(port);
    NoBreakJoin(" ", Print(port));
    NoBreakJoin(Quote(host), " " + Print(port));
    NoBreakJoin(" ", Quote(host) + (" " + Print(port)));
    NoBreakJoin(name, " " + (Quote(host) + (" " + Print(port))));
  }

  lemma NoBreakJoin(a: string, b: string)
    requires NoBreak(a) && NoBreak(b)
    ensures NoBreak(a + b)
  {
  }

  ghost function GeneratedDirectives(s: Settings): seq<seq<string>> {
    (match s.upstream
     case NoUpstream => []
     case ReplicaOf(host, port) => [[UpstreamName(s.redisUpstream), host, Print(port)]])
    + [["replica-priority", Print(s.replicaPriority)]]
  }

  ghost predicate AllManaged(lines: seq<string>) {
    forall i :: 0 <= i < |lines| ==> Managed(lines[i])
  }

  lemma GeneratedLineOk(line: string, directive: seq<string>)
    requires Tokenize(line) == Tokens(directive) && directive != [] && ManagedName(directive[0]) && Plain(directive[0])
    ensures Readable([line]) && AllManaged([line]) && Directives([line]) == [directive]
  {
    PlainIsLower(directive[0]);
    assert [line][1..] == [];
  }

  lemma LastGeneratedLine(n: nat)
    ensures NoBreak(PriorityLine(n)) && Readable([PriorityLine(n)]) && AllManaged([PriorityLine(n)])
    ensures Directives([PriorityLine(n)]) == [["replica-priority", Print(n)]]
  {
    NamesArePlain();
    PriorityLineReads(n);
    PrintIsPlain(n);
    NoBreakJoin("replica-priority", " " + Print(n));
    GeneratedLineOk(PriorityLine(n), ["replica-priority", Print(n)]);
  }

  lemma FirstGeneratedLines(s: Settings, lines: seq<string>)
    requires lines == [HEADER] + match s.upstream
                                 case NoUpstream => []
                                 case ReplicaOf(host, port) => [UpstreamLine(UpstreamName(s.redisUpstream), host, port)]
    ensures AllNoBreak(lines) && Readable(lines) && AllManaged(lines)
    ensures Directives(lines) == match s.upstream
                                 case NoUpstream => []
                                 case ReplicaOf(host, port) => [[UpstreamName(s.redisUpstream), host, Print(port)]]
  {
    NamesArePlain();
    HeaderReads();
    OneDirective(HEADER);
    match s.upstream
    case NoUpstream =>
      assert lines == [HEADER];
    case ReplicaOf(host, port) =>
      var name := UpstreamName(s.redisUpstream);
      var line := UpstreamLine(name, host, port);
      UpstreamLineReads(name, host, port);
      UpstreamLineIsOneLine(name, host, port);
      GeneratedLineOk(line, [name, host, Print(port)]);
      DirectivesAppend([HEADER], [line]);
  }

  lemma GeneratedReads(s: Settings)
    ensures AllNoBreak(Generated(s)) && Readable(Generated(s)) && AllManaged(Generated(s))
    ensures Directives(Generated(s)) == GeneratedDirectives(s)
  {
    var last := [PriorityLine(s.replicaPriority)];
    var first := Generated(s)[..|Generated(s)| - 1];
    assert Generated(s) == first + last;
    LastGeneratedLine(s.replicaPriority);
    FirstGeneratedLines(s, first);
    DirectivesAppend(first, last);
  }

  // ----- directives of kept and trimmed lines

  lemma {:induction false} DirectivesAppend(a: seq<string>, b: seq<string>)
    requires Readable(a) && Readable(b)
    ensures Readable(a + b) && Directives(a + b) == Directives(a) + Directives(b)
  {
    if a == [] {
      assert a + b == b;
    } else {
      DirectivesAppend(a[1..], b);
      assert (a + b)[1..] == a[1..] + b;
    }
  }

  /** Dropping the managed lines is dropping the managed directives. */
  lemma {:induction false} KeptDirectives(lines: seq<string>)
    requires Readable(lines)
    ensures Readable(Kept(lines)) && Directives(Kept(lines)) == Unmanaged(Directives(lines))
  {
    if lines != [] {
      var first, rest := lines[0], lines[1..];
      KeptDirectives(rest);
      HeaderReads();
      OneDirective(first);
      var d := Tokenize(first).tokens;
      assert Directives(lines) == if d == [] then Directives(rest) else [d] + Directives(rest);
      if d != [] { assert Directives(lines)[1..] == Directives(rest); }
      if Managed(first) {
        assert Kept(lines) == Kept(rest);
      } else {
        DirectivesAppend([first], Kept(rest));
      }
    }
  }

  lemma OneDirective(line: string)
    requires Tokenize(line).Tokens?
    ensures Readable([line])
    ensures Directives([line]) == if Tokenize(line).tokens == [] then [] else [Tokenize(line).tokens]
  {
    assert [line][1..] == [];
  }

  lemma {:induction false} TrimmedDirectives(lines: seq<string>)
    requires Readable(lines)
    ensures Readable(Trimmed(lines)) && Directives(Trimmed(lines)) == Directives(lines)
    decreases |lines|
  {
    if lines != [] && lines[|lines| - 1] == "" {
      var front := lines[..|lines| - 1];
      TrimmedDirectives(front);
      OneDirective("");
      DirectivesAppend(front, [""]);
      assert lines == front + [""];
    }
  }

  lemma SeparatedDirectives(lines: seq<string>)
    requires Readable(lines)
    ensures Readable(Separated(lines)) && Directives(Separated(lines)) == Directives(lines)
  {
    OneDirective("");
    DirectivesAppend(lines, [""]);
  }

  lemma {:induction false} TrimmedIsPrefix(lines: seq<string>)
    ensures Trimmed(lines) <= lines && Trimmed(Trimmed(lines)) == Trimmed(lines)
    decreases |lines|
  {
    if lines != [] && lines[|lines| - 1] == "" { TrimmedIsPrefix(lines[..|lines| - 1]); }
  }

  lemma RewrittenLinesReadBack(lines: seq<string>, s: Settings)
    requires AllNoBreak(lines)
    ensures Lines(Text(RewrittenLines(lines, s))) == RewrittenLines(lines, s)
  {
    KeptIsPart(lines);
    TrimmedIsPrefix(Kept(lines));
    GeneratedReads(s);
    TextReadsBack(RewrittenLines(lines, s));
  }

  // ----- the theorems

  /** A rewrite succeeds exactly when every line splits; otherwise it names the
      first line that does not. */
  lemma RewriteFailsAtFirstBadLine(text: string, s: Settings)
    ensures Rewrite(text, s).File? <==> Readable(Lines(text))
    ensures Rewrite(text, s).BadLine? ==>
              var n := Rewrite(text, s).number;
              1 <= n <= |Lines(text)| && Readable(Lines(text)[..n - 1]) &&
              Tokenize(Lines(text)[n - 1]) == Malformed(Rewrite(text, s).error)
  {
    var lines := Lines(text);
    assert lines[..|lines|] == lines;
  }

  /** The rewritten file says what the original said, minus the managed directives,
      followed by the generated ones. */
  lemma RewritePreservesMeaning(text: string, s: Settings)
    requires Readable(Lines(text))
    ensures Rewrite(text, s).File? && Readable(Lines(Rewrite(text, s).text))
    ensures Directives(Lines(Rewrite(text, s).text))
         == Unmanaged(Directives(Lines(text))) + GeneratedDirectives(s)
  {
    var lines := Lines(text);
    LinesHaveNoBreak(text);
    RewriteFailsAtFirstBadLine(text, s);
    RewrittenLinesReadBack(lines, s);
    KeptDirectives(lines);
    TrimmedDirectives(Kept(lines));
    SeparatedDirectives(Trimmed(Kept(lines)));
    GeneratedReads(s);
    DirectivesAppend(Separated(Trimmed(Kept(lines))), Generated(s));
  }

  lemma EmptyLineIsKept()
    ensures !Managed("") && HEADER != ""
  {
    assert Tokenize("") == Tokens([]);
    assert HEADER[0] == '#';
  }

  lemma KeptOnceMore(lines: seq<string>)
    ensures var front := Separated(Trimmed(Kept(lines))); Kept(front) == front
  {
    TrimmedIsPrefix(Kept(lines));
    FilterHolds(lines, KEEP);
    EmptyLineIsKept();
    FilterKeepsAll(Separated(Trimmed(Kept(lines))), KEEP);
  }

  lemma TrimmedGap(kept: seq<string>)
    requires Trimmed(kept) == kept
    ensures Trimmed(Separated(kept)) == kept
  {
    if kept != [] {
      assert Separated(kept)[..|Separated(kept)| - 1] == kept;
    }
  }

  /** What is kept of a rewritten file, trimmed, is what was kept of the original. */
  lemma RewrittenKeeps(lines: seq<string>, a: Settings)
    ensures Trimmed(Kept(RewrittenLines(lines, a))) == Trimmed(Kept(lines))
  {
    var front := Separated(Trimmed(Kept(lines)));
    KeptOnceMore(lines);
    GeneratedReads(a);
    FilterDropsAll(Generated(a), KEEP);
    FilterAppend(front, Generated(a), KEEP);
    assert front + [] == front;
    TrimmedIsPrefix(Kept(lines));
    TrimmedGap(Trimmed(Kept(lines)));
  }

  /** A second rewrite leaves no trace of the first. */
  lemma LastRewriteWins(text: string, a: Settings, b: Settings)
    requires Readable(Lines(text))
    ensures Rewrite(text, a).File? && Rewrite(Rewrite(text, a).text, b) == Rewrite(text, b)
  {
    var lines := Lines(text);
    RewritePreservesMeaning(text, a);
    RewriteFailsAtFirstBadLine(text, b);
    LinesHaveNoBreak(text);
    RewrittenLinesReadBack(lines, a);
    RewriteFailsAtFirstBadLine(Rewrite(text, a).text, b);
    RewrittenKeeps(lines, a);
  }

  lemma RewriteIsIdempotent(text: string, s: Settings)
    requires Readable(Lines(text))
    ensures Rewrite(text, s).File? && Rewrite(Rewrite(text, s).text, s) == Rewrite(text, s)
  {
    LastRewriteWins(text, s, s);
  }
}
