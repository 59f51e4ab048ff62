/** The configuration file: its lines, its directives, and the text that a rewrite
    puts in its place. */
module ConfigRewrite {
  import opened ConfigLine
  import opened Decimal
  import opened Filters

  // ----- lines

  predicate NoBreak(line: string) {
    forall i :: 0 <= i < |line| ==> line[i] != '\n'
  }

  /** Where the first line ends. */
  function Cut(text: string): (n: nat)
    ensures n <= |text| && NoBreak(text[..n]) && (n < |text| ==> text[n] == '\n')
  {
    if text == "" || text[0] == '\n' then 0
    else
      var n := Cut(text[1..]);
      assert text[..n + 1] == [text[0]] + text[1..][..n];
      n + 1
  }

  /** The lines of a file; a final line break ends the last line. */
  function Lines(text: string): (r: seq<string>)
    decreases |text|
  {
    if text == "" then []
    else
      var n := Cut(text);
      [text[..n]] + if n < |text| then Lines(text[n + 1..]) else []
  }

  function Text(lines: seq<string>): string {
    if lines == [] then "" else lines[0] + ("\n" + Text(lines[1..]))
  }

  ghost predicate AllNoBreak(lines: seq<string>) {
    forall i :: 0 <= i < |lines| ==> NoBreak(lines[i])
  }

  lemma {:induction false} LinesHaveNoBreak(text: string)
    ensures AllNoBreak(Lines(text))
    decreases |text|
  {
    if text != "" && Cut(text) < |text| { LinesHaveNoBreak(text[Cut(text) + 1..]); }
  }

  lemma {:induction false} CutAtBreak(line: string, rest: string)
    requires NoBreak(line)
    ensures Cut(line + ("\n" + rest)) == |line|
  {
    if line == "" {
      assert line + ("\n" + rest) == "\n" + rest;
    } else {
      assert (line + ("\n" + rest))[1..] == line[1..] + ("\n" + rest);
      CutAtBreak(line[1..], rest);
    }
  }

  lemma {:induction false} TextReadsBack(lines: seq<string>)
    requires AllNoBreak(lines)
    ensures Lines(Text(lines)) == lines
  {
    if lines != [] {
      CutAtBreak(lines[0], Text(lines[1..]));
      var text := Text(lines);
      assert text[..|lines[0]|] == lines[0] && text[|lines[0]| + 1..] == Text(lines[1..]);
      TextReadsBack(lines[1..]);
    }
  }

  lemma BreakEndsLine(line: string, rest: string)
    requires NoBreak(line)
    ensures Lines(line + ("\n" + rest)) == [line] + Lines(rest)
  {
    var text := line + ("\n" + rest);
    CutAtBreak(line, rest);
    assert text[..|line|] == line && text[|line| + 1..] == rest;
  }

  /** A last line without a line break is a line too, unless it is empty. */
  lemma {:induction false} UnterminatedLineIsRead(lines: seq<string>, last: string)
    requires AllNoBreak(lines) && NoBreak(last)
    ensures Lines(Text(lines) + last) == lines + if last == "" then [] else [last]
  {
    if lines == [] {
      assert Text(lines) + last == last && last[..|last|] == last;
      CutIsFirst(last, |last|);
    } else {
      UnterminatedLineIsRead(lines[1..], last);
      BreakEndsLine(lines[0], Text(lines[1..]) + last);
      JoinedText(lines[0], Text(lines[1..]), last);
      Associates([lines[0]], lines[1..], if last == "" then [] else [last]);
      assert lines == [lines[0]] + lines[1..];
    }
  }

  lemma JoinedText(first: string, middle: string, last: string)
    ensures first + ("\n" + middle) + last == first + ("\n" + (middle + last))
  {
  }

  lemma {:induction false} TextAppend(a: seq<string>, b: seq<string>)
    ensures Text(a + b) == Text(a) + Text(b)
  {
    if a == [] {
      assert a + b == b;
    } else {
      TextAppend(a[1..], b);
      assert (a + b)[1..] == a[1..] + b;
      Associates(a[0] + "\n", Text(a[1..]), Text(b));
    }
  }

  // ----- directives

  function LowerChar(c: char): char {
    if 'A' <= c <= 'Z' then (c as int + 32) as char else c
  }

  function Lower(s: string): string {
    seq(|s|, i requires 0 <= i < |s| => LowerChar(s[i]))
  }

  /** The same up to letter case, by character codes. */
  predicate SameLetter(c: char, d: char) {
    c == d || (65 <= c as int <= 90 && d as int == c as int + 32) || (65 <= d as int <= 90 && c as int == d as int + 32)
  }

  predicate SameName(a: string, b: string) {
    |a| == |b| && forall i :: 0 <= i < |a| ==> SameLetter(a[i], b[i])
  }

  predicate NoCapital(s: string) {
    forall i :: 0 <= i < |s| ==> !(65 <= s[i] as int <= 90)
  }

  lemma LowerIsSameName(a: string, b: string)
    requires NoCapital(b)
    ensures Lower(a) == b <==> SameName(a, b)
  {
    if SameName(a, b) {
      forall i | 0 <= i < |a|
        ensures Lower(a)[i] == b[i]
      {
        assert SameLetter(a[i], b[i]);
      }
    }
  }

  predicate ManagedName(name: string) {
    name == "replicaof" || name == "slaveof" || name == "redis-replicaof" || name == "replica-priority"
  }

  predicate ManagedDirective(directive: seq<string>) {
    directive != [] && ManagedName(Lower(directive[0]))
  }

  const HEADER: string := "# Generated by CONFIG REWRITE"

  predicate Managed(line: string) {
    (Tokenize(line).Tokens? && ManagedDirective(Tokenize(line).tokens)) || line == HEADER
  }

  predicate Readable(lines: seq<string>) {
    forall i :: 0 <= i < |lines| ==> Tokenize(lines[i]).Tokens?
  }

  /** What a file says: the directives of its lines, in order. */
  ghost function Directives(lines: seq<string>): seq<seq<string>>
    requires Readable(lines)
  {
    if lines == [] then []
    else
      var tokens := Tokenize(lines[0]).tokens;
      (if tokens == [] then [] else [tokens]) + Directives(lines[1..])
  }

  ghost function Unmanaged(directives: seq<seq<string>>): seq<seq<string>> {
    Filter(directives, directive => !ManagedDirective(directive))
  }

  // ----- the rewritten lines

  datatype Upstream = NoUpstream | ReplicaOf(host: string, port: nat)

  datatype Settings = Settings(upstream: Upstream, redisUpstream: bool, replicaPriority: nat)

  function UpstreamName(redisUpstream: bool): string {
    if redisUpstream then "redis-replicaof" else "replicaof"
  }

  function UpstreamLine(name: string, host: string, port: nat): string {
    name + (" " + (Quote(host) + (" " + Print(port))))
  }

  function PriorityLine(priority: nat): string {
    "replica-priority" + (" " + Print(priority))
  }

  function Generated(s: Settings): seq<string> {
    [HEADER]
    + (match s.upstream
       case NoUpstream => []
       case ReplicaOf(host, port) => [UpstreamLine(UpstreamName(s.redisUpstream), host, port)])
    + [PriorityLine(s.replicaPriority)]
  }

  const KEEP: string -> bool := line => !Managed(line)

  function Kept(lines: seq<string>): seq<string> {
    Filter(lines, KEEP)
  }

  function Trimmed(lines: seq<string>): seq<string> {
    if lines != [] && lines[|lines| - 1] == "" then Trimmed(lines[..|lines| - 1]) else lines
  }

  function Separated(lines: seq<string>): seq<string> {
    if lines == [] then [] else lines + [""]
  }

  function RewrittenLines(lines: seq<string>, s: Settings): seq<string> {
    Separated(Trimmed(Kept(lines))) + Generated(s)
  }

  datatype Rewritten = File(text: string) | BadLine(number: nat, error: LineError)

  /** The first line that does not split stops the rewrite. */
  function Rewrite(text: string, s: Settings): (r: Rewritten) {
    var lines := Lines(text);
    var bad := FirstBad(lines);
    if bad < |lines| then BadLine(bad + 1, Tokenize(lines[bad]).error)
    else File(Text(RewrittenLines(lines, s)))
  }

  function FirstBad(lines: seq<string>): (n: nat)
    ensures n <= |lines| && Readable(lines[..n]) && (n < |lines| ==> Tokenize(lines[n]).Malformed?)
  {
    if lines == [] || Tokenize(lines[0]).Malformed? then 0
    else
      var n := FirstBad(lines[1..]);
      assert lines[..n + 1] == [lines[0]] + lines[1..][..n];
      n + 1
  }

  // ----- computing it

  lemma KeptIsPart(lines: seq<string>)
    requires AllNoBreak(lines)
    ensures AllNoBreak(Kept(lines))
  {
    FilterHolds(lines, KEEP);
  }

  lemma {:induction false} FirstBadAt(lines: seq<string>, n: nat)
    requires n < |lines| && Readable(lines[..n]) && Tokenize(lines[n]).Malformed?
    ensures FirstBad(lines) == n
    decreases n
  {
    if n > 0 {
      assert lines[1..][..n - 1] == lines[..n][1..];
      assert Tokenize(lines[..n][0]).Tokens?;
      FirstBadAt(lines[1..], n - 1);
    }
  }

  lemma {:induction false} CutIsFirst(text: string, n: nat)
    requires n <= |text| && NoBreak(text[..n]) && (n < |text| ==> text[n] == '\n')
    ensures Cut(text) == n
  {
    if n > 0 {
      assert text[..n][0] == text[0] && text[1..][..n - 1] == text[..n][1..];
      CutIsFirst(text[1..], n - 1);
    }
  }

  lemma NextLine(text: string, position: nat, end: nat)
    requires position < |text| && position <= end <= |text| && NoBreak(text[position..end])
    requires end < |text| ==> text[end] == '\n'
    ensures Lines(text[position..]) == [text[position..end]] + Lines(text[if end < |text| then end + 1 else end..])
  {
    var rest, n := text[position..], end - position;
    assert rest[..n] == text[position..end];
    CutIsFirst(rest, n);
    if end < |text| { assert rest[n + 1..] == text[end + 1..]; }
  }

  function Stripped(text: string): string {
    if text != "" && text[|text| - 1] == '\n' then Stripped(text[..|text| - 1]) else text
  }

  /** Nothing but the line breaks at the end goes. */
  lemma {:induction false} StrippedIsPrefix(text: string)
    ensures Stripped(text) <= text
    ensures Stripped(text) == "" || Stripped(text)[|Stripped(text)| - 1] != '\n'
    ensures forall i :: |Stripped(text)| <= i < |text| ==> text[i] == '\n'
    decreases |text|
  {
    if text != "" && text[|text| - 1] == '\n' { StrippedIsPrefix(text[..|text| - 1]); }
  }

  function WithGap(text: string): string {
    if text == "" then "" else text + "\n\n"
  }

  lemma TextSnoc(lines: seq<string>, last: string)
    ensures Text(lines + [last]) == Text(lines) + last + "\n"
  {
    TextAppend(lines, [last]);
    assert Text([last]) == last + ("\n" + Text([]));
    Associates(Text(lines), last, "\n");
  }

  /** Stripping line breaks off the text drops the trailing empty lines. */
  lemma {:induction false} StrippedText(lines: seq<string>)
    requires AllNoBreak(lines)
    ensures var t, stripped := Trimmed(lines), Stripped(Text(lines));
            if t == [] then stripped == "" else stripped != "" && stripped + "\n" == Text(t)
    decreases |lines|
  {
    if lines != [] {
      var n := |lines| - 1;
      var front, last := lines[..n], lines[n];
      assert lines == front + [last];
      TextSnoc(front, last);
      StripOnce(Text(front) + last);
      if last == "" {
        assert Text(front) + last == Text(front);
        StrippedText(front);
      } else {
        var whole := Text(front) + last;
        assert whole[|whole| - 1] == last[|last| - 1];
      }
    }
  }

  lemma StripOnce(text: string)
    ensures Stripped(text + "\n") == Stripped(text)
  {
    assert (text + "\n")[..|text|] == text;
  }

  lemma StrippedWithGap(lines: seq<string>)
    requires AllNoBreak(lines)
    ensures WithGap(Stripped(Text(lines))) == Text(Separated(Trimmed(lines)))
  {
    StrippedText(lines);
    var t, stripped := Trimmed(lines), Stripped(Text(lines));
    if t != [] {
      TextSnoc(t, "");
      Associates(stripped, "\n", "\n");
      assert Text(t) + "" == Text(t);
    }
  }

  lemma GeneratedText(s: Settings, upstream: string)
    requires match s.upstream
             case NoUpstream => upstream == ""
             case ReplicaOf(host, port) => upstream == UpstreamLine(UpstreamName(s.redisUpstream), host, port) + "\n"
    ensures Text(Generated(s)) == HEADER + "\n" + upstream + (PriorityLine(s.replicaPriority) + "\n")
  {
    var last := [PriorityLine(s.replicaPriority)];
    TextSnoc([], PriorityLine(s.replicaPriority));
    TextSnoc([], HEADER);
    assert [] + last == last && [] + [HEADER] == [HEADER];
    match s.upstream
    case NoUpstream =>
      assert Generated(s) == [HEADER] + last;
      TextAppend([HEADER], last);
    case ReplicaOf(host, port) =>
      var line := UpstreamLine(UpstreamName(s.redisUpstream), host, port);
      assert Generated(s) == [HEADER] + [line] + last;
      TextSnoc([HEADER], line);
      TextAppend([HEADER] + [line], last);
      Associates(HEADER + "\n", line, "\n");
  }

  method ReadLine(text: string, position: nat) returns (line: string, next: nat)
    requires position < |text|
    ensures position < next <= |text|
    ensures Lines(text[position..]) == [line] + Lines(text[next..])
  {
    var end := position;
    while end < |text| && text[end] != '\n'
      invariant position <= end <= |text| && NoBreak(text[position..end])
    {
      assert text[position..end + 1] == text[position..end] + [text[end]];
      end := end + 1;
    }
    NextLine(text, position, end);
    return text[position..end], if end < |text| then end + 1 else end;
  }

  /** What the reading loop leaves: the unmanaged lines, unless a line does not split. */
  ghost function KeptText(lines: seq<string>): Rewritten {
    var bad := FirstBad(lines);
    if bad < |lines| then BadLine(bad + 1, Tokenize(lines[bad]).error) else File(Text(Kept(lines)))
  }

  method KeepLines(text: string) returns (kept: Rewritten)
    ensures kept == KeptText(Lines(text))
  {
    var rewritten, position, lineNumber: nat := "", 0, 0;
    ghost var lines := Lines(text);
    assert text[0..] == text;
    while position < |text|
      invariant position <= |text| && lineNumber <= |lines| && Lines(text[position..]) == lines[lineNumber..]
      invariant Readable(lines[..lineNumber]) && rewritten == Text(Kept(lines[..lineNumber]))
      decreases |text| - position
    {
      var line, next := ReadLine(text, position);
      assert lines[lineNumber..][1..] == lines[lineNumber + 1..] && lines[lineNumber] == line;
      var directive, managed := ClassifyLine(line);
      if directive.Malformed? {
        FirstBadAt(lines, lineNumber);
        return BadLine(lineNumber + 1, directive.error);
      }
      OneLineMore(lines, lineNumber);
      if !managed {
        rewritten := rewritten + line + "\n";
      }
      position, lineNumber := next, lineNumber + 1;
    }
    assert lines[..lineNumber] == lines;
    kept := File(rewritten);
  }

  lemma OneLineMore(lines: seq<string>, n: nat)
    requires n < |lines| && Readable(lines[..n]) && Tokenize(lines[n]).Tokens?
    ensures Readable(lines[..n + 1])
    ensures Text(Kept(lines[..n + 1]))
         == if Managed(lines[n]) then Text(Kept(lines[..n])) else Text(Kept(lines[..n])) + lines[n] + "\n"
  {
    assert lines[..n + 1] == lines[..n] + [lines[n]];
    KeptSnoc(lines[..n], lines[n]);
    TextSnoc(Kept(lines[..n]), lines[n]);
  }

  method ClassifyLine(line: string) returns (directive: Line, managed: bool)
    ensures directive == Tokenize(line) && (directive.Tokens? ==> managed == Managed(line))
  {
    directive := ParseRedisConfigLine(line);
    managed := false;
    if directive.Malformed? { return; }
    if directive.tokens != [] {
      managed := ManagedName(Lower(directive.tokens[0]));
    }
    if line == HEADER { managed := true; }
  }

  lemma KeptSnoc(lines: seq<string>, line: string)
    ensures Kept(lines + [line]) == if Managed(line) then Kept(lines) else Kept(lines) + [line]
  {
    FilterAppend(lines, [line], KEEP);
    FilterOne(line, KEEP);
  }

  method StripBreaks(text: string) returns (stripped: string)
    ensures stripped == Stripped(text)
  {
    stripped := text;
    while stripped != "" && stripped[|stripped| - 1] == '\n'
      invariant Stripped(stripped) == Stripped(text)
      decreases |stripped|
    {
      stripped := stripped[..|stripped| - 1];
    }
  }

  method RewriteText(text: string, s: Settings) returns (r: Rewritten)
    ensures r == Rewrite(text, s)
  {
    var kept := KeepLines(text);
    if kept.BadLine? { return kept; }
    LinesHaveNoBreak(text);
    KeptIsPart(Lines(text));
    StrippedWithGap(Kept(Lines(text)));
    TextAppend(Separated(Trimmed(Kept(Lines(text)))), Generated(s));
    var rewritten := StripBreaks(kept.text);
    if rewritten != "" { rewritten := rewritten + "\n\n"; }
    var generated := GenerateText(s);
    r := File(rewritten + generated);
  }

  method GenerateText(s: Settings) returns (text: string)
    ensures text == Text(Generated(s))
  {
    var upstream := "";
    if s.upstream.ReplicaOf? {
      var quoted := QuoteRedisConfigArgument(s.upstream.host);
      upstream := UpstreamName(s.redisUpstream) + (" " + (quoted + (" " + Print(s.upstream.port)))) + "\n";
    }
    GeneratedText(s, upstream);
    text := HEADER + "\n" + upstream + (PriorityLine(s.replicaPriority) + "\n");
  }
}
