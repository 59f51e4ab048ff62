/** What a server makes of a configuration file when it starts: which upstream it follows
    and its priority. A rewritten file brings back what was written into it, and every
    directive but the four managed ones. */
module ConfigLoad {
  import opened ConfigLine
  import opened ConfigMeaning
  import opened ConfigRewrite
  import opened Decimal
  import opened Filters

  // ----- the managed names

  /** One of the four names that a rewrite manages, letter case aside. */
  predicate NamesReplication(name: string) {
    SameName(name, "replicaof") || SameName(name, "slaveof") || SameName(name, "redis-replicaof") ||
    SameName(name, "replica-priority")
  }

  lemma ManagedByName(directive: seq<string>)
    requires directive != []
    ensures ManagedDirective(directive) <==> NamesReplication(directive[0])
  {
    LowerIsSameName(directive[0], "replicaof");
    LowerIsSameName(directive[0], "slaveof");
    LowerIsSameName(directive[0], "redis-replicaof");
    LowerIsSameName(directive[0], "replica-priority");
  }

  // ----- what a rewritten file says

  ghost function Others(directives: seq<seq<string>>): seq<seq<string>> {
    Filter(directives, (d: seq<string>) => d == [] || !NamesReplication(d[0]))
  }

  lemma {:induction false} UnmanagedAreOthers(directives: seq<seq<string>>)
    requires forall i :: 0 <= i < |directives| ==> directives[i] != []
    ensures Unmanaged(directives) == Others(directives)
  {
    if directives != [] {
      ManagedByName(directives[0]);
      UnmanagedAreOthers(directives[1..]);
    }
  }

  lemma {:induction false} DirectivesAreNotEmpty(lines: seq<string>)
    requires Readable(lines)
    ensures forall i :: 0 <= i < |Directives(lines)| ==> Directives(lines)[i] != []
  {
    if lines != [] { DirectivesAreNotEmpty(lines[1..]); }
  }

  /** The rewritten file keeps every directive with another name, in order, and ends with
      the upstream, under the name that goes with its kind, and the priority. */
  lemma RewrittenFileSays(text: string, s: Settings)
    requires Readable(Lines(text))
    ensures Rewrite(text, s).File? && Readable(Lines(Rewrite(text, s).text))
    ensures Directives(Lines(Rewrite(text, s).text))
         == Others(Directives(Lines(text)))
            + (match s
               case Settings(NoUpstream, _, priority) => [["replica-priority", Print(priority)]]
               case Settings(ReplicaOf(host, port), false, priority) =>
                 [["replicaof", host, Print(port)], ["replica-priority", Print(priority)]]
               case Settings(ReplicaOf(host, port), true, priority) =>
                 [["redis-replicaof", host, Print(port)], ["replica-priority", Print(priority)]])
  {
    RewritePreservesMeaning(text, s);
    DirectivesAreNotEmpty(Lines(text));
    UnmanagedAreOthers(Directives(Lines(text)));
  }

  /** Its text, to the character. */
  lemma RewrittenTextIs(text: string, s: Settings, upstream: string)
    requires Readable(Lines(text))
    requires upstream == match s
                         case Settings(NoUpstream, _, _) => ""
                         case Settings(ReplicaOf(host, port), false, _) =>
                           "replicaof" + (" " + (Quote(host) + (" " + Print(port)))) + "\n"
                         case Settings(ReplicaOf(host, port), true, _) =>
                           "redis-replicaof" + (" " + (Quote(host) + (" " + Print(port)))) + "\n"
    ensures var kept := Stripped(Text(Kept(Lines(text))));
            Rewrite(text, s) ==
            File((if kept == "" then "" else kept + "\n\n") +
                 ("# Generated by CONFIG REWRITE" + "\n" + upstream +
                  ("replica-priority" + (" " + Print(s.replicaPriority)) + "\n")))
  {
    LinesHaveNoBreak(text);
    RewriteFailsAtFirstBadLine(text, s);
    KeptIsPart(Lines(text));
    StrippedWithGap(Kept(Lines(text)));
    TextAppend(Separated(Trimmed(Kept(Lines(text)))), Generated(s));
    GeneratedText(s, upstream);
  }

  // ----- starting from a file

  datatype Endpoint = Endpoint(host: string, port: nat)

  datatype Options = Options(replicaOf: Option<Endpoint>, redisReplicaOf: Option<Endpoint>, replicaPriority: nat)

  datatype Start = Started(options: Options) | BadConfiguration(line: nat)

  const U16_MAX: nat := 0xFFFF
  const U32_MAX: nat := 0xFFFF_FFFF

  function ReadBelow(text: string, most: nat, allowZero: bool): Option<nat> {
    if text == "" || !AllDigits(text) || Value(text) > most || (!allowZero && Value(text) == 0) then None
    else Some(Value(text))
  }

  /** The part of a directive that concerns replication; none for an invalid one. Other
      directives do not touch these options. */
  function Applied(directive: seq<string>, o: Options): Option<Options> {
    if directive == [] then Some(o)
    else
      var name := Lower(directive[0]);
      if name == "replicaof" || name == "redis-replicaof" then
        if |directive| != 3 || directive[1] == "" then None
        else
          match ReadBelow(directive[2], U16_MAX, false)
          case None => None
          case Some(port) =>
            if name == "replicaof" then Some(o.(replicaOf := Some(Endpoint(directive[1], port))))
            else Some(o.(redisReplicaOf := Some(Endpoint(directive[1], port))))
      else if name == "replica-priority" then
        if |directive| != 2 then None
        else
          match ReadBelow(directive[1], U32_MAX, true)
          case None => None
          case Some(priority) => Some(o.(replicaPriority := priority))
      else Some(o)
  }

  function LoadLines(lines: seq<string>, o: Options, before: nat): Start {
    if lines == [] then Started(o)
    else
      match Tokenize(lines[0])
      case Malformed(_) => BadConfiguration(before + 1)
      case Tokens(directive) =>
        match Applied(directive, o)
        case None => BadConfiguration(before + 1)
        case Some(next) => LoadLines(lines[1..], next, before + 1)
  }

  /** The loading loop: one line at a time, the first bad one ends it. */
  method LoadRedisConfigFile(text: string, options: Options) returns (r: Start)
    ensures r == LoadLines(Lines(text), options, 0)
  {
    var o, position, lineNumber: nat := options, 0, 0;
    assert text[0..] == text;
    while position < |text|
      invariant position <= |text|
      invariant LoadLines(Lines(text), options, 0) == LoadLines(Lines(text[position..]), o, lineNumber)
      decreases |text| - position
    {
      var line, next := ReadLine(text, position);
      assert ([line] + Lines(text[next..]))[1..] == Lines(text[next..]);
      var directive := ParseRedisConfigLine(line);
      if directive.Malformed? { return BadConfiguration(lineNumber + 1); }
      var applied := Applied(directive.tokens, o);
      if applied.None? { return BadConfiguration(lineNumber + 1); }
      o, position, lineNumber := applied.value, next, lineNumber + 1;
    }
    r := Started(o);
  }

  lemma {:induction false} LoadAppend(a: seq<string>, b: seq<string>, o: Options, before: nat, o': Options)
    requires LoadLines(a, o, before) == Started(o')
    ensures LoadLines(a + b, o, before) == LoadLines(b, o', before + |a|)
  {
    if a == [] {
      assert a + b == b;
    } else {
      assert (a + b)[1..] == a[1..] + b;
      LoadAppend(a[1..], b, Applied(Tokenize(a[0]).tokens, o).value, before + 1, o');
    }
  }

  /** Lines without a managed directive leave these options alone. */
  lemma {:induction false} OtherLinesLoad(lines: seq<string>, o: Options, before: nat)
    requires Readable(lines) && forall i :: 0 <= i < |lines| ==> !Managed(lines[i])
    ensures LoadLines(lines, o, before) == Started(o)
  {
    if lines != [] {
      assert !Managed(lines[0]);
      OtherLinesLoad(lines[1..], o, before + 1);
    }
  }

  lemma PrintedIsRead(n: nat, most: nat, allowZero: bool)
    requires n <= most && (allowZero || n > 0)
    ensures ReadBelow(Print(n), most, allowZero) == Some(n)
  {
    PrintReadsBack(n);
  }

  ghost predicate Storable(s: Settings) {
    s.replicaPriority <= U32_MAX && (s.upstream.ReplicaOf? ==> s.upstream.host != "" && 0 < s.upstream.port <= U16_MAX)
  }

  /** What the settings mean for the options of a server that starts with them. */
  ghost function Restored(s: Settings, o: Options): Options {
    match s
    case Settings(NoUpstream, _, priority) => o.(replicaPriority := priority)
    case Settings(ReplicaOf(host, port), false, priority) =>
      o.(replicaOf := Some(Endpoint(host, port)), replicaPriority := priority)
    case Settings(ReplicaOf(host, port), true, priority) =>
      o.(redisReplicaOf := Some(Endpoint(host, port)), replicaPriority := priority)
  }

  lemma UpstreamLoads(name: string, host: string, port: nat, o: Options)
    requires name == "replicaof" || name == "redis-replicaof"
    requires host != "" && 0 < port <= U16_MAX
    ensures Tokenize(UpstreamLine(name, host, port)) == Tokens([name, host, Print(port)])
    ensures Applied([name, host, Print(port)], o)
         == Some(if name == "replicaof" then o.(replicaOf := Some(Endpoint(host, port)))
                 else o.(redisReplicaOf := Some(Endpoint(host, port))))
  {
    NamesArePlain();
    UpstreamLineReads(name, host, port);
    PlainIsLower(name);
    PrintedIsRead(port, U16_MAX, false);
  }

  lemma PriorityLoads(priority: nat, o: Options)
    requires priority <= U32_MAX
    ensures Tokenize(PriorityLine(priority)) == Tokens(["replica-priority", Print(priority)])
    ensures Applied(["replica-priority", Print(priority)], o) == Some(o.(replicaPriority := priority))
  {
    NamesArePlain();
    PriorityLineReads(priority);
    PlainIsLower("replica-priority");
    PrintedIsRead(priority, U32_MAX, true);
  }

  lemma LineLoads(line: string, directive: seq<string>, rest: seq<string>, o: Options, o': Options, before: nat)
    requires Tokenize(line) == Tokens(directive) && Applied(directive, o) == Some(o')
    ensures LoadLines([line] + rest, o, before) == LoadLines(rest, o', before + 1)
  {
    assert ([line] + rest)[1..] == rest;
  }

  lemma GeneratedLoads(s: Settings, o: Options, before: nat)
    requires Storable(s)
    ensures LoadLines(Generated(s), o, before) == Started(Restored(s, o))
  {
    var last := PriorityLine(s.replicaPriority);
    HeaderReads();
    match s.upstream
    case NoUpstream =>
      assert Generated(s) == [HEADER] + ([last] + []);
      LineLoads(HEADER, [], [last] + [], o, o, before);
      PriorityLoads(s.replicaPriority, o);
      LineLoads(last, ["replica-priority", Print(s.replicaPriority)], [], o, Restored(s, o), before + 1);
    case ReplicaOf(host, port) =>
      var name := UpstreamName(s.redisUpstream);
      var line, directive := UpstreamLine(name, host, port), [name, host, Print(port)];
      assert Generated(s) == [HEADER] + ([line] + ([last] + []));
      LineLoads(HEADER, [], [line] + ([last] + []), o, o, before);
      UpstreamLoads(name, host, port, o);
      var o' := Applied(directive, o).value;
      LineLoads(line, directive, [last] + [], o, o', before + 1);
      PriorityLoads(s.replicaPriority, o');
      LineLoads(last, ["replica-priority", Print(s.replicaPriority)], [], o', Restored(s, o), before + 2);
  }

  /** A server that starts from a rewritten file follows the upstream that was written, as
      the kind of upstream it is, with the priority that was written; the file's other
      lines do not interfere. */
  lemma RestartFollowsRewrite(text: string, s: Settings, o: Options)
    requires Readable(Lines(text)) && Storable(s)
    ensures Rewrite(text, s).File? && LoadLines(Lines(Rewrite(text, s).text), o, 0) == Started(Restored(s, o))
  {
    var lines := Lines(text);
    LinesHaveNoBreak(text);
    RewriteFailsAtFirstBadLine(text, s);
    RewrittenLinesReadBack(lines, s);
    RewrittenLinesLoad(lines, s, o);
  }

  lemma RewrittenLinesLoad(lines: seq<string>, s: Settings, o: Options)
    requires Readable(lines) && Storable(s)
    ensures LoadLines(RewrittenLines(lines, s), o, 0) == Started(Restored(s, o))
  {
    var front := Separated(Trimmed(Kept(lines)));
    FrontLoads(lines, o);
    LoadAppend(front, Generated(s), o, 0, o);
    GeneratedLoads(s, o, |front|);
  }

  lemma FrontLoads(lines: seq<string>, o: Options)
    requires Readable(lines)
    ensures LoadLines(Separated(Trimmed(Kept(lines))), o, 0) == Started(o)
  {
    KeptDirectives(lines);
    TrimmedDirectives(Kept(lines));
    SeparatedDirectives(Trimmed(Kept(lines)));
    FrontIsUnmanaged(lines);
    OtherLinesLoad(Separated(Trimmed(Kept(lines))), o, 0);
  }

  lemma FrontIsUnmanaged(lines: seq<string>)
    ensures var front := Separated(Trimmed(Kept(lines))); forall i :: 0 <= i < |front| ==> !Managed(front[i])
  {
    TrimmedIsPrefix(Kept(lines));
    FilterHolds(lines, KEEP);
    EmptyLineIsKept();
  }
}
