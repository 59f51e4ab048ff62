/** Glob patterns as lists of pieces. What a list means is said without any pattern text;
    matching its written form is proved to be that meaning, and every pattern is the
    written form of a list. */
module GlobSyntax {
  import opened Glob

  // ----- pieces and what they mean

  /** An element of a class: a byte as it is, a byte after a backslash, or the bytes
      between two ends, in either order and with both. */
  datatype Element = Plain(value: char) | Escaped(value: char) | Span(first: char, last: char)

  datatype Piece =
    | Run                                                          // any bytes, also none
    | Any                                                          // any one byte
    | Byte(value: char, escaped: bool)
    | OneOf(negated: bool, elements: seq<Element>, closed: bool)   // a class, perhaps unterminated

  predicate Holds(e: Element, value: char) {
    match e
    case Plain(c) => value == c
    case Escaped(c) => value == c
    case Span(a, b) => a <= value <= b || b <= value <= a
  }

  predicate SomeHolds(elements: seq<Element>, value: char) {
    exists i :: 0 <= i < |elements| && Holds(elements[i], value)
  }

  predicate Takes(piece: Piece, value: char) {
    match piece
    case Run => false
    case Any => true
    case Byte(c, _) => value == c
    case OneOf(false, elements, _) => SomeHolds(elements, value)
    case OneOf(true, elements, _) => !SomeHolds(elements, value)
  }

  /** A run of bytes for each star and one byte for every other piece. */
  ghost predicate Means(pieces: seq<Piece>, text: string)
    decreases |pieces|
  {
    if pieces == [] then text == ""
    else if pieces[0].Run? then exists n :: 0 <= n <= |text| && Means(pieces[1..], text[n..])
    else text != "" && Takes(pieces[0], text[0]) && Means(pieces[1..], text[1..])
  }

  // ----- how they are written, each before what follows it

  function ElementText(e: Element, rest: string): string {
    match e
    case Plain(c) => [c] + rest
    case Escaped(c) => ['\\', c] + rest
    case Span(a, b) => [a, '-', b] + rest
  }

  function ElementsText(elements: seq<Element>, rest: string): string {
    if elements == [] then rest else ElementText(elements[0], ElementsText(elements[1..], rest))
  }

  function ClosedText(closed: bool, rest: string): string {
    if closed then "]" + rest else rest
  }

  function PieceText(piece: Piece, rest: string): string {
    match piece
    case Run => "*" + rest
    case Any => "?" + rest
    case Byte(c, escaped) => (if escaped then ['\\', c] else [c]) + rest
    case OneOf(negated, elements, closed) =>
      (if negated then "[^" else "[") + ElementsText(elements, ClosedText(closed, rest))
  }

  function PatternText(pieces: seq<Piece>): string {
    if pieces == [] then "" else PieceText(pieces[0], PatternText(pieces[1..]))
  }

  // ----- when that is how they are read

  /** Inside a class, before `rest`: a plain byte closes nothing, escapes nothing and
      starts no range. A backslash is plain only at the end of the pattern. */
  predicate ElementOk(e: Element, rest: string) {
    match e
    case Plain(c) => c != ']' && (c == '\\' ==> rest == "") && !(|rest| >= 2 && rest[0] == '-')
    case Escaped(_) => true
    case Span(a, _) => a != ']' && a != '\\'
  }

  predicate ElementsOk(elements: seq<Element>, rest: string) {
    elements == [] || (ElementOk(elements[0], ElementsText(elements[1..], rest)) && ElementsOk(elements[1..], rest))
  }

  /** Only the end of the pattern leaves a class open, and a class that does not start
      with a caret is not negated. */
  predicate PieceOk(piece: Piece, rest: string) {
    match piece
    case Run => true
    case Any => true
    case Byte(c, escaped) => escaped || (c != '*' && c != '?' && c != '[' && (c == '\\' ==> rest == ""))
    case OneOf(negated, elements, closed) =>
      var inside := ElementsText(elements, ClosedText(closed, rest));
      ElementsOk(elements, ClosedText(closed, rest)) && (closed || rest == "") &&
      (negated || inside == "" || inside[0] != '^')
  }

  predicate PatternOk(pieces: seq<Piece>) {
    pieces == [] || (PieceOk(pieces[0], PatternText(pieces[1..])) && PatternOk(pieces[1..]))
  }

  // ----- reading what was written

  /** The text from `at` on starts with these two characters, if it has as many. */
  lemma Front(pattern: string, at: nat)
    requires at <= |pattern|
    ensures at < |pattern| ==> pattern[at] == pattern[at..][0]
    ensures at + 1 < |pattern| ==> pattern[at + 1] == pattern[at..][1]
    ensures at + 2 < |pattern| ==> pattern[at + 2] == pattern[at..][2]
  {
  }

  lemma Past(pattern: string, at: nat, first: string, rest: string)
    requires at <= |pattern| && pattern[at..] == first + rest
    ensures at + |first| <= |pattern| && pattern[at + |first|..] == rest
  {
    assert pattern[at + |first|..] == pattern[at..][|first|..];
  }

  lemma ElementReads(pattern: string, at: nat, e: Element, rest: string, value: char)
    requires at <= |pattern| && pattern[at..] == ElementText(e, rest) && ElementOk(e, rest)
    ensures at < |pattern| && pattern[at] != ']'
    ensures var item := ItemAt(pattern, at);
            pattern[item.next..] == rest && (item.low <= value <= item.high <==> Holds(e, value))
  {
    Front(pattern, at);
    match e
    case Plain(c) => Past(pattern, at, [c], rest);
    case Escaped(c) => Past(pattern, at, ['\\', c], rest);
    case Span(a, b) => Past(pattern, at, [a, '-', b], rest);
  }

  lemma {:induction false} ClassReads(pattern: string, at: nat, elements: seq<Element>, closed: bool, rest: string,
      value: char)
    requires at <= |pattern| && pattern[at..] == ElementsText(elements, ClosedText(closed, rest))
    requires ElementsOk(elements, ClosedText(closed, rest)) && (closed || rest == "")
    ensures ClassAdmits(pattern, at, value) <==> SomeHolds(elements, value)
    ensures pattern[ClassEnd(pattern, at)..] == rest
    decreases |elements|
  {
    if elements == [] {
      Front(pattern, at);
      if closed { Past(pattern, at, "]", rest); }
    } else {
      ElementReads(pattern, at, elements[0], ElementsText(elements[1..], ClosedText(closed, rest)), value);
      ClassReads(pattern, ItemAt(pattern, at).next, elements[1..], closed, rest, value);
      SomeSplits(elements, value);
    }
  }

  lemma SomeSplits(elements: seq<Element>, value: char)
    requires elements != []
    ensures SomeHolds(elements, value) <==> Holds(elements[0], value) || SomeHolds(elements[1..], value)
  {
    if SomeHolds(elements[1..], value) {
      var i :| 0 <= i < |elements[1..]| && Holds(elements[1..][i], value);
      assert Holds(elements[i + 1], value);
    }
    if SomeHolds(elements, value) {
      var i :| 0 <= i < |elements| && Holds(elements[i], value);
      assert i > 0 ==> Holds(elements[1..][i - 1], value);
    }
  }

  lemma PieceReads(pattern: string, p: nat, piece: Piece, rest: string, value: char)
    requires p <= |pattern| && pattern[p..] == PieceText(piece, rest) && PieceOk(piece, rest)
    ensures p < |pattern| && (pattern[p] == '*' <==> piece.Run?)
    ensures pattern[TokenEnd(pattern, p)..] == rest && (TokenAdmits(pattern, p, value) <==> Takes(piece, value))
  {
    Front(pattern, p);
    match piece
    case Run => Past(pattern, p, "*", rest);
    case Any => Past(pattern, p, "?", rest);
    case Byte(c, escaped) => Past(pattern, p, if escaped then ['\\', c] else [c], rest);
    case OneOf(_, _, _) => ClassPieceReads(pattern, p, piece, rest, value);
  }

  lemma ClassPieceReads(pattern: string, p: nat, piece: Piece, rest: string, value: char)
    requires p <= |pattern| && pattern[p..] == PieceText(piece, rest) && PieceOk(piece, rest) && piece.OneOf?
    ensures p < |pattern| && pattern[p] == '['
    ensures pattern[TokenEnd(pattern, p)..] == rest && (TokenAdmits(pattern, p, value) <==> Takes(piece, value))
  {
    ClassOpens(pattern, p, piece, rest);
    ClassReads(pattern, TokenAt(pattern, p).at, piece.elements, piece.closed, rest, value);
  }

  lemma ClassOpens(pattern: string, p: nat, piece: Piece, rest: string)
    requires p <= |pattern| && pattern[p..] == PieceText(piece, rest) && PieceOk(piece, rest) && piece.OneOf?
    ensures p < |pattern| && pattern[p] == '['
    ensures var at := p + if piece.negated then 2 else 1;
            TokenAt(pattern, p) == Class(piece.negated, at) && at <= |pattern| &&
            pattern[at..] == ElementsText(piece.elements, ClosedText(piece.closed, rest))
  {
    var open := if piece.negated then "[^" else "[";
    Front(pattern, p);
    Past(pattern, p, open, ElementsText(piece.elements, ClosedText(piece.closed, rest)));
    Front(pattern, p + |open|);
  }

  // ----- the theorems

  lemma {:induction false} PiecesDenote(pattern: string, p: nat, pieces: seq<Piece>, text: string, t: nat)
    requires p <= |pattern| && t <= |text| && pattern[p..] == PatternText(pieces) && PatternOk(pieces)
    ensures Denotes(pattern, p, text, t) <==> Means(pieces, text[t..])
    decreases |pieces|
  {
    if pieces != [] {
      var rest := PatternText(pieces[1..]);
      PieceReads(pattern, p, pieces[0], rest, if t < |text| then text[t] else 'a');
      if pieces[0].Run? {
        RunDenotes(pattern, p, pieces, text, t);
      } else if t < |text| {
        assert text[t..][0] == text[t] && text[t..][1..] == text[t + 1..];
        PiecesDenote(pattern, TokenEnd(pattern, p), pieces[1..], text, t + 1);
      }
    }
  }

  lemma {:induction false} RunDenotes(pattern: string, p: nat, pieces: seq<Piece>, text: string, t: nat)
    requires p < |pattern| && t <= |text| && pattern[p] == '*'
    requires pieces != [] && pieces[0].Run? && pattern[p + 1..] == PatternText(pieces[1..]) && PatternOk(pieces[1..])
    ensures Denotes(pattern, p, text, t) <==> Means(pieces, text[t..])
    decreases |pieces|, 0
  {
    if Means(pieces, text[t..]) {
      var u := RunTakes(pieces, text, t);
      PiecesDenote(pattern, p + 1, pieces[1..], text, u);
      StarReaches(pattern, p, text, t, u);
    } else if Denotes(pattern, p, text, t) {
      var u := StarTakes(pattern, p, text, t);
      PiecesDenote(pattern, p + 1, pieces[1..], text, u);
      RunMeans(pieces, text[t..], u - t, text[u..]);
    }
  }

  lemma RunTakes(pieces: seq<Piece>, text: string, t: nat) returns (u: nat)
    requires t <= |text| && pieces != [] && pieces[0].Run? && Means(pieces, text[t..])
    ensures t <= u <= |text| && Means(pieces[1..], text[u..])
  {
    var n :| 0 <= n <= |text[t..]| && Means(pieces[1..], text[t..][n..]);
    u := t + n;
    assert text[t..][n..] == text[u..];
  }

  lemma StarTakes(pattern: string, p: nat, text: string, t: nat) returns (u: nat)
    requires p < |pattern| && pattern[p] == '*' && t <= |text| && Denotes(pattern, p, text, t)
    ensures t <= u <= |text| && Denotes(pattern, p + 1, text, u)
  {
    StarIsAnyRun(pattern, p, text, t);
    u :| t <= u <= |text| && Denotes(pattern, p + 1, text, u);
  }

  lemma StarReaches(pattern: string, p: nat, text: string, t: nat, u: nat)
    requires p < |pattern| && pattern[p] == '*' && t <= u <= |text| && Denotes(pattern, p + 1, text, u)
    ensures Denotes(pattern, p, text, t)
  {
    StarIsAnyRun(pattern, p, text, t);
  }

  lemma RunMeans(pieces: seq<Piece>, text: string, n: nat, rest: string)
    requires pieces != [] && pieces[0].Run? && n <= |text| && text[n..] == rest && Means(pieces[1..], rest)
    ensures Means(pieces, text)
  {
  }

  /** The written form of a list of pieces matches what the pieces mean; an empty text
      matches the empty pattern only. */
  lemma PatternMatchesItsMeaning(pieces: seq<Piece>, text: string)
    requires PatternOk(pieces)
    ensures Matches(PatternText(pieces), text) <==> if text == "" then pieces == [] else Means(pieces, text)
  {
    var pattern := PatternText(pieces);
    assert pattern[0..] == pattern && text[0..] == text;
    PiecesDenote(pattern, 0, pieces, text, 0);
  }

  /** And there is such a list for every pattern whatever. */
  lemma {:induction false} EveryPatternIsWritten(pattern: string) returns (pieces: seq<Piece>)
    ensures PatternOk(pieces) && PatternText(pieces) == pattern
    decreases |pattern|
  {
    if pattern == "" {
      pieces := [];
    } else {
      var piece, rest := FirstPiece(pattern);
      var more := EveryPatternIsWritten(rest);
      pieces := [piece] + more;
      assert pieces[1..] == more;
    }
  }

  lemma FirstPiece(pattern: string) returns (piece: Piece, rest: string)
    requires pattern != ""
    ensures PieceOk(piece, rest) && pattern == PieceText(piece, rest) && |rest| < |pattern|
  {
    var c := pattern[0];
    rest := pattern[1..];
    if c == '*' {
      piece := Run;
    } else if c == '?' {
      piece := Any;
    } else if c == '[' {
      piece, rest := FirstClass(pattern);
    } else if c == '\\' && rest != "" {
      piece, rest := Byte(pattern[1], true), pattern[2..];
    } else {
      piece := Byte(c, false);
    }
  }

  lemma FirstClass(pattern: string) returns (piece: Piece, rest: string)
    requires pattern != "" && pattern[0] == '['
    ensures piece.OneOf? && PieceOk(piece, rest) && pattern == PieceText(piece, rest) && |rest| < |pattern|
  {
    var negated := |pattern| > 1 && pattern[1] == '^';
    var open := if negated then "[^" else "[";
    var elements, closed;
    elements, closed, rest := ClassElements(pattern[|open|..]);
    piece := OneOf(negated, elements, closed);
    assert pattern == open + pattern[|open|..];
  }

  lemma {:induction false} ClassElements(inside: string) returns (elements: seq<Element>, closed: bool, rest: string)
    ensures inside == ElementsText(elements, ClosedText(closed, rest)) && (closed || rest == "")
    ensures ElementsOk(elements, ClosedText(closed, rest)) && |rest| <= |inside|
    decreases |inside|
  {
    if inside == "" {
      elements, closed, rest := [], false, "";
    } else if inside[0] == ']' {
      elements, closed, rest := [], true, inside[1..];
    } else {
      var e, after := FirstElement(inside);
      var more;
      more, closed, rest := ClassElements(after);
      elements := [e] + more;
      assert elements[1..] == more;
    }
  }

  lemma FirstElement(inside: string) returns (e: Element, rest: string)
    requires inside != "" && inside[0] != ']'
    ensures ElementOk(e, rest) && inside == ElementText(e, rest) && |rest| < |inside|
  {
    if inside[0] == '\\' && |inside| > 1 {
      e, rest := Escaped(inside[1]), inside[2..];
    } else if |inside| > 2 && inside[1] == '-' {
      e, rest := Span(inside[0], inside[2]), inside[3..];
    } else {
      e, rest := Plain(inside[0]), inside[1..];
    }
  }
}
