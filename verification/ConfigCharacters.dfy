/** Splitting and quoting a line, said by character codes: what separates arguments, what
    opens and closes them, and what each escape stands for. */
module ConfigCharacters {
  import opened ConfigLine

  /** Letters, digits and the hyphen. */
  predicate WordCode(c: char) {
    var n := c as int;
    48 <= n <= 57 || 65 <= n <= 90 || 97 <= n <= 122 || n == 45
  }

  /** Tab, line feed, vertical tab, form feed, carriage return and the blank. */
  predicate SpaceCode(c: char) {
    9 <= c as int <= 13 || c as int == 32
  }

  predicate IsWord(s: string) {
    s != "" && forall i :: 0 <= i < |s| ==> WordCode(s[i])
  }

  ghost function EscapeCode(n: int): int {
    if n == 110 then 10
    else if n == 114 then 13
    else if n == 116 then 9
    else if n == 98 then 8
    else if n == 97 then 7
    else n
  }

  // ----- arguments that are written as they are

  /** No character of `s` ends a bare argument or escapes anything. */
  ghost predicate Bland(s: string) {
    forall i :: 0 <= i < |s| ==> !IsSpace(s[i]) && s[i] != '#' && s[i] != '\\'
  }

  lemma {:induction false} BlandSpells(s: string, tail: string, token: string, last: bool)
    requires Bland(s) && Spells(Bare, tail, token, last)
    ensures Spells(Bare, s + tail, s + token, last)
  {
    if s == "" {
      assert s + tail == tail && s + token == token;
    } else {
      BlandSpells(s[1..], tail, token, last);
      assert (s + tail)[1..] == s[1..] + tail && (s + token)[1..] == s[1..] + token;
      assert (s + tail)[0] == s[0];
    }
  }

  lemma WordIsBland(s: string)
    requires IsWord(s)
    ensures Bland(s) && !IsMark(s[0])
  {
  }

  /** A bare argument at the front of a line. */
  lemma BareReads(text: string, token: string, rest: string)
    requires text != "" && !IsMark(text[0]) && Boundary(rest) && Spells(Bare, text, token, rest == "")
    ensures Tokenize(text + rest) == Prefixed([token], Tokenize(rest))
  {
    var w := Word("", Bare, text, token);
    WordReads(w, rest);
    assert "" + rest == rest && "" + (text + rest) == text + rest;
  }

  lemma BlandReads(s: string, rest: string)
    requires s != "" && Bland(s) && !IsMark(s[0]) && Boundary(rest)
    ensures Tokenize(s + rest) == Prefixed([s], Tokenize(rest))
  {
    BlandSpells(s, "", "", rest == "");
    assert s + "" == s;
    BareReads(s, s, rest);
  }

  lemma WholeLineReads(s: string)
    requires s != "" && Bland(s) && !IsMark(s[0])
    ensures Tokenize(s) == Tokens([s])
  {
    BlandReads(s, "");
    assert s + "" == s;
  }

  // ----- what one character between two words does

  /** A space separates two words, a number sign ends the line, a backslash stands for
      what it escapes, and anything else belongs to a single word. */
  lemma CharacterBetweenWords(a: string, c: char, b: string)
    requires IsWord(a) && IsWord(b)
    ensures Tokenize(a + ([c] + b))
         == if SpaceCode(c) then Tokens([a, b])
            else if c as int == 35 then Tokens([a])
            else if c as int == 92 then Tokens([a + ([EscapeCode(b[0] as int) as char] + b[1..])])
            else Tokens([a + ([c] + b)])
  {
    WordIsBland(a);
    WordIsBland(b);
    if SpaceCode(c) {
      BlandReads(a, [c] + b);
      SpaceVanishes(c, b);
      WholeLineReads(b);
    } else if c == '#' {
      BlandReads(a, [c] + b);
    } else if c == '\\' {
      EscapeReads(a, b[0], b[1..], "");
      assert ['\\', b[0]] + b[1..] == [c] + b;
      assert a + (['\\', b[0]] + b[1..]) + "" == a + ([c] + b);
    } else {
      assert Bland(a + ([c] + b));
      WholeLineReads(a + ([c] + b));
    }
  }

  /** What follows a number sign is a comment, whatever it is. */
  lemma CommentEndsLine(a: string, comment: string)
    requires IsWord(a)
    ensures Tokenize(a + ("#" + comment)) == Tokens([a]) && Tokenize("#" + comment) == Tokens([])
  {
    WordIsBland(a);
    BlandReads(a, "#" + comment);
  }

  // ----- escapes

  lemma DecodeIsByCode(c: char)
    ensures DecodeEscape(c) as int == EscapeCode(c as int)
  {
  }

  lemma EscapeReads(a: string, c: char, b: string, rest: string)
    requires IsWord(a) && Bland(b) && Boundary(rest)
    ensures Tokenize(a + (['\\', c] + b) + rest)
         == Prefixed([a + ([EscapeCode(c as int) as char] + b)], Tokenize(rest))
  {
    var last := rest == "";
    WordIsBland(a);
    DecodeIsByCode(c);
    BlandSpells(b, "", "", last);
    assert b + "" == b;
    SpellsOneMore(Bare, ['\\', c], b, b, last);
    BlandSpells(a, ['\\', c] + b, [DecodeEscape(c)] + b, last);
    BareReads(a + (['\\', c] + b), a + ([DecodeEscape(c)] + b), rest);
  }

  /** An escaped character in a bare argument stands for the character with that code,
      and a backslash at the end of the line for itself. */
  lemma EscapesByCode(a: string, c: char)
    requires IsWord(a)
    ensures Tokenize(a + ['\\', c]) == Tokens([a + [EscapeCode(c as int) as char]])
    ensures Tokenize(a + "\\") == Tokens([a + "\\"])
  {
    EscapeReads(a, c, "", "");
    assert a + (['\\', c] + "") + "" == a + ['\\', c];
    assert a + ([EscapeCode(c as int) as char] + "") == a + [EscapeCode(c as int) as char];
    WordIsBland(a);
    assert Spells(Bare, "\\", "\\", true);
    BlandSpells(a, "\\", "\\", true);
    BareReads(a + "\\", a + "\\", "");
    assert a + "\\" + "" == a + "\\";
  }

  // ----- quotes

  /** No character of `s` closes an argument quoted with `mark` or escapes anything. */
  ghost predicate Inside(s: string, mark: char) {
    forall i :: 0 <= i < |s| ==> s[i] != mark && s[i] != '\\'
  }

  lemma {:induction false} InsideSpells(s: string, mark: char)
    requires Inside(s, mark)
    ensures Spells(Quoted(mark), s, s, false)
  {
    if s != "" { InsideSpells(s[1..], mark); }
  }

  /** Either quotation mark opens an argument that ends at the same mark, spaces and
      comments included. It must be closed, and a gap must follow. */
  lemma QuotesByCode(mark: char, s: string, b: string)
    requires mark as int == 34 || mark as int == 39
    requires Inside(s, mark) && IsWord(b)
    ensures Tokenize([mark] + (s + [mark])) == Tokens([s])
    ensures Tokenize([mark] + s) == Malformed(UnterminatedQuote)
    ensures Tokenize([mark] + (s + ([mark] + b))) == Malformed(MissingGap)
  {
    ClosedQuote(mark, s);
    ScanOpen(s, mark);
    assert ([mark] + s)[1..] == s;
    QuoteWithoutGap(mark, s, b);
  }

  lemma ClosedQuote(mark: char, s: string)
    requires IsMark(mark) && Inside(s, mark)
    ensures Tokenize([mark] + (s + [mark])) == Tokens([s])
  {
    InsideSpells(s, mark);
    WordReads(Word("", Quoted(mark), s, s), "");
    assert [mark] + "" == [mark];
    assert "" + ([mark] + (s + [mark])) == [mark] + (s + [mark]);
  }

  lemma QuoteWithoutGap(mark: char, s: string, b: string)
    requires IsMark(mark) && Inside(s, mark) && IsWord(b)
    ensures Tokenize([mark] + (s + ([mark] + b))) == Malformed(MissingGap)
  {
    InsideSpells(s, mark);
    ScanReadsSpelling(Quoted(mark), s, s, b);
    assert ([mark] + (s + ([mark] + b)))[1..] == s + ([mark] + b);
    WordIsBland(b);
  }

  lemma {:induction false} ScanOpen(s: string, mark: char)
    requires Inside(s, mark)
    ensures Scan(s, Quoted(mark)) == Piece(s, "", false)
  {
    if s != "" { ScanOpen(s[1..], mark); }
  }

  /** How each character is quoted: breaks and tabs by name, the backslash and the mark
      behind a backslash, and every other one as itself. */
  lemma QuotedByCode(c: char, value: string)
    ensures Quote("") == "\"\""
    ensures Quote([c] + value) == "\"" + (QuotedCharacter(c) + Quote(value)[1..])
  {
    assert ([c] + value)[1..] == value && Quote(value)[1..] == Escaped(value) + "\"";
    assert QuotedCharacter(c) + Escaped(value) + "\"" == QuotedCharacter(c) + (Escaped(value) + "\"");
  }

  ghost function QuotedCharacter(c: char): string {
    var n := c as int;
    if n == 34 || n == 92 then [92 as char, c]
    else if n == 10 then [92 as char, 110 as char]
    else if n == 13 then [92 as char, 114 as char]
    else if n == 9 then [92 as char, 116 as char]
    else [c]
  }
}
