/** Glob patterns: what they mean, token by token, and the production matcher,
    which remembers a single star to come back to. */
module Glob {

  // ----- character classes

  /** One element of a class, read at `at`: the bytes it admits and where the next
      element starts. A range takes its endpoint even when that is ']'. */
  datatype ClassItem = ClassItem(low: char, high: char, next: nat)

  function ItemAt(pattern: string, at: nat): (item: ClassItem)
    requires at < |pattern|
    ensures at < item.next <= |pattern|
  {
    if pattern[at] == '\\' && at + 1 < |pattern| then ClassItem(pattern[at + 1], pattern[at + 1], at + 2)
    else if at + 2 < |pattern| && pattern[at + 1] == '-' then
      if pattern[at] > pattern[at + 2] then ClassItem(pattern[at + 2], pattern[at], at + 3)
      else ClassItem(pattern[at], pattern[at + 2], at + 3)
    else ClassItem(pattern[at], pattern[at], at + 1)
  }

  /** Whether some element of the class from `at` on admits the byte. */
  predicate ClassAdmits(pattern: string, at: nat, value: char)
    requires at <= |pattern|
    decreases |pattern| - at
  {
    at < |pattern| && pattern[at] != ']' &&
    var item := ItemAt(pattern, at);
    item.low <= value <= item.high || ClassAdmits(pattern, item.next, value)
  }

  /** Just past the closing bracket, or the end of an unterminated class. */
  function ClassEnd(pattern: string, at: nat): (end: nat)
    requires at <= |pattern|
    ensures at <= end <= |pattern|
    decreases |pattern| - at
  {
    if at == |pattern| then at
    else if pattern[at] == ']' then at + 1
    else ClassEnd(pattern, ItemAt(pattern, at).next)
  }

  // ----- the meaning of a pattern

  datatype Token =
    | Star
    | AnyByte
    | Class(negated: bool, at: nat)   // its elements start at `at`
    | Literal(value: char)

  function TokenAt(pattern: string, p: nat): Token
    requires p < |pattern|
  {
    if pattern[p] == '*' then Star
    else if pattern[p] == '?' then AnyByte
    else if pattern[p] == '[' then
      if p + 1 < |pattern| && pattern[p + 1] == '^' then Class(true, p + 2) else Class(false, p + 1)
    else if pattern[p] == '\\' && p + 1 < |pattern| then Literal(pattern[p + 1])
    else Literal(pattern[p])
  }

  /** Where the token after the one at `p` starts; it does not depend on the text. */
  function TokenEnd(pattern: string, p: nat): (end: nat)
    requires p < |pattern|
    ensures p < end <= |pattern|
  {
    match TokenAt(pattern, p)
    case Class(_, at) => ClassEnd(pattern, at)
    case Literal(_) => if pattern[p] == '\\' && p + 1 < |pattern| then p + 2 else p + 1
    case _ => p + 1
  }

  predicate TokenAdmits(pattern: string, p: nat, value: char)
    requires p < |pattern|
  {
    match TokenAt(pattern, p)
    case Star => false
    case AnyByte => true
    case Class(negated, at) => negated != ClassAdmits(pattern, at, value)
    case Literal(c) => c == value
  }

  /** The pattern from `p` on denotes the text from `t` on: a star stands for any
      run of bytes, any other token for exactly one. */
  predicate Denotes(pattern: string, p: nat, text: string, t: nat)
    requires p <= |pattern| && t <= |text|
    decreases |pattern| - p + |text| - t
  {
    if p == |pattern| then t == |text|
    else if pattern[p] == '*' then
      Denotes(pattern, p + 1, text, t) || (t < |text| && Denotes(pattern, p, text, t + 1))
    else
      t < |text| && TokenAdmits(pattern, p, text[t]) && Denotes(pattern, TokenEnd(pattern, p), text, t + 1)
  }

  /** An empty text matches the empty pattern only, not even a bare star. */
  predicate Matches(pattern: string, text: string) {
    if text == "" then pattern == "" else Denotes(pattern, 0, text, 0)
  }

  // ----- stars

  /** A star that matches from somewhere later also matches from here. */
  lemma {:induction false} StarReachesBack(pattern: string, p: nat, text: string, t: nat, u: nat)
    requires p < |pattern| && pattern[p] == '*' && t <= u <= |text|
    requires Denotes(pattern, p, text, u)
    ensures Denotes(pattern, p, text, t)
    decreases u - t
  {
    if t < u {
      StarReachesBack(pattern, p, text, t + 1, u);
    }
  }

  ghost predicate DenotesFromSomewhere(pattern: string, p: nat, text: string, t: nat)
    requires p <= |pattern|
  {
    exists u :: t <= u <= |text| && Denotes(pattern, p, text, u)
  }

  /** A star denotes exactly what the rest of the pattern denotes from some
      position on. */
  lemma {:induction false} StarIsAnyRun(pattern: string, p: nat, text: string, t: nat)
    requires p < |pattern| && pattern[p] == '*' && t <= |text|
    ensures Denotes(pattern, p, text, t) <==> DenotesFromSomewhere(pattern, p + 1, text, t)
    decreases |text| - t
  {
    if t < |text| {
      StarIsAnyRun(pattern, p, text, t + 1);
    }
    if DenotesFromSomewhere(pattern, p + 1, text, t) {
      var u :| t <= u <= |text| && Denotes(pattern, p + 1, text, u);
      assert Denotes(pattern, p, text, u);
      StarReachesBack(pattern, p, text, t, u);
    }
  }

  /** A run of stars means what its last star means. */
  lemma {:induction false} StarsCollapse(pattern: string, p: nat, q: nat, text: string, t: nat)
    requires p < q <= |pattern| && t <= |text|
    requires forall i :: p <= i < q ==> pattern[i] == '*'
    ensures Denotes(pattern, p, text, t) <==> Denotes(pattern, q - 1, text, t)
    decreases q - p
  {
    if p + 1 < q {
      StarIsAnyRun(pattern, p, text, t);
      if Denotes(pattern, p, text, t) {
        var u :| t <= u <= |text| && Denotes(pattern, p + 1, text, u);
        StarReachesBack(pattern, p + 1, text, t, u);
      }
      StarsCollapse(pattern, p + 1, q, text, t);
    }
  }

  lemma TrailingStarsDenoteAnything(pattern: string, p: nat, text: string, t: nat)
    requires p < |pattern| && t <= |text|
    requires forall i :: p <= i < |pattern| ==> pattern[i] == '*'
    ensures Denotes(pattern, p, text, t)
  {
    StarsCollapse(pattern, p, |pattern|, text, t);
    assert Denotes(pattern, |pattern|, text, |text|);
    StarIsAnyRun(pattern, |pattern| - 1, text, t);
  }

  /** At the end of the text only stars can be left. */
  lemma {:induction false} OnlyStarsDenoteNothing(pattern: string, p: nat, q: nat, text: string)
    requires p <= q <= |pattern|
    requires forall i :: p <= i < q ==> pattern[i] == '*'
    requires q < |pattern| ==> pattern[q] != '*'
    ensures Denotes(pattern, p, text, |text|) <==> q == |pattern|
    decreases q - p
  {
    if p < q {
      OnlyStarsDenoteNothing(pattern, p + 1, q, text);
    }
  }

  // ----- the production matcher

  method MatchGlobCharacterClass(pattern: string, open: nat, value: char) returns (matched: bool, next: nat)
    requires open < |pattern| && pattern[open] == '['
    ensures matched == TokenAdmits(pattern, open, value)
    ensures next == TokenEnd(pattern, open)
  {
    var i := open + 1;
    var negate := false;
    if i < |pattern| && pattern[i] == '^' {
      negate := true;
      i := i + 1;
    }
    var start := i;
    matched := false;
    while i < |pattern| && pattern[i] != ']'
      invariant start <= i <= |pattern|
      invariant ClassAdmits(pattern, start, value) == (matched || ClassAdmits(pattern, i, value))
      invariant ClassEnd(pattern, start) == ClassEnd(pattern, i)
    {
      ghost var item := ItemAt(pattern, i);
      var first := pattern[i];
      i := i + 1;
      var escaped := false;
      if first == '\\' && i < |pattern| {
        first := pattern[i];
        i := i + 1;
        escaped := true;
      }
      if !escaped && i + 1 < |pattern| && pattern[i] == '-' {
        i := i + 1;
        var last := pattern[i];
        i := i + 1;
        if first > last {
          first, last := last, first;
        }
        assert item == ClassItem(first, last, i);
        matched := matched || (value >= first && value <= last);
      } else {
        assert item == ClassItem(first, first, i);
        matched := matched || value == first;
      }
    }
    next := if i < |pattern| then i + 1 else |pattern|;
    matched := if negate then !matched else matched;
  }

  /** What is known while the matcher holds a star: everything after the star is
      still possible, and the tokens tried since the star fit equally far from any
      later starting point, because each takes exactly one byte. */
  ghost predicate StarHeld(pattern: string, text: string, star: nat, starText: nat, p: nat, t: nat) {
    0 < star <= p <= |pattern| && starText <= t <= |text| && star < |pattern| && pattern[star] != '*' &&
    pattern[star - 1] == '*' &&
    (Denotes(pattern, 0, text, 0) <==> Denotes(pattern, star - 1, text, starText)) &&
    (Denotes(pattern, star, text, starText) <==> Denotes(pattern, p, text, t)) &&
    forall u {:trigger Denotes(pattern, star, text, u)} ::
      starText <= u <= |text| && Denotes(pattern, star, text, u) ==>
      u + (t - starText) <= |text| && Denotes(pattern, p, text, u + (t - starText))
  }

  /** Reaching another star, the earlier one can be forgotten. */
  lemma LaterStarSuffices(pattern: string, text: string, star: nat, starText: nat, p: nat, t: nat)
    requires StarHeld(pattern, text, star, starText, p, t) && p < |pattern| && pattern[p] == '*'
    ensures Denotes(pattern, 0, text, 0) <==> Denotes(pattern, p, text, t)
  {
    StarIsAnyRun(pattern, star - 1, text, starText);
    if Denotes(pattern, star - 1, text, starText) {
      var u :| starText <= u <= |text| && Denotes(pattern, star, text, u);
      StarReachesBack(pattern, p, text, t, u + (t - starText));
    }
  }

  /** Matching one more byte keeps what is known about the star. */
  lemma StarHeldAdvances(pattern: string, text: string, star: nat, starText: nat, p: nat, t: nat)
    requires StarHeld(pattern, text, star, starText, p, t) && p < |pattern| && pattern[p] != '*' && t < |text|
    requires TokenAdmits(pattern, p, text[t])
    ensures StarHeld(pattern, text, star, starText, TokenEnd(pattern, p), t + 1)
  {
    forall u | starText <= u <= |text| && Denotes(pattern, star, text, u)
      ensures u + (t + 1 - starText) <= |text| && Denotes(pattern, TokenEnd(pattern, p), text, u + (t + 1 - starText))
    {
      assert Denotes(pattern, p, text, u + (t - starText));
    }
  }

  /** After a mismatch the star takes one byte more. */
  lemma StarTakesOneMore(pattern: string, text: string, star: nat, starText: nat, p: nat, t: nat)
    requires StarHeld(pattern, text, star, starText, p, t) && starText < |text| && !Denotes(pattern, p, text, t)
    ensures StarHeld(pattern, text, star, starText + 1, star, starText + 1)
  {
  }

  method RedisGlobMatch(pattern: string, text: string) returns (r: bool)
    ensures r == Matches(pattern, text)
  {
    if text == "" { return pattern == ""; }
    var p: nat, t: nat := 0, 0;
    var starPattern: int := -1;
    var starText: nat := 0;
    while t < |text|
      invariant p <= |pattern| && t <= |text|
      invariant starPattern == -1 ==> (Denotes(pattern, 0, text, 0) <==> Denotes(pattern, p, text, t)) && starText == 0
      invariant starPattern != -1 ==> 0 < starPattern && StarHeld(pattern, text, starPattern, starText, p, t)
      decreases |pattern| - starPattern, |text| - starText, |text| - t, |pattern| - p
    {
      if p < |pattern| && pattern[p] == '*' {
        ghost var first: nat := p;
        if starPattern != -1 { LaterStarSuffices(pattern, text, starPattern, starText, p, t); }
        while p < |pattern| && pattern[p] == '*'
          invariant first <= p <= |pattern|
          invariant forall i :: first <= i < p ==> pattern[i] == '*'
        {
          p := p + 1;
        }
        StarsCollapse(pattern, first, p, text, t);
        if p == |pattern| {
          TrailingStarsDenoteAnything(pattern, first, text, t);
          return true;
        }
        starPattern := p;
        starText := t;
        continue;
      }
      var matched, next: nat := false, p;
      ghost var token: nat := p;
      if p < |pattern| {
        if pattern[p] == '?' {
          matched := true;
          next := p + 1;
        } else if pattern[p] == '[' {
          matched, next := MatchGlobCharacterClass(pattern, p, text[t]);
        } else {
          if pattern[p] == '\\' && p + 1 < |pattern| {
            p := p + 1;
          }
          matched := pattern[p] == text[t];
          next := p + 1;
        }
        assert matched == TokenAdmits(pattern, token, text[t]) && next == TokenEnd(pattern, token);
      }
      if matched {
        if starPattern != -1 { StarHeldAdvances(pattern, text, starPattern, starText, token, t); }
        p := next;
        t := t + 1;
        continue;
      }
      assert !Denotes(pattern, token, text, t);
      if starPattern != -1 && starText < |text| {
        StarTakesOneMore(pattern, text, starPattern, starText, token, t);
        p := starPattern;
        starText := starText + 1;
        t := starText;
        continue;
      }
      return false;
    }
    ghost var rest: nat := p;
    while p < |pattern| && pattern[p] == '*'
      invariant rest <= p <= |pattern|
      invariant forall i :: rest <= i < p ==> pattern[i] == '*'
    {
      p := p + 1;
    }
    OnlyStarsDenoteNothing(pattern, rest, p, text);
    r := p == |pattern|;
    if starPattern != -1 {
      EndOfText(pattern, text, starPattern, starText, rest);
    }
  }

  /** With the text used up, no later start of the star can do better. */
  lemma EndOfText(pattern: string, text: string, star: nat, starText: nat, p: nat)
    requires StarHeld(pattern, text, star, starText, p, |text|)
    ensures Denotes(pattern, 0, text, 0) <==> Denotes(pattern, p, text, |text|)
  {
    StarIsAnyRun(pattern, star - 1, text, starText);
    if Denotes(pattern, star - 1, text, starText) {
      var u :| starText <= u <= |text| && Denotes(pattern, star, text, u);
      assert u == starText;
    } else if Denotes(pattern, star, text, starText) {
      assert false;
    }
  }
}
