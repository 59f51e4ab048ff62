/** Two independent readings of a glob pattern: as a division of the text into
    segments, and as Valkey's recursive matcher, which the tests use as oracle. */
module GlobReference {
  import opened Glob

  // ----- segments

  function Concat(segments: seq<string>): string {
    if segments == [] then "" else segments[0] + Concat(segments[1..])
  }

  /** One segment per token from `p` on: any string for a star, one admitted byte
      for any other token. */
  predicate Fits(pattern: string, p: nat, segments: seq<string>)
    requires p <= |pattern|
    decreases |pattern| - p
  {
    if p == |pattern| then segments == []
    else
      segments != [] &&
      (pattern[p] == '*' || (|segments[0]| == 1 && TokenAdmits(pattern, p, segments[0][0]))) &&
      Fits(pattern, TokenEnd(pattern, p), segments[1..])
  }

  ghost predicate Divides(pattern: string, p: nat, text: string, segments: seq<string>)
    requires p <= |pattern|
  {
    Fits(pattern, p, segments) && Concat(segments) == text
  }

  lemma {:induction false} DenotedTextDivides(pattern: string, p: nat, text: string, t: nat)
    returns (segments: seq<string>)
    requires p <= |pattern| && t <= |text| && Denotes(pattern, p, text, t)
    ensures Divides(pattern, p, text[t..], segments)
    decreases |pattern| - p + |text| - t
  {
    if p == |pattern| {
      segments := [];
    } else if pattern[p] != '*' {
      var rest := DenotedTextDivides(pattern, TokenEnd(pattern, p), text, t + 1);
      segments := [[text[t]]] + rest;
      assert segments[1..] == rest && [text[t]] + text[t + 1..] == text[t..];
    } else if Denotes(pattern, p + 1, text, t) {
      var rest := DenotedTextDivides(pattern, p + 1, text, t);
      segments := [""] + rest;
      assert segments[1..] == rest && "" + text[t..] == text[t..];
    } else {
      var longer := DenotedTextDivides(pattern, p, text, t + 1);
      segments := [[text[t]] + longer[0]] + longer[1..];
      assert segments[1..] == longer[1..];
      assert [text[t]] + longer[0] + Concat(longer[1..]) == [text[t]] + (longer[0] + Concat(longer[1..]));
      assert [text[t]] + text[t + 1..] == text[t..];
    }
  }

  lemma {:induction false} DividedTextIsDenoted(pattern: string, p: nat, text: string, t: nat, segments: seq<string>)
    requires p <= |pattern| && t <= |text| && Divides(pattern, p, text[t..], segments)
    ensures Denotes(pattern, p, text, t)
    decreases |segments|
  {
    if p < |pattern| {
      var u := t + |segments[0]|;
      assert text[t..][|segments[0]|..] == text[u..];
      assert Concat(segments)[|segments[0]|..] == Concat(segments[1..]);
      if pattern[p] != '*' {
        assert text[t] == text[t..][0] == segments[0][0];
      }
      DividedTextIsDenoted(pattern, TokenEnd(pattern, p), text, u, segments[1..]);
      if pattern[p] == '*' {
        assert DenotesFromSomewhere(pattern, p + 1, text, t);
        StarIsAnyRun(pattern, p, text, t);
      }
    }
  }

  /** A non-empty text matches exactly when it can be cut into one segment per
      token of the pattern. */
  lemma MatchingIsDividing(pattern: string, text: string)
    requires text != ""
    ensures Matches(pattern, text) <==> exists segments :: Divides(pattern, 0, text, segments)
  {
    assert text[0..] == text;
    if Matches(pattern, text) {
      var segments := DenotedTextDivides(pattern, 0, text, 0);
      assert Divides(pattern, 0, text, segments);
    }
    if exists segments :: Divides(pattern, 0, text, segments) {
      var segments :| Divides(pattern, 0, text, segments);
      DividedTextIsDenoted(pattern, 0, text, 0, segments);
    }
  }

  // ----- Valkey's matcher

  /** Valkey's class loop: stops on the closing bracket or on the last byte. */
  method ValkeyClass(pattern: string, start: nat, value: char) returns (matched: bool, p: nat)
    requires 0 < start <= |pattern|
    ensures matched == ClassAdmits(pattern, start, value)
    ensures p + 1 == ClassEnd(pattern, start)
  {
    matched := false;
    p := start;
    while true
      invariant start <= p <= |pattern|
      invariant ClassAdmits(pattern, start, value) == (matched || ClassAdmits(pattern, p, value))
      invariant ClassEnd(pattern, start) == ClassEnd(pattern, p)
      decreases |pattern| - p
    {
      if |pattern| - p >= 2 && pattern[p] == '\\' {
        p := p + 1;
        matched := matched || pattern[p] == value;
      } else if p < |pattern| && pattern[p] == ']' {
        break;
      } else if p == |pattern| {
        p := p - 1;
        break;
      } else if |pattern| - p >= 3 && pattern[p + 1] == '-' {
        var first, last := pattern[p], pattern[p + 2];
        if first > last {
          first, last := last, first;
        }
        matched := matched || (value >= first && value <= last);
        p := p + 2;
      } else {
        matched := matched || pattern[p] == value;
      }
      p := p + 1;
    }
  }

  /** What has been consumed so far: it fits equally far from any later start. */
  ghost predicate Consumed(pattern: string, text: string, p0: nat, t0: nat, p: nat, t: nat) {
    p0 <= p <= |pattern| && t0 <= t <= |text| &&
    (Denotes(pattern, p0, text, t0) <==> Denotes(pattern, p, text, t)) &&
    forall u {:trigger Denotes(pattern, p0, text, u)} :: t0 <= u <= |text| && Denotes(pattern, p0, text, u) ==>
      u + (t - t0) <= |text| && Denotes(pattern, p, text, u + (t - t0))
  }

  ghost predicate NeverDenotes(pattern: string, p: nat, text: string, t: nat)
    requires p <= |pattern|
  {
    forall u :: t <= u <= |text| ==> !Denotes(pattern, p, text, u)
  }

  lemma ConsumedAdvances(pattern: string, text: string, p0: nat, t0: nat, p: nat, t: nat)
    requires Consumed(pattern, text, p0, t0, p, t) && p < |pattern| && pattern[p] != '*' && t < |text|
    requires TokenAdmits(pattern, p, text[t])
    ensures Consumed(pattern, text, p0, t0, TokenEnd(pattern, p), t + 1)
  {
    forall u | t0 <= u <= |text| && Denotes(pattern, p0, text, u)
      ensures u + (t + 1 - t0) <= |text| && Denotes(pattern, TokenEnd(pattern, p), text, u + (t + 1 - t0))
    {
      assert Denotes(pattern, p, text, u + (t - t0));
    }
  }

  /** A star that fails from here fails from every later start too: this is what
      makes it right to give up on longer matches. */
  lemma FailedStarFailsLater(pattern: string, text: string, p0: nat, t0: nat, p: nat, t: nat)
    requires Consumed(pattern, text, p0, t0, p, t) && p < |pattern| && pattern[p] == '*'
    requires !Denotes(pattern, p, text, t)
    ensures NeverDenotes(pattern, p0, text, t0)
  {
    forall u | t0 <= u <= |text|
      ensures !Denotes(pattern, p0, text, u)
    {
      if Denotes(pattern, p0, text, u) {
        StarReachesBack(pattern, p, text, t, u + (t - t0));
      }
    }
  }

  /** Consecutive stars are consumed as one. */
  lemma ConsumedStars(pattern: string, text: string, p0: nat, t0: nat, p: nat, q: nat, t: nat)
    requires Consumed(pattern, text, p0, t0, p, t) && p <= q < |pattern|
    requires forall i :: p <= i <= q ==> pattern[i] == '*'
    ensures Consumed(pattern, text, p0, t0, q, t)
  {
    StarsCollapse(pattern, p, q + 1, text, t);
    forall u | t0 <= u <= |text| && Denotes(pattern, p0, text, u)
      ensures u + (t - t0) <= |text| && Denotes(pattern, q, text, u + (t - t0))
    {
      StarsCollapse(pattern, p, q + 1, text, u + (t - t0));
    }
  }

  /** The loop over the start positions of one star. */
  method ValkeyStar(pattern: string, star: nat, text: string, t0: nat) returns (matched: bool, skip: bool)
    requires star + 1 < |pattern| && pattern[star] == '*' && pattern[star + 1] != '*' && t0 < |text|
    ensures matched == Denotes(pattern, star, text, t0)
    ensures skip == !matched
    decreases |pattern| - star, 0
  {
    StarIsAnyRun(pattern, star, text, t0);
    ghost var rest := star + 1;
    var t := t0;
    while t < |text|
      invariant t0 <= t <= |text|
      invariant forall u :: t0 <= u < t ==> !Denotes(pattern, rest, text, u)
    {
      matched, skip := ValkeyMatch(pattern, star + 1, text, t);
      if matched { return true, false; }
      if skip {
        assert NeverDenotes(pattern, star + 1, text, t);
        return false, true;
      }
      t := t + 1;
    }
    return false, true;
  }

  method ValkeyMatch(pattern: string, p0: nat, text: string, t0: nat) returns (matched: bool, skip: bool)
    requires p0 <= |pattern| && t0 < |text|
    ensures matched == Denotes(pattern, p0, text, t0)
    ensures skip ==> NeverDenotes(pattern, p0, text, t0)
    decreases |pattern| - p0, 1
  {
    var p: nat, t: nat := p0, t0;
    skip := false;
    while p < |pattern| && t < |text|
      invariant Consumed(pattern, text, p0, t0, p, t)
      invariant t < |text|
      decreases |pattern| - p
    {
      ghost var token := p;
      if pattern[p] == '*' {
        while p + 1 < |pattern| && pattern[p + 1] == '*'
          invariant token <= p < |pattern|
          invariant forall i :: token <= i <= p ==> pattern[i] == '*'
        {
          p := p + 1;
        }
        ConsumedStars(pattern, text, p0, t0, token, p, t);
        if p + 1 == |pattern| {
          TrailingStarsDenoteAnything(pattern, p, text, t);
          return true, false;
        }
        matched, skip := ValkeyStar(pattern, p, text, t);
        if skip { FailedStarFailsLater(pattern, text, p0, t0, p, t); }
        return;
      } else if pattern[p] == '?' {
      } else if pattern[p] == '[' {
        p := p + 1;
        var negate := p < |pattern| && pattern[p] == '^';
        if negate { p := p + 1; }
        var inClass;
        inClass, p := ValkeyClass(pattern, p, text[t]);
        if negate { inClass := !inClass; }
        if !inClass { return false, false; }
      } else {
        if pattern[p] == '\\' && p + 1 < |pattern| { p := p + 1; }
        if pattern[p] != text[t] { return false, false; }
      }
      assert p + 1 == TokenEnd(pattern, token);
      ConsumedAdvances(pattern, text, p0, t0, token, t);
      t := t + 1;
      p := p + 1;
      if t == |text| {
        ghost var rest := p;
        while p < |pattern| && pattern[p] == '*'
          invariant rest <= p <= |pattern|
          invariant forall i :: rest <= i < p ==> pattern[i] == '*'
        {
          p := p + 1;
        }
        OnlyStarsDenoteNothing(pattern, rest, p, text);
        return p == |pattern|, false;
      }
    }
    matched := p == |pattern| && t == |text|;
  }

  method ValkeyGlobReference(pattern: string, text: string) returns (r: bool)
    ensures r == Matches(pattern, text)
  {
    if text == "" { return pattern == ""; }
    var skip;
    r, skip := ValkeyMatch(pattern, 0, text, 0);
  }
}
