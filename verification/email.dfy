/** The e-mail pattern shared by sign-up and login,
    `^[^\s@]+@[^\s@]+\.[^\s@]+$`, written out by hand: first as the shape
    the regular expression describes, then as an equivalent hand-written check, which the models of both
    forms use. */
module Email {
  import opened Base

  /** A character of the JavaScript class `\s`: the WhiteSpace and
      LineTerminator characters of ECMAScript. */
  predicate IsJsSpace(c: char)
  {
    || c == '\t' || c == '\n' || c == '\U{000B}' || c == '\U{000C}' || c == '\r'
    || c == ' ' || c == '\U{00A0}' || c == '\U{1680}'
    || ('\U{2000}' <= c <= '\U{200A}')
    || c == '\U{2028}' || c == '\U{2029}' || c == '\U{202F}' || c == '\U{205F}'
    || c == '\U{3000}' || c == '\U{FEFF}'
  }

  /** A character of the class `[^\s@]`. */
  predicate IsPlain(c: char)
  {
    !IsJsSpace(c) && c != '@'
  }

  predicate AllPlain(s: string)
  {
    forall i :: 0 <= i < |s| ==> IsPlain(s[i])
  }

  /** The pattern matches `s` with its '@' at `at` and its '.' at `dot`:
      `s[..at]`, `s[at+1..dot]` and `s[dot+1..]` are the three non-empty
      runs of `[^\s@]+`. */
  ghost predicate MatchesAt(s: string, at: int, dot: int)
  {
    && 0 < at && at + 1 < dot && dot + 1 < |s|
    && s[at] == '@' && s[dot] == '.'
    && AllPlain(s[..at]) && AllPlain(s[at + 1..dot]) && AllPlain(s[dot + 1..])
  }

  /** `emailPattern.test(s)`. */
  ghost predicate Matches(s: string)
  {
    exists at, dot :: MatchesAt(s, at, dot)
  }

  /** The domain (everything after the '@') has a '.' that is neither its
      first nor its last character. */
  predicate HasInnerDot(domain: string)
  {
    |domain| >= 3 && '.' in domain[1..|domain| - 1]
  }

  /** An equivalent hand-written check: a first '@' that is not the first
      character, no whitespace anywhere, no second '@', and an inner '.' in
      the domain. */
  predicate IsValid(s: string)
  {
    match FindFirst(s, c => c == '@')
    case None => false
    case Some(at) =>
      && at > 0
      && (forall i :: 0 <= i < |s| ==> !IsJsSpace(s[i]))
      && AllPlain(s[at + 1..])
      && HasInnerDot(s[at + 1..])
  }

  /** The check accepts exactly the strings the regular expression matches. */
  lemma IsValidIffMatches(s: string)
    ensures IsValid(s) <==> Matches(s)
  {
    if Matches(s) {
      var at, dot :| MatchesAt(s, at, dot);
      MatchesIsValid(s, at, dot);
    }
    if IsValid(s) {
      ValidMatches(s);
    }
  }

  lemma MatchesIsValid(s: string, at: int, dot: int)
    requires MatchesAt(s, at, dot)
    ensures IsValid(s)
  {
    var isAt := c => c == '@';
    forall j | 0 <= j < at
      ensures !isAt(s[j])
    {
      assert s[j] == s[..at][j];
    }
    var found := FindFirst(s, isAt);
    assert found == Some(at);
    var domain := s[at + 1..];
    forall i | 0 <= i < |domain|
      ensures IsPlain(domain[i])
    {
      var k := at + 1 + i;
      assert domain[i] == s[k];
      if k < dot {
        assert s[k] == s[at + 1..dot][i];
      } else if k > dot {
        assert s[k] == s[dot + 1..][k - dot - 1];
      }
    }
    forall i | 0 <= i < |s|
      ensures !IsJsSpace(s[i])
    {
      if i < at {
        assert s[i] == s[..at][i];
      } else if i > at {
        assert s[i] == domain[i - at - 1];
      }
    }
    assert domain[1..|domain| - 1][dot - at - 2] == '.';
  }

  lemma ValidMatches(s: string)
    requires IsValid(s)
    ensures Matches(s)
  {
    var isAt := c => c == '@';
    var at := FindFirst(s, isAt).value;
    var domain := s[at + 1..];
    var inner := domain[1..|domain| - 1];
    var m :| 0 <= m < |inner| && inner[m] == '.';
    var dot := at + 2 + m;
    assert inner[m] == domain[m + 1];
    assert domain[m + 1] == s[dot];
    forall i | 0 <= i < at
      ensures IsPlain(s[..at][i])
    {
      assert s[..at][i] == s[i] && !isAt(s[i]);
    }
    var host, tld := s[at + 1..dot], s[dot + 1..];
    forall i | 0 <= i < |host|
      ensures IsPlain(host[i])
    {
      assert host[i] == domain[i];
    }
    forall i | 0 <= i < |tld|
      ensures IsPlain(tld[i])
    {
      assert tld[i] == domain[dot - at + i];
    }
    assert MatchesAt(s, at, dot);
  }

  /** What an accepted address looks like: exactly one '@', which is not the
      first character, no whitespace, and a '.' after the '@' that is neither
      the first nor the last character of the domain. */
  lemma AcceptedShape(s: string)
    requires Matches(s)
    ensures exists at :: 0 < at < |s| && s[at] == '@' && HasInnerDot(s[at + 1..])
                         && forall i :: 0 <= i < |s| && s[i] == '@' ==> i == at
    ensures forall i :: 0 <= i < |s| ==> !IsJsSpace(s[i])
  {
    IsValidIffMatches(s);
    var at := FindFirst(s, c => c == '@').value;
    assert forall i :: at < i < |s| ==> s[i] == s[at + 1..][i - at - 1];
  }

  /** One character in each run is enough. */
  lemma ShortestAccepted()
    ensures Matches("a@b.c")
  {
    assert MatchesAt("a@b.c", 1, 3);
  }

  /** A '.' right after the '@' does not count: the host run is empty. */
  lemma DotRightAfterAtRejected()
    ensures !Matches("a@.c")
  {
    IsValidIffMatches("a@.c");
    assert FindFirst("a@.c", c => c == '@') == Some(1);
  }

  /** A '.' at the very end does not count: the last run is empty. */
  lemma TrailingDotRejected()
    ensures !Matches("a@b.")
  {
    IsValidIffMatches("a@b.");
    assert FindFirst("a@b.", c => c == '@') == Some(1);
  }
}
