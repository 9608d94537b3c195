/** The basic address check of the join form's server action: the pattern
    `^[^\s@]+@[^\s@]+\.[^\s@]+$`, once as the pattern reads and once as a direct check. */
module Email {
  import opened Text

  /** A character of the class `[^\s@]`. */
  predicate Plain(c: char) {
    !IsWhitespace(c) && c != '@'
  }

  /** The pattern as written: an '@' at `at` and a '.' at `dot` cut the string into three
      non-empty runs of plain characters (dots are plain, so the last runs may hold more). */
  ghost predicate MatchesPattern(s: string) {
    exists at, dot | 0 < at && at + 1 < dot && dot + 1 < |s| ::
      && s[at] == '@' && s[dot] == '.'
      && (forall k | 0 <= k < at :: Plain(s[k]))
      && (forall k | at < k < dot :: Plain(s[k]))
      && (forall k | dot < k < |s| :: Plain(s[k]))
  }

  /** Position of the first `c` in `s`, or `|s|` when there is none. */
  function IndexOf(s: string, c: char): (r: nat)
    ensures r <= |s|
    ensures r < |s| ==> s[r] == c
    ensures forall k | 0 <= k < r :: s[k] != c
  {
    if s == [] then 0 else if s[0] == c then 0 else 1 + IndexOf(s[1..], c)
  }

  /** The check the action performs: exactly one '@', no whitespace, a non-empty local
      part, and a '.' strictly inside the domain, with text on both sides of it. */
  predicate IsValidEmail(s: string) {
    var at := IndexOf(s, '@');
    && 0 < at < |s|
    && (forall k | at < k < |s| :: s[k] != '@')
    && (forall k | 0 <= k < |s| :: !IsWhitespace(s[k]))
    && (exists dot | at + 1 < dot < |s| - 1 :: s[dot] == '.')
  }

  lemma CheckImpliesPattern(s: string)
    requires IsValidEmail(s)
    ensures MatchesPattern(s)
  {
    var at := IndexOf(s, '@');
    var dot :| at + 1 < dot < |s| - 1 && s[dot] == '.';
    forall k | 0 <= k < |s| && k != at ensures Plain(s[k]) {
      assert !IsWhitespace(s[k]);
      assert s[k] != '@';
    }
    assert s[at] == '@' && s[dot] == '.';
  }

  lemma PatternImpliesCheck(s: string)
    requires MatchesPattern(s)
    ensures IsValidEmail(s)
  {
    var at, dot :| 0 < at && at + 1 < dot && dot + 1 < |s|
      && s[at] == '@' && s[dot] == '.'
      && (forall k | 0 <= k < at :: Plain(s[k]))
      && (forall k | at < k < dot :: Plain(s[k]))
      && (forall k | dot < k < |s| :: Plain(s[k]));
    assert IndexOf(s, '@') == at by {
      assert forall k | 0 <= k < at :: s[k] != '@';
    }
    assert !IsWhitespace('.');
    forall k | 0 <= k < |s| ensures !IsWhitespace(s[k]) {
      if k != at && k != dot {
        assert Plain(s[k]);
      }
    }
    forall k | at < k < |s| ensures s[k] != '@' {
      if k != dot {
        assert Plain(s[k]);
      }
    }
    assert at + 1 < dot < |s| - 1 && s[dot] == '.';
  }

  /** The direct check accepts exactly the strings the pattern matches. */
  lemma EmailCheckMatchesPattern(s: string)
    ensures IsValidEmail(s) <==> MatchesPattern(s)
  {
    if IsValidEmail(s) { CheckImpliesPattern(s); }
    if MatchesPattern(s) { PatternImpliesCheck(s); }
  }
}
