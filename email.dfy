/**
  The e-mail address pattern `^[^\s@]+@[^\s@]+\.[^\s@]+$`, which the contact form
  (Contact.tsx) and the contact API handler (route.ts) each test against the untrimmed value.
*/
module EmailPattern {
  import opened Wrappers
  import opened Text

  /** A character of the class `[^\s@]`. */
  predicate IsAtomChar(c: char) {
    !IsSpace(c) && c != '@'
  }

  predicate AllAtom(s: string) {
    forall k :: 0 <= k < |s| ==> IsAtomChar(s[k])
  }

  /**
    The regular expression read off literally: `s` is a run of at least one `[^\s@]`, an '@' at
    index `at`, a run of at least one `[^\s@]`, a '.' at index `dot`, and a final run of at least one.
  */
  ghost predicate MatchesAt(s: string, at: int, dot: int) {
    && 0 < at && at + 1 < dot && dot + 1 < |s|
    && s[at] == '@' && s[dot] == '.'
    && AllAtom(s[..at]) && AllAtom(s[at + 1..dot]) && AllAtom(s[dot + 1..])
  }

  /** `emailRegex.test(s)`. */
  ghost predicate Matches(s: string) {
    exists at, dot :: MatchesAt(s, at, dot)
  }

  /** The index of the first occurrence of `c` in `s`. */
  function IndexOf(s: string, c: char): (r: Option<nat>)
    ensures r.None? <==> c !in s
    ensures r.Some? ==> r.value < |s| && s[r.value] == c && c !in s[..r.value]
    decreases |s|
  {
    if s == [] then None
    else if s[0] == c then Some(0)
    else
      match IndexOf(s[1..], c)
      case None => None
      case Some(i) =>
        assert s[..i + 1] == [s[0]] + s[1..][..i];
        Some(i + 1)
  }

  /** The text contains a '.' with at least one character on each side. */
  predicate HasInnerDot(d: string) {
    exists j :: 0 < j < |d| - 1 && d[j] == '.'
  }

  /** No character of `s` is white space, checked from the front. */
  predicate NoSpace(s: string) {
    s == [] || (!IsSpace(s[0]) && NoSpace(s[1..]))
  }

  lemma {:induction false} NoSpaceAt(s: string)
    ensures NoSpace(s) <==> forall k :: 0 <= k < |s| ==> !IsSpace(s[k])
  {
    if s != [] {
      NoSpaceAt(s[1..]);
      assert forall k :: 0 < k < |s| ==> s[k] == s[1..][k - 1];
    }
  }

  /**
    The shape the pattern accepts, one condition at a time: no white space, exactly one '@',
    a non-empty part before it, and after it a part holding a '.' with text on both sides.
  */
  predicate IsValidEmail(s: string) {
    && NoSpace(s)
    && match IndexOf(s, '@')
       case None => false
       case Some(at) => at > 0 && '@' !in s[at + 1..] && HasInnerDot(s[at + 1..])
  }

  /** The shape check accepts exactly the strings the regular expression matches. */
  lemma ValidEmailIffMatches(s: string)
    ensures IsValidEmail(s) <==> Matches(s)
  {
    NoSpaceAt(s);
    if IsValidEmail(s) {
      var at := IndexOf(s, '@').value;
      var d := s[at + 1..];
      var j :| 0 < j < |d| - 1 && d[j] == '.';
      var dot := at + 1 + j;
      assert s[dot] == '.';
      var local, host, tld := s[..at], s[at + 1..dot], s[dot + 1..];
      assert AllAtom(local) by {
        forall k | 0 <= k < |local| ensures IsAtomChar(local[k]) {
          assert local[k] == s[k];
        }
      }
      assert AllAtom(host) by {
        forall k | 0 <= k < |host| ensures IsAtomChar(host[k]) {
          assert host[k] == d[k] == s[at + 1 + k];
        }
      }
      assert AllAtom(tld) by {
        forall k | 0 <= k < |tld| ensures IsAtomChar(tld[k]) {
          assert tld[k] == d[j + 1 + k] == s[dot + 1 + k];
        }
      }
      assert MatchesAt(s, at, dot);
    }
    if Matches(s) {
      var at, dot :| MatchesAt(s, at, dot);
      forall k | 0 <= k < |s| ensures !IsSpace(s[k]) && (k != at ==> s[k] != '@') {
        if k < at { assert s[k] == s[..at][k]; }
        else if at < k < dot { assert s[k] == s[at + 1..dot][k - at - 1]; }
        else if dot < k { assert s[k] == s[dot + 1..][k - dot - 1]; }
      }
      assert '@' !in s[..at];
      assert IndexOf(s, '@') == Some(at);
      var d := s[at + 1..];
      assert '@' !in d by {
        forall k | 0 <= k < |d| ensures d[k] != '@' { assert d[k] == s[at + 1 + k]; }
      }
      assert d[dot - at - 1] == '.';
      assert HasInnerDot(d);
    }
  }
}
