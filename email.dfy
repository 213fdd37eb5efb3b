/**
 * The pragmatic address check of the waitlist endpoint, `isValidEmail`, and the
 * `String.prototype.trim` applied to the submitted address before it is checked.
 * Strings are sequences of characters.
 */
module Email {

  /**
   * JavaScript's `\s` class: the WhiteSpace and LineTerminator code points.
   * `String.prototype.trim` strips exactly the same set.
   */
  predicate IsSpace(c: char) {
    var n := c as int;
    n == 0x09 || n == 0x0A || n == 0x0B || n == 0x0C || n == 0x0D || n == 0x20 ||
    n == 0xA0 || n == 0x1680 || (0x2000 <= n <= 0x200A) || n == 0x2028 || n == 0x2029 ||
    n == 0x202F || n == 0x205F || n == 0x3000 || n == 0xFEFF
  }

  /** The character class `[^\s@]`. */
  predicate Plain(c: char) {
    !IsSpace(c) && c != '@'
  }

  /** The repetition `[^\s@]+`. */
  predicate PlainRun(s: string) {
    |s| > 0 && forall k :: 0 <= k < |s| ==> Plain(s[k])
  }

  /**
   * The pattern matches with its `@` at index `at` and its `\.` at index `dot`:
   * a plain run, `@`, a plain run, `.`, and a plain run make up the whole input.
   */
  predicate MatchAt(email: string, at: nat, dot: nat) {
    at < dot < |email| && email[at] == '@' && email[dot] == '.' &&
    PlainRun(email[..at]) && PlainRun(email[at + 1..dot]) && PlainRun(email[dot + 1..])
  }

  /** `/^[^\s@]+@[^\s@]+\.[^\s@]+$/.test(email)`. */
  predicate IsValidEmail(email: string): (ok: bool)
    // one character before `@`, one between `@` and `.`, and one after, so
    // the handler's `!email` test never decides anything the pattern does not
    ensures ok ==> |email| >= 5
  {
    exists at: nat, dot: nat | at < dot < |email| :: MatchAt(email, at, dot)
  }

  // ---------------------------------------------------------------------------
  // A structural reading of the same pattern
  // ---------------------------------------------------------------------------

  /** The number of occurrences of `c` in `s`. */
  function Count(s: string, c: char): nat {
    if s == [] then 0 else (if s[0] == c then 1 else 0) + Count(s[1..], c)
  }

  predicate NoSpace(s: string) {
    forall k :: 0 <= k < |s| ==> !IsSpace(s[k])
  }

  /** `domain` has a `.` that is neither its first nor its last character. */
  predicate HasInnerDot(domain: string) {
    exists k :: 0 < k < |domain| - 1 && domain[k] == '.'
  }

  /**
   * No whitespace, exactly one `@`, a non-empty part before it, and a part after
   * it holding a `.` somewhere other than at either end.
   */
  predicate WellFormedAddress(s: string) {
    NoSpace(s) && Count(s, '@') == 1 &&
    exists at :: 0 < at < |s| && s[at] == '@' && HasInnerDot(s[at + 1..])
  }

  lemma {:induction false} CountAbsent(s: string, c: char)
    ensures Count(s, c) == 0 <==> forall k :: 0 <= k < |s| ==> s[k] != c
  {
    if s != [] {
      CountAbsent(s[1..], c);
      assert forall k :: 1 <= k < |s| ==> s[k] == s[1..][k - 1];
    }
  }

  /** With `c` at index `i`, `c` occurs exactly once iff no other index holds it. */
  lemma {:induction false} CountOnce(s: string, c: char, i: nat)
    requires i < |s| && s[i] == c
    ensures Count(s, c) == 1 <==> forall k :: 0 <= k < |s| && k != i ==> s[k] != c
  {
    assert forall k :: 1 <= k < |s| ==> s[k] == s[1..][k - 1];
    if i == 0 {
      CountAbsent(s[1..], c);
    } else {
      CountOnce(s[1..], c, i - 1);
      CountAbsent(s[1..], c);
    }
  }

  /** In a match, every character other than the `@` is plain. */
  lemma MatchIsPlainElsewhere(s: string, at: nat, dot: nat)
    requires MatchAt(s, at, dot)
    ensures forall k :: 0 <= k < |s| && k != at ==> Plain(s[k])
  {
    forall k | 0 <= k < |s| && k != at
      ensures Plain(s[k])
    {
      if k < at {
        assert s[k] == s[..at][k];
      } else if k < dot {
        assert s[k] == s[at + 1..dot][k - at - 1];
      } else if k > dot {
        assert s[k] == s[dot + 1..][k - dot - 1];
      }
    }
  }

  lemma MatchIsWellFormed(s: string, at: nat, dot: nat)
    requires MatchAt(s, at, dot)
    ensures WellFormedAddress(s)
  {
    MatchIsPlainElsewhere(s, at, dot);
    CountOnce(s, '@', at);
    assert s[at + 1..][dot - at - 1] == '.';
  }

  lemma WellFormedMatches(s: string, at: nat, k: nat)
    requires NoSpace(s) && Count(s, '@') == 1
    requires 0 < at < |s| && s[at] == '@'
    requires 0 < k < |s[at + 1..]| - 1 && s[at + 1..][k] == '.'
    ensures MatchAt(s, at, at + 1 + k)
  {
    CountOnce(s, '@', at);
  }

  /** The pattern matches exactly the well-formed addresses. */
  lemma IsValidEmailIff(s: string)
    ensures IsValidEmail(s) <==> WellFormedAddress(s)
  {
    if IsValidEmail(s) {
      var at: nat, dot: nat :| at < dot < |s| && MatchAt(s, at, dot);
      MatchIsWellFormed(s, at, dot);
    }
    if WellFormedAddress(s) {
      var at :| 0 < at < |s| && s[at] == '@' && HasInnerDot(s[at + 1..]);
      var k :| 0 < k < |s[at + 1..]| - 1 && s[at + 1..][k] == '.';
      WellFormedMatches(s, at, k);
    }
  }

  /** One accepted address and three rejected ones, one for each way to fail. */
  lemma AddressExamples()
    ensures IsValidEmail("a@b.c")
    ensures !IsValidEmail("a@b") && !IsValidEmail("a b@c.d") && !IsValidEmail("a@@b.c")
  {
    var s := "a@b.c";
    assert MatchAt(s, 1, 3);
    IsValidEmailIff("a b@c.d");
    assert IsSpace("a b@c.d"[1]);
    IsValidEmailIff("a@@b.c");
    CountOnce("a@@b.c", '@', 1);
  }

  // ---------------------------------------------------------------------------
  // String.prototype.trim
  // ---------------------------------------------------------------------------

  /** Drops leading whitespace. */
  function TrimStart(s: string): (r: string)
    ensures |r| <= |s| && r == s[|s| - |r|..]
    ensures forall k :: 0 <= k < |s| - |r| ==> IsSpace(s[k])
    ensures r == [] || !IsSpace(r[0])
  {
    if s != [] && IsSpace(s[0]) then TrimStart(s[1..]) else s
  }

  /** Drops trailing whitespace. */
  function TrimEnd(s: string): (r: string)
    ensures |r| <= |s| && r == s[..|r|]
    ensures forall k :: |r| <= k < |s| ==> IsSpace(s[k])
    ensures r == [] || !IsSpace(r[|r| - 1])
  {
    if s != [] && IsSpace(s[|s| - 1]) then TrimEnd(s[..|s| - 1]) else s
  }

  /**
   * `s.trim()`: the slice of `s` left after removing whitespace from both ends;
   * what is removed is whitespace and what is kept starts and ends with a
   * non-whitespace character.
   */
  function Trim(s: string): (r: string)
    ensures var i := |s| - |TrimStart(s)|;
      i + |r| <= |s| && r == s[i..i + |r|] &&
      (forall k :: 0 <= k < i ==> IsSpace(s[k])) &&
      (forall k :: i + |r| <= k < |s| ==> IsSpace(s[k]))
    ensures r == [] || (!IsSpace(r[0]) && !IsSpace(r[|r| - 1]))
    ensures NoSpace(s) ==> r == s
  {
    TrimEnd(TrimStart(s))
  }

  /** An address the pattern accepts is left unchanged by trimming. */
  lemma TrimKeepsValid(s: string)
    requires IsValidEmail(s)
    ensures Trim(s) == s
  {
    IsValidEmailIff(s);
  }
}
