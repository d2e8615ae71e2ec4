/**
 * The e-mail validator of src/validators.ts.
 *
 * `validate_email` answers `'is required'` for a missing or empty input,
 * `'is invalid'` when the regular expression `.+@.+` finds no match, and
 * `true` otherwise. The expression has no `s` flag, so `.` matches any
 * character except the ECMAScript line terminators, and it has no anchors,
 * so a match anywhere in the input is enough.
 */
module Validators {
  import opened Wrappers

  const IsRequired: string := "is required"
  const IsInvalid: string := "is invalid"

  /** The validator's `string | true` result: a reason, or the literal `true`. */
  datatype Verdict = Reason(text: string) | Accepted

  /** The characters `.` refuses without the `s` flag: LF, CR, LS and PS. */
  predicate IsLineTerminator(c: char) {
    c == '\n' || c == '\r' || c == '\U{2028}' || c == '\U{2029}'
  }

  /** Every character of `t` is matched by `.`. */
  predicate AllDot(t: string) {
    forall k | 0 <= k < |t| :: !IsLineTerminator(t[k])
  }

  /** `t` as a whole belongs to the language of `.+@.+`. */
  predicate InPattern(t: string) {
    exists j | 0 < j < |t| - 1 :: t[j] == '@' && AllDot(t[..j]) && AllDot(t[j + 1..])
  }

  /** `s.match(/.+@.+/)` succeeds: some contiguous piece of `s` is in the language. */
  predicate Matches(s: string) {
    exists a, b | 0 <= a <= b <= |s| :: InPattern(s[a..b])
  }

  /** The `'@'` at index `i` has a `.`-character right before it and right after it. */
  predicate FlankedAt(s: string, i: int) {
    0 < i < |s| - 1 && s[i] == '@' && !IsLineTerminator(s[i - 1]) && !IsLineTerminator(s[i + 1])
  }

  /** `validate_email`; `None` stands for both `null` and `undefined`. */
  function ValidateEmail(email: Option<string>): (r: Verdict)
    ensures r == Reason(IsRequired) || r == Reason(IsInvalid) || r == Accepted
    ensures r == Reason(IsRequired) <==> email.None? || email.value == ""
  {
    if email.None? || email.value == "" then Reason(IsRequired)
    else if !Matches(email.value) then Reason(IsInvalid)
    else Accepted
  }

  /** The regular expression matches exactly when some `'@'` is flanked by `.`-characters. */
  lemma MatchesIffFlanked(s: string)
    ensures Matches(s) <==> exists i :: FlankedAt(s, i)
  {
    if i :| FlankedAt(s, i) {
      var t := s[i - 1..i + 2];
      assert t[1] == '@' && t[..1] == [s[i - 1]] && t[2..] == [s[i + 1]];
      assert InPattern(t);
    }
    if Matches(s) {
      var a, b :| 0 <= a <= b <= |s| && InPattern(s[a..b]);
      var t := s[a..b];
      var j :| 0 < j < |t| - 1 && t[j] == '@' && AllDot(t[..j]) && AllDot(t[j + 1..]);
      assert t[..j][j - 1] == s[a + j - 1];
      assert t[j + 1..][0] == s[a + j + 1];
      assert FlankedAt(s, a + j);
    }
  }

  /** A non-empty input is accepted exactly when some `'@'` is flanked by `.`-characters. */
  lemma AcceptedIffFlanked(s: string)
    ensures ValidateEmail(Some(s)) == Accepted <==> exists i :: FlankedAt(s, i)
  {
    MatchesIffFlanked(s);
  }

  /** A non-empty input without any `'@'` is invalid. */
  lemma NoAtSignIsInvalid(s: string)
    requires s != "" && '@' !in s
    ensures ValidateEmail(Some(s)) == Reason(IsInvalid)
  {
    AcceptedIffFlanked(s);
    forall i | 0 <= i < |s| ensures !FlankedAt(s, i) {
      assert s[i] in s;
    }
  }

  /** Being unanchored, the test accepts every string that contains an accepted one. */
  lemma AcceptedIsClosedUnderExtension(p: string, s: string, q: string)
    requires ValidateEmail(Some(s)) == Accepted
    ensures ValidateEmail(Some(p + s + q)) == Accepted
  {
    AcceptedIffFlanked(s);
    var i :| FlankedAt(s, i);
    var w := p + s + q;
    assert w[|p| + i - 1] == s[i - 1] && w[|p| + i] == s[i] && w[|p| + i + 1] == s[i + 1];
    assert FlankedAt(w, |p| + i);
    AcceptedIffFlanked(w);
  }

  /** An input whose every `'@'` touches an end or a line terminator is invalid. */
  lemma UnflankedIsInvalid(s: string)
    requires s != ""
    requires forall i | 0 <= i < |s| && s[i] == '@' ::
      i == 0 || i == |s| - 1 || IsLineTerminator(s[i - 1]) || IsLineTerminator(s[i + 1])
    ensures ValidateEmail(Some(s)) == Reason(IsInvalid)
  {
    AcceptedIffFlanked(s);
  }

  /** The outcomes on a few characteristic inputs. */
  lemma Examples()
    ensures ValidateEmail(None) == Reason(IsRequired)
    ensures ValidateEmail(Some("")) == Reason(IsRequired)
    ensures ValidateEmail(Some("foo")) == Reason(IsInvalid)
    ensures ValidateEmail(Some(" ")) == Reason(IsInvalid)
    ensures ValidateEmail(Some("a@")) == Reason(IsInvalid)
    ensures ValidateEmail(Some("@b")) == Reason(IsInvalid)
    ensures ValidateEmail(Some("@")) == Reason(IsInvalid)
    ensures ValidateEmail(Some("a\n@b")) == Reason(IsInvalid)
    ensures ValidateEmail(Some("a@b.c")) == Accepted
  {
    NoAtSignIsInvalid("foo");
    NoAtSignIsInvalid(" ");
    UnflankedIsInvalid("a@");
    UnflankedIsInvalid("@b");
    UnflankedIsInvalid("@");
    UnflankedIsInvalid("a\n@b");
    assert FlankedAt("a@b.c", 1);
    AcceptedIffFlanked("a@b.c");
  }
}
