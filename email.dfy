/** The newsletter form's email check, `isValidEmail`: a test of the anchored
    pattern `^[^\s@]+@[^\s@]+\.[^\s@]+$`. */
module Email {
  import opened Text
  import opened Wrappers

  /** One character of the class `[^\s@]`. */
  predicate Plain(c: char) {
    c != '@' && !IsJsWhitespace(c)
  }

  /** Every character of `s` is in `[^\s@]`. */
  predicate AllPlain(s: string) {
    forall i :: 0 <= i < |s| ==> Plain(s[i])
  }

  /** `s` has a `.` that is neither its first nor its last character. */
  predicate HasInnerDot(s: string) {
    exists i :: 0 < i < |s| - 1 && s[i] == '.'
  }

  /** The language of the pattern, read off its shape: `s` is
      `A + "@" + B + "." + C` with `A`, `B`, `C` non-empty runs of `[^\s@]`,
      the `@` at index `at` and the `.` at index `dot`. */
  ghost predicate RegexMatch(s: string) {
    exists at, dot ::
      && 0 < at && at + 1 < dot && dot + 1 < |s|
      && s[at] == '@' && s[dot] == '.'
      && AllPlain(s[..at]) && AllPlain(s[at + 1..dot]) && AllPlain(s[dot + 1..])
  }

  /** The position of the first `c` in `s`, if any. */
  function IndexOf(s: string, c: char): (r: Option<nat>)
    ensures r.None? ==> c !in s
    ensures r.Some? ==> r.value < |s| && s[r.value] == c && c !in s[..r.value]
  {
    if s == [] then None
    else if s[0] == c then Some(0)
    else match IndexOf(s[1..], c)
      case None => None
      case Some(k) => assert s[..k + 1] == [s[0]] + s[1..][..k]; Some(k + 1)
  }

  /** `isValidEmail(email)`: split at the first `@`; the local part must be
      non-empty, neither part may hold whitespace or another `@`, and the
      domain needs a dot strictly inside it. */
  function IsValidEmail(s: string): bool {
    match IndexOf(s, '@')
    case None => false
    case Some(k) =>
      && k > 0
      && AllPlain(s[..k])
      && AllPlain(s[k + 1..])
      && HasInnerDot(s[k + 1..])
  }

  lemma AllPlainSlice(s: string, i: int, j: int)
    requires AllPlain(s) && 0 <= i <= j <= |s|
    ensures AllPlain(s[i..j])
  {
    assert forall k :: 0 <= k < j - i ==> s[i..j][k] == s[i + k];
  }

  /** Every string the split-at-`@` check accepts matches the pattern. */
  lemma ValidMatchesRegex(s: string)
    requires IsValidEmail(s)
    ensures RegexMatch(s)
  {
    var k := IndexOf(s, '@').value;
    var r := s[k + 1..];
    var i :| 0 < i < |r| - 1 && r[i] == '.';
    var dot := k + 1 + i;
    AllPlainSlice(r, 0, i);
    AllPlainSlice(r, i + 1, |r|);
    assert r[0..i] == s[k + 1..dot];
    assert r[i + 1..|r|] == s[dot + 1..];
    assert s[dot] == '.';
  }

  /** Runs of `[^\s@]` joined by a `[^\s@]` character form one run. */
  lemma AllPlainJoin(a: string, c: char, b: string)
    requires AllPlain(a) && Plain(c) && AllPlain(b)
    ensures AllPlain(a + [c] + b)
  {
    var w := a + [c] + b;
    forall j | 0 <= j < |w| ensures Plain(w[j]) {
      if j < |a| {
        assert w[j] == a[j];
      } else if j > |a| {
        assert w[j] == b[j - |a| - 1];
      }
    }
  }

  /** A string is its pieces around two cut positions. */
  lemma CutTwice(s: string, at: int, dot: int)
    requires 0 <= at < dot < |s|
    ensures s == s[..at] + [s[at]] + (s[at + 1..dot] + [s[dot]] + s[dot + 1..])
  {
    var r := s[at + 1..dot] + [s[dot]] + s[dot + 1..];
    assert r == s[at + 1..];
    assert s == s[..at] + [s[at]] + s[at + 1..];
  }

  /** Every string the pattern matches is accepted by the split-at-`@`
      check. */
  lemma RegexMatchIsValid(s: string)
    requires RegexMatch(s)
    ensures IsValidEmail(s)
  {
    var at, dot :|
      && 0 < at && at + 1 < dot && dot + 1 < |s|
      && s[at] == '@' && s[dot] == '.'
      && AllPlain(s[..at]) && AllPlain(s[at + 1..dot]) && AllPlain(s[dot + 1..]);
    var l, mid, tail := s[..at], s[at + 1..dot], s[dot + 1..];
    var r := mid + ['.'] + tail;
    CutTwice(s, at, dot);
    AllPlainJoin(mid, '.', tail);
    assert r[|mid|] == '.';
    SplitForm(l, r);
  }

  /** The split-at-`@` check accepts exactly the strings the pattern
      matches. */
  lemma IsValidEmailIsRegex(s: string)
    ensures IsValidEmail(s) <==> RegexMatch(s)
  {
    if IsValidEmail(s) {
      ValidMatchesRegex(s);
    }
    if RegexMatch(s) {
      RegexMatchIsValid(s);
    }
  }

  /** An `@` with only plain characters before it is the first `@`. */
  lemma FirstAt(s: string, at: int)
    requires 0 <= at < |s| && s[at] == '@' && AllPlain(s[..at])
    ensures IndexOf(s, '@') == Some(at)
  {
    assert s[at] in s;
  }

  /** In an accepted string the separator is the only character outside
      `[^\s@]`. */
  lemma PlainOutsideSeparator(s: string, j: int)
    requires IsValidEmail(s) && 0 <= j < |s| && j != IndexOf(s, '@').value
    ensures Plain(s[j])
  {
    var k := IndexOf(s, '@').value;
    if j < k {
      assert s[..k][j] == s[j];
    } else {
      assert s[k + 1..][j - k - 1] == s[j];
    }
  }

  /** The split form: `L + "@" + R` is valid exactly when `L` is non-empty,
      neither part has whitespace or `@`, and `R` has a dot strictly inside
      it. Together with `RejectsNoAt` this covers every string. */
  lemma SplitForm(l: string, r: string)
    ensures IsValidEmail(l + "@" + r) <==>
              |l| > 0 && AllPlain(l) && AllPlain(r) && HasInnerDot(r)
  {
    var s := l + "@" + r;
    assert s[..|l|] == l && s[|l| + 1..] == r;
    if AllPlain(l) {
      FirstAt(s, |l|);
    } else if IsValidEmail(s) {
      var i :| 0 <= i < |l| && !Plain(l[i]);
      assert s[i] == l[i];
      if i != IndexOf(s, '@').value {
        PlainOutsideSeparator(s, i);
      }
      PlainOutsideSeparator(s, |l|);
    }
  }

  /** A string with no `@` is rejected. */
  lemma RejectsNoAt(s: string)
    requires '@' !in s
    ensures !IsValidEmail(s)
  {
  }

  /** A string with whitespace anywhere is rejected. */
  lemma RejectsWhitespace(s: string, i: int)
    requires 0 <= i < |s| && IsJsWhitespace(s[i])
    ensures !IsValidEmail(s)
  {
    if IsValidEmail(s) {
      PlainOutsideSeparator(s, i);
    }
  }

  /** A string with two `@` is rejected. */
  lemma RejectsTwoAts(s: string, i: int, j: int)
    requires 0 <= i < j < |s| && s[i] == '@' && s[j] == '@'
    ensures !IsValidEmail(s)
  {
    if IsValidEmail(s) {
      if i != IndexOf(s, '@').value {
        PlainOutsideSeparator(s, i);
      }
      PlainOutsideSeparator(s, j);
    }
  }

  /** A domain without a dot strictly inside it is rejected. */
  lemma RejectsNoInnerDot(l: string, r: string)
    requires !HasInnerDot(r)
    ensures !IsValidEmail(l + "@" + r)
  {
    SplitForm(l, r);
  }

  /** Every `a@b.c` built of non-empty runs of `[^\s@]` is accepted; the
      runs may themselves contain dots. */
  lemma AcceptsShape(a: string, b: string, c: string)
    requires |a| > 0 && |b| > 0 && |c| > 0
    requires AllPlain(a) && AllPlain(b) && AllPlain(c)
    ensures IsValidEmail(a + "@" + b + "." + c)
  {
    var r := b + "." + c;
    assert r[|b|] == '.';
    assert forall k :: 0 <= k < |r| ==> (k < |b| ==> r[k] == b[k]) && (k > |b| ==> r[k] == c[k - |b| - 1]);
    assert a + "@" + b + "." + c == a + "@" + r;
    SplitForm(a, r);
  }

  /** `a@b.com` is accepted. */
  lemma AcceptsShortAddress()
    ensures IsValidEmail("a@b.com")
  {
    AcceptsShape("a", "b", "com");
    assert "a" + "@" + "b" + "." + "com" == "a@b.com";
  }

  /** `user@example.com` is accepted. */
  lemma AcceptsUserAddress()
    ensures IsValidEmail("user@example.com")
  {
    AcceptsShape("user", "example", "com");
    assert "user" + "@" + "example" + "." + "com" == "user@example.com";
  }

  /** `a@b` is rejected: its domain has no dot. */
  lemma RejectsDotlessDomain()
    ensures !IsValidEmail("a@b")
  {
    RejectsNoInnerDot("a", "b");
    assert "a" + "@" + "b" == "a@b";
  }

  /** `a b@c.com` is rejected: it holds a space. */
  lemma RejectsSpacedAddress()
    ensures !IsValidEmail("a b@c.com")
  {
    RejectsWhitespace("a b@c.com", 1);
  }

  /** `not-an-email` is rejected: it has no `@`. */
  lemma RejectsPlainWord()
    ensures !IsValidEmail("not-an-email")
  {
    assert '@' !in "not-an-email";
  }

  /** `@b.com` is rejected: its local part is empty. */
  lemma RejectsEmptyLocal()
    ensures !IsValidEmail("@b.com")
  {
    assert IndexOf("@b.com", '@') == Some(0);
  }

  /** `a@.com` and `a@b.` are rejected: the domain's dot is at one of its
      ends. */
  lemma RejectsDotAtDomainEnd()
    ensures !IsValidEmail("a@.com") && !IsValidEmail("a@b.")
  {
    RejectsNoInnerDot("a", ".com");
    assert "a" + "@" + ".com" == "a@.com";
    RejectsNoInnerDot("a", "b.");
    assert "a" + "@" + "b." == "a@b.";
  }
}
