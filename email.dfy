/**
 * The email validator of the user service: a hand-written recogniser for the
 * RE2 pattern `^[a-zA-Z0-9._%+-]+@[a-zA-Z0-9.-]+\.[a-zA-Z]{2,}$`.
 *
 * The pattern is anchored at both ends (in RE2 `$` without the `m` flag is the
 * end of the text), so it accepts exactly the strings L + "@" + D + "." + T
 * with L a nonempty local part, D a nonempty domain and T a top-level label of
 * at least two ASCII letters. Since neither L nor D may contain `@`, the `@` is
 * the first one of the string; since T has no `.`, its `.` is the last one.
 * The recogniser splits the string at those two points and checks each part.
 */
module EmailValidation {
  import opened Wrappers
  import opened Ascii

  /** The class `[a-zA-Z0-9._%+-]`. */
  predicate IsLocalChar(c: char) {
    IsLetter(c) || IsDigit(c) || c == '.' || c == '_' || c == '%' || c == '+' || c == '-'
  }

  /** The class `[a-zA-Z0-9.-]`. */
  predicate IsDomainChar(c: char) {
    IsLetter(c) || IsDigit(c) || c == '.' || c == '-'
  }

  /** `[a-zA-Z0-9._%+-]+` */
  predicate IsLocalPart(s: string) {
    |s| >= 1 && forall i :: 0 <= i < |s| ==> IsLocalChar(s[i])
  }

  /** `[a-zA-Z0-9.-]+` */
  predicate IsDomainPart(s: string) {
    |s| >= 1 && forall i :: 0 <= i < |s| ==> IsDomainChar(s[i])
  }

  /** `[a-zA-Z]{2,}` */
  predicate IsTopLabel(s: string) {
    |s| >= 2 && forall i :: 0 <= i < |s| ==> IsLetter(s[i])
  }

  /** Position of the first occurrence of `c` in `s`. */
  function FirstIndexOf(s: string, c: char): (r: Option<nat>)
    ensures r.Some? ==> r.value < |s| && s[r.value] == c
    ensures r.Some? ==> forall k :: 0 <= k < r.value ==> s[k] != c
    ensures r.None? ==> forall k :: 0 <= k < |s| ==> s[k] != c
  {
    if |s| == 0 then None
    else if s[0] == c then Some(0)
    else match FirstIndexOf(s[1..], c)
      case None => None
      case Some(k) => Some(k + 1)
  }

  /** Position of the last occurrence of `c` in `s`. */
  function LastIndexOf(s: string, c: char): (r: Option<nat>)
    ensures r.Some? ==> r.value < |s| && s[r.value] == c
    ensures r.Some? ==> forall k :: r.value < k < |s| ==> s[k] != c
    ensures r.None? ==> forall k :: 0 <= k < |s| ==> s[k] != c
  {
    if |s| == 0 then None
    else if s[|s| - 1] == c then Some(|s| - 1)
    else LastIndexOf(s[..|s| - 1], c)
  }

  /** The three parts of an address around its `@` and its last `.`. */
  datatype Parts = Parts(local: string, domain: string, top: string)

  /**
   * Cuts `e` at its first `@` and at the last `.` after it; None when either
   * is missing.
   */
  function Split(e: string): (r: Option<Parts>)
    ensures r.Some? ==> e == r.value.local + "@" + r.value.domain + "." + r.value.top
    ensures r.Some? ==> '@' !in r.value.local && '.' !in r.value.top
  {
    match FirstIndexOf(e, '@')
    case None => None
    case Some(a) =>
      var rest := e[a + 1..];
      match LastIndexOf(rest, '.')
      case None => None
      case Some(d) =>
        assert e == e[..a] + "@" + rest[..d] + "." + rest[d + 1..];
        Some(Parts(e[..a], rest[..d], rest[d + 1..]))
  }

  predicate WellFormed(p: Parts) {
    IsLocalPart(p.local) && IsDomainPart(p.domain) && IsTopLabel(p.top)
  }

  /** Some L, D, T of the pattern's classes make e == L + "@" + D + "." + T. */
  ghost predicate MatchesPattern(e: string) {
    exists l, d, t :: e == l + "@" + d + "." + t && IsLocalPart(l) && IsDomainPart(d) && IsTopLabel(t)
  }

  /**
   * isValidEmail: does `e` match the pattern as a whole? It accepts exactly
   * the strings L + "@" + D + "." + T with each part of its class.
   */
  predicate IsValidEmail(e: string): (valid: bool)
    ensures valid <==> MatchesPattern(e)
  {
    SplitCharacterisation(e);
    match Split(e)
    case None => false
    case Some(p) => WellFormed(p)
  }

  /**
   * Cutting L + "@" + D + "." + T, with each part of its class, recovers
   * exactly (L, D, T): the decomposition is unique.
   */
  lemma SplitRecovers(l: string, d: string, t: string)
    requires IsLocalPart(l) && IsDomainPart(d) && IsTopLabel(t)
    ensures Split(l + "@" + d + "." + t) == Some(Parts(l, d, t))
  {
    var e := l + "@" + d + "." + t;
    var rest := d + "." + t;
    assert e[|l|] == '@';
    assert forall k :: 0 <= k < |l| ==> e[k] == l[k] && e[k] != '@';
    var a := FirstIndexOf(e, '@');
    assert a == Some(|l|);
    assert e[|l| + 1..] == rest;
    assert rest[|d|] == '.';
    assert forall k :: |d| < k < |rest| ==> rest[k] == t[k - |d| - 1] && rest[k] != '.';
    assert LastIndexOf(rest, '.') == Some(|d|);
    assert e[..|l|] == l;
    assert rest[..|d|] == d;
    assert rest[|d| + 1..] == t;
  }

  /** The cut succeeds with well-formed parts exactly when `e` matches the pattern. */
  lemma SplitCharacterisation(e: string)
    ensures (Split(e).Some? && WellFormed(Split(e).value)) <==> MatchesPattern(e)
  {
    if Split(e).Some? && WellFormed(Split(e).value) {
      var p := Split(e).value;
      assert e == p.local + "@" + p.domain + "." + p.top;
    }
    if MatchesPattern(e) {
      var l, d, t :| e == l + "@" + d + "." + t && IsLocalPart(l) && IsDomainPart(d) && IsTopLabel(t);
      SplitRecovers(l, d, t);
    }
  }

  /** Every accepted address is L + "@" + D + "." + T with each part of its class. */
  lemma AcceptedHasParts(e: string)
    requires IsValidEmail(e)
    ensures Split(e).Some?
    ensures var p := Split(e).value;
      e == p.local + "@" + p.domain + "." + p.top && WellFormed(p)
  {
  }

  /**
   * Every L + "@" + D + "." + T with each part of its class is accepted, and
   * the recogniser recovers exactly those parts.
   */
  lemma PartsAreAccepted(l: string, d: string, t: string)
    requires IsLocalPart(l) && IsDomainPart(d) && IsTopLabel(t)
    ensures Split(l + "@" + d + "." + t) == Some(Parts(l, d, t))
    ensures IsValidEmail(l + "@" + d + "." + t)
  {
    SplitRecovers(l, d, t);
  }

  /** An accepted address holds exactly one `@`. */
  lemma ExactlyOneAt(e: string)
    requires IsValidEmail(e)
    ensures multiset(e)['@'] == 1
  {
  }

  /**
   * In an accepted address the `.` that opens the top-level label sits right
   * after a nonempty domain, and no `.` follows it.
   */
  lemma TopLabelIsAfterLastDot(e: string)
    requires IsValidEmail(e)
    ensures var p := Split(e).value;
      var dot := |p.local| + 1 + |p.domain|;
      |p.domain| >= 1 && dot < |e| && e[dot] == '.' && e[dot + 1..] == p.top &&
      forall k :: dot < k < |e| ==> e[k] != '.'
  {
  }

  /** A plain address is accepted. */
  lemma AcceptsSimpleAddress()
    ensures IsValidEmail("a@b.com")
  {
    assert "a@b.com" == "a" + "@" + "b" + "." + "com";
    PartsAreAccepted("a", "b", "com");
  }

  /** A domain may itself contain dots; the label is taken after the last one. */
  lemma AcceptsDottedDomain()
    ensures Split("x.y@mail.example.org") == Some(Parts("x.y", "mail.example", "org"))
    ensures IsValidEmail("x.y@mail.example.org")
  {
    assert "x.y@mail.example.org" == "x.y" + "@" + "mail.example" + "." + "org";
    PartsAreAccepted("x.y", "mail.example", "org");
  }

  /** A string without `@` is rejected. */
  lemma RejectsNoAt()
    ensures !IsValidEmail("not-an-email")
  {
    var e := "not-an-email";
    assert forall k :: 0 <= k < |e| ==> e[k] != '@';
  }

  /** A one-letter top-level label is rejected. */
  lemma RejectsShortTopLabel()
    ensures !IsValidEmail("a@b.c")
  {
  }
}
