/**
 * Input validators of the front end: e-mail shape, password length, GPS
 * coordinate and rating ranges, Cameroonian phone numbers, date ranges.
 *
 * Inputs that JavaScript parses first are given already parsed: a number
 * read with `parseFloat` is an `Option<real>` whose `None` is `NaN`, and a
 * date is a `DateInput`.
 */
module Validators {
  import opened Common

  // ---------------------------------------------------------------------------
  // E-mail:  /^[^\s@]+@[^\s@]+\.[^\s@]+$/
  // ---------------------------------------------------------------------------

  /** Every character is neither whitespace nor '@' (the class `[^\s@]`). */
  predicate NoSpaceNoAt(s: string) {
    forall k :: 0 <= k < |s| ==> !IsSpace(s[k]) && s[k] != '@'
  }

  /** One or more characters of the class `[^\s@]`. */
  predicate Segment(s: string) {
    |s| > 0 && NoSpaceNoAt(s)
  }

  /** The language of the e-mail regular expression, written as the two
      positions where the literal '@' and '.' of the pattern match. */
  ghost predicate MatchesEmailPattern(e: string) {
    exists i, j :: 0 <= i < j < |e| && e[i] == '@' && e[j] == '.'
      && Segment(e[..i]) && Segment(e[i + 1..j]) && Segment(e[j + 1..])
  }

  /** Position of the first `c` in `s`, or `|s|` when there is none. */
  function IndexOf(s: string, c: char): (r: nat)
    ensures r <= |s|
    ensures r < |s| ==> s[r] == c
    ensures forall k :: 0 <= k < r ==> s[k] != c
  {
    if s == [] then 0
    else if s[0] == c then 0
    else 1 + IndexOf(s[1..], c)
  }

  /** A '.' with at least one character on each side. */
  predicate HasInnerDot(d: string) {
    exists k :: 1 <= k < |d| - 1 && d[k] == '.'
  }

  /** `isValidEmail(email)`: a non-empty local part, exactly one '@', no
      whitespace, and a '.' after the '@' with text on both sides. */
  predicate IsValidEmail(email: string) {
    var at := IndexOf(email, '@');
    0 < at < |email|
    && NoSpaceNoAt(email[..at])
    && NoSpaceNoAt(email[at + 1..])
    && HasInnerDot(email[at + 1..])
  }

  /** A slice of a string of the class `[^\s@]` is of the class too. */
  lemma NoSpaceNoAtSlice(s: string, a: nat, b: nat)
    requires NoSpaceNoAt(s) && a <= b <= |s|
    ensures NoSpaceNoAt(s[a..b])
  {
    forall k | 0 <= k < b - a ensures !IsSpace(s[a..b][k]) && s[a..b][k] != '@' {
      assert s[a..b][k] == s[a + k];
    }
  }

  lemma ValidEmailMatches(e: string)
    requires IsValidEmail(e)
    ensures MatchesEmailPattern(e)
  {
    var at := IndexOf(e, '@');
    var d := e[at + 1..];
    var k :| 1 <= k < |d| - 1 && d[k] == '.';
    var j := at + 1 + k;
    assert e[at + 1..j] == d[..k];
    assert e[j + 1..] == d[k + 1..];
    NoSpaceNoAtSlice(d, 0, k);
    NoSpaceNoAtSlice(d, k + 1, |d|);
    assert d[k + 1..|d|] == d[k + 1..];
    assert e[j] == '.';
    assert Segment(e[..at]) && Segment(e[at + 1..j]) && Segment(e[j + 1..]);
  }

  /** The domain part after a matched '@': of the class `[^\s@]`, with the
      matched '.' inside it. */
  lemma DomainOfMatch(e: string, i: nat, j: nat)
    requires i < j < |e| && e[j] == '.'
    requires Segment(e[i + 1..j]) && Segment(e[j + 1..])
    ensures NoSpaceNoAt(e[i + 1..]) && HasInnerDot(e[i + 1..])
  {
    var d := e[i + 1..];
    forall k | 0 <= k < |d| ensures !IsSpace(d[k]) && d[k] != '@' {
      if k < j - i - 1 {
        assert d[k] == e[i + 1..j][k];
      } else if k > j - i - 1 {
        assert d[k] == e[j + 1..][k - (j - i)];
      } else {
        assert d[k] == e[j];
      }
    }
    assert d[j - i - 1] == e[j];
  }

  /** The first '@' of a string whose prefix before position `i` has
      none is at `i`. */
  lemma FirstAt(e: string, i: nat)
    requires i < |e| && e[i] == '@' && NoSpaceNoAt(e[..i])
    ensures IndexOf(e, '@') == i
  {
    assert forall k :: 0 <= k < i ==> e[..i][k] == e[k];
  }

  lemma PatternMatchValid(e: string)
    requires MatchesEmailPattern(e)
    ensures IsValidEmail(e)
  {
    var i, j :| 0 <= i < j < |e| && e[i] == '@' && e[j] == '.'
      && Segment(e[..i]) && Segment(e[i + 1..j]) && Segment(e[j + 1..]);
    FirstAt(e, i);
    DomainOfMatch(e, i, j);
  }

  /** The scan accepts exactly the strings the regular expression matches. */
  lemma EmailMatchesPattern(e: string)
    ensures IsValidEmail(e) <==> MatchesEmailPattern(e)
  {
    if IsValidEmail(e) {
      ValidEmailMatches(e);
    }
    if MatchesEmailPattern(e) {
      PatternMatchValid(e);
    }
  }

  /** A valid address contains exactly one '@'. */
  lemma EmailHasOneAt(e: string)
    requires IsValidEmail(e)
    ensures CountChar(e, '@') == 1
  {
    var at := IndexOf(e, '@');
    assert e == e[..at] + [e[at]] + e[at + 1..];
    CountCharAppend(e[..at] + [e[at]], e[at + 1..], '@');
    CountCharAppend(e[..at], [e[at]], '@');
    CountCharAbsent(e[..at], '@');
    CountCharAbsent(e[at + 1..], '@');
  }

  lemma {:induction false} CountCharAppend(a: string, b: string, c: char)
    ensures CountChar(a + b, c) == CountChar(a, c) + CountChar(b, c)
  {
    if a == [] {
      assert a + b == b;
    } else {
      assert (a + b)[1..] == a[1..] + b;
      CountCharAppend(a[1..], b, c);
    }
  }

  lemma {:induction false} CountCharAbsent(s: string, c: char)
    requires forall k :: 0 <= k < |s| ==> s[k] != c
    ensures CountChar(s, c) == 0
  {
    if s != [] {
      CountCharAbsent(s[1..], c);
    }
  }

  // ---------------------------------------------------------------------------
  // Password and numeric ranges
  // ---------------------------------------------------------------------------

  /** `password && password.length >= 6` */
  predicate IsValidPassword(password: Option<string>) {
    Truthy(password) && |password.value| >= 6
  }

  /** `isValidLatitude`: a number in [-90, 90]; `None` stands for `NaN`. */
  predicate IsValidLatitude(lat: Option<real>) {
    lat.Some? && -90.0 <= lat.value <= 90.0
  }

  /** `isValidLongitude`: a number in [-180, 180]. */
  predicate IsValidLongitude(lon: Option<real>) {
    lon.Some? && -180.0 <= lon.value <= 180.0
  }

  /** `isValidRating`: a number in [0, 5]. */
  predicate IsValidRating(rating: Option<real>) {
    rating.Some? && 0.0 <= rating.value <= 5.0
  }

  /** A password is accepted exactly when it is present and at least six
      characters long; the empty string, being falsy, is never accepted. */
  lemma PasswordAccepts(password: Option<string>)
    ensures IsValidPassword(password) <==> password.Some? && |password.value| >= 6
    ensures IsValidPassword(password) ==> password.value != ""
  {
  }

  /** The ranges are nested: every rating is a valid latitude, every latitude
      a valid longitude, and `NaN` passes none of them; the bounds themselves
      are included. */
  lemma RangesNested(x: Option<real>)
    ensures IsValidRating(x) ==> IsValidLatitude(x)
    ensures IsValidLatitude(x) ==> IsValidLongitude(x)
    ensures x.None? ==> !IsValidLongitude(x) && !IsValidLatitude(x) && !IsValidRating(x)
    ensures IsValidLatitude(Some(90.0)) && IsValidLatitude(Some(-90.0)) && !IsValidLatitude(Some(90.5))
    ensures IsValidLongitude(Some(180.0)) && IsValidLongitude(Some(-180.0)) && !IsValidLongitude(Some(-180.5))
    ensures IsValidRating(Some(0.0)) && IsValidRating(Some(5.0)) && !IsValidRating(Some(-0.5))
  {
  }

  // ---------------------------------------------------------------------------
  // Cameroonian phone numbers:  /^\+237[26]\d{8}$/ after removing /\s/g
  // ---------------------------------------------------------------------------

  /** The pattern `^\+237[26]\d{8}$` on a string without whitespace. */
  predicate IsCameroonNumber(s: string) {
    |s| == 13 && s[..4] == "+237" && (s[4] == '2' || s[4] == '6')
    && forall k :: 5 <= k < 13 ==> IsDigit(s[k])
  }

  /** `isValidCameroonPhone(phone)` */
  predicate IsValidCameroonPhone(phone: string) {
    IsCameroonNumber(StripSpaces(phone))
  }

  /** Inserting whitespace anywhere never changes the answer. */
  lemma PhoneIgnoresInsertedSpace(a: string, w: string, b: string)
    requires forall k :: 0 <= k < |w| ==> IsSpace(w[k])
    ensures IsValidCameroonPhone(a + w + b) == IsValidCameroonPhone(a + b)
  {
    StripSpacesAllSpace(w);
    StripSpacesAppend(a + w, b);
    StripSpacesAppend(a, w);
    StripSpacesAppend(a, b);
    assert StripSpaces(a) + StripSpaces(w) == StripSpaces(a);
    assert StripSpaces(a + w + b) == StripSpaces(a + b);
  }

  /** Removing all whitespace first never changes the answer either. */
  lemma PhoneIgnoresStrippedSpace(phone: string)
    ensures IsValidCameroonPhone(StripSpaces(phone)) == IsValidCameroonPhone(phone)
  {
    StripSpacesIdempotent(phone);
  }

  /** An accepted number is '+237', then '2' or '6', then eight digits, once
      its whitespace is gone; a string already in that form is accepted. */
  lemma PhoneAccepts(phone: string)
    ensures IsValidCameroonPhone(phone) ==>
      var s := StripSpaces(phone);
      |s| == 13 && s[0] == '+' && s[1] == '2' && s[2] == '3' && s[3] == '7'
      && (s[4] == '2' || s[4] == '6') && forall k :: 5 <= k < 13 ==> IsDigit(s[k])
    ensures IsCameroonNumber(phone) ==> IsValidCameroonPhone(phone)
  {
    if IsCameroonNumber(phone) {
      assert forall k :: 0 <= k < |phone| ==> !IsSpace(phone[k]) by {
        forall k | 0 <= k < |phone| ensures !IsSpace(phone[k]) {
          if k < 4 {
            assert phone[k] == "+237"[k];
          }
        }
      }
      StripSpacesNoSpace(phone);
    }
    if IsValidCameroonPhone(phone) {
      var s := StripSpaces(phone);
      assert s[..4][0] == '+' && s[..4][1] == '2' && s[..4][2] == '3' && s[..4][3] == '7';
    }
  }

  // ---------------------------------------------------------------------------
  // Date ranges
  // ---------------------------------------------------------------------------

  /** A date argument: falsy (missing or empty), or the time value of
      `new Date(x)`, `None` for an invalid date. */
  datatype DateInput = NoDate | Date(time: Option<int>)

  /** `isValidDateRange(startDate, endDate)`: a missing bound accepts, else
      `end >= start`, which is false when either date is invalid. */
  predicate IsValidDateRange(startDate: DateInput, endDate: DateInput) {
    if startDate.NoDate? || endDate.NoDate? then true
    else startDate.time.Some? && endDate.time.Some? && endDate.time.value >= startDate.time.value
  }

  /** Between two valid dates exactly one order is accepted unless they are
      the same instant; a range with a missing end is always accepted. */
  lemma DateRangeOrder(a: int, b: int, d: DateInput)
    ensures a != b ==> IsValidDateRange(Date(Some(a)), Date(Some(b))) != IsValidDateRange(Date(Some(b)), Date(Some(a)))
    ensures IsValidDateRange(Date(Some(a)), Date(Some(a)))
    ensures IsValidDateRange(d, NoDate) && IsValidDateRange(NoDate, d)
    ensures !IsValidDateRange(Date(None), Date(Some(a))) && !IsValidDateRange(Date(Some(a)), Date(None))
  {
  }
}
