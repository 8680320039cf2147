/**
 * Display formatters: trip durations in minutes, relative times, price
 * levels, Cameroonian phone grouping, and the trip-status and member-role
 * lookup tables.
 */
module Formatters {
  import opened Common

  // ---------------------------------------------------------------------------
  // Durations in minutes
  // ---------------------------------------------------------------------------

  /** `formatDuration(minutes)`: '0 min' for a falsy argument, else hours
      `Math.floor(m / 60)` and minutes `m % 60` (JavaScript remainder). */
  function FormatDuration(minutes: Option<int>): string {
    if !TruthyInt(minutes) then "0 min"
    else
      var m := minutes.value;
      var hours := FloorDiv(m, 60);
      var mins := JsRem(m, 60);
      if hours == 0 then IntToString(mins) + " min"
      else if mins == 0 then IntToString(hours) + "h"
      else IntToString(hours) + "h " + IntToString(mins) + "min"
  }

  /** For a positive duration the printed hours and minutes add back up to it,
      with fewer than sixty minutes, and the layout depends only on which of
      the two parts is zero. */
  lemma FormatDurationParts(m: int)
    requires m > 0
    ensures var h, r := m / 60, m % 60;
      60 * h + r == m && 0 <= r < 60 && h >= 0
      && (h == 0 ==> FormatDuration(Some(m)) == NatToString(r) + " min")
      && (h > 0 && r == 0 ==> FormatDuration(Some(m)) == NatToString(h) + "h")
      && (h > 0 && r > 0 ==> FormatDuration(Some(m)) == NatToString(h) + "h " + NatToString(r) + "min")
  {
  }

  /** A missing or zero duration reads '0 min', as does one under an hour
      with no minutes, which cannot happen for a positive duration. */
  lemma FormatDurationZero(m: Option<int>)
    requires m.None? || m == Some(0)
    ensures FormatDuration(m) == "0 min"
  {
  }

  // ---------------------------------------------------------------------------
  // Relative time
  // ---------------------------------------------------------------------------

  /** Which phrase `timeAgo` picks. */
  datatype Ago = Empty | JustNow | MinutesAgo(n: int) | HoursAgo(n: int) | DaysAgo(n: int) | OnDate

  /** The bucket for a date that is `elapsed` whole seconds in the past
      (`None` for a falsy date string). */
  function AgoBucket(elapsed: Option<int>): Ago {
    if elapsed.None? then Empty
    else
      var s := elapsed.value;
      if s < 60 then JustNow
      else if s < 3600 then MinutesAgo(FloorDiv(s, 60))
      else if s < 86400 then HoursAgo(FloorDiv(s, 3600))
      else if s < 604800 then DaysAgo(FloorDiv(s, 86400))
      else OnDate
  }

  /** `timeAgo(dateString)`; `formattedDate` is what `formatDate` prints for
      the same date. */
  function TimeAgo(elapsed: Option<int>, formattedDate: string): string {
    match AgoBucket(elapsed)
    case Empty => ""
    case JustNow => "à l'instant"
    case MinutesAgo(n) => "il y a " + IntToString(n) + " min"
    case HoursAgo(n) => "il y a " + IntToString(n) + "h"
    case DaysAgo(n) => "il y a " + IntToString(n) + "j"
    case OnDate => formattedDate
  }

  /** Each count is the number of whole units elapsed, so the elapsed time
      lies in [n·unit, (n+1)·unit), and each bucket covers exactly its range
      of elapsed seconds. */
  lemma AgoBucketRanges(s: int)
    ensures AgoBucket(Some(s)).JustNow? <==> s < 60
    ensures AgoBucket(Some(s)).MinutesAgo? <==> 60 <= s < 3600
    ensures AgoBucket(Some(s)).HoursAgo? <==> 3600 <= s < 86400
    ensures AgoBucket(Some(s)).DaysAgo? <==> 86400 <= s < 604800
    ensures AgoBucket(Some(s)).OnDate? <==> 604800 <= s
    ensures AgoBucket(Some(s)).MinutesAgo? ==> var n := AgoBucket(Some(s)).n;
      1 <= n < 60 && 60 * n <= s < 60 * (n + 1)
    ensures AgoBucket(Some(s)).HoursAgo? ==> var n := AgoBucket(Some(s)).n;
      1 <= n < 24 && 3600 * n <= s < 3600 * (n + 1)
    ensures AgoBucket(Some(s)).DaysAgo? ==> var n := AgoBucket(Some(s)).n;
      1 <= n < 7 && 86400 * n <= s < 86400 * (n + 1)
  {
  }

  // ---------------------------------------------------------------------------
  // Price levels
  // ---------------------------------------------------------------------------

  function Repeat(c: char, n: nat): (r: string)
    ensures |r| == n
    ensures forall k :: 0 <= k < n ==> r[k] == c
  {
    if n == 0 then [] else [c] + Repeat(c, n - 1)
  }

  /** `formatPriceRange(level)`: '-' for a falsy level, else `'€'.repeat(level)`;
      `None` is the `RangeError` that `repeat` throws for a negative count. */
  function FormatPriceRange(level: Option<int>): (r: Option<string>)
    ensures !TruthyInt(level) ==> r == Some("-")
    ensures TruthyInt(level) && level.value >= 1 ==>
      r.Some? && |r.value| == level.value && forall k :: 0 <= k < |r.value| ==> r.value[k] == '€'
    ensures TruthyInt(level) && level.value < 0 ==> r.None?
  {
    if !TruthyInt(level) then Some("-")
    else if level.value < 0 then None
    else Some(Repeat('€', level.value))
  }

  // ---------------------------------------------------------------------------
  // Phone numbers
  // ---------------------------------------------------------------------------

  /** `s.replace(/\D/g, '')`: the ASCII digits of `s`, in order. */
  function DigitsOf(s: string): (r: string)
    ensures forall k :: 0 <= k < |r| ==> IsDigit(r[k])
    ensures |r| <= |s|
  {
    if s == [] then []
    else if IsDigit(s[0]) then [s[0]] + DigitsOf(s[1..])
    else DigitsOf(s[1..])
  }

  lemma {:induction false} DigitsOfAppend(a: string, b: string)
    ensures DigitsOf(a + b) == DigitsOf(a) + DigitsOf(b)
  {
    if a == [] {
      assert a + b == b;
    } else {
      assert (a + b)[1..] == a[1..] + b;
      DigitsOfAppend(a[1..], b);
    }
  }

  lemma {:induction false} DigitsOfDigits(s: string)
    requires forall k :: 0 <= k < |s| ==> IsDigit(s[k])
    ensures DigitsOf(s) == s
  {
    if s != [] {
      DigitsOfDigits(s[1..]);
    }
  }

  /** `p + " " + c.slice(k, m)`: one more space-separated group. */
  function AddGroup(p: string, c: string, k: nat, m: nat): (r: string)
    requires k <= m <= |c|
    ensures |r| == |p| + 1 + m - k
    ensures p != [] ==> r[0] == p[0]
  {
    p + " " + c[k..m]
  }

  /** Twelve digits grouped 3-1-2-2-2-2 after a '+'. */
  function GroupPhone(c: string): (r: string)
    requires |c| == 12
    ensures |r| == 18 && r[0] == '+'
  {
    AddGroup(AddGroup(AddGroup(AddGroup(AddGroup("+" + c[0..3], c, 3, 4), c, 4, 6), c, 6, 8), c, 8, 10), c, 10, 12)
  }

  lemma GroupStep(p: string, c: string, k: nat, m: nat)
    requires k <= m <= |c| && forall i :: 0 <= i < |c| ==> IsDigit(c[i])
    requires DigitsOf(p) == c[..k]
    ensures DigitsOf(AddGroup(p, c, k, m)) == c[..m]
  {
    DigitsOfAppend(p + " ", c[k..m]);
    DigitsOfAppend(p, " ");
    DigitsOfDigits(c[k..m]);
    assert c[..k] + c[k..m] == c[..m];
  }

  /** Grouping only adds '+' and spaces: the digits come back in order. */
  lemma GroupPhoneDigits(c: string)
    requires |c| == 12 && forall k :: 0 <= k < 12 ==> IsDigit(c[k])
    ensures DigitsOf(GroupPhone(c)) == c
  {
    var p := "+" + c[0..3];
    DigitsOfAppend("+", c[0..3]);
    DigitsOfDigits(c[0..3]);
    assert DigitsOf(p) == c[..3];
    GroupStep(p, c, 3, 4);
    p := AddGroup(p, c, 3, 4);
    GroupStep(p, c, 4, 6);
    p := AddGroup(p, c, 4, 6);
    GroupStep(p, c, 6, 8);
    p := AddGroup(p, c, 6, 8);
    GroupStep(p, c, 8, 10);
    p := AddGroup(p, c, 8, 10);
    GroupStep(p, c, 10, 12);
    assert c[..12] == c;
  }

  /** `formatPhone(phone)` */
  function FormatPhone(phone: Option<string>): string {
    if !Truthy(phone) then "-"
    else
      var cleaned := DigitsOf(phone.value);
      if |cleaned| == 12 then GroupPhone(cleaned) else phone.value
  }

  /** Formatting keeps the digit string of a non-empty input: removing '+'
      and the spaces from a grouped number gives back its twelve digits, and
      any other input is returned as it was. */
  lemma FormatPhoneKeepsDigits(phone: string)
    requires phone != ""
    ensures DigitsOf(FormatPhone(Some(phone))) == DigitsOf(phone)
    ensures |DigitsOf(phone)| != 12 ==> FormatPhone(Some(phone)) == phone
    ensures |DigitsOf(phone)| == 12 ==> |FormatPhone(Some(phone))| == 18 && FormatPhone(Some(phone))[0] == '+'
  {
    if |DigitsOf(phone)| == 12 {
      GroupPhoneDigits(DigitsOf(phone));
    }
  }

  /** Formatting an already formatted number changes nothing. */
  lemma FormatPhoneIdempotent(phone: Option<string>)
    ensures FormatPhone(Some(FormatPhone(phone))) == FormatPhone(phone)
  {
    if Truthy(phone) {
      FormatPhoneKeepsDigits(phone.value);
    }
  }

  // ---------------------------------------------------------------------------
  // Status and role tables
  // ---------------------------------------------------------------------------

  const TripStatusColors: map<string, string> := map[
    "DRAFT" := "bg-gray-100 text-gray-700",
    "PLANNED" := "bg-blue-100 text-blue-700",
    "IN_PROGRESS" := "bg-yellow-100 text-yellow-700",
    "COMPLETED" := "bg-green-100 text-green-700",
    "CANCELLED" := "bg-red-100 text-red-700"]

  const TripStatusLabels: map<string, string> := map[
    "DRAFT" := "Brouillon",
    "PLANNED" := "Planifié",
    "IN_PROGRESS" := "En cours",
    "COMPLETED" := "Terminé",
    "CANCELLED" := "Annulé"]

  const MemberRoleLabels: map<string, string> := map[
    "OWNER" := "Propriétaire",
    "EDITOR" := "Éditeur",
    "VIEWER" := "Lecteur"]

  const MemberRoleColors: map<string, string> := map[
    "OWNER" := "bg-purple-100 text-purple-700",
    "EDITOR" := "bg-blue-100 text-blue-700",
    "VIEWER" := "bg-gray-100 text-gray-700"]

  /** `colors[key] || colors[fallback]` (every table entry is non-empty). */
  function LookupOr(table: map<string, string>, key: string, fallback: string): string
    requires fallback in table
  {
    if key in table && table[key] != "" then table[key] else table[fallback]
  }

  /** `translations[key] || key` */
  function LookupOrEcho(table: map<string, string>, key: string): string {
    if key in table && table[key] != "" then table[key] else key
  }

  function TripStatusColor(status: string): string {
    LookupOr(TripStatusColors, status, "DRAFT")
  }

  function TranslateTripStatus(status: string): string {
    LookupOrEcho(TripStatusLabels, status)
  }

  function TranslateMemberRole(role: string): string {
    LookupOrEcho(MemberRoleLabels, role)
  }

  function MemberRoleColor(role: string): string {
    LookupOr(MemberRoleColors, role, "VIEWER")
  }

  /** A status gets the draft colour exactly when it is 'DRAFT' or unknown;
      it is echoed as its own label exactly when it is unknown. */
  lemma TripStatusLookups(status: string)
    ensures TripStatusColor(status) == TripStatusColors["DRAFT"] <==> status == "DRAFT" || status !in TripStatusColors
    ensures TranslateTripStatus(status) == status <==> status !in TripStatusLabels
    ensures status in TripStatusLabels ==> TranslateTripStatus(status) == TripStatusLabels[status]
    ensures status in TripStatusColors ==> TripStatusColor(status) == TripStatusColors[status]
  {
  }

  /** A role gets the viewer colour exactly when it is 'VIEWER' or unknown;
      it is echoed exactly when unknown. */
  lemma MemberRoleLookups(role: string)
    ensures MemberRoleColor(role) == MemberRoleColors["VIEWER"] <==> role == "VIEWER" || role !in MemberRoleColors
    ensures TranslateMemberRole(role) == role <==> role !in MemberRoleLabels
    ensures role in MemberRoleLabels ==> TranslateMemberRole(role) == MemberRoleLabels[role]
    ensures role in MemberRoleColors ==> MemberRoleColor(role) == MemberRoleColors[role]
  {
  }
}
