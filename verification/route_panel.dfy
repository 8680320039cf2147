/**
 * The route panel: whether it renders, its duration formatter (seconds to
 * hours and minutes), and its label fallbacks.
 */
module RoutePanel {
  import opened Common

  datatype Segment = Segment(instruction: Option<string>, streetName: Option<string>, timeSeconds: Option<int>)

  datatype Route = Route(
    found: bool,
    segments: Option<seq<Segment>>,
    totalTimeSeconds: Option<int>,
    formattedTime: Option<string>)

  /** `if (!route || !route.found) return null`: the panel renders only a
      route that was found. */
  predicate ShowPanel(route: Option<Route>) {
    route.Some? && route.value.found
  }

  /** Hours `Math.floor(s / 3600)`. */
  function HoursOf(s: int): int {
    FloorDiv(s, 3600)
  }

  /** Minutes `Math.floor((s % 3600) / 60)`, with JavaScript's remainder. */
  function MinutesOf(s: int): int {
    FloorDiv(JsRem(s, 3600), 60)
  }

  /** The panel's `formatDuration(seconds)`: 'N/A' when falsy, minutes only
      when there is no whole hour, else hours and minutes. */
  function FormatSeconds(seconds: Option<int>): string {
    if !TruthyInt(seconds) then "N/A"
    else
      var s := seconds.value;
      if HoursOf(s) == 0 then IntToString(MinutesOf(s)) + " min"
      else IntToString(HoursOf(s)) + "h " + IntToString(MinutesOf(s)) + "min"
  }

  /** For a positive number of seconds the printed hours and minutes account
      for every whole minute: 3600h + 60m <= s < 3600h + 60m + 60 with m < 60;
      the hour part is left out exactly when s is under an hour. */
  lemma FormatSecondsParts(s: int)
    requires s > 0
    ensures var h, m := HoursOf(s), MinutesOf(s);
      h >= 0 && 0 <= m < 60
      && 3600 * h + 60 * m <= s < 3600 * h + 60 * m + 60
      && (h == 0 <==> s < 3600)
      && (s < 3600 ==> FormatSeconds(Some(s)) == NatToString(m) + " min")
      && (s >= 3600 ==> FormatSeconds(Some(s)) == NatToString(h) + "h " + NatToString(m) + "min")
  {
  }

  /** A missing or zero duration reads 'N/A'. */
  lemma FormatSecondsMissing(seconds: Option<int>)
    requires !TruthyInt(seconds)
    ensures FormatSeconds(seconds) == "N/A"
  {
  }

  /** `formattedTime || formatDuration(totalTimeSeconds)`: the backend's text
      wins when present, and the card is never blank. */
  function TotalDurationLabel(route: Route): (r: string)
    ensures Truthy(route.formattedTime) ==> r == route.formattedTime.value
    ensures !Truthy(route.formattedTime) ==> r == FormatSeconds(route.totalTimeSeconds)
    ensures r != ""
  {
    OrElse(route.formattedTime, FormatSeconds(route.totalTimeSeconds))
  }

  /** `segment.instruction || segment.streetName || \`Segment ${index + 1}\``:
      never blank, numbered from 1 when neither text is present. */
  function SegmentLabel(segment: Segment, index: nat): (r: string)
    ensures Truthy(segment.instruction) ==> r == segment.instruction.value
    ensures !Truthy(segment.instruction) && Truthy(segment.streetName) ==> r == segment.streetName.value
    ensures !Truthy(segment.instruction) && !Truthy(segment.streetName) ==> r == "Segment " + NatToString(index + 1)
    ensures r != ""
  {
    OrElse(segment.instruction, OrElse(segment.streetName, "Segment " + IntToString(index + 1)))
  }

  /** The fallback labels of distinct segments differ. */
  lemma FallbackLabelsDistinct(i: nat, j: nat)
    requires i != j
    ensures SegmentLabel(Segment(None, None, None), i) != SegmentLabel(Segment(None, None, None), j)
  {
    var a, b := SegmentLabel(Segment(None, None, None), i), SegmentLabel(Segment(None, None, None), j);
    if a == b {
      assert a[8..] == NatToString(i + 1) && b[8..] == NatToString(j + 1);
      NatToStringInjective(i + 1, j + 1);
    }
  }
}
