/**
 * Shared vocabulary for the model: optional values, JavaScript truthiness of
 * strings and numbers, and the handful of JavaScript string operations the
 * front end relies on (case mapping, `includes`, `startsWith`, `trim`,
 * `split`, `join`, regex whitespace removal, integer printing).
 *
 * Case mapping is ASCII-only; JavaScript strings are sequences of UTF-16 code
 * units while Dafny strings are sequences of Unicode scalar values.
 */
module Common {

  datatype Option<T> = None | Some(value: T)

  /** The outcome of a request: it threw, or it returned `data`. */
  datatype Fetched<T> = Failed | Received(data: T)

  /** JavaScript truthiness of a possibly missing string: present and non-empty. */
  predicate Truthy(s: Option<string>) {
    s.Some? && s.value != ""
  }

  /** `s || fallback` for a possibly missing string. */
  function OrElse(s: Option<string>, fallback: string): string {
    if Truthy(s) then s.value else fallback
  }

  /** `a || b` for two possibly missing strings. */
  function OrOpt(a: Option<string>, b: Option<string>): Option<string> {
    if Truthy(a) then a else b
  }

  /** JavaScript truthiness of a possibly missing integer: present and non-zero. */
  predicate TruthyInt(n: Option<int>) {
    n.Some? && n.value != 0
  }

  /** `(n || 0)` for a possibly missing integer. */
  function IntOrZero(n: Option<int>): int {
    if n.Some? then n.value else 0
  }

  // ---------------------------------------------------------------------------
  // Case mapping (ASCII)
  // ---------------------------------------------------------------------------

  function LowerChar(c: char): char {
    if 'A' <= c <= 'Z' then (c as int + 32) as char else c
  }

  function UpperChar(c: char): char {
    if 'a' <= c <= 'z' then (c as int - 32) as char else c
  }

  /** `s.toLowerCase()` */
  function Lower(s: string): (r: string)
    ensures |r| == |s|
    ensures forall i :: 0 <= i < |s| ==> r[i] == LowerChar(s[i])
  {
    seq(|s|, i requires 0 <= i < |s| => LowerChar(s[i]))
  }

  /** `s?.toLowerCase()` on a possibly missing string. */
  function LowerOpt(s: Option<string>): Option<string> {
    if s.Some? then Some(Lower(s.value)) else None
  }

  /** `s.charAt(0).toUpperCase() + s.slice(1)` */
  function Capitalize(s: string): string {
    if s == [] then [] else [UpperChar(s[0])] + s[1..]
  }

  // ---------------------------------------------------------------------------
  // Searching
  // ---------------------------------------------------------------------------

  /** `s.includes(t)`: `t` occurs in `s` at some position. */
  predicate Includes(s: string, t: string) {
    exists i | 0 <= i <= |s| - |t| :: t <= s[i..]
  }

  /** `s?.includes(t)` where a missing `s` counts as false. */
  predicate IncludesOpt(s: Option<string>, t: string) {
    s.Some? && Includes(s.value, t)
  }

  /** `s.startsWith(p)` */
  predicate StartsWith(s: string, p: string) {
    p <= s
  }

  // ---------------------------------------------------------------------------
  // Whitespace
  // ---------------------------------------------------------------------------

  /** The characters matched by the regular-expression class `\s`, which are
      also the characters `String.prototype.trim` removes. */
  predicate IsSpace(c: char) {
    var n := c as int;
    (0x09 <= n <= 0x0D) || n == 0x20 || n == 0xA0 || n == 0x1680
    || (0x2000 <= n <= 0x200A) || n == 0x2028 || n == 0x2029 || n == 0x202F
    || n == 0x205F || n == 0x3000 || n == 0xFEFF
  }

  /** `s.replace(/\s/g, '')` */
  function StripSpaces(s: string): (r: string)
    ensures forall i :: 0 <= i < |r| ==> !IsSpace(r[i])
    ensures |r| <= |s|
  {
    if s == [] then []
    else if IsSpace(s[0]) then StripSpaces(s[1..])
    else [s[0]] + StripSpaces(s[1..])
  }

  lemma {:induction false} StripSpacesAppend(a: string, b: string)
    ensures StripSpaces(a + b) == StripSpaces(a) + StripSpaces(b)
  {
    if a == [] {
      assert a + b == b;
    } else {
      assert (a + b)[1..] == a[1..] + b;
      StripSpacesAppend(a[1..], b);
    }
  }

  /** Whitespace alone strips to nothing. */
  lemma {:induction false} StripSpacesAllSpace(w: string)
    requires forall k :: 0 <= k < |w| ==> IsSpace(w[k])
    ensures StripSpaces(w) == []
  {
    if w != [] {
      StripSpacesAllSpace(w[1..]);
    }
  }

  lemma {:induction false} StripSpacesIdempotent(s: string)
    ensures StripSpaces(StripSpaces(s)) == StripSpaces(s)
  {
    if s != [] {
      StripSpacesIdempotent(s[1..]);
      if !IsSpace(s[0]) {
        assert ([s[0]] + StripSpaces(s[1..]))[1..] == StripSpaces(s[1..]);
      }
    }
  }

  /** A string with no whitespace is left alone. */
  lemma {:induction false} StripSpacesNoSpace(s: string)
    requires forall i :: 0 <= i < |s| ==> !IsSpace(s[i])
    ensures StripSpaces(s) == s
  {
    if s != [] {
      StripSpacesNoSpace(s[1..]);
    }
  }

  function TrimStart(s: string): (r: string)
    ensures r == [] || !IsSpace(r[0])
    ensures |r| <= |s| && r == s[|s| - |r|..]
  {
    if s != [] && IsSpace(s[0]) then TrimStart(s[1..]) else s
  }

  function TrimEnd(s: string): (r: string)
    ensures r == [] || !IsSpace(r[|r| - 1])
    ensures |r| <= |s| && r == s[..|r|]
  {
    if s != [] && IsSpace(s[|s| - 1]) then TrimEnd(s[..|s| - 1]) else s
  }

  /** `s.trim()` */
  function Trim(s: string): (r: string)
    ensures r == [] || (!IsSpace(r[0]) && !IsSpace(r[|r| - 1]))
    ensures |r| <= |s|
  {
    TrimEnd(TrimStart(s))
  }

  predicate AllSpaces(s: string) {
    forall i :: 0 <= i < |s| ==> IsSpace(s[i])
  }

  lemma {:induction false} TrimStartSpaces(a: string, u: string)
    requires AllSpaces(a) && (u == [] || !IsSpace(u[0]))
    ensures TrimStart(a + u) == u
  {
    if a != [] {
      assert (a + u)[1..] == a[1..] + u;
      TrimStartSpaces(a[1..], u);
    }
  }

  lemma {:induction false} TrimEndSpaces(u: string, b: string)
    requires AllSpaces(b) && (u == [] || !IsSpace(u[|u| - 1]))
    ensures TrimEnd(u + b) == u
    decreases |b|
  {
    if b != [] {
      assert (u + b)[..|u + b| - 1] == u + b[..|b| - 1];
      TrimEndSpaces(u, b[..|b| - 1]);
    } else {
      assert u + b == u;
    }
  }

  /** `trim` removes exactly the whitespace around a string that neither
      starts nor ends with whitespace. */
  lemma TrimPadded(a: string, t: string, b: string)
    requires AllSpaces(a) && AllSpaces(b)
    requires t == [] || (!IsSpace(t[0]) && !IsSpace(t[|t| - 1]))
    ensures Trim(a + t + b) == t
  {
    if t == [] {
      assert a + t + b == (a + b) + [];
      TrimStartSpaces(a + b, []);
    } else {
      assert a + t + b == a + (t + b);
      TrimStartSpaces(a, t + b);
      TrimEndSpaces(t, b);
    }
  }

  /** A string of spaces trims to nothing. */
  lemma TrimAllSpaces(q: string)
    requires AllSpaces(q)
    ensures Trim(q) == ""
  {
    TrimPadded(q, "", "");
    assert q + "" + "" == q;
  }

  /** A string never includes a longer one. */
  lemma IncludesLonger(s: string, t: string)
    requires |t| > |s|
    ensures !Includes(s, t)
  {
  }

  /** A string with no space at either end is its own trim. */
  lemma TrimUnpadded(t: string)
    requires t == [] || (!IsSpace(t[0]) && !IsSpace(t[|t| - 1]))
    ensures Trim(t) == t
  {
    TrimPadded([], t, []);
    assert [] + t + [] == t;
  }

  /** One leading space is trimmed away. */
  lemma TrimAfterSpace(t: string)
    requires t == [] || (!IsSpace(t[0]) && !IsSpace(t[|t| - 1]))
    ensures Trim(" " + t) == t
  {
    assert IsSpace(" "[0]);
    TrimPadded(" ", t, []);
    assert " " + t + [] == " " + t;
  }

  /** Lower-casing leaves whitespace alone and works character by
      character. */
  lemma LowerPadded(a: string, t: string, b: string)
    requires AllSpaces(a) && AllSpaces(b)
    ensures Lower(a + t + b) == a + Lower(t) + b
  {
  }

  // ---------------------------------------------------------------------------
  // Split and join
  // ---------------------------------------------------------------------------

  /** Number of occurrences of `c` in `s`. */
  function CountChar(s: string, c: char): nat {
    if s == [] then 0 else (if s[0] == c then 1 else 0) + CountChar(s[1..], c)
  }

  /** `s.includes(c)` for one character: it occurs at least once. */
  lemma {:induction false} CountCharIn(s: string, c: char)
    ensures c in s <==> CountChar(s, c) > 0
  {
    if s != [] {
      CountCharIn(s[1..], c);
      assert s == [s[0]] + s[1..];
    }
  }

  /** `s.split(sep)` for a one-character separator: the pieces between
      separators, in order; there is always one more piece than separators. */
  function Split(s: string, sep: char): (r: seq<string>)
    ensures |r| == CountChar(s, sep) + 1
    ensures forall k :: 0 <= k < |r| ==> sep !in r[k]
  {
    if s == [] then [[]]
    else
      var rest := Split(s[1..], sep);
      if s[0] == sep then [[]] + rest
      else [[s[0]] + rest[0]] + rest[1..]
  }

  /** `parts.join(sep)` */
  function Join(parts: seq<string>, sep: string): string {
    if parts == [] then []
    else if |parts| == 1 then parts[0]
    else parts[0] + sep + Join(parts[1..], sep)
  }

  /** Splitting the join of separator-free pieces gives the pieces back. */
  lemma {:induction false} SplitJoin(parts: seq<string>, sep: char)
    requires |parts| >= 1
    requires forall k :: 0 <= k < |parts| ==> sep !in parts[k]
    ensures Split(Join(parts, [sep]), sep) == parts
  {
    if |parts| == 1 {
      SplitNoSep(parts[0], sep);
    } else {
      SplitJoin(parts[1..], sep);
      SplitAppend(parts[0], Join(parts[1..], [sep]), sep);
    }
  }

  lemma {:induction false} SplitNoSep(s: string, sep: char)
    requires sep !in s
    ensures Split(s, sep) == [s]
  {
    if s != [] {
      assert s[0] != sep;
      SplitNoSep(s[1..], sep);
      assert [s[0]] + s[1..] == s;
    }
  }

  lemma {:induction false} SplitAppend(a: string, b: string, sep: char)
    requires sep !in a
    ensures Split(a + [sep] + b, sep) == [a] + Split(b, sep)
  {
    if a == [] {
      assert a + [sep] + b == [sep] + b;
      assert ([sep] + b)[1..] == b;
    } else {
      var s := a + [sep] + b;
      assert s[0] == a[0] && a[0] != sep;
      assert s[1..] == a[1..] + [sep] + b;
      SplitAppend(a[1..], b, sep);
      assert [a[0]] + a[1..] == a;
    }
  }

  // ---------------------------------------------------------------------------
  // Numbers as text
  // ---------------------------------------------------------------------------

  predicate IsDigit(c: char) {
    '0' <= c <= '9'
  }

  function DigitChar(d: nat): char
    requires d < 10
  {
    ('0' as int + d) as char
  }

  function DigitValue(c: char): nat
    requires IsDigit(c)
  {
    c as int - '0' as int
  }

  /** Decimal text of a natural number, without leading zeros. */
  function NatToString(n: nat): (r: string)
    ensures |r| >= 1
    ensures forall i :: 0 <= i < |r| ==> IsDigit(r[i])
    decreases n
  {
    if n < 10 then [DigitChar(n)] else NatToString(n / 10) + [DigitChar(n % 10)]
  }

  /** `String(i)` for an integer. */
  function IntToString(i: int): string {
    if i < 0 then "-" + NatToString(-i) else NatToString(i)
  }

  /** Value of a string of decimal digits. */
  function DigitsValue(s: string): nat
    requires forall i :: 0 <= i < |s| ==> IsDigit(s[i])
  {
    if s == [] then 0 else DigitsValue(s[..|s| - 1]) * 10 + DigitValue(s[|s| - 1])
  }

  /** Printing then reading a natural number gives it back. */
  lemma {:induction false} NatToStringValue(n: nat)
    ensures DigitsValue(NatToString(n)) == n
    decreases n
  {
    if n >= 10 {
      NatToStringValue(n / 10);
      var s := NatToString(n / 10) + [DigitChar(n % 10)];
      assert s[..|s| - 1] == NatToString(n / 10);
    }
  }

  /** Distinct numbers print differently. */
  lemma NatToStringInjective(m: nat, n: nat)
    requires NatToString(m) == NatToString(n)
    ensures m == n
  {
    NatToStringValue(m);
    NatToStringValue(n);
  }

  /** `Math.floor(a / b)` for a positive divisor (Dafny's `/` is Euclidean,
      which agrees with flooring when the divisor is positive). */
  function FloorDiv(a: int, b: int): int
    requires b > 0
  {
    a / b
  }

  /** JavaScript's `a % b`: the remainder takes the sign of the dividend. */
  function JsRem(a: int, b: int): (r: int)
    requires b > 0
    ensures a >= 0 ==> r == a % b
    ensures a >= 0 ==> 0 <= r < b
    ensures a < 0 ==> -b < r <= 0
  {
    if a >= 0 then a % b else -((-a) % b)
  }
}
