/**
 * `decodePolyline` of the itinerary editor: route geometry arrives either as
 * an array of points or as JSON text. The text is stripped of all whitespace
 * (spaces used as thousands separators), parsed, and each four-number point
 * `[a, b, c, d]` -- a latitude and a longitude whose decimal comma was taken
 * for a separator -- is repaired into `[a.b, c.d]`.
 *
 * The JSON accepted is the part of RFC 8259 that geometry uses: a top-level
 * array whose elements are numbers or arrays of numbers. The parser returns
 * a syntax tree whose number literals keep their digits, and is proved exact:
 * it accepts precisely the printed forms of well-formed trees and gives each
 * tree back.
 */
module Polyline {
  import opened Common

  predicate AllDigits(s: string) {
    forall k :: 0 <= k < |s| ==> IsDigit(s[k])
  }

  // ---------------------------------------------------------------------------
  // Syntax (section 6 of RFC 8259 for numbers, section 5 for arrays)
  // ---------------------------------------------------------------------------

  /** `e`/`E`, an optional sign, one or more digits. */
  datatype Exponent = Exponent(mark: char, sign: Option<char>, digits: string)

  /** `-? int frac? exp?` */
  datatype NumLit = NumLit(negative: bool, intDigits: string, fracDigits: Option<string>, exp: Option<Exponent>)

  /** An element of the top-level array: a number or an array of numbers. */
  datatype Item = ScalarItem(n: NumLit) | ListItem(ns: seq<NumLit>)

  predicate WellFormedExp(e: Exponent) {
    (e.mark == 'e' || e.mark == 'E')
    && (e.sign.None? || e.sign.value == '+' || e.sign.value == '-')
    && |e.digits| > 0 && AllDigits(e.digits)
  }

  /** The integer part has no leading zero; fraction and exponent digits are
      non-empty when present. */
  predicate WellFormedNum(n: NumLit) {
    |n.intDigits| > 0 && AllDigits(n.intDigits)
    && (n.intDigits[0] == '0' ==> |n.intDigits| == 1)
    && (n.fracDigits.Some? ==> |n.fracDigits.value| > 0 && AllDigits(n.fracDigits.value))
    && (n.exp.Some? ==> WellFormedExp(n.exp.value))
  }

  predicate WellFormedNums(ns: seq<NumLit>) {
    forall k :: 0 <= k < |ns| ==> WellFormedNum(ns[k])
  }

  predicate WellFormedItem(it: Item) {
    match it
    case ScalarItem(n) => WellFormedNum(n)
    case ListItem(ns) => WellFormedNums(ns)
  }

  predicate WellFormedItems(items: seq<Item>) {
    forall k :: 0 <= k < |items| ==> WellFormedItem(items[k])
  }

  // ---------------------------------------------------------------------------
  // Printing (the reference the parser is proved against)
  // ---------------------------------------------------------------------------

  function PrintExp(e: Option<Exponent>): string {
    if e.None? then ""
    else [e.value.mark] + (if e.value.sign.Some? then [e.value.sign.value] else "") + e.value.digits
  }

  function PrintFrac(f: Option<string>): string {
    if f.None? then "" else "." + f.value
  }

  function PrintNum(n: NumLit): string {
    (if n.negative then "-" else "") + (n.intDigits + (PrintFrac(n.fracDigits) + PrintExp(n.exp)))
  }

  /** A printed number starts with '-' or a digit. */
  lemma PrintNumHead(n: NumLit)
    requires WellFormedNum(n)
    ensures |PrintNum(n)| > 0
    ensures PrintNum(n)[0] == '-' || IsDigit(PrintNum(n)[0])
  {
    var body := n.intDigits + (PrintFrac(n.fracDigits) + PrintExp(n.exp));
    assert body[0] == n.intDigits[0];
  }

  lemma NumConcat(n: NumLit, rest: string)
    ensures PrintNum(n) + rest
      == (if n.negative then "-" else "") + (n.intDigits + (PrintFrac(n.fracDigits) + (PrintExp(n.exp) + rest)))
  {
  }

  function PrintNums(ns: seq<NumLit>): string {
    if ns == [] then ""
    else if |ns| == 1 then PrintNum(ns[0])
    else PrintNum(ns[0]) + "," + PrintNums(ns[1..])
  }

  function PrintItem(it: Item): string {
    match it
    case ScalarItem(n) => PrintNum(n)
    case ListItem(ns) => "[" + PrintNums(ns) + "]"
  }

  function PrintItems(items: seq<Item>): string {
    if items == [] then ""
    else if |items| == 1 then PrintItem(items[0])
    else PrintItem(items[0]) + "," + PrintItems(items[1..])
  }

  function PrintDocument(items: seq<Item>): string {
    "[" + PrintItems(items) + "]"
  }

  // ---------------------------------------------------------------------------
  // Parsing
  // ---------------------------------------------------------------------------

  /** The longest prefix of digits, and what follows it. */
  function ScanDigits(s: string): (r: (string, string))
    ensures r.0 + r.1 == s
    ensures AllDigits(r.0)
    ensures r.1 == [] || !IsDigit(r.1[0])
  {
    if s != [] && IsDigit(s[0]) then
      var t := ScanDigits(s[1..]);
      DigitsCons(s[0], t.0, t.1, s);
      ([s[0]] + t.0, t.1)
    else ([], s)
  }

  lemma DigitsCons(c: char, d: string, rest: string, s: string)
    requires IsDigit(c) && AllDigits(d)
    requires s != [] && s[0] == c && d + rest == s[1..]
    ensures AllDigits([c] + d) && [c] + d + rest == s
  {
    assert s == [c] + s[1..];
  }

  function ScanExp(s: string): (r: Option<(Option<Exponent>, string)>)
    ensures r.Some? ==> s == PrintExp(r.value.0) + r.value.1
    ensures r.Some? && r.value.0.Some? ==> WellFormedExp(r.value.0.value)
  {
    if s != [] && (s[0] == 'e' || s[0] == 'E') then
      var signed := |s| > 1 && (s[1] == '+' || s[1] == '-');
      var sign := if signed then Some(s[1]) else None;
      var t := if signed then s[2..] else s[1..];
      var d := ScanDigits(t);
      if d.0 == [] then None
      else
        ExpParts(s, signed, t, d.0, d.1);
        Some((Some(Exponent(s[0], sign, d.0)), d.1))
    else Some((None, s))
  }

  /** A mark, an optional sign, then digits and the rest: the printed
      exponent followed by the rest. */
  lemma ExpParts(s: string, signed: bool, t: string, digits: string, rest: string)
    requires |s| >= (if signed then 2 else 1) && (s[0] == 'e' || s[0] == 'E')
    requires signed ==> s[1] == '+' || s[1] == '-'
    requires t == if signed then s[2..] else s[1..]
    requires digits + rest == t && AllDigits(digits) && digits != []
    ensures var x := Exponent(s[0], if signed then Some(s[1]) else None, digits);
      WellFormedExp(x) && s == PrintExp(Some(x)) + rest
  {
    if signed {
      assert s == [s[0], s[1]] + t;
    } else {
      assert s == [s[0]] + t;
    }
  }

  function ScanFrac(s: string): (r: Option<(Option<string>, string)>)
    ensures r.Some? ==> s == PrintFrac(r.value.0) + r.value.1
    ensures r.Some? && r.value.0.Some? ==> |r.value.0.value| > 0 && AllDigits(r.value.0.value)
  {
    if s != [] && s[0] == '.' then
      var d := ScanDigits(s[1..]);
      if d.0 == [] then None
      else
        assert s == "." + s[1..];
        Some((Some(d.0), d.1))
    else Some((None, s))
  }

  /** The integer part: a single '0', or a non-zero digit and the digits
      after it. */
  function ScanInt(s: string): (r: (string, string))
    requires s != [] && IsDigit(s[0])
    ensures r.0 + r.1 == s
    ensures |r.0| > 0 && AllDigits(r.0) && (r.0[0] == '0' ==> |r.0| == 1)
  {
    if s[0] == '0' then
      assert [s[0]] + s[1..] == s;
      ([s[0]], s[1..])
    else ScanDigits(s)
  }

  /** A number at the start of `s`, and the text after it. */
  function ScanNumber(s: string): (r: Option<(NumLit, string)>)
    ensures r.Some? ==> WellFormedNum(r.value.0) && s == PrintNum(r.value.0) + r.value.1
    ensures r.Some? ==> |r.value.1| < |s|
  {
    var neg := s != [] && s[0] == '-';
    var s1 := if neg then s[1..] else s;
    if s1 == [] || !IsDigit(s1[0]) then None
    else
      var ip := ScanInt(s1);
      match ScanFrac(ip.1)
      case None => None
      case Some(fp) =>
        match ScanExp(fp.1)
        case None => None
        case Some(ep) =>
          var n := NumLit(neg, ip.0, fp.0, ep.0);
          assert s == (if neg then "-" else "") + s1;
          assert s1 == ip.0 + (PrintFrac(fp.0) + (PrintExp(ep.0) + ep.1));
          NumConcat(n, ep.1);
          Some((n, ep.1))
  }

  /** Numbers separated by ',' (at least one). */
  function ParseNums(s: string): (r: Option<(seq<NumLit>, string)>)
    ensures r.Some? ==> |r.value.0| >= 1 && WellFormedNums(r.value.0) && s == PrintNums(r.value.0) + r.value.1
    ensures r.Some? ==> |r.value.1| < |s|
    decreases |s|
  {
    match ScanNumber(s)
    case None => None
    case Some(p) =>
      var n, rest := p.0, p.1;
      if rest != [] && rest[0] == ',' then
        match ParseNums(rest[1..])
        case None => None
        case Some(q) =>
          NumsCons(n, q.0, q.1, rest);
          Some(([n] + q.0, q.1))
      else
        assert PrintNums([n]) == PrintNum(n);
        Some(([n], rest))
  }

  /** A number, ',' and printed numbers print as the longer list. */
  lemma NumsCons(n: NumLit, ns: seq<NumLit>, r: string, rest: string)
    requires |ns| >= 1 && rest != [] && rest[0] == ',' && rest[1..] == PrintNums(ns) + r
    ensures PrintNum(n) + rest == PrintNums([n] + ns) + r
  {
    var all := [n] + ns;
    assert all[1..] == ns && all[0] == n;
    assert rest == "," + rest[1..];
    Assoc3(PrintNum(n), ",", PrintNums(ns), r);
  }

  function ParseItem(s: string): (r: Option<(Item, string)>)
    ensures r.Some? ==> WellFormedItem(r.value.0) && s == PrintItem(r.value.0) + r.value.1
    ensures r.Some? ==> |r.value.1| < |s|
  {
    if s != [] && s[0] == '[' then
      var t := s[1..];
      assert s == "[" + t;
      if t != [] && t[0] == ']' then
        assert t == "]" + t[1..];
        Some((ListItem([]), t[1..]))
      else
        match ParseNums(t)
        case None => None
        case Some(q) =>
          if q.1 != [] && q.1[0] == ']' then
            assert q.1 == "]" + q.1[1..];
            Some((ListItem(q.0), q.1[1..]))
          else None
    else
      match ScanNumber(s)
      case None => None
      case Some(p) => Some((ScalarItem(p.0), p.1))
  }

  /** Items separated by ',' (at least one). */
  function ParseItems(s: string): (r: Option<(seq<Item>, string)>)
    ensures r.Some? ==> |r.value.0| >= 1 && WellFormedItems(r.value.0) && s == PrintItems(r.value.0) + r.value.1
    decreases |s|
  {
    match ParseItem(s)
    case None => None
    case Some(p) =>
      var it, rest := p.0, p.1;
      if rest != [] && rest[0] == ',' then
        match ParseItems(rest[1..])
        case None => None
        case Some(q) =>
          var items := [it] + q.0;
          assert items[1..] == q.0 && items[0] == it;
          assert rest == "," + rest[1..];
          Assoc3(PrintItem(it), ",", PrintItems(q.0), q.1);
          Some((items, q.1))
      else
        assert PrintItems([it]) == PrintItem(it);
        Some(([it], rest))
  }

  lemma Assoc3(a: string, b: string, c: string, d: string)
    ensures a + (b + (c + d)) == (a + b + c) + d
  {
  }

  /** `JSON.parse(text)` for the geometry subset; `None` is a `SyntaxError`.
      Only the printed form of a well-formed tree is accepted. */
  function ParseDocument(s: string): (r: Option<seq<Item>>)
    ensures r.Some? ==> WellFormedItems(r.value) && s == PrintDocument(r.value)
  {
    if s != [] && s[0] == '[' then
      var t := s[1..];
      assert s == "[" + t;
      if t == "]" then Some([])
      else
        match ParseItems(t)
        case None => None
        case Some(q) => if q.1 == "]" then Some(q.0) else None
    else None
  }

  // ---------------------------------------------------------------------------
  // Round trip: every well-formed tree is parsed back from its printed form
  // ---------------------------------------------------------------------------

  /** The characters that may follow a number inside an array. */
  predicate Delimited(rest: string) {
    rest == [] || rest[0] == ',' || rest[0] == ']'
  }

  lemma {:induction false} ScanDigitsPrinted(d: string, rest: string)
    requires AllDigits(d) && (rest == [] || !IsDigit(rest[0]))
    ensures ScanDigits(d + rest) == (d, rest)
  {
    var s := d + rest;
    if d != [] {
      assert s[0] == d[0] && IsDigit(s[0]);
      assert s[1..] == d[1..] + rest;
      ScanDigitsPrinted(d[1..], rest);
      assert ScanDigits(s) == ([s[0]] + ScanDigits(s[1..]).0, ScanDigits(s[1..]).1);
      assert [d[0]] + d[1..] == d;
    } else {
      assert s == rest;
    }
  }

  /** `ScanExp` on a mark, an optional sign and text starting with a digit. */
  lemma ScanExpStep(s: string, mark: char, sign: Option<char>, t: string)
    requires mark == 'e' || mark == 'E'
    requires sign.None? || sign.value == '+' || sign.value == '-'
    requires s == [mark] + ((if sign.Some? then [sign.value] else "") + t)
    requires t != [] && IsDigit(t[0])
    ensures ScanExp(s) == Some((Some(Exponent(mark, sign, ScanDigits(t).0)), ScanDigits(t).1))
  {
    var d := ScanDigits(t);
    assert d.0 != [] by {
      assert d.0 + d.1 == t;
    }
    if sign.Some? {
      ScanExpSigned(s, mark, sign.value, t);
    } else {
      ScanExpUnsigned(s, mark, t);
    }
  }

  lemma ScanExpSigned(s: string, mark: char, c: char, t: string)
    requires mark == 'e' || mark == 'E'
    requires c == '+' || c == '-'
    requires s == [mark, c] + t
    requires ScanDigits(t).0 != []
    ensures ScanExp(s) == Some((Some(Exponent(mark, Some(c), ScanDigits(t).0)), ScanDigits(t).1))
  {
    assert s[1] == c;
    assert s[2..] == t;
  }

  lemma ScanExpUnsigned(s: string, mark: char, t: string)
    requires mark == 'e' || mark == 'E'
    requires s == [mark] + t
    requires t != [] && IsDigit(t[0])
    requires ScanDigits(t).0 != []
    ensures ScanExp(s) == Some((Some(Exponent(mark, None, ScanDigits(t).0)), ScanDigits(t).1))
  {
    assert s[1..] == t;
    assert s[1] == t[0] && s[1] != '+' && s[1] != '-';
  }

  lemma ScanExpPrinted(e: Option<Exponent>, rest: string)
    requires e.Some? ==> WellFormedExp(e.value)
    requires Delimited(rest)
    ensures ScanExp(PrintExp(e) + rest) == Some((e, rest))
  {
    if e.Some? {
      var x := e.value;
      var sg := if x.sign.Some? then [x.sign.value] else "";
      var t := x.digits + rest;
      assert PrintExp(e) + rest == [x.mark] + (sg + t);
      assert t[0] == x.digits[0];
      ScanDigitsPrinted(x.digits, rest);
      ScanExpStep(PrintExp(e) + rest, x.mark, x.sign, t);
    } else {
      assert PrintExp(e) + rest == rest;
    }
  }

  lemma ScanFracPrinted(f: Option<string>, after: string)
    requires f.Some? ==> |f.value| > 0 && AllDigits(f.value)
    requires after == [] || (!IsDigit(after[0]) && after[0] != '.')
    ensures ScanFrac(PrintFrac(f) + after) == Some((f, after))
  {
    if f.Some? {
      var s := PrintFrac(f) + after;
      assert s == "." + (f.value + after);
      assert s[1..] == f.value + after;
      ScanDigitsPrinted(f.value, after);
    } else {
      assert PrintFrac(f) + after == after;
    }
  }

  lemma ScanIntPrinted(d: string, tail: string)
    requires |d| > 0 && AllDigits(d) && (d[0] == '0' ==> |d| == 1)
    requires tail == [] || !IsDigit(tail[0])
    ensures ScanInt(d + tail) == (d, tail)
  {
    var s := d + tail;
    assert s[0] == d[0];
    if d[0] == '0' {
      assert [s[0]] == d && s[1..] == tail;
    } else {
      ScanDigitsPrinted(d, tail);
    }
  }

  /** What follows the fraction: an exponent mark or a delimiter. */
  lemma AfterFracHead(e: Option<Exponent>, rest: string)
    requires e.Some? ==> WellFormedExp(e.value)
    requires Delimited(rest)
    ensures var t := PrintExp(e) + rest; t == [] || (!IsDigit(t[0]) && t[0] != '.')
  {
    if e.Some? {
      assert (PrintExp(e) + rest)[0] == e.value.mark;
    } else {
      assert PrintExp(e) + rest == rest;
    }
  }

  lemma AfterIntHead(f: Option<string>, after: string)
    requires after == [] || !IsDigit(after[0])
    ensures var t := PrintFrac(f) + after; t == [] || !IsDigit(t[0])
  {
    if f.Some? {
      assert (PrintFrac(f) + after)[0] == '.';
    } else {
      assert PrintFrac(f) + after == after;
    }
  }

  /** The integer part, fraction and exponent of a printed number each scan
      back to themselves. */
  lemma ScanPartsPrinted(n: NumLit, rest: string)
    requires WellFormedNum(n) && Delimited(rest)
    ensures var afterFrac := PrintExp(n.exp) + rest;
      var tail := PrintFrac(n.fracDigits) + afterFrac;
      var s1 := n.intDigits + tail;
      s1 != [] && IsDigit(s1[0]) && ScanInt(s1) == (n.intDigits, tail)
      && ScanFrac(tail) == Some((n.fracDigits, afterFrac)) && ScanExp(afterFrac) == Some((n.exp, rest))
  {
    var afterFrac := PrintExp(n.exp) + rest;
    ScanExpPrinted(n.exp, rest);
    AfterFracHead(n.exp, rest);
    var tail := PrintFrac(n.fracDigits) + afterFrac;
    ScanFracPrinted(n.fracDigits, afterFrac);
    AfterIntHead(n.fracDigits, afterFrac);
    var s1 := n.intDigits + tail;
    ScanIntPrinted(n.intDigits, tail);
    assert s1[0] == n.intDigits[0];
  }

  lemma ScanNumberPrinted(n: NumLit, rest: string)
    requires WellFormedNum(n) && Delimited(rest)
    ensures ScanNumber(PrintNum(n) + rest) == Some((n, rest))
  {
    ScanPartsPrinted(n, rest);
    var s1 := n.intDigits + (PrintFrac(n.fracDigits) + (PrintExp(n.exp) + rest));
    var s := PrintNum(n) + rest;
    NumConcat(n, rest);
    if n.negative {
      assert s == "-" + s1;
      assert s[0] == '-' && s[1..] == s1;
    } else {
      assert s == s1;
      assert s[0] != '-';
    }
  }

  /** One step of `ParseNums`: a number then ',' then more numbers. */
  lemma ParseNumsCons(s: string, n: NumLit, more: string, ns: seq<NumLit>, r: string)
    requires ScanNumber(s) == Some((n, "," + more))
    requires ParseNums(more) == Some((ns, r))
    ensures ParseNums(s) == Some(([n] + ns, r))
  {
    assert ("," + more)[1..] == more;
  }

  /** The last step of `ParseNums`: a number then a non-','. */
  lemma ParseNumsLast(s: string, n: NumLit, rest: string)
    requires ScanNumber(s) == Some((n, rest)) && rest != [] && rest[0] == ']'
    ensures ParseNums(s) == Some(([n], rest))
  {
  }

  lemma {:induction false} ParseNumsPrinted(ns: seq<NumLit>, rest: string)
    requires |ns| >= 1 && WellFormedNums(ns)
    requires rest != [] && rest[0] == ']'
    ensures ParseNums(PrintNums(ns) + rest) == Some((ns, rest))
  {
    if |ns| == 1 {
      ScanNumberPrinted(ns[0], rest);
      assert PrintNums(ns) == PrintNum(ns[0]);
      ParseNumsLast(PrintNums(ns) + rest, ns[0], rest);
      assert [ns[0]] == ns;
    } else {
      var more := PrintNums(ns[1..]) + rest;
      Assoc3(PrintNum(ns[0]), ",", PrintNums(ns[1..]), rest);
      ScanNumberPrinted(ns[0], "," + more);
      assert WellFormedNums(ns[1..]);
      ParseNumsPrinted(ns[1..], rest);
      ParseNumsCons(PrintNums(ns) + rest, ns[0], more, ns[1..], rest);
      assert [ns[0]] + ns[1..] == ns;
    }
  }

  lemma ParseItemPrinted(it: Item, rest: string)
    requires WellFormedItem(it) && Delimited(rest)
    ensures ParseItem(PrintItem(it) + rest) == Some((it, rest))
  {
    match it
    case ScalarItem(n) => ParseScalarPrinted(n, rest);
    case ListItem(ns) => ParseListPrinted(ns, rest);
  }

  lemma ParseScalarPrinted(n: NumLit, rest: string)
    requires WellFormedNum(n) && Delimited(rest)
    ensures ParseItem(PrintNum(n) + rest) == Some((ScalarItem(n), rest))
  {
    ScanNumberPrinted(n, rest);
    PrintNumHead(n);
    assert (PrintNum(n) + rest)[0] == PrintNum(n)[0];
  }

  lemma ParseListPrinted(ns: seq<NumLit>, rest: string)
    requires WellFormedNums(ns) && Delimited(rest)
    ensures ParseItem(PrintItem(ListItem(ns)) + rest) == Some((ListItem(ns), rest))
  {
    var t := PrintNums(ns) + ("]" + rest);
    ListPrintedShape(ns, rest);
    if ns == [] {
      ParseBracketed(t, []);
      assert t[1..] == rest;
    } else {
      ListBodyParsed(ns, rest);
      ParseBracketed(t, ns);
      assert ("]" + rest)[1..] == rest;
    }
  }

  /** The printed list is '[' followed by its numbers and the ']'. */
  lemma ListPrintedShape(ns: seq<NumLit>, rest: string)
    ensures PrintItem(ListItem(ns)) + rest == "[" + (PrintNums(ns) + ("]" + rest))
    ensures ns == [] ==> PrintNums(ns) + ("]" + rest) == "]" + rest
  {
  }

  /** The numbers of a non-empty printed list parse back, up to the ']'. */
  lemma ListBodyParsed(ns: seq<NumLit>, rest: string)
    requires WellFormedNums(ns) && ns != []
    ensures var t := PrintNums(ns) + ("]" + rest);
      t != [] && t[0] != ']' && ParseNums(t) == Some((ns, "]" + rest))
  {
    var t := PrintNums(ns) + ("]" + rest);
    ParseNumsPrinted(ns, "]" + rest);
    PrintNumHead(ns[0]);
    assert t[0] == PrintNum(ns[0])[0];
  }

  /** `ParseItem` on '[' followed by `t`. */
  lemma ParseBracketed(t: string, ns: seq<NumLit>)
    requires t != []
    requires ns == [] ==> t[0] == ']'
    requires ns != [] ==> (t[0] != ']' && ParseNums(t).Some? && ParseNums(t).value.0 == ns
      && ParseNums(t).value.1 != [] && ParseNums(t).value.1[0] == ']')
    ensures ns == [] ==> ParseItem("[" + t) == Some((ListItem([]), t[1..]))
    ensures ns != [] ==> ParseItem("[" + t) == Some((ListItem(ns), ParseNums(t).value.1[1..]))
  {
    var s := "[" + t;
    assert s[0] == '[' && s[1..] == t;
  }

  /** One step of `ParseItems`: an item then ',' then more items. */
  lemma ParseItemsCons(s: string, it: Item, more: string, items: seq<Item>, r: string)
    requires ParseItem(s) == Some((it, "," + more))
    requires ParseItems(more) == Some((items, r))
    ensures ParseItems(s) == Some(([it] + items, r))
  {
    assert ("," + more)[1..] == more;
  }

  /** The last step of `ParseItems`: an item then a non-','. */
  lemma ParseItemsLast(s: string, it: Item, rest: string)
    requires ParseItem(s) == Some((it, rest)) && rest != [] && rest[0] == ']'
    ensures ParseItems(s) == Some(([it], rest))
  {
  }

  lemma {:induction false} ParseItemsPrinted(items: seq<Item>, rest: string)
    requires |items| >= 1 && WellFormedItems(items)
    requires rest != [] && rest[0] == ']'
    ensures ParseItems(PrintItems(items) + rest) == Some((items, rest))
  {
    if |items| == 1 {
      ParseItemPrinted(items[0], rest);
      assert PrintItems(items) == PrintItem(items[0]);
      ParseItemsLast(PrintItems(items) + rest, items[0], rest);
      assert [items[0]] == items;
    } else {
      var more := PrintItems(items[1..]) + rest;
      Assoc3(PrintItem(items[0]), ",", PrintItems(items[1..]), rest);
      ParseItemPrinted(items[0], "," + more);
      assert WellFormedItems(items[1..]);
      ParseItemsPrinted(items[1..], rest);
      ParseItemsCons(PrintItems(items) + rest, items[0], more, items[1..], rest);
      assert [items[0]] + items[1..] == items;
    }
  }

  lemma PrintItemNonEmpty(it: Item)
    requires WellFormedItem(it)
    ensures |PrintItem(it)| > 0
  {
  }

  /** Parsing the printed form of a well-formed tree gives the tree back;
      together with the contract of `ParseDocument` this makes the parser
      exactly the inverse of the printer. */
  lemma DocumentRoundTrip(items: seq<Item>)
    requires WellFormedItems(items)
    ensures ParseDocument(PrintDocument(items)) == Some(items)
  {
    var t := PrintItems(items) + "]";
    assert PrintDocument(items) == "[" + t;
    if items == [] {
      assert t == "]";
      ParseDocumentOf(t, []);
    } else {
      PrintItemNonEmpty(items[0]);
      assert |PrintItems(items)| > 0;
      assert t != "]";
      ParseItemsPrinted(items, "]");
      ParseDocumentOf(t, items);
    }
  }

  /** `ParseDocument` on '[' followed by `t`. */
  lemma ParseDocumentOf(t: string, items: seq<Item>)
    requires items == [] ==> t == "]"
    requires items != [] ==> (t != "]" && ParseItems(t) == Some((items, "]")))
    ensures ParseDocument("[" + t) == Some(items)
  {
    var s := "[" + t;
    assert s[0] == '[' && s[1..] == t;
  }

  // ---------------------------------------------------------------------------
  // Values
  // ---------------------------------------------------------------------------

  function Pow10(k: nat): (r: nat)
    ensures r >= 1
  {
    if k == 0 then 1 else 10 * Pow10(k - 1)
  }

  /** The number a literal denotes. */
  function NumValue(n: NumLit): real
    requires WellFormedNum(n)
  {
    var whole := DigitsValue(n.intDigits) as real;
    var frac := if n.fracDigits.Some? then DigitsValue(n.fracDigits.value) as real / Pow10(|n.fracDigits.value|) as real else 0.0;
    var mag :=
      if n.exp.None? then whole + frac
      else if n.exp.value.sign == Some('-') then (whole + frac) / Pow10(DigitsValue(n.exp.value.digits)) as real
      else (whole + frac) * Pow10(DigitsValue(n.exp.value.digits)) as real;
    if n.negative then -mag else mag
  }

  predicate IsIntegral(x: real) {
    x.Floor as real == x
  }

  /** `parseFloat(\`${a}.${b}\`)`: the decimal digits of `b`'s integer part
      become the fraction of `a`. When `a` is not an integer, or so large that
      JavaScript prints it in exponent form, or `b` is negative, the text after
      `a` is not read. A `b` with a fractional part contributes its integer
      digits; a `b` JavaScript prints in exponent form is read the same way. */
  function SplitDecimal(a: real, b: real): real {
    if !IsIntegral(a) || a >= Pow10(21) as real || a <= -(Pow10(21) as real) then a
    else if b < 0.0 then a
    else
      var whole: nat := b.Floor;
      AwayFromZero(a, Fraction(whole, |NatToString(whole)|))
  }

  /** `d / 10^len` */
  function Fraction(d: nat, len: nat): real {
    d as real / Pow10(len) as real
  }

  /** `x` moved by `f` away from zero (a negative `x` goes down). */
  function AwayFromZero(x: real, f: real): real {
    if x < 0.0 then x - f else x + f
  }

  /** A geometry point: a bare number or an array of numbers. */
  datatype Point = Scalar(x: real) | Tuple(xs: seq<real>)

  /** The value given to `decodePolyline`. */
  datatype Encoded = Falsy | Str(s: string) | Arr(points: seq<Point>) | OtherValue

  function RepairItem(it: Item): (p: Point)
    requires WellFormedItem(it)
    ensures it.ScalarItem? ==> p == Scalar(NumValue(it.n))
    ensures it.ListItem? && |it.ns| == 4 ==> p == Tuple([
      SplitDecimal(NumValue(it.ns[0]), NumValue(it.ns[1])),
      SplitDecimal(NumValue(it.ns[2]), NumValue(it.ns[3]))])
    ensures it.ListItem? && |it.ns| != 4 ==>
      (p.Tuple? && |p.xs| == |it.ns| && forall k :: 0 <= k < |it.ns| ==> p.xs[k] == NumValue(it.ns[k]))
  {
    match it
    case ScalarItem(n) => Scalar(NumValue(n))
    case ListItem(ns) =>
      if |ns| == 4 then
        Tuple([SplitDecimal(NumValue(ns[0]), NumValue(ns[1])), SplitDecimal(NumValue(ns[2]), NumValue(ns[3]))])
      else
        Tuple(seq(|ns|, k requires 0 <= k < |ns| => NumValue(ns[k])))
  }

  /** `parsed.map(point => ...)` */
  function RepairAll(items: seq<Item>): (r: seq<Point>)
    requires WellFormedItems(items)
    ensures |r| == |items|
    ensures forall k :: 0 <= k < |items| ==> r[k] == RepairItem(items[k])
  {
    seq(|items|, k requires 0 <= k < |items| => RepairItem(items[k]))
  }

  /** `decodePolyline(encoded)` */
  function DecodePolyline(encoded: Encoded): seq<Point> {
    match encoded
    case Falsy => []
    case OtherValue => []
    case Arr(points) => points
    case Str(s) =>
      if s == "" || !StartsWith(s, "[") then []
      else
        match ParseDocument(StripSpaces(s))
        case None => []
        case Some(items) => RepairAll(items)
  }

  // ---------------------------------------------------------------------------
  // Properties
  // ---------------------------------------------------------------------------

  /** An array is returned as it is; falsy values, other non-strings, strings
      not starting with '[' and unparsable text give the empty list. */
  lemma DecodeFallbacks(encoded: Encoded)
    ensures encoded.Arr? ==> DecodePolyline(encoded) == encoded.points
    ensures encoded.Falsy? || encoded.OtherValue? ==> DecodePolyline(encoded) == []
    ensures encoded.Str? && !StartsWith(encoded.s, "[") ==> DecodePolyline(encoded) == []
    ensures encoded.Str? && ParseDocument(StripSpaces(encoded.s)).None? ==> DecodePolyline(encoded) == []
  {
  }

  /** Text that starts with '[' decodes the same whatever whitespace it
      carries: only its whitespace-free form matters. */
  lemma DecodeIgnoresWhitespace(s: string, t: string)
    requires StartsWith(s, "[") && StartsWith(t, "[")
    requires StripSpaces(s) == StripSpaces(t)
    ensures DecodePolyline(Str(s)) == DecodePolyline(Str(t))
  {
  }

  /** Inserting whitespace after the opening '[' never changes the result. */
  lemma DecodeIgnoresInsertedWhitespace(a: string, w: string, b: string)
    requires StartsWith(a, "[")
    requires forall k :: 0 <= k < |w| ==> IsSpace(w[k])
    ensures DecodePolyline(Str(a + w + b)) == DecodePolyline(Str(a + b))
  {
    StripSpacesAppend(a + w, b);
    StripSpacesAppend(a, w);
    StripSpacesAppend(a, b);
    StripSpacesAllSpace(w);
    assert StripSpaces(a) + StripSpaces(w) == StripSpaces(a);
    assert (a + w + b)[..1] == a[..1] && (a + b)[..1] == a[..1];
  }

  /** Decoding printed geometry yields one point per element, in order,
      each one repaired. */
  lemma DecodePrinted(items: seq<Item>)
    requires WellFormedItems(items)
    ensures DecodePolyline(Str(PrintDocument(items))) == RepairAll(items)
  {
    var s := PrintDocument(items);
    assert forall k :: 0 <= k < |PrintItems(items)| ==> !IsSpace(PrintItems(items)[k]) by {
      PrintItemsNoSpace(items);
    }
    StripSpacesNoSpace(s);
    DocumentRoundTrip(items);
  }

  lemma NoSpaceAppend(a: string, b: string)
    requires forall k :: 0 <= k < |a| ==> !IsSpace(a[k])
    requires forall k :: 0 <= k < |b| ==> !IsSpace(b[k])
    ensures forall k :: 0 <= k < |a + b| ==> !IsSpace((a + b)[k])
  {
    forall k | 0 <= k < |a + b| ensures !IsSpace((a + b)[k]) {
      if k >= |a| {
        assert (a + b)[k] == b[k - |a|];
      }
    }
  }

  lemma PrintNumNoSpace(n: NumLit)
    requires WellFormedNum(n)
    ensures forall k :: 0 <= k < |PrintNum(n)| ==> !IsSpace(PrintNum(n)[k])
  {
    var sign := if n.negative then "-" else "";
    NoSpaceAppend(sign, n.intDigits);
    var f := PrintFrac(n.fracDigits);
    if n.fracDigits.Some? {
      NoSpaceAppend(".", n.fracDigits.value);
    }
    NoSpaceAppend(sign + n.intDigits, f);
    var e := PrintExp(n.exp);
    if n.exp.Some? {
      var x := n.exp.value;
      var sg := if x.sign.Some? then [x.sign.value] else "";
      NoSpaceAppend([x.mark], sg);
      NoSpaceAppend([x.mark] + sg, x.digits);
    }
    NoSpaceAppend(sign + n.intDigits + f, e);
  }

  lemma {:induction false} PrintNumsNoSpace(ns: seq<NumLit>)
    requires WellFormedNums(ns)
    ensures forall k :: 0 <= k < |PrintNums(ns)| ==> !IsSpace(PrintNums(ns)[k])
  {
    if |ns| == 1 {
      PrintNumNoSpace(ns[0]);
    } else if |ns| > 1 {
      PrintNumNoSpace(ns[0]);
      assert WellFormedNums(ns[1..]);
      PrintNumsNoSpace(ns[1..]);
      NoSpaceAppend(PrintNum(ns[0]), ",");
      NoSpaceAppend(PrintNum(ns[0]) + ",", PrintNums(ns[1..]));
    }
  }

  lemma PrintItemNoSpace(it: Item)
    requires WellFormedItem(it)
    ensures forall k :: 0 <= k < |PrintItem(it)| ==> !IsSpace(PrintItem(it)[k])
  {
    match it
    case ScalarItem(n) => PrintNumNoSpace(n);
    case ListItem(ns) =>
      PrintNumsNoSpace(ns);
      NoSpaceAppend("[", PrintNums(ns));
      NoSpaceAppend("[" + PrintNums(ns), "]");
  }

  lemma {:induction false} PrintItemsNoSpace(items: seq<Item>)
    requires WellFormedItems(items)
    ensures forall k :: 0 <= k < |PrintItems(items)| ==> !IsSpace(PrintItems(items)[k])
    ensures forall k :: 0 <= k < |PrintDocument(items)| ==> !IsSpace(PrintDocument(items)[k])
  {
    if |items| == 1 {
      PrintItemNoSpace(items[0]);
    } else if |items| > 1 {
      PrintItemNoSpace(items[0]);
      assert WellFormedItems(items[1..]);
      PrintItemsNoSpace(items[1..]);
      NoSpaceAppend(PrintItem(items[0]), ",");
      NoSpaceAppend(PrintItem(items[0]) + ",", PrintItems(items[1..]));
    }
    NoSpaceAppend("[", PrintItems(items));
    NoSpaceAppend("[" + PrintItems(items), "]");
  }

  // ---------------------------------------------------------------------------
  // The decimal-comma repair
  // ---------------------------------------------------------------------------

  /** Digits as printed for a whole number: no leading zero unless the number
      is zero itself. */
  predicate Canonical(d: string) {
    |d| > 0 && AllDigits(d) && (d[0] == '0' ==> |d| == 1)
  }

  lemma {:induction false} DigitsValuePositive(d: string)
    requires |d| > 0 && AllDigits(d) && d[0] != '0'
    ensures DigitsValue(d) >= 1
    decreases |d|
  {
    if |d| > 1 {
      DigitsValuePositive(d[..|d| - 1]);
    }
  }

  lemma {:induction false} DigitsValueBound(d: string)
    requires AllDigits(d)
    ensures DigitsValue(d) < Pow10(|d|)
    decreases |d|
  {
    if d != [] {
      DigitsValueBound(d[..|d| - 1]);
    }
  }

  /** Printing the value of canonical digits gives the same digits back. */
  lemma {:induction false} CanonicalDigits(d: string)
    requires Canonical(d)
    ensures NatToString(DigitsValue(d)) == d
    decreases |d|
  {
    var v := DigitsValue(d);
    if |d| == 1 {
      assert v == DigitValue(d[0]) && v < 10;
    } else {
      var init := d[..|d| - 1];
      DigitsValuePositive(init);
      assert v / 10 == DigitsValue(init) && v % 10 == DigitValue(d[|d| - 1]);
      assert init[0] == d[0];
      CanonicalDigits(init);
      assert init + [d[|d| - 1]] == d;
    }
  }

  /** The repair reads `[a, b]` as the decimal number whose integer part is
      `a` and whose fraction digits are `b`: for plain integers, as long as
      JavaScript prints them without an exponent (fewer than 22 digits) and
      `a` is not a negative zero, `SplitDecimal` yields exactly the value of
      the literal `a.b`. */
  lemma SplitDecimalReadsFraction(negative: bool, a: string, b: string)
    requires Canonical(a) && Canonical(b)
    requires |a| <= 21 && |b| <= 21
    requires negative ==> a != "0"
    ensures SplitDecimal(NumValue(NumLit(negative, a, None, None)), NumValue(NumLit(false, b, None, None)))
         == NumValue(NumLit(negative, a, Some(b), None))
  {
    var A := DigitsValue(a);
    var B := DigitsValue(b);
    DigitsValueBound(a);
    Pow10Mono(|a|, 21);
    CanonicalDigits(b);
    if negative {
      DigitsValuePositive(a);
    }
    var x: int := if negative then -(A as int) else A;
    NumValueLiteral(negative, a, b, x);
    SplitDecimalOfInt(x, B);
  }

  /** The values of the plain literals `a` and `b` and of the literal `a.b`,
      where `x` is the signed value of `a`. */
  lemma NumValueLiteral(negative: bool, a: string, b: string, x: int)
    requires Canonical(a) && Canonical(b)
    requires x == (if negative then -(DigitsValue(a) as int) else DigitsValue(a))
    requires negative ==> x < 0
    ensures NumValue(NumLit(negative, a, None, None)) == x as real
    ensures NumValue(NumLit(false, b, None, None)) == DigitsValue(b) as real
    ensures NumValue(NumLit(negative, a, Some(b), None)) == AwayFromZero(x as real, Fraction(DigitsValue(b), |b|))
  {
  }

  /** `SplitDecimal` of an integer below 10^21 in magnitude and a whole
      number `B`: `B`'s digits are appended after the point, away from zero. */
  lemma SplitDecimalOfInt(x: int, B: nat)
    requires -(Pow10(21) as int) < x < Pow10(21)
    ensures SplitDecimal(x as real, B as real) == AwayFromZero(x as real, Fraction(B, |NatToString(B)|))
  {
    assert (x as real).Floor == x;
    assert (B as real).Floor == B;
  }

  lemma {:induction false} Pow10Mono(i: nat, j: nat)
    requires i <= j
    ensures Pow10(i) <= Pow10(j)
    decreases j
  {
    if i < j {
      Pow10Mono(i, j - 1);
    }
  }
}
