/** RFC 3339 UTC timestamps: `rfc3339_utc` of src/audit.rs. */
module Timestamp {
  import opened Wrappers
  import opened Calendar
  import opened Order

  // ---------------------------------------------------------------------------------------
  // Decimal numerals
  // ---------------------------------------------------------------------------------------

  function Digit(n: nat): char {
    ('0' as int + n % 10) as char
  }

  function Decimal(n: nat): (s: string)
    ensures |s| >= 1
  {
    if n < 10 then [Digit(n)] else Decimal(n / 10) + [Digit(n)]
  }

  function Zeros(k: nat): string {
    seq(k, _ => '0')
  }

  /** The format `{:0w}`: at least w digits. */
  function Padded(n: nat, w: nat): string {
    var s := Decimal(n);
    if |s| >= w then s else Zeros(w - |s|) + s
  }

  /** Exactly w digits, of n modulo 10^w. */
  function Fixed(n: nat, w: nat): (s: string)
    ensures |s| == w
  {
    if w == 0 then [] else Fixed(n / 10, w - 1) + [Digit(n)]
  }

  function Pow10(w: nat): (p: nat)
    ensures p >= 1
  {
    if w == 0 then 1 else 10 * Pow10(w - 1)
  }

  lemma {:induction false} DecimalLength(n: nat, w: nat)
    requires w >= 1
    ensures |Decimal(n)| <= w <==> n < Pow10(w)
  {
    if n >= 10 && w > 1 {
      DecimalLength(n / 10, w - 1);
    } else if w == 1 {
      assert Pow10(1) == 10;
    } else {
      assert Pow10(w) >= 10;
    }
  }

  lemma {:induction false} FixedZero(w: nat)
    ensures Fixed(0, w) == Zeros(w)
  {
    if w > 0 {
      FixedZero(w - 1);
    }
  }

  lemma {:induction false} FixedOfDecimal(n: nat, w: nat)
    requires |Decimal(n)| <= w
    ensures Fixed(n, w) == Zeros(w - |Decimal(n)|) + Decimal(n)
  {
    if n < 10 {
      FixedZero(w - 1);
    } else {
      FixedOfDecimal(n / 10, w - 1);
    }
  }

  /** A number that fits its field is written with exactly the field's width, and only such a
      number is. */
  lemma PaddedFits(n: nat, w: nat)
    requires w >= 1
    ensures n < Pow10(w) ==> Padded(n, w) == Fixed(n, w)
    ensures n >= Pow10(w) ==> |Padded(n, w)| > w
  {
    DecimalLength(n, w);
    if n < Pow10(w) {
      FixedOfDecimal(n, w);
      assert Zeros(0) + Decimal(n) == Decimal(n);
    }
  }

  // ---------------------------------------------------------------------------------------
  // Reading numerals, and comparing them as text
  // ---------------------------------------------------------------------------------------

  function Number(s: string): Option<nat> {
    if s == [] then Some(0)
    else
      var hi, c := Number(s[..|s| - 1]), s[|s| - 1];
      if hi.Some? && '0' <= c <= '9' then Some(10 * hi.value + (c as int - '0' as int)) else None
  }

  lemma {:induction false} NumberOfFixed(n: nat, w: nat)
    requires n < Pow10(w)
    ensures Number(Fixed(n, w)) == Some(n)
  {
    if w > 0 {
      NumberOfFixed(n / 10, w - 1);
      assert Fixed(n, w)[..w - 1] == Fixed(n / 10, w - 1);
    }
  }

  /** The order of strings: character by character. */
  predicate LexLess(s: string, t: string) {
    Lex(CharLess, s, t)
  }

  predicate CharLess(c: char, d: char) { c < d }

  lemma LexCons(c: char, d: char, s: string, t: string)
    ensures LexLess([c] + s, [d] + t) <==> c < d || (c == d && LexLess(s, t))
  {
    assert ([c] + s)[1..] == s && ([d] + t)[1..] == t;
  }

  /** Fields of one width compare as their numbers do, and then by what follows them. */
  lemma {:induction false} LexFixed(m: nat, n: nat, w: nat, s: string, t: string)
    requires m < Pow10(w) && n < Pow10(w)
    ensures LexLess(Fixed(m, w) + s, Fixed(n, w) + t) <==> m < n || (m == n && LexLess(s, t))
  {
    if w == 0 {
      assert Fixed(m, 0) + s == s && Fixed(n, 0) + t == t;
    } else {
      assert Fixed(m, w) + s == Fixed(m / 10, w - 1) + ([Digit(m)] + s);
      assert Fixed(n, w) + t == Fixed(n / 10, w - 1) + ([Digit(n)] + t);
      LexFixed(m / 10, n / 10, w - 1, [Digit(m)] + s, [Digit(n)] + t);
      LexCons(Digit(m), Digit(n), s, t);
    }
  }

  // ---------------------------------------------------------------------------------------
  // Timestamps
  // ---------------------------------------------------------------------------------------

  /** The parts of an instant in the order they are written. */
  datatype Parts = Parts(date: Date, hh: int, mm: int, ss: int, ms: int)

  predicate ValidParts(p: Parts) {
    Valid(p.date) && 0 <= p.hh < 24 && 0 <= p.mm < 60 && 0 <= p.ss < 60 && 0 <= p.ms < 1000
  }

  /** Milliseconds since the start of 1970. */
  function Instant(p: Parts): int {
    (((DayNumber(p.date) * 24 + p.hh) * 60 + p.mm) * 60 + p.ss) * 1000 + p.ms
  }

  function PartsOf(unixMs: nat): Parts {
    var secs := unixMs / 1000;
    var millis := unixMs % 1000;
    var days := secs / 86_400;
    var sod := secs % 86_400;
    Parts(CivilFromDays(days), sod / 3600, (sod % 3600) / 60, sod % 60, millis)
  }

  /** The first instant of the year 10000. */
  const YEAR_10000 := 253_402_300_800_000

  lemma PartsAreExact(unixMs: nat)
    ensures ValidParts(PartsOf(unixMs)) && Instant(PartsOf(unixMs)) == unixMs
    ensures PartsOf(unixMs).date.year >= 1970
    ensures unixMs < YEAR_10000 <==> PartsOf(unixMs).date.year < 10_000
  {
    hide CivilFromDays, Valid, DayNumber;
    var days := unixMs / 1000 / 86_400;
    CivilIsCorrect(days);
    YearOfDay(days, 1970);
    YearOfDay(days, 10_000);
  }

  /** A day is in or after a year exactly when it is not before its first day. */
  lemma YearOfDay(days: int, year: int)
    ensures DaysBeforeYear(1970) == 0 && DaysBeforeYear(10_000) == 2_932_897
    ensures CivilFromDays(days).year >= year <==> days >= DaysBeforeYear(year)
  {
    hide CivilFromDays, DayNumber;
    CivilIsCorrect(days);
    var d, first := CivilFromDays(days), Date(year, 1, 1);
    assert Valid(first) && DayNumber(first) == DaysBeforeYear(year) by { FirstDay(year); }
    if Before(d, first) {
      DayNumberIncreases(d, first);
    } else if Before(first, d) {
      DayNumberIncreases(first, d);
    }
  }

  lemma FirstDay(year: int)
    ensures DayNumber(Date(year, 1, 1)) == DaysBeforeYear(year)
  {
  }

  // ---------------------------------------------------------------------------------------
  // Fields between separators
  // ---------------------------------------------------------------------------------------

  /** The width of every field and the character after it. */
  type Layout = seq<(nat, char)>

  const LAYOUT: Layout := [(4, '-'), (2, '-'), (2, 'T'), (2, ':'), (2, ':'), (2, '.'), (3, 'Z')]

  function Render(ns: seq<nat>, layout: Layout): string
    requires |ns| == |layout|
  {
    if ns == [] then "" else Padded(ns[0], layout[0].0) + ([layout[0].1] + Render(ns[1..], layout[1..]))
  }

  /** Fields of exactly the given widths, every separator in place, and nothing after them. */
  function ParseFields(s: string, layout: Layout): Option<seq<nat>> {
    if layout == [] then (if s == [] then Some([]) else None)
    else
      var w := layout[0].0;
      if |s| <= w || s[w] != layout[0].1 then None
      else
        var n, rest := Number(s[..w]), ParseFields(s[w + 1..], layout[1..]);
        if n.Some? && rest.Some? then Some([n.value] + rest.value) else None
  }

  ghost predicate Fits(ns: seq<nat>, layout: Layout) {
    |ns| == |layout| && forall i :: 0 <= i < |ns| ==> layout[i].0 >= 1 && ns[i] < Pow10(layout[i].0)
  }

  function Width(layout: Layout): nat {
    if layout == [] then 0 else layout[0].0 + 1 + Width(layout[1..])
  }

  /** The order of fields: number by number. */
  predicate SeqLess(a: seq<nat>, b: seq<nat>) {
    Lex(NatLess, a, b)
  }

  predicate NatLess(m: nat, n: nat) { m < n }

  lemma {:induction false} ParseOfRender(ns: seq<nat>, layout: Layout)
    requires Fits(ns, layout)
    ensures ParseFields(Render(ns, layout), layout) == Some(ns)
    ensures |Render(ns, layout)| == Width(layout)
  {
    hide Padded, Fixed, Number, Pow10;
    if ns != [] {
      var w, rest := layout[0].0, Render(ns[1..], layout[1..]);
      PaddedFits(ns[0], w);
      NumberOfFixed(ns[0], w);
      ParseOfRender(ns[1..], layout[1..]);
      var s := Render(ns, layout);
      assert s == Fixed(ns[0], w) + ([layout[0].1] + rest);
      assert s[..w] == Fixed(ns[0], w) && s[w] == layout[0].1 && s[w + 1..] == rest;
      assert ns == [ns[0]] + ns[1..];
    }
  }

  lemma {:induction false} LexOfRender(a: seq<nat>, b: seq<nat>, layout: Layout)
    requires Fits(a, layout) && Fits(b, layout)
    ensures LexLess(Render(a, layout), Render(b, layout)) <==> SeqLess(a, b)
  {
    if a != [] {
      var w, sep := layout[0].0, layout[0].1;
      var s, t := Render(a[1..], layout[1..]), Render(b[1..], layout[1..]);
      PaddedFits(a[0], w);
      PaddedFits(b[0], w);
      LexFixed(a[0], b[0], w, [sep] + s, [sep] + t);
      LexCons(sep, sep, s, t);
      LexOfRender(a[1..], b[1..], layout[1..]);
    }
  }

  /** One field too wide for its place makes the whole text too long. */
  lemma {:induction false} RenderLength(ns: seq<nat>, layout: Layout)
    requires |ns| == |layout| && forall i :: 0 <= i < |ns| ==> layout[i].0 >= 1
    ensures |Render(ns, layout)| >= Width(layout)
    ensures |Render(ns, layout)| == Width(layout) <==> Fits(ns, layout)
  {
    if ns != [] {
      PaddedFits(ns[0], layout[0].0);
      RenderLength(ns[1..], layout[1..]);
      assert Fits(ns, layout) <==> ns[0] < Pow10(layout[0].0) && Fits(ns[1..], layout[1..]) by {
        if ns[0] < Pow10(layout[0].0) && Fits(ns[1..], layout[1..]) {
          forall i | 0 <= i < |ns| ensures ns[i] < Pow10(layout[i].0) {
            if i > 0 { assert ns[i] == ns[1..][i - 1]; }
          }
        }
      }
    }
  }

  // ---------------------------------------------------------------------------------------
  // Timestamps as text
  // ---------------------------------------------------------------------------------------

  function Fields(p: Parts): (f: seq<nat>)
    requires ValidParts(p) && p.date.year >= 0
    ensures |f| == 7
  {
    [p.date.year, p.date.month, p.date.day, p.hh, p.mm, p.ss, p.ms]
  }

  /** `rfc3339_utc`. */
  function Rfc3339Utc(unixMs: nat): string {
    PartsAreExact(unixMs);
    Render(Fields(PartsOf(unixMs)), LAYOUT)
  }

  /** The production `date-time` of section 5.6 of RFC 3339 with three fraction digits and "Z",
      read as an instant. */
  function Parse(s: string): Option<int> {
    var f := ParseFields(s, LAYOUT);
    if f.None? || |f.value| != 7 then None
    else
      var p := Parts(Date(f.value[0], f.value[1], f.value[2]), f.value[3], f.value[4], f.value[5], f.value[6]);
      if ValidParts(p) then Some(Instant(p)) else None
  }

  lemma FieldsFit(p: Parts)
    requires ValidParts(p) && p.date.year >= 0
    ensures Fits(Fields(p), LAYOUT) <==> p.date.year < 10_000
  {
    assert Pow10(2) == 100 && Pow10(3) == 1000 && Pow10(4) == 10_000;
    var f := Fields(p);
    assert Fits(f, LAYOUT) ==> f[0] < Pow10(LAYOUT[0].0);
  }

  lemma LayoutWidth()
    ensures Width(LAYOUT) == 24
  {
    assert LAYOUT[1..] == [(2, '-'), (2, 'T'), (2, ':'), (2, ':'), (2, '.'), (3, 'Z')];
    assert LAYOUT[1..][1..] == [(2, 'T'), (2, ':'), (2, ':'), (2, '.'), (3, 'Z')];
    assert Width([(2, ':'), (2, '.'), (3, 'Z')]) == 10;
    assert LAYOUT[1..][1..][1..][1..] == [(2, ':'), (2, '.'), (3, 'Z')];
  }

  /** The text, character for character. */
  lemma TimestampText(unixMs: nat)
    ensures var p := PartsOf(unixMs);
      && ValidParts(p) && p.date.year >= 0
      && Rfc3339Utc(unixMs) ==
           Padded(p.date.year, 4) + "-" + Padded(p.date.month, 2) + "-" + Padded(p.date.day, 2) + "T"
           + Padded(p.hh, 2) + ":" + Padded(p.mm, 2) + ":" + Padded(p.ss, 2) + "." + Padded(p.ms, 3) + "Z"
  {
    hide PartsOf, Padded, CivilFromDays, Render;
    PartsAreExact(unixMs);
    TextOfFields(Fields(PartsOf(unixMs)));
  }

  lemma TextOfFields(f: seq<nat>)
    requires |f| == 7
    ensures Render(f, LAYOUT) ==
      Padded(f[0], 4) + "-" + Padded(f[1], 2) + "-" + Padded(f[2], 2) + "T"
      + Padded(f[3], 2) + ":" + Padded(f[4], 2) + ":" + Padded(f[5], 2) + "." + Padded(f[6], 3) + "Z"
  {
    hide Padded, Render;
    var date := Padded(f[0], 4) + "-" + Padded(f[1], 2) + "-" + Padded(f[2], 2) + "T";
    assert f[0..] == f && LAYOUT[0..] == LAYOUT;
    OneField("", f, 0, 4, '-');
    OneField(Padded(f[0], 4) + "-", f, 1, 2, '-');
    OneField(Padded(f[0], 4) + "-" + Padded(f[1], 2) + "-", f, 2, 2, 'T');
    OneField(date, f, 3, 2, ':');
    OneField(date + Padded(f[3], 2) + ":", f, 4, 2, ':');
    OneField(date + Padded(f[3], 2) + ":" + Padded(f[4], 2) + ":", f, 5, 2, '.');
    OneField(date + Padded(f[3], 2) + ":" + Padded(f[4], 2) + ":" + Padded(f[5], 2) + ".", f, 6, 3, 'Z');
    NoFields(f[7..], LAYOUT[7..]);
    assert "" + Render(f, LAYOUT) == Render(f, LAYOUT);
    assert "" + Padded(f[0], 4) == Padded(f[0], 4);
  }

  lemma NoFields(ns: seq<nat>, layout: Layout)
    requires |ns| == |layout| == 0
    ensures Render(ns, layout) == ""
  {
  }

  /** The text so far, with one more field and the separator after it. */
  lemma OneField(l: string, f: seq<nat>, k: nat, w: nat, sep: char)
    requires |f| == 7 && k < 7 && LAYOUT[k] == (w, sep)
    ensures l + Render(f[k..], LAYOUT[k..]) == l + Padded(f[k], w) + [sep] + Render(f[k + 1..], LAYOUT[k + 1..])
  {
    hide Padded;
    assert f[k..][1..] == f[k + 1..] && LAYOUT[k..][1..] == LAYOUT[k + 1..];
    assert f[k..][0] == f[k] && LAYOUT[k..][0] == LAYOUT[k];
  }

  /** A timestamp reads back as the millisecond it was made from. */
  lemma ParseOfTimestamp(unixMs: nat)
    requires unixMs < YEAR_10000
    ensures Parse(Rfc3339Utc(unixMs)) == Some(unixMs)
  {
    hide Render, ParseFields, CivilFromDays, Instant, PartsOf, Fits;
    PartsAreExact(unixMs);
    var p := PartsOf(unixMs);
    FieldsFit(p);
    ParseOfRender(Fields(p), LAYOUT);
  }

  /** It has the 24 characters of the fixed form exactly up to the end of the year 9999. */
  lemma TimestampLength(unixMs: nat)
    ensures |Rfc3339Utc(unixMs)| == 24 <==> unixMs < YEAR_10000
  {
    hide Render, CivilFromDays, PartsOf, Fits;
    PartsAreExact(unixMs);
    var p := PartsOf(unixMs);
    FieldsFit(p);
    RenderLength(Fields(p), LAYOUT);
    LayoutWidth();
  }

  /** Parts that are written later in the order of fields are later instants. */
  lemma InstantIncreases(p: Parts, q: Parts)
    requires ValidParts(p) && ValidParts(q) && p.date.year >= 0 && q.date.year >= 0
    requires SeqLess(Fields(p), Fields(q))
    ensures Instant(p) < Instant(q)
  {
    hide Valid, DayNumber;
    FieldOrder(p, q);
    if Before(p.date, q.date) {
      DayNumberIncreases(p.date, q.date);
    }
  }

  lemma FieldOrder(p: Parts, q: Parts)
    requires ValidParts(p) && ValidParts(q) && p.date.year >= 0 && q.date.year >= 0
    ensures SeqLess(Fields(p), Fields(q)) <==>
      Before(p.date, q.date) || (p.date == q.date && (p.hh < q.hh || (p.hh == q.hh && (p.mm < q.mm
      || (p.mm == q.mm && (p.ss < q.ss || (p.ss == q.ss && p.ms < q.ms)))))))
  {
    hide Valid;
    var f, g := Fields(p), Fields(q);
    assert f[0..] == f && g[0..] == g;
    for k := 7 downto 0
      invariant SeqLess(f[k..], g[k..]) <==> OrderFrom(f, g, k)
    {
      assert f[k..][1..] == f[k + 1..] && g[k..][1..] == g[k + 1..];
    }
    assert OrderFrom(f, g, 5) <==> f[5] < g[5] || (f[5] == g[5] && f[6] < g[6]);
    assert OrderFrom(f, g, 3) <==> f[3] < g[3] || (f[3] == g[3] && (f[4] < g[4] || (f[4] == g[4] && OrderFrom(f, g, 5))));
    assert OrderFrom(f, g, 1) <==> f[1] < g[1] || (f[1] == g[1] && (f[2] < g[2] || (f[2] == g[2] && OrderFrom(f, g, 3))));
  }

  /** The order of two equally long lists from position k on, without taking them apart. */
  predicate OrderFrom(f: seq<nat>, g: seq<nat>, k: nat)
    requires |f| == |g| && k <= |f|
    decreases |f| - k
  {
    k < |f| && (f[k] < g[k] || (f[k] == g[k] && OrderFrom(f, g, k + 1)))
  }

  lemma SameFields(p: Parts, q: Parts)
    requires ValidParts(p) && ValidParts(q) && p.date.year >= 0 && q.date.year >= 0
    requires Fields(p) == Fields(q)
    ensures p == q
  {
    var f, g := Fields(p), Fields(q);
    assert f[0] == g[0] && f[1] == g[1] && f[2] == g[2] && f[3] == g[3] && f[4] == g[4] && f[5] == g[5] && f[6] == g[6];
  }

  lemma AroundYear10000()
    ensures PartsOf(YEAR_10000).date.year == 10_000 && PartsOf(YEAR_10000 - 1).date.year == 9_999
  {
    assert YEAR_10000 / 1000 / 86_400 == 2_932_897 && (YEAR_10000 - 1) / 1000 / 86_400 == 2_932_896;
    assert CivilFromDays(2_932_897).year == 10_000;
    assert CivilFromDays(2_932_896).year == 9_999;
  }

  // ---------------------------------------------------------------------------------------
  // Exactly when timestamps sort
  // ---------------------------------------------------------------------------------------

  /** n without its last k digits. */
  function DropDigits(n: nat, k: nat): nat {
    if k == 0 then n else DropDigits(n / 10, k - 1)
  }

  lemma {:induction false} DropDigitsCompares(m: nat, n: nat, k: nat)
    ensures m <= DropDigits(n, k) <==> m * Pow10(k) <= n
  {
    if k > 0 {
      DropDigitsCompares(m, n / 10, k - 1);
      assert m * Pow10(k) == 10 * (m * Pow10(k - 1));
    }
  }

  lemma {:induction false} DropDigitsFit(n: nat, w: nat, k: nat)
    requires n < Pow10(w + k)
    ensures DropDigits(n, k) < Pow10(w)
  {
    if k > 0 {
      DropDigitsFit(n / 10, w, k - 1);
    }
  }

  lemma {:induction false} FixedSplit(n: nat, w: nat, k: nat)
    ensures Fixed(n, w + k) == Fixed(DropDigits(n, k), w) + Fixed(n, k)
  {
    if k > 0 {
      FixedSplit(n / 10, w, k - 1);
    }
  }

  /** A padded number has exactly the digits of its own width. */
  lemma PaddedIsFixed(n: nat, w: nat)
    requires w >= 1
    ensures w <= |Padded(n, w)| && n < Pow10(|Padded(n, w)|)
    ensures Padded(n, w) == Fixed(n, |Padded(n, w)|)
  {
    hide Fixed, Pow10, Decimal;
    var v := |Padded(n, w)|;
    DecimalLength(n, v);
    FixedOfDecimal(n, v);
  }

  /** A larger number is not written shorter. */
  lemma PaddedGrows(m: nat, n: nat, w: nat)
    requires m <= n && w >= 1
    ensures |Padded(m, w)| <= |Padded(n, w)|
  {
    var v := |Padded(n, w)|;
    PaddedIsFixed(n, w);
    DecimalLength(m, v);
  }

  /** Two numerals of different widths, each followed by a separator below the digits: the
      shorter one is read against the leading digits of the longer one. */
  lemma LexOfWidths(m: nat, n: nat, v: nat, w: nat, sep: char, s: string, t: string)
    requires v < w && m < Pow10(v) && n < Pow10(w) && sep < '0'
    ensures LexLess(Fixed(m, v) + ([sep] + s), Fixed(n, w) + ([sep] + t)) <==> m * Pow10(w - v) <= n
    ensures LexLess(Fixed(n, w) + ([sep] + t), Fixed(m, v) + ([sep] + s)) <==> m * Pow10(w - v) > n
  {
    hide LexLess, Pow10;
    var k := w - v;
    var d, tail := DropDigits(n, k), Fixed(n, k) + ([sep] + t);
    FixedSplit(n, v, k);
    assert Fixed(n, w) + ([sep] + t) == Fixed(d, v) + tail;
    DropDigitsFit(n, v, k);
    DropDigitsCompares(m, n, k);
    LexFixed(m, d, v, [sep] + s, tail);
    LexFixed(d, m, v, tail, [sep] + s);
    FirstDigit(n, k);
    assert tail == [tail[0]] + tail[1..];
    LexCons(sep, tail[0], s, tail[1..]);
    LexCons(tail[0], sep, tail[1..], s);
  }

  lemma {:induction false} FirstDigit(n: nat, k: nat)
    requires k >= 1
    ensures '0' <= Fixed(n, k)[0] <= '9'
  {
    if k > 1 {
      FirstDigit(n / 10, k - 1);
    }
  }

  /** The number of characters the year of an instant takes. */
  function YearWidth(unixMs: nat): nat {
    PartsAreExact(unixMs);
    |Padded(PartsOf(unixMs).date.year, 4)|
  }

  /** The year of an instant, which is never before 1970. */
  function YearOf(unixMs: nat): nat {
    PartsAreExact(unixMs);
    PartsOf(unixMs).date.year
  }

  /** The exact condition for two instants: the earlier one sorts first if and only if its year,
      with as many zeros after it as the later year has further digits, is at most the later year. */
  predicate YearsAligned(a: nat, b: nat) {
    YearWidth(a) <= YearWidth(b) && YearOf(a) * Pow10(YearWidth(b) - YearWidth(a)) <= YearOf(b)
  }

  /** The text of an instant: its year, and the fields after it. */
  function Rest(unixMs: nat): string {
    PartsAreExact(unixMs);
    Render(Fields(PartsOf(unixMs))[1..], LAYOUT[1..])
  }

  lemma YearThenRest(unixMs: nat)
    ensures YearOf(unixMs) < Pow10(YearWidth(unixMs)) && YearWidth(unixMs) >= 4
    ensures Rfc3339Utc(unixMs) == Fixed(YearOf(unixMs), YearWidth(unixMs)) + (['-'] + Rest(unixMs))
  {
    hide CivilFromDays, PartsOf, Padded, Pow10, Fixed;
    PartsAreExact(unixMs);
    PaddedIsFixed(YearOf(unixMs), 4);
  }

  /** Instants in order have their fields in order. */
  lemma FieldsIncrease(a: nat, b: nat)
    requires a < b
    ensures YearOf(a) <= YearOf(b)
    ensures YearOf(a) == YearOf(b) ==> LexLess(Rest(a), Rest(b)) && !LexLess(Rest(b), Rest(a))
  {
    hide Render, LexLess, CivilFromDays, Instant, PartsOf, Fits;
    PartsAreExact(a);
    PartsAreExact(b);
    var p, q := PartsOf(a), PartsOf(b);
    var f, g := Fields(p), Fields(q);
    if !SeqLess(f, g) {
      hide SeqLess, Fields;
      if SeqLess(g, f) {
        InstantIncreases(q, p);
      } else {
        LexTotal(NatLess, f, g);
        SameFields(p, q);
      }
      assert false;
    }
    RestFits(p);
    RestFits(q);
    LexOfRender(f[1..], g[1..], LAYOUT[1..]);
    LexOfRender(g[1..], f[1..], LAYOUT[1..]);
    if SeqLess(f[1..], g[1..]) {
      LexAsymmetric(NatLess, f[1..], g[1..]);
    }
  }

  lemma RestFits(p: Parts)
    requires ValidParts(p) && p.date.year >= 0
    ensures Fits(Fields(p)[1..], LAYOUT[1..])
  {
    assert Pow10(2) == 100 && Pow10(3) == 1000;
  }

  /** For any two instants, however far apart, the text order is right exactly when the years
      are aligned, and otherwise it is reversed. */
  lemma SortsIffYearsAligned(a: nat, b: nat)
    requires a < b
    ensures YearWidth(a) <= YearWidth(b)
    ensures LexLess(Rfc3339Utc(a), Rfc3339Utc(b)) <==> YearsAligned(a, b)
    ensures LexLess(Rfc3339Utc(b), Rfc3339Utc(a)) <==> !YearsAligned(a, b)
  {
    hide LexLess, Rfc3339Utc, Rest, YearOf, Padded, Fixed, Pow10;
    FieldsIncrease(a, b);
    WidthsGrow(a, b);
    YearThenRest(a);
    YearThenRest(b);
    var v, w := YearWidth(a), YearWidth(b);
    hide YearWidth;
    if v == w {
      LexOfSameWidth(YearOf(a), YearOf(b), v, '-', Rest(a), Rest(b));
    } else {
      LexOfWidths(YearOf(a), YearOf(b), v, w, '-', Rest(a), Rest(b));
    }
  }

  lemma LexOfSameWidth(m: nat, n: nat, w: nat, sep: char, s: string, t: string)
    requires m <= n < Pow10(w)
    requires m == n ==> LexLess(s, t) && !LexLess(t, s)
    ensures LexLess(Fixed(m, w) + ([sep] + s), Fixed(n, w) + ([sep] + t))
    ensures !LexLess(Fixed(n, w) + ([sep] + t), Fixed(m, w) + ([sep] + s))
    ensures m * Pow10(0) <= n
  {
    assert Pow10(0) == 1;
    hide LexLess, Fixed, Pow10;
    LexFixed(m, n, w, [sep] + s, [sep] + t);
    LexFixed(n, m, w, [sep] + t, [sep] + s);
    LexCons(sep, sep, s, t);
    LexCons(sep, sep, t, s);
  }

  lemma WidthsGrow(a: nat, b: nat)
    ensures YearOf(a) <= YearOf(b) ==> YearWidth(a) <= YearWidth(b)
  {
    hide Padded, CivilFromDays;
    if YearOf(a) <= YearOf(b) {
      PaddedGrows(YearOf(a), YearOf(b), 4);
    }
  }

  /** Timestamps sort as text in the order of the instants (section 5.1 of RFC 3339). */
  lemma TimestampsSort(a: nat, b: nat)
    requires a < YEAR_10000 && b < YEAR_10000
    ensures LexLess(Rfc3339Utc(a), Rfc3339Utc(b)) <==> a < b
  {
    hide Rfc3339Utc;
    if a < b {
      SortsBefore10000(a, b);
    } else if b < a {
      SortsBefore10000(b, a);
    } else if LexLess(Rfc3339Utc(a), Rfc3339Utc(a)) {
      LexAsymmetric(CharLess, Rfc3339Utc(a), Rfc3339Utc(a));
    }
  }

  lemma SortsBefore10000(a: nat, b: nat)
    requires a < b < YEAR_10000
    ensures LexLess(Rfc3339Utc(a), Rfc3339Utc(b)) && !LexLess(Rfc3339Utc(b), Rfc3339Utc(a))
  {
    hide LexLess, Rfc3339Utc, YearWidth, YearOf;
    FourDigitYear(a);
    FourDigitYear(b);
    FieldsIncrease(a, b);
    SortsIffYearsAligned(a, b);
    assert Pow10(0) == 1;
    hide Pow10;
  }

  lemma FourDigitYear(a: nat)
    requires a < YEAR_10000
    ensures YearOf(a) < Pow10(4) && YearWidth(a) == 4
  {
    hide PartsOf, Padded, Fixed;
    PartsAreExact(a);
    assert Pow10(4) == 10_000;
    PaddedFits(YearOf(a), 4);
  }

  /** From the year 10000 on the text order can fail: the first timestamp of that year sorts
      before the last one of the year 9999. */
  lemma MissortAtYear10000()
    ensures LexLess(Rfc3339Utc(YEAR_10000), Rfc3339Utc(YEAR_10000 - 1))
  {
    hide PartsOf, Padded, Rfc3339Utc, LexLess;
    AroundYear10000();
    SortsIffYearsAligned(YEAR_10000 - 1, YEAR_10000);
    PaddedFits(9_999, 4);
    PaddedFits(10_000, 4);
    DecimalLength(10_000, 5);
  }

  /** All instants before n sort as text in the order of time if and only if n is no later than
      the start of the year 10000. */
  lemma SortsExactlyUpTo(n: nat)
    ensures (forall a: nat, b: nat :: a < n && b < n ==> (LexLess(Rfc3339Utc(a), Rfc3339Utc(b)) <==> a < b))
      <==> n <= YEAR_10000
  {
    hide LexLess, Rfc3339Utc;
    if n <= YEAR_10000 {
      forall a: nat, b: nat | a < n && b < n ensures LexLess(Rfc3339Utc(a), Rfc3339Utc(b)) <==> a < b {
        TimestampsSort(a, b);
      }
    } else {
      MissortAtYear10000();
      assert YEAR_10000 < n && YEAR_10000 - 1 < n;
    }
  }
}
