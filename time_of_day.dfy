/**
 * Times of day: rendering minutes as the "HH:MM" strings the source stores, parsing them back,
 * the string order the source compares them with, and the wrap-aware containment test
 * `is_time_in_range`.
 */
module TimeOfDay {
  import opened HoursTypes

  function Digit(n: int): (c: char)
    requires 0 <= n < 10
    ensures '0' <= c <= '9'
  {
    ('0' as int + n) as char
  }

  predicate IsDigit(c: char) { '0' <= c <= '9' }

  function DigitValue(c: char): (n: int)
    requires IsDigit(c)
    ensures 0 <= n < 10
  {
    c as int - '0' as int
  }

  /** The zero-padded "HH:MM" text of a time. */
  function Render(t: Minute): (s: string)
    ensures |s| == 5 && s[2] == ':'
    ensures forall i :: 0 <= i < 5 && i != 2 ==> IsDigit(s[i])
  {
    var h, m := t / 60, t % 60;
    [Digit(h / 10), Digit(h % 10), ':', Digit(m / 10), Digit(m % 10)]
  }

  /** Reads an "HH:MM" string back into minutes; anything else is None. */
  function ParseTime(s: string): Option<Minute>
  {
    if |s| == 5 && IsDigit(s[0]) && IsDigit(s[1]) && s[2] == ':' && IsDigit(s[3]) && IsDigit(s[4]) then
      var h := 10 * DigitValue(s[0]) + DigitValue(s[1]);
      var m := 10 * DigitValue(s[3]) + DigitValue(s[4]);
      if h < 24 && m < 60 then Some(60 * h + m) else None
    else
      None
  }

  lemma ParseRender(t: Minute)
    ensures ParseTime(Render(t)) == Some(t)
  {
    var h, m := t / 60, t % 60;
    assert DigitValue(Digit(h / 10)) == h / 10;
    assert DigitValue(Digit(h % 10)) == h % 10;
    assert DigitValue(Digit(m / 10)) == m / 10;
    assert DigitValue(Digit(m % 10)) == m % 10;
    assert 10 * (h / 10) + h % 10 == h;
    assert 10 * (m / 10) + m % 10 == m;
  }

  /** PHP's `<` between two non-numeric strings: byte-wise order, a proper prefix first. */
  predicate TextLess(a: string, b: string)
  {
    if a == [] then b != []
    else if b == [] then false
    else if a[0] != b[0] then a[0] < b[0]
    else TextLess(a[1..], b[1..])
  }

  lemma MulAtLeast(k: int, base: int)
    requires k >= 1 && base > 0
    ensures k * base >= base
  {
    if k > 1 {
      MulAtLeast(k - 1, base);
      assert k * base == (k - 1) * base + base;
    }
  }

  /** `x1 * base + x0 < y1 * base + y0` compares the high digit first, then the low one. */
  lemma PositionalLess(x1: int, x0: int, y1: int, y0: int, base: int)
    requires base > 0 && 0 <= x0 < base && 0 <= y0 < base
    ensures x1 * base + x0 < y1 * base + y0 <==> x1 < y1 || (x1 == y1 && x0 < y0)
  {
    if x1 < y1 {
      MulAtLeast(y1 - x1, base);
      assert y1 * base == x1 * base + (y1 - x1) * base;
    } else if x1 > y1 {
      MulAtLeast(x1 - y1, base);
      assert x1 * base == y1 * base + (x1 - y1) * base;
    }
  }

  lemma TimeAsDigits(t: Minute)
    ensures t == 60 * (10 * (t / 60 / 10) + t / 60 % 10) + 10 * (t % 60 / 10) + t % 60 % 10
    ensures t / 60 % 10 < 10 && t % 60 / 10 < 6 && t % 60 % 10 < 10
  {
  }

  /**
   * The zero-padded renderings compare as strings exactly as the minutes compare as numbers,
   * so the source's string comparisons can be read as comparisons of minutes.
   */
  lemma {:induction false} RenderPreservesOrder(a: Minute, b: Minute)
    ensures TextLess(Render(a), Render(b)) <==> a < b
  {
    var A, B := Render(a), Render(b);
    var a3, a2, a1, a0 := a / 60 / 10, a / 60 % 10, a % 60 / 10, a % 60 % 10;
    var b3, b2, b1, b0 := b / 60 / 10, b / 60 % 10, b % 60 / 10, b % 60 % 10;
    TimeAsDigits(a);
    TimeAsDigits(b);
    // a == 60 * (10 * a3 + a2) + (10 * a1 + a0), likewise b
    PositionalLess(a1, a0, b1, b0, 10);
    PositionalLess(a3, a2, b3, b2, 10);
    PositionalLess(10 * a3 + a2, 10 * a1 + a0, 10 * b3 + b2, 10 * b1 + b0, 60);
    assert A[1..][1..][1..][1..] == [A[4]] && B[1..][1..][1..][1..] == [B[4]];
    assert TextLess([A[4]], [B[4]]) <==> a0 < b0;
    assert TextLess(A[1..][1..][1..], B[1..][1..][1..]) <==> a1 < b1 || (a1 == b1 && a0 < b0);
    assert TextLess(A[1..][1..], B[1..][1..]) <==> TextLess(A[1..][1..][1..], B[1..][1..][1..]);
    assert TextLess(A[1..], B[1..]) <==> a2 < b2 || (a2 == b2 && TextLess(A[1..][1..], B[1..][1..]));
    assert TextLess(A, B) <==> a3 < b3 || (a3 == b3 && TextLess(A[1..], B[1..]));
  }

  /**
   * `is_time_in_range($start, $end, $current)`: wrap-aware and inclusive at both ends. A time is
   * inside exactly when no more time has passed since the opening, counted forward around the
   * clock, than the range lasts.
   */
  function InRange(r: Range, now: Minute): (b: bool)
    ensures b <==> Elapsed(r, now) <= Duration(r)
  {
    if r.opening < r.closing then r.opening <= now <= r.closing
    else now >= r.opening || now <= r.closing
  }

  /**
   * The same test as the source writes it, on "HH:MM" strings. On any three well-formed times it
   * answers exactly as `InRange` on the minutes they stand for.
   */
  function TextInRange(start: string, end: string, current: string): (b: bool)
    ensures ParseTime(start).Some? && ParseTime(end).Some? && ParseTime(current).Some? ==>
      (b <==> InRange(Range(ParseTime(start).value, ParseTime(end).value), ParseTime(current).value))
  {
    ParsedOrder(start, end);
    ParsedOrder(current, start);
    ParsedOrder(end, current);
    if TextLess(start, end) then !TextLess(current, start) && !TextLess(end, current)
    else !TextLess(current, start) || !TextLess(end, current)
  }

  /** Every well-formed "HH:MM" string is the rendering of the time it parses to. */
  lemma RenderParse(s: string)
    requires ParseTime(s).Some?
    ensures Render(ParseTime(s).value) == s
  {
    var h := 10 * DigitValue(s[0]) + DigitValue(s[1]);
    var m := 10 * DigitValue(s[3]) + DigitValue(s[4]);
    var t := 60 * h + m;
    assert t / 60 == h && t % 60 == m;
    assert h / 10 == DigitValue(s[0]) && h % 10 == DigitValue(s[1]);
    assert m / 10 == DigitValue(s[3]) && m % 10 == DigitValue(s[4]);
    var r := Render(t);
    assert r[0] == s[0] && r[1] == s[1] && r[3] == s[3] && r[4] == s[4];
  }

  /** PHP's `<` on two well-formed "HH:MM" strings is the order of the times they stand for. */
  lemma ParsedOrder(a: string, b: string)
    ensures ParseTime(a).Some? && ParseTime(b).Some? ==> (TextLess(a, b) <==> ParseTime(a).value < ParseTime(b).value)
  {
    if ParseTime(a).Some? && ParseTime(b).Some? {
      RenderParse(a);
      RenderParse(b);
      RenderPreservesOrder(ParseTime(a).value, ParseTime(b).value);
    }
  }

  /** How long a range lasts: up to midnight and beyond when it wraps, a whole day when closing == opening. */
  function Duration(r: Range): (d: int)
    ensures 0 < d <= MinutesPerDay
  {
    if r.opening < r.closing then r.closing - r.opening else r.closing - r.opening + MinutesPerDay
  }

  /** Minutes from the range's opening forward, around the clock, to `now`. */
  function Elapsed(r: Range, now: Minute): (e: int)
    ensures 0 <= e < MinutesPerDay
  {
    (now - r.opening) % MinutesPerDay
  }

  /** Both ends of every range are inside it. */
  lemma EndsIncluded(r: Range)
    ensures InRange(r, r.opening) && InRange(r, r.closing)
  {
  }
}
