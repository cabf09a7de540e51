/** Printing a duration exactly, and reading the one form people type. */
module Durations {
  import opened Wrappers
  import opened Decimal

  type u64 = n: nat | n < 0x1_0000_0000_0000_0000
  const I64_MAX := 0x7FFF_FFFF_FFFF_FFFF

  // -------------------------------------------------------------- printing

  function HumanTime(secs: u64): string {
    if secs < 60 then Digits(secs) + "s"
    else if secs < 3600 then
      var m, s := secs / 60, secs % 60;
      if s == 0 then Digits(m) + "m" else Digits(m) + "m" + TwoDigits(s) + "s"
    else if secs < 86_400 then
      var h, m, s := secs / 3600, (secs % 3600) / 60, secs % 60;
      var hm := Digits(h) + "h" + TwoDigits(m) + "m";
      if s == 0 then hm else hm + TwoDigits(s) + "s"
    else
      var d, h, m, s := secs / 86_400, (secs % 86_400) / 3600, (secs % 3600) / 60, secs % 60;
      var dh := Digits(d) + "d" + TwoDigits(h) + "h";
      if m == 0 && s == 0 then dh
      else if s == 0 then dh + TwoDigits(m) + "m"
      else dh + TwoDigits(m) + "m" + TwoDigits(s) + "s"
  }

  /** What a printed count of a unit is worth in seconds. */
  function Worth(n: nat, unit: char): Option<nat> {
    match unit
    case 's' => Some(n)
    case 'm' => Some(n * 60)
    case 'h' => Some(n * 3600)
    case 'd' => Some(n * 86_400)
    case _ => None
  }

  predicate IsUnit(c: char) {
    c in {'s', 'm', 'h', 'd'}
  }

  /** A reader part-way through a printed duration: the total so far, and the number being read. */
  datatype Reader = Reader(total: nat, n: nat) | Stuck

  function ReadChar(r: Reader, c: char): Reader {
    if r.Stuck? then Stuck
    else if IsDigit(c) then Reader(r.total, r.n * 10 + DigitValue(c))
    else
      match Worth(r.n, c)
      case Some(seconds) => Reader(r.total + seconds, 0)
      case None => Stuck
  }

  function ReadAll(r: Reader, s: string): Reader
    decreases |s|
  {
    if s == "" then r else ReadAll(ReadChar(r, s[0]), s[1..])
  }

  /** Sums the `<n><unit>` runs of a text, if it is made of nothing else. */
  function ReRead(s: string): Option<nat> {
    match ReadAll(Reader(0, 0), s)
    case Reader(total, n) => if n == 0 then Some(total) else None
    case Stuck => None
  }

  /** The reader as it runs, one character at a time. */
  method ReadBack(s: string) returns (r: Option<nat>)
    ensures r == ReRead(s)
  {
    var total: nat, n: nat := 0, 0;
    var i := 0;
    while i < |s|
      invariant 0 <= i <= |s|
      invariant ReadAll(Reader(0, 0), s) == ReadAll(Reader(total, n), s[i..])
    {
      assert s[i..][1..] == s[i + 1..];
      if IsDigit(s[i]) {
        n := n * 10 + DigitValue(s[i]);
      } else {
        match Worth(n, s[i]) {
          case Some(seconds) =>
            total, n := total + seconds, 0;
          case None =>
            StuckForever(s[i + 1..]);
            return None;
        }
      }
      i := i + 1;
    }
    r := if n == 0 then Some(total) else None;
  }

  lemma {:induction false} StuckForever(s: string)
    ensures ReadAll(Stuck, s) == Stuck
    decreases |s|
  {
    if s != "" {
      StuckForever(s[1..]);
    }
  }

  lemma {:induction false} ReadConcat(r: Reader, a: string, b: string)
    ensures ReadAll(r, a + b) == ReadAll(ReadAll(r, a), b)
    decreases |a|
  {
    if a == "" {
      assert a + b == b;
    } else {
      assert (a + b)[1..] == a[1..] + b;
      ReadConcat(ReadChar(r, a[0]), a[1..], b);
    }
  }

  lemma {:induction false} ReadDigits(total: nat, s: string)
    requires AllDigits(s)
    ensures ReadAll(Reader(total, 0), s) == Reader(total, Value(s))
    decreases |s|
  {
    if s != "" {
      var init, last := s[..|s| - 1], s[|s| - 1];
      ReadDigits(total, init);
      ReadConcat(Reader(total, 0), init, [last]);
      assert s == init + [last];
      assert [last][1..] == "";
      assert ReadAll(Reader(total, Value(init)), [last]) == ReadChar(Reader(total, Value(init)), last);
    }
  }

  /** One `<n><unit>` run: what a printed duration is made of. */
  datatype Run = Run(digits: string, unit: char)

  predicate IsRun(r: Run) {
    AllDigits(r.digits) && IsUnit(r.unit)
  }

  predicate AllRuns(runs: seq<Run>) {
    forall i :: 0 <= i < |runs| ==> IsRun(runs[i])
  }

  function Render(runs: seq<Run>): string
    decreases |runs|
  {
    if runs == [] then "" else Render(runs[..|runs| - 1]) + runs[|runs| - 1].digits + [runs[|runs| - 1].unit]
  }

  function Total(runs: seq<Run>): nat
    requires AllRuns(runs)
    decreases |runs|
  {
    if runs == [] then 0
    else
      var last := runs[|runs| - 1];
      assert IsRun(last);
      Total(runs[..|runs| - 1]) + Worth(Value(last.digits), last.unit).value
  }

  /** A run adds its worth and leaves nothing pending. */
  lemma ReadRun(total: nat, r: Run)
    requires IsRun(r)
    ensures ReadAll(Reader(total, 0), r.digits + [r.unit]) == Reader(total + Worth(Value(r.digits), r.unit).value, 0)
  {
    ReadDigits(total, r.digits);
    ReadConcat(Reader(total, 0), r.digits, [r.unit]);
    ReadOne(Reader(total, Value(r.digits)), r.unit);
  }

  lemma ReadOne(r: Reader, c: char)
    ensures ReadAll(r, [c]) == ReadChar(r, c)
  {
    assert [c][1..] == "";
  }

  /** However many runs there are, the reader sums them. */
  lemma {:induction false} RenderedReadsTotal(runs: seq<Run>)
    requires AllRuns(runs)
    ensures ReRead(Render(runs)) == Some(Total(runs))
    ensures ReadAll(Reader(0, 0), Render(runs)) == Reader(Total(runs), 0)
    decreases |runs|
  {
    if runs != [] {
      var init, last := runs[..|runs| - 1], runs[|runs| - 1];
      RenderedReadsTotal(init);
      assert IsRun(last);
      assert Render(runs) == Render(init) + (last.digits + [last.unit]);
      assert ReadAll(Reader(0, 0), Render(runs)) == Reader(Total(runs), 0) by {
        ReadConcat(Reader(0, 0), Render(init), last.digits + [last.unit]);
        ReadRun(Total(init), last);
      }
    }
  }

  lemma RunsSnoc(runs: seq<Run>, digits: string, n: nat, unit: char)
    requires AllRuns(runs)
    requires AllDigits(digits) && Value(digits) == n && IsUnit(unit)
    ensures var all := runs + [Run(digits, unit)];
            && AllRuns(all)
            && Render(all) == Render(runs) + digits + [unit]
            && Total(all) == Total(runs) + Worth(n, unit).value
  {
    assert (runs + [Run(digits, unit)])[..|runs|] == runs;
  }

  /** Adds a two-digit run. */
  function AndTwo(runs: seq<Run>, n: nat, unit: char): seq<Run>
    requires n < 100
  {
    runs + [Run(TwoDigits(n), unit)]
  }

  lemma AndTwoAdds(runs: seq<Run>, n: nat, unit: char)
    requires AllRuns(runs)
    requires n < 100 && IsUnit(unit)
    ensures var all := AndTwo(runs, n, unit);
            && AllRuns(all)
            && Render(all) == Render(runs) + TwoDigits(n) + [unit]
            && Total(all) == Total(runs) + Worth(n, unit).value
  {
    TwoDigitsSpell(n);
    RunsSnoc(runs, TwoDigits(n), n, unit);
  }

  lemma FirstRun(n: nat, unit: char)
    requires IsUnit(unit)
    ensures var one := [Run(Digits(n), unit)];
            AllRuns(one) && Render(one) == Digits(n) + [unit] && Total(one) == Worth(n, unit).value
  {
    DigitsSpell(n);
    RunsSnoc([], Digits(n), n, unit);
    assert [] + [Run(Digits(n), unit)] == [Run(Digits(n), unit)];
    assert "" + Digits(n) == Digits(n);
  }

  /** The two leading runs of a text that has both. */
  lemma TwoRuns(n: nat, unit: char, k: nat, nextUnit: char) returns (runs: seq<Run>)
    requires k < 100 && IsUnit(unit) && IsUnit(nextUnit)
    ensures AllRuns(runs)
    ensures Render(runs) == Digits(n) + [unit] + TwoDigits(k) + [nextUnit]
    ensures Total(runs) == Worth(n, unit).value + Worth(k, nextUnit).value
  {
    FirstRun(n, unit);
    AndTwoAdds([Run(Digits(n), unit)], k, nextUnit);
    runs := AndTwo([Run(Digits(n), unit)], k, nextUnit);
  }

  /** The runs `humantime` prints. */
  lemma HumanTimeIsRuns(secs: u64) returns (runs: seq<Run>)
    ensures AllRuns(runs)
    ensures HumanTime(secs) == Render(runs) && Total(runs) == secs
  {
    if secs < 60 {
      FirstRun(secs, 's');
      runs := [Run(Digits(secs), 's')];
    } else if secs < 3600 {
      runs := MinuteRuns(secs);
    } else if secs < 86_400 {
      runs := HourRuns(secs);
    } else {
      runs := DayRuns(secs);
    }
  }

  lemma MinuteRuns(secs: u64) returns (runs: seq<Run>)
    requires 60 <= secs < 3600
    ensures AllRuns(runs)
    ensures HumanTime(secs) == Render(runs) && Total(runs) == secs
  {
    var m, s := secs / 60, secs % 60;
    FirstRun(m, 'm');
    runs := [Run(Digits(m), 'm')];
    if s != 0 {
      AndTwoAdds(runs, s, 's');
      runs := AndTwo(runs, s, 's');
    }
  }

  lemma HourRuns(secs: u64) returns (runs: seq<Run>)
    requires 3600 <= secs < 86_400
    ensures AllRuns(runs)
    ensures HumanTime(secs) == Render(runs) && Total(runs) == secs
  {
    SplitHour(secs);
    runs := TwoRuns(secs / 3600, 'h', (secs % 3600) / 60, 'm');
    runs := AndSeconds(runs, secs % 60);
  }

  lemma DayRuns(secs: u64) returns (runs: seq<Run>)
    requires 86_400 <= secs
    ensures AllRuns(runs)
    ensures HumanTime(secs) == Render(runs) && Total(runs) == secs
  {
    var d, h, m, s := secs / 86_400, (secs % 86_400) / 3600, (secs % 3600) / 60, secs % 60;
    SplitDay(secs);
    runs := TwoRuns(d, 'd', h, 'h');
    if m != 0 || s != 0 {
      AndTwoAdds(runs, m, 'm');
      runs := AndSeconds(AndTwo(runs, m, 'm'), s);
    }
  }

  /** Seconds are printed only when there are some. */
  lemma AndSeconds(runs: seq<Run>, s: nat) returns (all: seq<Run>)
    requires AllRuns(runs) && s < 100
    ensures AllRuns(all) && Total(all) == Total(runs) + s
    ensures Render(all) == if s == 0 then Render(runs) else Render(runs) + TwoDigits(s) + "s"
  {
    all := runs;
    if s != 0 {
      AndTwoAdds(runs, s, 's');
      all := AndTwo(runs, s, 's');
    }
  }

  /** Nothing is rounded: what is printed reads back as exactly what went in, for every duration. */
  lemma HumanTimeReadsBack(secs: u64)
    ensures ReRead(HumanTime(secs)) == Some(secs)
  {
    var runs := HumanTimeIsRuns(secs);
    RenderedReadsTotal(runs);
  }

  lemma SplitHour(secs: nat)
    ensures secs == secs / 3600 * 3600 + (secs % 3600) / 60 * 60 + secs % 60
  {
    assert secs % 60 == (secs % 3600) % 60;
  }

  lemma SplitDay(secs: nat)
    ensures secs == secs / 86_400 * 86_400 + (secs % 86_400) / 3600 * 3600 + (secs % 3600) / 60 * 60 + secs % 60
  {
    assert secs % 3600 == (secs % 86_400) % 3600;
    assert secs % 60 == (secs % 3600) % 60;
  }

  /** So two different durations are never printed alike. */
  lemma HumanTimeInjective(a: u64, b: u64)
    requires HumanTime(a) == HumanTime(b)
    ensures a == b
  {
    HumanTimeReadsBack(a);
    HumanTimeReadsBack(b);
  }

  /** A span split into days, hours, minutes and seconds, the way a clock shows it. */
  function Clock(d: nat, h: nat, m: nat, s: nat): string
    requires h < 24 && m < 60 && s < 60
  {
    var seconds := if s > 0 then TwoDigits(s) + "s" else "";
    if d > 0 then
      Digits(d) + "d" + TwoDigits(h) + "h" + (if m > 0 || s > 0 then TwoDigits(m) + "m" else "") + seconds
    else if h > 0 then Digits(h) + "h" + TwoDigits(m) + "m" + seconds
    else if m > 0 then Digits(m) + "m" + seconds
    else Digits(s) + "s"
  }

  /** However a span is made up, the text shows its largest unit first and drops what is nought at the end. */
  lemma HumanTimeIsClock(d: nat, h: nat, m: nat, s: nat)
    requires h < 24 && m < 60 && s < 60
    requires d * 86_400 + h * 3600 + m * 60 + s < 0x1_0000_0000_0000_0000
    ensures HumanTime(d * 86_400 + h * 3600 + m * 60 + s) == Clock(d, h, m, s)
  {
    var secs := d * 86_400 + h * 3600 + m * 60 + s;
    ClockParts(d, h, m, s);
    if d > 0 || h > 0 || m > 0 {
      assert HumanTime(secs) + "" == HumanTime(secs);
    }
  }

  lemma ClockParts(d: nat, h: nat, m: nat, s: nat)
    requires h < 24 && m < 60 && s < 60
    ensures var secs := d * 86_400 + h * 3600 + m * 60 + s;
            && secs / 86_400 == d && (secs % 86_400) / 3600 == h && (secs % 3600) / 60 == m && secs % 60 == s
            && (d == 0 ==> secs / 3600 == h)
            && (d == 0 && h == 0 ==> secs / 60 == m)
  {
    var secs := d * 86_400 + h * 3600 + m * 60 + s;
    WholeDays(d, h * 3600 + m * 60 + s);
    WholeHours(h, m * 60 + s);
    WholeHours(d * 24 + h, m * 60 + s);
    WholeMinutes(m, s);
    WholeMinutes(d * 1440 + h * 60 + m, s);
  }

  lemma WholeDays(d: nat, rest: nat)
    requires rest < 86_400
    ensures (d * 86_400 + rest) / 86_400 == d && (d * 86_400 + rest) % 86_400 == rest
  {
  }

  lemma WholeHours(h: nat, rest: nat)
    requires rest < 3600
    ensures (h * 3600 + rest) / 3600 == h && (h * 3600 + rest) % 3600 == rest
  {
  }

  lemma WholeMinutes(m: nat, rest: nat)
    requires rest < 60
    ensures (m * 60 + rest) / 60 == m && (m * 60 + rest) % 60 == rest
  {
  }

  // --------------------------------------------------------------- parsing

  /** Unicode white space, which is what `trim` strips. */
  predicate IsSpace(c: char) {
    var p := c as int;
    || 0x09 <= p <= 0x0D || p == 0x20 || p == 0x85 || p == 0xA0 || p == 0x1680
    || 0x2000 <= p <= 0x200A || p == 0x2028 || p == 0x2029 || p == 0x202F || p == 0x205F || p == 0x3000
  }

  lemma SpacesAre(c: char)
    ensures IsSpace(c) == (c as int in {
              9, 10, 11, 12, 13, 32, 133, 160, 5760,
              8192, 8193, 8194, 8195, 8196, 8197, 8198, 8199, 8200, 8201, 8202,
              8232, 8233, 8239, 8287, 12288})
  {
  }

  function Trim(s: string): string
    decreases |s|
  {
    if s == "" then ""
    else if IsSpace(s[0]) then Trim(s[1..])
    else if IsSpace(s[|s| - 1]) then Trim(s[..|s| - 1])
    else s
  }

  datatype Usage = Unreadable | NotAWindow | TooLong

  /** A whole 64-bit signed integer: an optional sign and at least one digit, nothing else. */
  function ParseI64(s: string): Option<int> {
    var negative := s != "" && s[0] == '-';
    var digits := if s != "" && (s[0] == '-' || s[0] == '+') then s[1..] else s;
    if digits == "" || !AllDigits(digits) then None
    else
      var magnitude: int := Value(digits);
      var v := if negative then -magnitude else magnitude;
      if -I64_MAX - 1 <= v <= I64_MAX then Some(v) else None
  }

  function TypedUnit(unit: char): (u: Option<nat>)
    ensures u.Some? ==> u.value > 0
  {
    match unit
    case 's' => Some(1)
    case 'S' => Some(1)
    case 'm' => Some(60)
    case 'M' => Some(60)
    case 'h' => Some(3600)
    case 'H' => Some(3600)
    case 'd' => Some(86_400)
    case 'D' => Some(86_400)
    case _ => None
  }

  /** The longest span the duration type holds, in whole seconds. */
  const MAX_SECONDS := I64_MAX / 1000

  /** A readable window, granted or refused: nothing to wait for, or too long to hold. */
  function Grant(count: int, perUnit: nat): (r: Result<nat, Usage>)
    requires perUnit > 0
    ensures r.Ok? <==> 0 < count && count * perUnit <= MAX_SECONDS
    ensures r.Ok? ==> r.value == count * perUnit
    ensures r == Err(NotAWindow) <==> count <= 0
    ensures r != Err(Unreadable)
  {
    if count <= 0 then Err(NotAWindow)
    else if count * perUnit > I64_MAX then Err(TooLong)
    else if count * perUnit > MAX_SECONDS then Err(TooLong)
    else Ok(count * perUnit)
  }

  function ParseDuration(spec: string): Result<nat, Usage> {
    var spec := Trim(spec);
    if spec == "" then Err(Unreadable)
    else
      var cut := |spec| - 1;
      match ParseI64(spec[..cut])
      case None => Err(Unreadable)
      case Some(count) =>
        match TypedUnit(spec[cut])
        case None => Err(Unreadable)
        case Some(perUnit) => Grant(count, perUnit)
  }

  predicate AllSpace(s: string) {
    forall i :: 0 <= i < |s| ==> IsSpace(s[i])
  }

  /** Begins and ends with something other than white space. */
  predicate Tight(s: string) {
    s != "" && !IsSpace(s[0]) && !IsSpace(s[|s| - 1])
  }

  /** Trimming takes off all the padding there is, and nothing else. */
  lemma {:induction false} TrimPadded(a: string, s: string, b: string)
    requires AllSpace(a) && Tight(s) && AllSpace(b)
    ensures Trim(a + s + b) == s
    decreases |a| + |b|
  {
    var all := a + s + b;
    if a != "" {
      assert all[0] == a[0] && all[1..] == a[1..] + s + b;
      TrimPadded(a[1..], s, b);
    } else if b != "" {
      assert all[0] == s[0] && all[|all| - 1] == b[|b| - 1];
      assert all[..|all| - 1] == a + s + b[..|b| - 1];
      TrimPadded(a, s, b[..|b| - 1]);
    } else {
      assert all == s;
    }
  }

  lemma PadOne(c: char, a: string, s: string, b: string)
    ensures [c] + (a + s + b) == ([c] + a) + s + b
    ensures (a + s + b) + [c] == a + s + (b + [c])
    ensures IsSpace(c) && AllSpace(a) ==> AllSpace([c] + a)
    ensures IsSpace(c) && AllSpace(b) ==> AllSpace(b + [c])
  {
  }

  lemma {:induction false} TrimSplits(spec: string) returns (a: string, b: string)
    ensures spec == a + Trim(spec) + b && AllSpace(a) && AllSpace(b)
    ensures Trim(spec) == "" || Tight(Trim(spec))
    decreases |spec|
  {
    if spec == "" || Tight(spec) {
      a, b := "", "";
    } else if IsSpace(spec[0]) {
      var a', b' := TrimSplits(spec[1..]);
      PadOne(spec[0], a', Trim(spec), b');
      assert spec == [spec[0]] + spec[1..];
      a, b := [spec[0]] + a', b';
    } else {
      var last := spec[|spec| - 1];
      var a', b' := TrimSplits(spec[..|spec| - 1]);
      PadOne(last, a', Trim(spec), b');
      assert spec == spec[..|spec| - 1] + [last];
      a, b := a', b' + [last];
    }
  }

  /** The number a sign and a run of digits spell. */
  function Signed(sign: string, digits: string): int
    requires AllDigits(digits)
  {
    var magnitude: int := Value(digits);
    if sign == "-" then -magnitude else magnitude
  }

  predicate FitsI64(n: int) {
    -I64_MAX - 1 <= n <= I64_MAX
  }

  lemma ParsesSigned(sign: string, digits: string)
    requires sign in {"", "+", "-"} && digits != "" && AllDigits(digits)
    ensures ParseI64(sign + digits) == if FitsI64(Signed(sign, digits)) then Some(Signed(sign, digits)) else None
  {
    var s := sign + digits;
    assert IsDigit(digits[0]);
    if sign == "" {
      assert s == digits;
    } else {
      assert s[0] == sign[0] && s[1..] == digits;
    }
  }

  lemma ParsedIsSigned(s: string) returns (sign: string, digits: string)
    requires ParseI64(s).Some?
    ensures s == sign + digits && sign in {"", "+", "-"} && digits != "" && AllDigits(digits)
    ensures FitsI64(Signed(sign, digits))
  {
    if s[0] == '-' || s[0] == '+' {
      sign, digits := [s[0]], s[1..];
    } else {
      sign, digits := "", s;
    }
  }

  /** What a person types: padding, an optional sign, digits, a unit in either case, padding. */
  ghost predicate Typed(spec: string, a: string, sign: string, digits: string, unit: char, b: string) {
    && spec == a + (sign + digits + [unit]) + b
    && AllSpace(a) && AllSpace(b)
    && sign in {"", "+", "-"}
    && digits != "" && AllDigits(digits)
    && TypedUnit(unit).Some?
  }

  /** Any such text is judged on its count and unit alone; a count past 64 bits is not read at all. */
  lemma TypedIsGrant(spec: string, a: string, sign: string, digits: string, unit: char, b: string)
    requires Typed(spec, a, sign, digits, unit, b)
    ensures ParseDuration(spec)
         == if FitsI64(Signed(sign, digits)) then Grant(Signed(sign, digits), TypedUnit(unit).value)
            else Err(Unreadable)
  {
    var core := sign + digits + [unit];
    assert IsDigit(digits[0]);
    assert core[0] == if sign == "" then digits[0] else sign[0];
    TrimPadded(a, core, b);
    assert core[..|core| - 1] == sign + digits;
    ParsesSigned(sign, digits);
  }

  /**
   So a typed window is granted exactly when its count is positive and the span
   fits; what is granted is that many seconds, and it prints to text that reads
   back as the same. Each refusal has its own reason.
   */
  lemma TypedIsGrantedExactly(spec: string, a: string, sign: string, digits: string, unit: char, b: string)
    requires Typed(spec, a, sign, digits, unit, b) && FitsI64(Signed(sign, digits))
    ensures var r, count, perUnit := ParseDuration(spec), Signed(sign, digits), TypedUnit(unit).value;
            && (r.Ok? <==> 0 < count && count * perUnit <= MAX_SECONDS)
            && (r.Ok? ==> r.value == count * perUnit && 0 < r.value <= MAX_SECONDS)
            && (r.Ok? ==> ReRead(HumanTime(r.value)) == Some(r.value))
            && (r.Err? ==> r.error == if count <= 0 then NotAWindow else TooLong)
  {
    TypedIsGrant(spec, a, sign, digits, unit, b);
    var r := Grant(Signed(sign, digits), TypedUnit(unit).value);
    if r.Ok? {
      GrantedIsPositive(Signed(sign, digits), TypedUnit(unit).value);
      HumanTimeReadsBack(r.value);
    }
  }

  lemma GrantedIsPositive(count: int, perUnit: nat)
    requires 0 < count && 0 < perUnit
    ensures 0 < count * perUnit
  {
  }

  function Lower(c: char): char {
    if 'A' <= c <= 'Z' then (c as int + 32) as char else c
  }

  /** Padding, an optional sign, digits, one character more, padding. */
  ghost predicate Shaped(spec: string, a: string, sign: string, digits: string, unit: char, b: string) {
    && spec == a + (sign + digits + [unit]) + b
    && AllSpace(a) && AllSpace(b)
    && sign in {"", "+", "-"}
    && digits != "" && AllDigits(digits)
  }

  lemma TypedUnitIsPrinted(unit: char)
    ensures TypedUnit(unit).Some? <==> Lower(unit) in {'s', 'm', 'h', 'd'}
    ensures TypedUnit(unit).Some? ==> forall n: nat :: Worth(n, Lower(unit)) == Some(n * TypedUnit(unit).value)
    ensures TypedUnit(unit).Some? ==> TypedUnit(unit).value > 0
  {
  }

  lemma ReadsWorth(digits: string, unit: char)
    requires digits != "" && AllDigits(digits) && unit in {'s', 'm', 'h', 'd'}
    ensures ReRead(digits + [unit]) == Worth(Value(digits), unit)
  {
    ReadRun(0, Run(digits, unit));
  }

  /** A character that names no unit makes the text unreadable, white space included. */
  lemma UnknownUnit(spec: string, a: string, sign: string, digits: string, unit: char, b: string)
    requires Shaped(spec, a, sign, digits, unit, b) && TypedUnit(unit) == None
    ensures ParseDuration(spec) == Err(Unreadable)
  {
    var number := sign + digits;
    assert IsDigit(digits[0]) && IsDigit(digits[|digits| - 1]);
    assert number[0] == (if sign == "" then digits[0] else sign[0]) && number[|number| - 1] == digits[|digits| - 1];
    if IsSpace(unit) {
      assert spec == a + number + ([unit] + b);
      TrimPadded(a, number, [unit] + b);
    } else {
      TrimPadded(a, number + [unit], b);
    }
  }

  /**
   A typed window means what the printer would mean by it: in either case, the text
   of its number and unit reads back as the seconds granted. It is unreadable when
   the unit is none the printer has or the number does not fit 64 bits, no window
   when the number is not positive, and too long past what a duration holds.
   */
  lemma TypedMeansPrinted(spec: string, a: string, sign: string, digits: string, unit: char, b: string)
    requires Shaped(spec, a, sign, digits, unit, b)
    ensures var worth := ReRead(digits + [Lower(unit)]);
            && (Lower(unit) in {'s', 'm', 'h', 'd'} ==> worth.Some?)
            && ParseDuration(spec)
            == if Lower(unit) !in {'s', 'm', 'h', 'd'} then Err(Unreadable)
               else if Value(digits) > (if sign == "-" then 9_223_372_036_854_775_808 else 9_223_372_036_854_775_807)
               then Err(Unreadable)
               else if sign == "-" || Value(digits) == 0 then Err(NotAWindow)
               else if worth.value > 9_223_372_036_854_775 then Err(TooLong)
               else Ok(worth.value)
  {
    TypedUnitIsPrinted(unit);
    if TypedUnit(unit) == None {
      UnknownUnit(spec, a, sign, digits, unit, b);
    } else {
      ReadsWorth(digits, Lower(unit));
      TypedIsGrant(spec, a, sign, digits, unit, b);
    }
  }

  lemma ReadableParts(spec: string)
    requires ParseDuration(spec) != Err(Unreadable)
    ensures var core := Trim(spec);
            core != "" && ParseI64(core[..|core| - 1]).Some? && TypedUnit(core[|core| - 1]).Some?
  {
  }

  lemma PartsOf(core: string) returns (sign: string, digits: string, unit: char)
    requires core != "" && ParseI64(core[..|core| - 1]).Some? && TypedUnit(core[|core| - 1]).Some?
    ensures core == sign + digits + [unit] && TypedUnit(unit).Some?
    ensures sign in {"", "+", "-"} && digits != "" && AllDigits(digits) && FitsI64(Signed(sign, digits))
  {
    unit := core[|core| - 1];
    sign, digits := ParsedIsSigned(core[..|core| - 1]);
    assert core == core[..|core| - 1] + [unit];
  }

  /** And nothing but such text is readable. */
  lemma ReadableIsTyped(spec: string) returns (a: string, sign: string, digits: string, unit: char, b: string)
    requires ParseDuration(spec) != Err(Unreadable)
    ensures Typed(spec, a, sign, digits, unit, b) && FitsI64(Signed(sign, digits))
  {
    ReadableParts(spec);
    sign, digits, unit := PartsOf(Trim(spec));
    a, b := TrimSplits(spec);
  }

  // ------------------------------------------------- is one the other's inverse?

  lemma SingleRunIsTyped(n: nat, unit: char)
    requires TypedUnit(unit).Some?
    ensures Typed(Digits(n) + [unit], "", "", Digits(n), unit, "") && Signed("", Digits(n)) == n
  {
    assert Digits(n) + [unit] == "" + ("" + Digits(n) + [unit]) + "";
    DigitsSpell(n);
  }

  lemma ParsesSingleRun(n: nat, unit: char)
    requires TypedUnit(unit).Some? && FitsI64(n)
    ensures ParseDuration(Digits(n) + [unit]) == Grant(n, TypedUnit(unit).value)
  {
    SingleRunIsTyped(n, unit);
    TypedIsGrant(Digits(n) + [unit], "", "", Digits(n), unit, "");
  }

  /** A unit before the last place is not a digit, so the count does not parse. */
  lemma CompoundIsUnreadable(a: string, unit: char, b: string, last: char)
    requires a != "" && AllDigits(a) && !IsDigit(unit) && !IsSpace(last)
    ensures ParseDuration(a + [unit] + b + [last]) == Err(Unreadable)
  {
    var spec := a + [unit] + b + [last];
    assert spec[0] == a[0] && IsDigit(spec[0]);
    assert Trim(spec) == spec;
    var count := spec[..|spec| - 1];
    assert count == a + [unit] + b;
    assert count[|a|] == unit;
  }

  /**
   The two are inverse on exactly the durations printed as one run: less than a
   minute, or whole minutes below an hour. Every longer text is compound, and
   zero is not a window.
   */
  lemma ParseUndoesPrintIff(secs: u64)
    ensures ParseDuration(HumanTime(secs)) == Ok(secs)
       <==> 0 < secs < 60 || (60 <= secs < 3600 && secs % 60 == 0)
  {
    if secs == 0 {
      ZeroIsNotAWindow();
    } else if secs < 60 || (secs < 3600 && secs % 60 == 0) {
      ShortIsParsed(secs);
    } else {
      LongerIsCompound(secs);
    }
  }

  lemma ShortIsParsed(secs: u64)
    requires 0 < secs < 60 || (60 <= secs < 3600 && secs % 60 == 0)
    ensures ParseDuration(HumanTime(secs)) == Ok(secs)
  {
    if secs < 60 {
      ParsesSingleRun(secs, 's');
    } else {
      ParsesSingleRun(secs / 60, 'm');
    }
  }

  lemma ZeroIsNotAWindow()
    ensures ParseDuration(HumanTime(0)) == Err(NotAWindow)
  {
    assert HumanTime(0) == "0s";
    assert Trim("0s") == "0s";
    assert "0s"[..1] == "0";
    assert "0"[..0] == "";
  }

  lemma LongerIsCompound(secs: u64)
    requires secs >= 60 && !(secs < 3600 && secs % 60 == 0)
    ensures ParseDuration(HumanTime(secs)) == Err(Unreadable)
  {
    if secs < 3600 {
      CompoundIsUnreadable(Digits(secs / 60), 'm', TwoDigits(secs % 60), 's');
    } else if secs < 86_400 {
      HoursAreCompound(Digits(secs / 3600), TwoDigits((secs % 3600) / 60), TwoDigits(secs % 60));
    } else {
      DaysAreCompound(Digits(secs / 86_400), TwoDigits((secs % 86_400) / 3600),
                      TwoDigits((secs % 3600) / 60), TwoDigits(secs % 60));
    }
  }

  lemma HoursAreCompound(h: string, m: string, s: string)
    requires h != "" && AllDigits(h)
    ensures ParseDuration(h + "h" + m + "m") == Err(Unreadable)
    ensures ParseDuration(h + "h" + m + "m" + s + "s") == Err(Unreadable)
  {
    CompoundIsUnreadable(h, 'h', m, 'm');
    CompoundIsUnreadable(h, 'h', m + "m" + s, 's');
    assert h + "h" + m + "m" + s + "s" == h + "h" + (m + "m" + s) + "s";
  }

  lemma DaysAreCompound(d: string, h: string, m: string, s: string)
    requires d != "" && AllDigits(d)
    ensures ParseDuration(d + "d" + h + "h") == Err(Unreadable)
    ensures ParseDuration(d + "d" + h + "h" + m + "m") == Err(Unreadable)
    ensures ParseDuration(d + "d" + h + "h" + m + "m" + s + "s") == Err(Unreadable)
  {
    CompoundIsUnreadable(d, 'd', h, 'h');
    CompoundIsUnreadable(d, 'd', h + "h" + m, 'm');
    assert d + "d" + h + "h" + m + "m" == d + "d" + (h + "h" + m) + "m";
    CompoundIsUnreadable(d, 'd', h + "h" + m + "m" + s, 's');
    assert d + "d" + h + "h" + m + "m" + s + "s" == d + "d" + (h + "h" + m + "m" + s) + "s";
  }
}
