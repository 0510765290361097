/** Durations in settings (src/tune.rs:778-787, 977-1002): the printer used in session SQL and
    the parser used for environment variables. */
module Durations {
  import opened Wrappers
  import opened Decimal

  /** `std::time::Duration` */
  datatype Duration = Duration(secs: nat, nanos: nat)

  const NANOS_PER_MILLI: nat := 1_000_000

  predicate Valid(d: Duration)
  {
    d.secs < U64_LIMIT && d.nanos < 1_000_000_000
  }

  function FromMillis(n: nat): Duration
  {
    Duration(n / 1000, n % 1000 * NANOS_PER_MILLI)
  }

  function FromSecs(n: nat): Duration
  {
    Duration(n, 0)
  }

  /** `subsec_millis` */
  function SubMillis(d: Duration): nat
  {
    d.nanos / NANOS_PER_MILLI
  }

  /** `as_millis` */
  function TotalMillis(d: Duration): nat
  {
    d.secs * 1000 + SubMillis(d)
  }

  function Format(d: Duration): string
  {
    if SubMillis(d) == 0 then Print(d.secs) + "s" else Print(TotalMillis(d)) + "ms"
  }

  /** White space as `str::trim` takes it: the Unicode property White_Space. */
  predicate IsSpace(c: char)
  {
    || c == ' ' || '\t' <= c <= '\r' || c == '\U{85}' || c == '\U{A0}' || c == '\U{1680}'
    || '\U{2000}' <= c <= '\U{200A}' || c == '\U{2028}' || c == '\U{2029}' || c == '\U{202F}'
    || c == '\U{205F}' || c == '\U{3000}'
  }

  function TrimStart(s: string): string
  {
    if s != [] && IsSpace(s[0]) then TrimStart(s[1..]) else s
  }

  function TrimEnd(s: string): string
  {
    if s != [] && IsSpace(s[|s| - 1]) then TrimEnd(s[..|s| - 1]) else s
  }

  function StripSuffix(s: string, suffix: string): Option<string>
  {
    if |suffix| <= |s| && s[|s| - |suffix|..] == suffix then Some(s[..|s| - |suffix|]) else None
  }

  /** A number of units, each `factor` seconds long. */
  function Units(digits: string, factor: nat): (d: Option<Duration>)
    ensures d.Some? ==> d.value.nanos == 0 && d.value.secs < U64_LIMIT
  {
    match Parse(digits, U64_LIMIT)
    case None => None
    case Some(n) => if n * factor < U64_LIMIT then Some(FromSecs(n * factor)) else None
  }

  function ParseDuration(text: string): Option<Duration>
  {
    var v := TrimEnd(TrimStart(text));
    var ms, s, m, h := StripSuffix(v, "ms"), StripSuffix(v, "s"), StripSuffix(v, "m"), StripSuffix(v, "h");
    if ms.Some? then
      var n := Parse(ms.value, U64_LIMIT);
      if n.Some? then Some(FromMillis(n.value)) else None
    else if s.Some? then Units(s.value, 1)
    else if m.Some? then Units(m.value, 60)
    else if h.Some? then Units(h.value, 3600)
    else Units(v, 1)
  }

  lemma NothingToTrim(s: string)
    requires s != [] && !IsSpace(s[0]) && !IsSpace(s[|s| - 1])
    ensures TrimEnd(TrimStart(s)) == s
  {
  }

  lemma StripAppended(digits: string, suffix: string)
    ensures StripSuffix(digits + suffix, suffix) == Some(digits)
  {
    var s := digits + suffix;
    assert s[|s| - |suffix|..] == suffix && s[..|s| - |suffix|] == digits;
  }

  lemma NotMillis(digits: string)
    requires digits != [] && digits[|digits| - 1] != 'm'
    ensures StripSuffix(digits + "s", "ms") == None
  {
    var s := digits + "s";
    assert s[|s| - 2..][0] == digits[|digits| - 1];
  }

  /** What the parser makes of a numeral with one of the two suffixes the printer uses. */
  lemma ParseSeconds(n: nat)
    ensures ParseDuration(Print(n) + "s") == if n < U64_LIMIT then Some(FromSecs(n)) else None
  {
    var digits := Print(n);
    assert IsDigit(digits[0]) && IsDigit(digits[|digits| - 1]);
    NothingToTrim(digits + "s");
    NotMillis(digits);
    StripAppended(digits, "s");
    ParsePrint(n, U64_LIMIT);
  }

  lemma ParseMillis(n: nat)
    ensures ParseDuration(Print(n) + "ms") == if n < U64_LIMIT then Some(FromMillis(n)) else None
  {
    var digits := Print(n);
    assert IsDigit(digits[0]);
    NothingToTrim(digits + "ms");
    StripAppended(digits, "ms");
    ParsePrint(n, U64_LIMIT);
  }

  lemma OtherEnd(s: string, suffix: string)
    requires s != [] && suffix != [] && s[|s| - 1] != suffix[|suffix| - 1]
    ensures StripSuffix(s, suffix) == None
  {
    if |suffix| <= |s| {
      assert s[|s| - |suffix|..][|suffix| - 1] == s[|s| - 1];
    }
  }

  lemma EndsWith(digits: string, c: char)
    requires c != 's' && digits != []
    ensures StripSuffix(digits + [c], "ms") == None && StripSuffix(digits + [c], "s") == None
    ensures c != 'm' ==> StripSuffix(digits + [c], "m") == None
  {
    OtherEnd(digits + [c], "ms");
    OtherEnd(digits + [c], "s");
    if c != 'm' {
      OtherEnd(digits + [c], "m");
    }
  }

  lemma NoSuffix(digits: string)
    requires digits != [] && IsDigit(digits[|digits| - 1])
    ensures StripSuffix(digits, "s") == None && StripSuffix(digits, "m") == None && StripSuffix(digits, "h") == None
    ensures StripSuffix(digits, "ms") == None
  {
    OtherEnd(digits, "s");
    OtherEnd(digits, "m");
    OtherEnd(digits, "h");
    OtherEnd(digits, "ms");
  }

  lemma ParseBare(n: nat)
    ensures ParseDuration(Print(n)) == if n < U64_LIMIT then Some(FromSecs(n)) else None
  {
    var digits := Print(n);
    assert IsDigit(digits[0]) && IsDigit(digits[|digits| - 1]);
    NothingToTrim(digits);
    NoSuffix(digits);
    ParsePrint(n, U64_LIMIT);
  }

  lemma ParseMinutes(n: nat)
    ensures ParseDuration(Print(n) + "m") == Units(Print(n), 60)
  {
    var digits := Print(n);
    assert IsDigit(digits[0]);
    NothingToTrim(digits + "m");
    EndsWith(digits, 'm');
    StripAppended(digits, "m");
  }

  lemma ParseHours(n: nat)
    ensures ParseDuration(Print(n) + "h") == Units(Print(n), 3600)
  {
    var digits := Print(n);
    assert IsDigit(digits[0]);
    NothingToTrim(digits + "h");
    EndsWith(digits, 'h');
    StripAppended(digits, "h");
  }

  lemma UnitsOf(n: nat, factor: nat)
    requires factor > 0
    ensures Units(Print(n), factor) == if n * factor < U64_LIMIT then Some(FromSecs(n * factor)) else None
  {
    ParsePrint(n, U64_LIMIT);
    if n >= U64_LIMIT {
      AtLeast(n, factor);
    }
  }

  lemma AtLeast(n: nat, factor: nat)
    requires factor > 0
    ensures n * factor >= n
  {
  }

  /** What a number means bare and with each suffix: seconds, seconds, minutes, hours and
      milliseconds; nothing when it does not fit 64 bits. */
  lemma SuffixMeaning(n: nat)
    ensures var limit := 18_446_744_073_709_551_616;
            && ParseDuration(Print(n)) == (if n < limit then Some(Duration(n, 0)) else None)
            && ParseDuration(Print(n) + "s") == (if n < limit then Some(Duration(n, 0)) else None)
            && ParseDuration(Print(n) + "m") == (if n * 60 < limit then Some(Duration(n * 60, 0)) else None)
            && ParseDuration(Print(n) + "h") == (if n * 3600 < limit then Some(Duration(n * 3600, 0)) else None)
            && ParseDuration(Print(n) + "ms")
            == (if n < limit then Some(Duration(n / 1000, n % 1000 * 1_000_000)) else None)
  {
    ParseBare(n);
    ParseSeconds(n);
    ParseMinutes(n);
    UnitsOf(n, 60);
    ParseHours(n);
    UnitsOf(n, 3600);
    ParseMillis(n);
  }

  lemma SpacesAre(c: char)
    ensures c in " \t\n\r" ==> IsSpace(c)
    ensures IsDigit(c) || c in "smh+-." ==> !IsSpace(c)
  {
  }

  lemma {:induction false} TrimStartAdded(space: string, text: string)
    requires forall i | 0 <= i < |space| :: IsSpace(space[i])
    ensures TrimStart(space + text) == TrimStart(text)
  {
    if space == [] {
      assert space + text == text;
    } else {
      assert (space + text)[1..] == space[1..] + text;
      TrimStartAdded(space[1..], text);
    }
  }

  lemma {:induction false} TrimEndAdded(text: string, space: string)
    requires forall i | 0 <= i < |space| :: IsSpace(space[i])
    ensures TrimEnd(text + space) == TrimEnd(text)
  {
    if space == [] {
      assert text + space == text;
    } else {
      assert (text + space)[..|text + space| - 1] == text + space[..|space| - 1];
      TrimEndAdded(text, space[..|space| - 1]);
    }
  }

  /** White space around a duration makes no difference. */
  lemma SpaceIgnored(before: string, text: string, after: string)
    requires text != [] && !IsSpace(text[0])
    requires forall i | 0 <= i < |before| :: IsSpace(before[i])
    requires forall i | 0 <= i < |after| :: IsSpace(after[i])
    ensures ParseDuration(before + text + after) == ParseDuration(text)
  {
    assert before + text + after == before + (text + after);
    TrimStartAdded(before, text + after);
    assert TrimStart(text + after) == text + after && TrimStart(text) == text;
    TrimEndAdded(text, after);
  }

  lemma NotDigits(text: string, i: nat)
    requires 1 <= i < |text| && !IsDigit(text[i])
    ensures Parse(text, U64_LIMIT) == None
  {
    ParseRejects(text, U64_LIMIT, if text[0] == '+' then i - 1 else i);
  }

  /** A unit behind something that is no number is refused: `5km` is not five minutes. */
  lemma NoNumberRefused(text: string)
    requires text != [] && !IsSpace(text[0])
    requires exists i | 1 <= i < |text| :: !IsDigit(text[i])
    ensures ParseDuration(text + "m") == None && ParseDuration(text + "h") == None
  {
    var i :| 1 <= i < |text| && !IsDigit(text[i]);
    NotDigits(text, i);
    NothingToTrim(text + "m");
    EndsWith(text, 'm');
    StripAppended(text, "m");
    NothingToTrim(text + "h");
    EndsWith(text, 'h');
    StripAppended(text, "h");
  }

  /** What the text keeps of a duration: everything but the part below a millisecond. */
  function ToMillis(d: Duration): Duration
  {
    Duration(d.secs, SubMillis(d) * NANOS_PER_MILLI)
  }

  /** The printed form is read back as the same duration exactly when the duration is a whole
      number of milliseconds and that number fits 64 bits, or there are only seconds. When it is
      read back at all, no more than the part below a millisecond is lost. */
  lemma FormatParseRoundTrip(d: Duration)
    requires Valid(d)
    ensures ParseDuration(Format(d)) == Some(d) <==>
            d.nanos == 0 || (d.nanos % NANOS_PER_MILLI == 0 && TotalMillis(d) < U64_LIMIT)
    ensures ParseDuration(Format(d)) == Some(ToMillis(d)) || ParseDuration(Format(d)) == None
  {
    ParseSeconds(d.secs);
    ParseMillis(TotalMillis(d));
    MillisRoundTrip(d);
    assert d.nanos == SubMillis(d) * NANOS_PER_MILLI + d.nanos % NANOS_PER_MILLI;
  }

  /** A nanosecond is lost, and the longest duration with a fraction cannot be read back. */
  lemma RoundTripFails()
    ensures ParseDuration(Format(Duration(1, 1))) == Some(Duration(1, 0))
    ensures ParseDuration(Format(Duration(U64_LIMIT - 1, NANOS_PER_MILLI))) == None
  {
    ParseSeconds(1);
    ParseMillis(TotalMillis(Duration(U64_LIMIT - 1, NANOS_PER_MILLI)));
  }

  lemma MillisRoundTrip(d: Duration)
    requires Valid(d)
    ensures FromMillis(TotalMillis(d)) == ToMillis(d)
  {
    assert SubMillis(d) < 1000;
  }

  /** Every duration the parser can produce survives printing and parsing. */
  lemma ParsedDurationsRoundTrip(text: string)
    requires ParseDuration(text).Some?
    ensures ParseDuration(Format(ParseDuration(text).value)) == ParseDuration(text)
  {
    var d := ParseDuration(text).value;
    ParsedFits(text);
    FormatParseRoundTrip(d);
  }

  lemma ParsedFits(text: string)
    requires ParseDuration(text).Some?
    ensures var d := ParseDuration(text).value;
            Valid(d) && (d.nanos == 0 || (d.nanos % NANOS_PER_MILLI == 0 && TotalMillis(d) < U64_LIMIT))
  {
    var v := TrimEnd(TrimStart(text));
    if StripSuffix(v, "ms").Some? {
      var n := Parse(StripSuffix(v, "ms").value, U64_LIMIT).value;
      assert FromMillis(n).nanos == n % 1000 * NANOS_PER_MILLI;
      assert SubMillis(FromMillis(n)) == n % 1000;
    }
  }
}
