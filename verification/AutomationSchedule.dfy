/** When an automation runs next: the interval of its recurrence rule and the arithmetic on
    64-bit millisecond timestamps. */
module AutomationSchedule {
  import opened Wrappers
  import opened Text

  const U64_MAX: nat := 0xFFFF_FFFF_FFFF_FFFF

  type U64 = n: nat | n <= U64_MAX

  datatype Status = Active | Paused | Deleted

  datatype Kind = Heartbeat(targetThread: string) | Cron

  datatype Record = Record(
    id: string,
    kind: Kind,
    status: Status,
    createdAt: Option<U64>,
    updatedAt: Option<U64>,
    lastRunAt: Option<U64>,
    nextRunAt: Option<U64>,
    rrule: string)

  function CheckedAdd(a: U64, b: U64): Option<U64> { if a + b <= U64_MAX then Some(a + b) else None }

  function CheckedSub(a: U64, b: U64): Option<U64> { if a >= b then Some(a - b) else None }

  function CheckedMul(a: U64, b: U64): Option<U64> { if a * b <= U64_MAX then Some(a * b) else None }

  // ---------- recurrence rules ----------

  /** An unsigned number as the standard library reads it: digits after an optional plus. */
  function ParseU64(s: string): Option<U64> {
    var digits := if StartsWith(s, "+") then s[1..] else s;
    if IsDigits(digits) && NumberOf(digits) <= U64_MAX then Some(NumberOf(digits)) else None
  }

  function Multiplier(frequency: string): Option<U64> {
    if frequency == "SECONDLY" then Some(1_000)
    else if frequency == "MINUTELY" then Some(60_000)
    else if frequency == "HOURLY" then Some(3_600_000)
    else if frequency == "DAILY" then Some(86_400_000)
    else if frequency == "WEEKLY" then Some(604_800_000)
    else None
  }

  predicate IsAssignment(part: string) { IndexOf(part, '=') < |part| }

  function KeyOf(part: string): string
    requires IsAssignment(part)
  {
    AsciiUpper(Trim(part[..IndexOf(part, '=')]))
  }

  function ValueOf(part: string): string
    requires IsAssignment(part)
  {
    Trim(part[IndexOf(part, '=') + 1..])
  }

  /** A part that does not spoil the whole rule. */
  predicate Acceptable(part: string) {
    && IsAssignment(part)
    && (KeyOf(part) == "INTERVAL" ==> ParseU64(ValueOf(part)).Some? && ParseU64(ValueOf(part)).value > 0)
  }

  /** The value given to a key by the last part that sets it. */
  function LastValue(parts: seq<string>, key: string): Option<string> {
    if parts == [] then None
    else
      var part := parts[|parts| - 1];
      if IsAssignment(part) && KeyOf(part) == key then Some(ValueOf(part))
      else LastValue(parts[..|parts| - 1], key)
  }

  /** The meaning of a rule: every part is acceptable, the last FREQ and INTERVAL count. */
  function IntervalOfParts(parts: seq<string>): (interval: Option<U64>)
    ensures interval.Some? ==> interval.value >= 1_000
  {
    if exists part | part in parts :: !Acceptable(part) then None
    else
      var frequency :- LastValue(parts, "FREQ");
      var unit :- Multiplier(AsciiUpper(frequency));
      var count := match LastValue(parts, "INTERVAL")
                   case None => Some(1)
                   case Some(value) => ParseU64(value);
      LastValueAccepted(parts);
      ProductAtLeast(count.value, unit);
      CheckedMul(count.value, unit)
  }

  lemma ProductAtLeast(count: nat, unit: nat)
    requires count > 0
    ensures count * unit >= unit
  {
  }

  lemma {:induction false} LastValueAccepted(parts: seq<string>)
    requires forall part | part in parts :: Acceptable(part)
    ensures LastValue(parts, "INTERVAL").Some? ==>
              var count := ParseU64(LastValue(parts, "INTERVAL").value); count.Some? && count.value > 0
  {
    if parts != [] {
      assert Acceptable(parts[|parts| - 1]);
      LastValueAccepted(parts[..|parts| - 1]);
    }
  }

  lemma LastValueOfMore(parts: seq<string>, part: string, key: string)
    ensures LastValue(parts + [part], key)
         == if IsAssignment(part) && KeyOf(part) == key then Some(ValueOf(part)) else LastValue(parts, key)
  {
    assert (parts + [part])[..|parts|] == parts;
  }

  function IntervalOf(rrule: string): (interval: Option<U64>)
    ensures interval.Some? ==> interval.value >= 1_000
  {
    IntervalOfParts(Split(rrule, ';'))
  }

  method ParseRruleIntervalMs(rrule: string) returns (ms: Option<U64>)
    ensures ms == IntervalOf(rrule)
  {
    hide ParseU64, Multiplier, KeyOf, ValueOf, IsAssignment, AsciiUpper, Split;
    var frequency: Option<string> := None;
    var interval: U64 := 1;
    var parts := Split(rrule, ';');
    for i := 0 to |parts|
      invariant forall part | part in parts[..i] :: Acceptable(part)
      invariant frequency == (match LastValue(parts[..i], "FREQ")
                              case None => None
                              case Some(value) => Some(AsciiUpper(value)))
      invariant interval > 0
      invariant Some(interval) == match LastValue(parts[..i], "INTERVAL")
                                  case None => Some(1)
                                  case Some(value) => ParseU64(value)
    {
      var part := parts[i];
      assert part in parts && parts[..i + 1] == parts[..i] + [part];
      LastValueOfMore(parts[..i], part, "FREQ");
      LastValueOfMore(parts[..i], part, "INTERVAL");
      if !IsAssignment(part) {
        return None;
      }
      var key, value := KeyOf(part), ValueOf(part);
      if key == "FREQ" {
        frequency := Some(AsciiUpper(value));
      } else if key == "INTERVAL" {
        var count := ParseU64(value);
        if count.None? || count.value == 0 {
          return None;
        }
        interval := count.value;
      }
    }
    assert parts[..|parts|] == parts;
    if frequency.None? {
      return None;
    }
    var unit := Multiplier(frequency.value);
    if unit.None? {
      return None;
    }
    return CheckedMul(interval, unit.value);
  }

  /** Every other key, such as the BY parts, is ignored wherever it stands. */
  lemma OtherKeysIgnored(before: seq<string>, part: string, after: seq<string>)
    requires IsAssignment(part) && KeyOf(part) != "FREQ" && KeyOf(part) != "INTERVAL"
    ensures IntervalOfParts(before + [part] + after) == IntervalOfParts(before + after)
  {
    hide ParseU64, Multiplier, KeyOf, ValueOf, IsAssignment, AsciiUpper;
    assert Acceptable(part);
    var all, rest := before + [part] + after, before + after;
    assert forall p :: p in all <==> p in rest || p == part;
    LastValueSkips(before, part, after, "FREQ");
    LastValueSkips(before, part, after, "INTERVAL");
  }

  lemma {:induction false} LastValueSkips(before: seq<string>, part: string, after: seq<string>, key: string)
    requires IsAssignment(part) && KeyOf(part) != key
    ensures LastValue(before + [part] + after, key) == LastValue(before + after, key)
  {
    hide KeyOf, ValueOf, IsAssignment;
    if after == [] {
      assert before + [part] + [] == before + [part] && before + [] == before;
      LastValueOfMore(before, part, key);
    } else {
      var init, last := after[..|after| - 1], after[|after| - 1];
      assert before + [part] + after == (before + [part] + init) + [last];
      assert before + after == (before + init) + [last];
      LastValueSkips(before, part, init, key);
      LastValueOfMore(before + [part] + init, last, key);
      LastValueOfMore(before + init, last, key);
    }
  }

  // ---------- what a written rule means ----------

  ghost predicate Padded(text: string, core: string) {
    exists before: string, after: string ::
      Blank(before, IsWhiteSpace) && Blank(after, IsWhiteSpace) && text == before + core + after
  }

  predicate Solid(s: string) { s == "" || (!IsWhiteSpace(s[0]) && !IsWhiteSpace(s[|s| - 1])) }

  /** A part that sets a key, in capitals or not and padded or not, to a value. */
  ghost predicate Assigns(part: string, key: string, value: string) {
    exists left: string, name: string, right: string ::
      Padded(left, name) && Spells(name, key) && Padded(right, value) && '=' !in left && part == left + ['='] + right
  }

  lemma PaddedTrim(text: string, core: string)
    requires Padded(text, core) && Solid(core)
    ensures Trim(text) == core
  {
    var before: string, after: string :|
      Blank(before, IsWhiteSpace) && Blank(after, IsWhiteSpace) && text == before + core + after;
    TrimPadded(before, core, after, IsWhiteSpace);
  }

  lemma AssignmentRead(part: string, key: string, value: string)
    requires Assigns(part, key, value) && Capitals(key) && Solid(value)
    ensures IsAssignment(part) && KeyOf(part) == key && ValueOf(part) == value
  {
    hide Padded, AsciiUpper;
    var left: string, name: string, right: string :|
      Padded(left, name) && Spells(name, key) && Padded(right, value) && '=' !in left && part == left + ['='] + right;
    IndexOfFirst(left, '=', right);
    assert part[..|left|] == left && part[|left| + 1..] == right;
    PaddedTrim(left, name);
    PaddedTrim(right, value);
    UpperSpells(name, key);
  }

  function Fitting(ms: nat): Option<U64> { if 0 < ms <= U64_MAX then Some(ms) else None }

  /** A frequency and a count in milliseconds. */
  function Meaning(frequency: string, count: nat): Option<U64> {
    if Spells(frequency, "SECONDLY") then Fitting(count * 1000)
    else if Spells(frequency, "MINUTELY") then Fitting(count * (60 * 1000))
    else if Spells(frequency, "HOURLY") then Fitting(count * (60 * 60 * 1000))
    else if Spells(frequency, "DAILY") then Fitting(count * (24 * 60 * 60 * 1000))
    else if Spells(frequency, "WEEKLY") then Fitting(count * (7 * 24 * 60 * 60 * 1000))
    else None
  }

  lemma UnitsMean(frequency: string, count: nat)
    ensures var unit := Multiplier(AsciiUpper(frequency));
            Meaning(frequency, count) == if unit.Some? then Fitting(count * unit.value) else None
  {
    hide AsciiUpper, Spells;
    UpperSpells(frequency, "SECONDLY");
    UpperSpells(frequency, "MINUTELY");
    UpperSpells(frequency, "HOURLY");
    UpperSpells(frequency, "DAILY");
    UpperSpells(frequency, "WEEKLY");
  }

  /** A number as it may be written, with a sign or without. */
  predicate Writes(text: string, count: nat) { text == Decimal(count) || text == "+" + Decimal(count) }

  lemma NumberRead(text: string, count: nat)
    requires Writes(text, count)
    ensures Solid(text) && ParseU64(text) == if count <= U64_MAX then Some(count) else None
  {
    NumberOfDecimal(count);
    var number := Decimal(count);
    assert IsDigit(number[0]) && IsDigit(number[|number| - 1]);
    if text == number {
      StartsWithFirst(text, "+");
    } else {
      assert text[..1] == "+" && text[1..] == number && text[|text| - 1] == number[|number| - 1];
    }
  }

  /** A part that sets a frequency or a positive count. */
  ghost predicate Sets(part: string) {
    || (exists frequency: string :: Solid(frequency) && Assigns(part, "FREQ", frequency))
    || (exists text: string, count: nat ::
          0 < count <= U64_MAX && Writes(text, count) && Assigns(part, "INTERVAL", text))
  }

  lemma SetsAccepted(part: string)
    requires Sets(part)
    ensures Acceptable(part)
  {
    hide ParseU64, KeyOf, ValueOf, IsAssignment, Assigns, Writes;
    if text: string, count: nat :| 0 < count <= U64_MAX && Writes(text, count) && Assigns(part, "INTERVAL", text) {
      NumberRead(text, count);
      AssignmentRead(part, "INTERVAL", text);
    } else {
      var frequency: string :| Solid(frequency) && Assigns(part, "FREQ", frequency);
      AssignmentRead(part, "FREQ", frequency);
    }
  }

  /** Whatever was set before, the last frequency and the last count decide, in either order. */
  lemma LastSettingsCount(before: seq<string>, first: string, second: string, frequency: string, text: string,
                          count: nat)
    requires forall part :: part in before ==> Sets(part)
    requires Assigns(first, "FREQ", frequency) && Solid(frequency)
    requires Assigns(second, "INTERVAL", text) && Writes(text, count)
    ensures IntervalOfParts(before + [first] + [second]) == Meaning(frequency, count)
    ensures IntervalOfParts(before + [second] + [first]) == Meaning(frequency, count)
  {
    hide ParseU64, Multiplier, KeyOf, ValueOf, IsAssignment, AsciiUpper, Assigns, Sets, Writes, LastValue, Meaning;
    AssignmentRead(first, "FREQ", frequency);
    NumberRead(text, count);
    AssignmentRead(second, "INTERVAL", text);
    UnitsMean(frequency, count);
    forall part | part in before ensures Acceptable(part) { SetsAccepted(part); }
    assert Acceptable(first);
    LastValueOfMore(before + [first], second, "FREQ");
    LastValueOfMore(before + [first], second, "INTERVAL");
    LastValueOfMore(before, first, "FREQ");
    LastValueOfMore(before + [second], first, "FREQ");
    LastValueOfMore(before + [second], first, "INTERVAL");
    LastValueOfMore(before, second, "INTERVAL");
    MeaningOfTwo(before + [first] + [second], second, frequency, text, count);
    MeaningOfTwo(before + [second] + [first], second, frequency, text, count);
  }

  lemma MeaningOfTwo(parts: seq<string>, second: string, frequency: string, text: string, count: nat)
    requires LastValue(parts, "FREQ") == Some(frequency) && LastValue(parts, "INTERVAL") == Some(text)
    requires ParseU64(text) == if count <= U64_MAX then Some(count) else None
    requires forall part | part in parts :: part == second || Acceptable(part)
    requires second in parts && IsAssignment(second) && KeyOf(second) == "INTERVAL" && ValueOf(second) == text
    ensures var unit := Multiplier(AsciiUpper(frequency));
            IntervalOfParts(parts) == if unit.Some? then Fitting(count * unit.value) else None
  {
    hide ParseU64, Multiplier, KeyOf, ValueOf, IsAssignment, AsciiUpper, LastValue;
    var unit := Multiplier(AsciiUpper(frequency));
    UnitPositive(AsciiUpper(frequency));
    if 0 < count <= U64_MAX {
      assert Acceptable(second);
    } else {
      assert !Acceptable(second);
      if unit.Some? { FittingCount(count, unit.value); }
    }
  }

  lemma FittingCount(count: nat, unit: nat)
    requires unit > 0 && (count == 0 || count > U64_MAX)
    ensures Fitting(count * unit) == None
  {
    if count > U64_MAX {
      ProductAtLeast(unit, count);
      assert count * unit == unit * count;
    }
  }

  lemma UnitPositive(name: string)
    ensures Multiplier(name).Some? ==> Multiplier(name).value > 0
  {
  }

  lemma RuleOfParts(parts: seq<string>)
    requires parts != [] && forall part :: part in parts ==> ';' !in part
    ensures IntervalOf(Join(parts, ';')) == IntervalOfParts(parts)
  {
    SplitJoined(parts, ';');
  }

  /** A rule written from a frequency in any case and a count means that many of its units,
      unless the count is zero or the product does not fit; no other name means anything. */
  lemma CanonicalRule(frequency: string, count: nat)
    requires Solid(frequency) && ';' !in frequency
    ensures IntervalOf("FREQ=" + frequency + ";INTERVAL=" + Decimal(count)) == Meaning(frequency, count)
    ensures IntervalOf("FREQ=" + frequency) == Meaning(frequency, 1)
  {
    hide Assigns, IntervalOfParts, Meaning, Split, IntervalOf, Multiplier, IsDigit;
    var first, second := "FREQ=" + frequency, "INTERVAL=" + Decimal(count);
    PlainAssigns("FREQ", frequency);
    PlainAssigns("INTERVAL", Decimal(count));
    DecimalNoSeparator(count);
    assert first == "FREQ" + "=" + frequency && second == "INTERVAL" + "=" + Decimal(count);
    LastSettingsCount([], first, second, frequency, Decimal(count), count);
    assert [] + [first] + [second] == [first, second];
    assert [first, second][1..] == [second];
    assert Join([first, second], ';') == "FREQ=" + frequency + ";INTERVAL=" + Decimal(count);
    RuleOfParts([first, second]);
    DefaultCount(first, frequency);
    RuleOfParts([first]);
  }

  lemma PlainAssigns(key: string, value: string)
    requires '=' !in key && forall i :: 0 <= i < |key| ==> 'A' <= key[i] <= 'Z'
    ensures Assigns(key + "=" + value, key, value)
  {
    assert "" + key + "" == key && "" + value + "" == value;
    assert Blank("", IsWhiteSpace);
    assert Padded(key, key) && Padded(value, value) && Spells(key, key);
    assert key + "=" + value == key + ['='] + value;
  }

  lemma DecimalNoSeparator(count: nat)
    ensures ';' !in Decimal(count)
  {
    var number := Decimal(count);
    assert forall i :: 0 <= i < |number| ==> IsDigit(number[i]);
  }

  /** Without a count it is one. */
  lemma DefaultCount(part: string, frequency: string)
    requires Assigns(part, "FREQ", frequency) && Solid(frequency)
    ensures IntervalOfParts([part]) == Meaning(frequency, 1)
  {
    hide ParseU64, Multiplier, KeyOf, ValueOf, IsAssignment, AsciiUpper, Assigns, LastValue, Meaning;
    AssignmentRead(part, "FREQ", frequency);
    UnitsMean(frequency, 1);
    UnitPositive(AsciiUpper(frequency));
    LastValueOfMore([], part, "FREQ");
    LastValueOfMore([], part, "INTERVAL");
    NothingSet("FREQ");
    NothingSet("INTERVAL");
    assert [] + [part] == [part];
    assert Acceptable(part);
  }

  lemma NothingSet(key: string)
    ensures LastValue([], key) == None
  {
  }

  /** One part without an equals sign, or with a count that is no positive number, spoils the
      rule wherever it stands. */
  lemma SpoiledRule(before: seq<string>, part: string, after: seq<string>, text: string)
    requires '=' !in part
          || (Assigns(part, "INTERVAL", text) && Solid(text)
              && (Writes(text, 0) || text == "" || exists c :: c in text && c != '+' && !IsDigit(c)))
    ensures IntervalOfParts(before + [part] + after) == None
  {
    hide KeyOf, ValueOf, Assigns, Writes, LastValue, Multiplier;
    if '=' in part {
      AssignmentRead(part, "INTERVAL", text);
      if Writes(text, 0) {
        NumberRead(text, 0);
      }
    } else {
      IndexOfNone(part, '=');
    }
    assert !Acceptable(part);
    assert part in before + [part] + after;
  }

  // ---------- the next run ----------

  /** Whole intervals that bring a past occurrence beyond now. */
  function StepsPast(elapsed: U64, interval: U64): U64
    requires interval > 0 && elapsed < U64_MAX
  {
    QuotientAtMost(elapsed, interval);
    elapsed / interval + 1
  }

  function ComputeNextRunAt(automation: Record, now: U64): Option<U64> {
    if automation.status != Active then None
    else
      var interval :- IntervalOf(automation.rrule);
      var anchor := if automation.lastRunAt.Some? then automation.lastRunAt.value else now;
      var first :- CheckedAdd(anchor, interval);
      if first > now then Some(first)
      else
        var elapsed :- CheckedSub(now, first);
        var skipped :- CheckedMul(interval, StepsPast(elapsed, interval));
        CheckedAdd(first, skipped)
  }

  function Occurrence(anchor: nat, interval: nat, k: nat): nat { anchor + k * interval }

  /** The k-th occurrence after the anchor is the first one later than now. */
  ghost predicate IsUpcoming(anchor: nat, interval: nat, k: nat, now: nat) {
    && k >= 1
    && Occurrence(anchor, interval, k) > now
    && forall j: nat :: 1 <= j < k ==> Occurrence(anchor, interval, j) <= now
  }

  lemma Quotient(a: nat, d: nat)
    requires d > 0
    ensures (a / d) * d <= a < (a / d + 1) * d
  {
  }

  lemma TimesAtLeast(q: nat, d: nat)
    requires d > 0
    ensures q * d >= q
  {
    assert q * d == q * (d - 1) + q;
    assert q * (d - 1) >= 0;
  }

  lemma QuotientAtMost(a: nat, d: nat)
    requires d > 0
    ensures a / d <= a
  {
    var q := a / d;
    Quotient(a, d);
    ProductCovers(q, d, a);
  }

  lemma ProductCovers(q: nat, d: nat, a: nat)
    requires d > 0 && q * d <= a
    ensures q <= a
  {
    TimesAtLeast(q, d);
  }

  lemma OccurrencesGrow(anchor: nat, interval: nat, j: nat, k: nat)
    requires j <= k
    ensures Occurrence(anchor, interval, j) <= Occurrence(anchor, interval, k)
  {
    assert k * interval == j * interval + (k - j) * interval;
  }

  lemma UpcomingIndex(anchor: nat, interval: nat, now: nat) returns (k: nat)
    requires interval > 0
    ensures IsUpcoming(anchor, interval, k, now)
    ensures anchor + interval > now ==> k == 1
    ensures anchor + interval <= now ==> k == (now - anchor - interval) / interval + 2
  {
    if anchor + interval > now {
      k := 1;
      return;
    }
    var q := (now - anchor - interval) / interval;
    Quotient(now - anchor - interval, interval);
    k := q + 2;
    assert Occurrence(anchor, interval, q + 1) == anchor + interval + q * interval;
    assert Occurrence(anchor, interval, k) == anchor + interval + (q + 1) * interval;
    forall j: nat | 1 <= j < k ensures Occurrence(anchor, interval, j) <= now {
      OccurrencesGrow(anchor, interval, j, q + 1);
    }
  }

  /** For an active automation with a readable rule, the next run is the first occurrence
      after now, and is missing exactly when that does not fit in 64 bits. */
  lemma NextRunExact(automation: Record, now: U64) returns (k: nat)
    requires automation.status == Active && IntervalOf(automation.rrule).Some?
    ensures var interval := IntervalOf(automation.rrule).value;
            var anchor := if automation.lastRunAt.Some? then automation.lastRunAt.value else now;
            && IsUpcoming(anchor, interval, k, now)
            && ComputeNextRunAt(automation, now)
               == if Occurrence(anchor, interval, k) <= U64_MAX then Some(Occurrence(anchor, interval, k)) else None
  {
    hide IntervalOf;
    var interval := IntervalOf(automation.rrule).value;
    var anchor := if automation.lastRunAt.Some? then automation.lastRunAt.value else now;
    k := UpcomingIndex(anchor, interval, now);
    if anchor + interval <= now {
      var q := (now - anchor - interval) / interval;
      assert Occurrence(anchor, interval, k) == anchor + interval + interval * (q + 1);
    }
  }

  lemma NoNextRun(automation: Record, now: U64)
    requires automation.status != Active || IntervalOf(automation.rrule) == None
    ensures ComputeNextRunAt(automation, now) == None
  {
    hide IntervalOf;
  }

  lemma UpcomingUnique(anchor: nat, interval: nat, j: nat, k: nat, now: nat)
    requires IsUpcoming(anchor, interval, j, now) && IsUpcoming(anchor, interval, k, now)
    ensures j == k
  {
  }
}
