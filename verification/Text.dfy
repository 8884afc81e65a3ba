/** String handling shared by the parsers: decimal numbers, trimming, splitting. */
module Text {
  import opened Wrappers

  // ---------- decimal numbers ----------

  predicate IsDigit(c: char) { '0' <= c <= '9' }

  function DigitValue(c: char): nat
    requires IsDigit(c)
  {
    (c as int) - ('0' as int)
  }

  predicate IsDigits(s: string) { |s| > 0 && forall i :: 0 <= i < |s| ==> IsDigit(s[i]) }

  function Decimal(n: nat): (s: string)
    ensures IsDigits(s)
  {
    var digit := [(n % 10 + '0' as int) as char];
    if n < 10 then digit else Decimal(n / 10) + digit
  }

  function NumberOf(s: string): nat
    requires forall i :: 0 <= i < |s| ==> IsDigit(s[i])
  {
    if s == [] then 0 else NumberOf(s[..|s| - 1]) * 10 + DigitValue(s[|s| - 1])
  }

  lemma {:induction false} NumberOfDecimal(n: nat)
    ensures NumberOf(Decimal(n)) == n
  {
    var s := Decimal(n);
    if n >= 10 {
      NumberOfDecimal(n / 10);
      assert s[..|s| - 1] == Decimal(n / 10);
    } else {
      assert s[..|s| - 1] == [];
    }
  }

  lemma DecimalInjective(m: nat, n: nat)
    requires Decimal(m) == Decimal(n)
    ensures m == n
  {
    NumberOfDecimal(m);
    NumberOfDecimal(n);
  }

  // ---------- trimming ----------

  /** The White_Space property of Unicode, which Rust's trim uses. */
  predicate IsWhiteSpace(c: char) {
    || '\U{0009}' <= c <= '\U{000D}' || c == ' ' || c == '\U{0085}' || c == '\U{00A0}' || c == '\U{1680}'
    || '\U{2000}' <= c <= '\U{200A}' || c == '\U{2028}' || c == '\U{2029}' || c == '\U{202F}'
    || c == '\U{205F}' || c == '\U{3000}'
  }

  function TrimStart(s: string, space: char -> bool): string {
    if s != [] && space(s[0]) then TrimStart(s[1..], space) else s
  }

  function TrimEnd(s: string, space: char -> bool): string {
    if s != [] && space(s[|s| - 1]) then TrimEnd(s[..|s| - 1], space) else s
  }

  function TrimBy(s: string, space: char -> bool): (t: string)
    ensures t == [] || (!space(t[0]) && !space(t[|t| - 1]))
  {
    TrimmedEnds(s, space);
    TrimEnd(TrimStart(s, space), space)
  }

  lemma {:induction false} TrimmedEnds(s: string, space: char -> bool)
    ensures var t := TrimEnd(TrimStart(s, space), space);
            t == [] || (!space(t[0]) && !space(t[|t| - 1]))
  {
    if s != [] && space(s[0]) {
      TrimmedEnds(s[1..], space);
    } else {
      TrimEndKeepsFirst(s, space);
    }
  }

  lemma {:induction false} TrimEndKeepsFirst(s: string, space: char -> bool)
    ensures var t := TrimEnd(s, space);
            t == [] || (!space(t[|t| - 1]) && s != [] && t[0] == s[0])
  {
    if s != [] && space(s[|s| - 1]) {
      TrimEndKeepsFirst(s[..|s| - 1], space);
    }
  }

  lemma TrimTwice(s: string, space: char -> bool)
    ensures TrimBy(TrimBy(s, space), space) == TrimBy(s, space)
  {
  }

  predicate Blank(s: string, space: char -> bool) { forall i :: 0 <= i < |s| ==> space(s[i]) }

  /** Trimming removes exactly the padding of a text with solid ends. */
  lemma {:induction false} TrimPadded(before: string, s: string, after: string, space: char -> bool)
    requires Blank(before, space) && Blank(after, space)
    requires s != "" ==> !space(s[0]) && !space(s[|s| - 1])
    ensures TrimBy(before + s + after, space) == s
  {
    if before != "" {
      assert (before + s + after)[1..] == before[1..] + s + after;
      TrimPadded(before[1..], s, after, space);
    } else {
      assert before + s + after == s + after;
      if s == "" {
        BlankStarts(after, space);
        assert "" + after == after;
      } else {
        SolidEnds(s, after, space);
      }
    }
  }

  lemma {:induction false} BlankStarts(s: string, space: char -> bool)
    requires Blank(s, space)
    ensures TrimStart(s, space) == ""
  {
    if s != "" { BlankStarts(s[1..], space); }
  }

  lemma {:induction false} SolidEnds(s: string, after: string, space: char -> bool)
    requires Blank(after, space) && s != "" && !space(s[|s| - 1])
    ensures TrimEnd(s + after, space) == s
  {
    if after == "" {
      assert s + after == s;
    } else {
      assert (s + after)[..|s + after| - 1] == s + after[..|after| - 1];
      SolidEnds(s, after[..|after| - 1], space);
    }
  }

  function Trim(s: string): string { TrimBy(s, IsWhiteSpace) }

  // ---------- splitting ----------

  /** Index of the first `c`, or the length when there is none. */
  function IndexOf(s: string, c: char): (i: nat)
    ensures i <= |s|
    ensures i < |s| ==> s[i] == c
    ensures forall j :: 0 <= j < i ==> s[j] != c
  {
    if s == [] then 0 else if s[0] == c then 0 else 1 + IndexOf(s[1..], c)
  }

  function Split(s: string, c: char): (parts: seq<string>)
    ensures |parts| > 0
    decreases |s|
  {
    var i := IndexOf(s, c);
    if i == |s| then [s] else [s[..i]] + Split(s[i + 1..], c)
  }

  lemma IndexOfFirst(left: string, c: char, right: string)
    requires c !in left
    ensures IndexOf(left + [c] + right, c) == |left|
  {
    var s := left + [c] + right;
    assert s[|left|] == c;
    assert forall j :: 0 <= j < |left| ==> s[j] == left[j] && s[j] in left;
  }

  lemma IndexOfNone(s: string, c: char)
    requires c !in s
    ensures IndexOf(s, c) == |s|
  {
    assert forall j :: 0 <= j < |s| ==> s[j] in s;
  }

  function Join(parts: seq<string>, c: char): string {
    if parts == [] then "" else if |parts| == 1 then parts[0] else parts[0] + [c] + Join(parts[1..], c)
  }

  /** Splitting undoes joining, so nothing is dropped or merged, empty parts included. */
  lemma {:induction false} SplitJoined(parts: seq<string>, c: char)
    requires parts != [] && forall part :: part in parts ==> c !in part
    ensures Split(Join(parts, c), c) == parts
  {
    var first := parts[0];
    if |parts| == 1 {
      IndexOfNone(first, c);
    } else {
      var rest := Join(parts[1..], c);
      IndexOfFirst(first, c, rest);
      assert (first + [c] + rest)[|first| + 1..] == rest && (first + [c] + rest)[..|first|] == first;
      SplitJoined(parts[1..], c);
    }
  }

  lemma {:induction false} JoinedSplit(s: string, c: char)
    ensures Join(Split(s, c), c) == s
    decreases |s|
  {
    var i := IndexOf(s, c);
    if i < |s| {
      JoinedSplit(s[i + 1..], c);
      assert Split(s, c)[1..] == Split(s[i + 1..], c);
      assert s == s[..i] + [c] + s[i + 1..];
    }
  }

  predicate StartsWith(s: string, prefix: string) { |prefix| <= |s| && s[..|prefix|] == prefix }

  predicate EndsWith(s: string, suffix: string) { |suffix| <= |s| && s[|s| - |suffix|..] == suffix }

  lemma StartsWithFirst(s: string, prefix: string)
    ensures StartsWith(s, prefix) && prefix != "" ==> s != "" && s[0] == prefix[0]
  {
    if StartsWith(s, prefix) && prefix != "" {
      assert s[..|prefix|][0] == s[0];
    }
  }

  lemma EndsWithFirst(s: string, suffix: string)
    ensures EndsWith(s, suffix) && suffix != "" ==> s[|s| - |suffix|] == suffix[0]
  {
    if EndsWith(s, suffix) && suffix != "" {
      assert s[|s| - |suffix|..][0] == suffix[0];
    }
  }

  lemma EndsWithSplit(s: string, suffix: string)
    requires EndsWith(s, suffix)
    ensures s == s[..|s| - |suffix|] + suffix
  {
  }

  /** Equal to a name in capitals, letter by letter and in either case. */
  predicate Spells(s: string, name: string) {
    |s| == |name| && forall i :: 0 <= i < |s| ==> s[i] == name[i] || s[i] as int == name[i] as int + 32
  }

  predicate Capitals(name: string) { forall i :: 0 <= i < |name| ==> 'A' <= name[i] <= 'Z' }

  lemma UpperSpells(s: string, name: string)
    requires Capitals(name)
    ensures AsciiUpper(s) == name <==> Spells(s, name)
  {
    if AsciiUpper(s) == name {
      assert forall i :: 0 <= i < |s| ==> AsciiUpper(s)[i] == name[i];
    }
  }

  function AsciiUpper(s: string): (u: string)
    ensures |u| == |s|
  {
    seq(|s|, i requires 0 <= i < |s| => if 'a' <= s[i] <= 'z' then (s[i] as int - 32) as char else s[i])
  }
}
