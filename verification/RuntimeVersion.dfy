/** Spellings of runtime versions: the normal one used by packages, and the one used by
    release tags. */
module RuntimeVersion {
  import opened Wrappers
  import opened Text

  datatype Prerelease = Alpha | Beta | Candidate

  function Name(pre: Prerelease): string { match pre case Alpha => "alpha" case Beta => "beta" case Candidate => "rc" }

  function Short(pre: Prerelease): string { match pre case Alpha => "a" case Beta => "b" case Candidate => "rc" }

  /** White space as str.strip removes it. */
  predicate IsPythonSpace(c: char) { IsWhiteSpace(c) || '\U{001C}' <= c <= '\U{001F}' }

  function Strip(s: string): string { TrimBy(s, IsPythonSpace) }

  /** How many digits a string ends with. */
  function DigitCount(s: string): (k: nat)
    ensures k <= |s|
  {
    if s == "" || !IsDigit(s[|s| - 1]) then 0 else 1 + DigitCount(s[..|s| - 1])
  }

  function Digits(s: string): string { s[|s| - DigitCount(s)..] }

  function Head(s: string): string { s[..|s| - DigitCount(s)] }

  /** What precedes a dashed prerelease name, an optional dot and the final digits. */
  function BeforeName(s: string, pre: Prerelease): Option<string> {
    var head, dashed := Head(s), "-" + Name(pre);
    if DigitCount(s) == 0 then None
    else if EndsWith(head, dashed + ".") then Some(head[..|head| - |dashed| - 1])
    else if EndsWith(head, dashed) then Some(head[..|head| - |dashed|])
    else None
  }

  function Shortened(s: string, pre: Prerelease): string {
    match BeforeName(s, pre)
    case None => s
    case Some(base) => base + Short(pre) + Digits(s)
  }

  function WithoutPrefix(s: string): string {
    if StartsWith(s, "rust-v") then s[6..] else if StartsWith(s, "v") then s[1..] else s
  }

  function Normalized(version: string): string {
    Shortened(Shortened(Shortened(WithoutPrefix(Strip(version)), Alpha), Beta), Candidate)
  }

  /** Digits, or digits separated by single dots. */
  predicate IsBase(s: string) {
    s != "" && IsDigit(s[0]) && IsDigit(s[|s| - 1])
    && (forall i :: 0 <= i < |s| ==> IsDigit(s[i]) || s[i] == '.')
    && (forall i, j :: 0 <= i < j < |s| && s[i] == '.' && s[j] == '.' ==> i + 1 < j)
  }

  /** The base of a normalised prerelease, and which prerelease it is. */
  function PrereleaseOf(s: string): Option<(string, Prerelease)> {
    var head := Head(s);
    if DigitCount(s) == 0 then None
    else if EndsWith(head, "a") && IsBase(head[..|head| - 1]) then Some((head[..|head| - 1], Alpha))
    else if EndsWith(head, "b") && IsBase(head[..|head| - 1]) then Some((head[..|head| - 1], Beta))
    else if EndsWith(head, "rc") && IsBase(head[..|head| - 2]) then Some((head[..|head| - 2], Candidate))
    else None
  }

  function Tagged(base: string, pre: Prerelease, number: string): string { base + "-" + Name(pre) + "." + number }

  function ReleaseVersion(version: string): string {
    var normalized := Normalized(version);
    match PrereleaseOf(normalized)
    case None => normalized
    case Some((base, pre)) => Tagged(base, pre, Digits(normalized))
  }

  function ReleaseTag(version: string): string { "rust-v" + ReleaseVersion(version) }

  // ---------- when a spelling is normal ----------

  predicate Bare(s: string) { Strip(s) == s && !StartsWith(s, "rust-v") && !StartsWith(s, "v") }

  predicate Nameless(s: string) {
    BeforeName(s, Alpha).None? && BeforeName(s, Beta).None? && BeforeName(s, Candidate).None?
  }

  /** Nothing is left for normalisation to change. */
  predicate Settled(s: string) { Bare(s) && Nameless(s) }

  lemma ShortenedShrinks(s: string, pre: Prerelease)
    ensures BeforeName(s, pre).Some? ==> |Shortened(s, pre)| < |s|
    ensures BeforeName(s, pre).None? ==> Shortened(s, pre) == s
  {
  }

  lemma {:induction false} StripShrinks(s: string)
    ensures |Strip(s)| <= |s| && (|Strip(s)| == |s| ==> Strip(s) == s)
  {
    StartShrinks(s);
    EndShrinks(TrimStart(s, IsPythonSpace));
  }

  lemma {:induction false} StartShrinks(s: string)
    ensures |TrimStart(s, IsPythonSpace)| <= |s|
    ensures |TrimStart(s, IsPythonSpace)| == |s| ==> TrimStart(s, IsPythonSpace) == s
  {
    if s != "" && IsPythonSpace(s[0]) { StartShrinks(s[1..]); }
  }

  lemma {:induction false} EndShrinks(s: string)
    ensures |TrimEnd(s, IsPythonSpace)| <= |s|
    ensures |TrimEnd(s, IsPythonSpace)| == |s| ==> TrimEnd(s, IsPythonSpace) == s
  {
    if s != "" && IsPythonSpace(s[|s| - 1]) { EndShrinks(s[..|s| - 1]); }
  }

  /** A spelling is its own normal form exactly when it has no surrounding space, no version
      prefix and no spelled-out prerelease at its end. */
  lemma SettledExactly(s: string)
    ensures Normalized(s) == s <==> Settled(s)
  {
    hide BeforeName, Shortened, Strip;
    StripShrinks(s);
    var bare := WithoutPrefix(Strip(s));
    var a := Shortened(bare, Alpha);
    var b := Shortened(a, Beta);
    ShortenedShrinks(bare, Alpha);
    ShortenedShrinks(a, Beta);
    ShortenedShrinks(b, Candidate);
  }

  lemma {:induction false} DigitCountOf(head: string, number: string)
    requires head == "" || !IsDigit(head[|head| - 1])
    requires forall i :: 0 <= i < |number| ==> IsDigit(number[i])
    ensures DigitCount(head + number) == |number|
    ensures Head(head + number) == head && Digits(head + number) == number
  {
    var s := head + number;
    if number == "" {
      assert s == head;
    } else {
      assert s[..|s| - 1] == head + number[..|number| - 1];
      DigitCountOf(head, number[..|number| - 1]);
    }
  }

  /** The text between a base and its number, in each of its three spellings. */
  datatype Spelling = Compact | Dashed | Dotted

  function Middle(pre: Prerelease, spelling: Spelling): string {
    match spelling
    case Compact => Short(pre)
    case Dashed => "-" + Name(pre)
    case Dotted => "-" + Name(pre) + "."
  }

  lemma HeadShortened(base: string, pre: Prerelease, spelling: Spelling, number: string, other: Prerelease)
    requires IsBase(base) && IsDigits(number)
    ensures var s := base + Middle(pre, spelling) + number;
            Shortened(s, other) == if other == pre && !spelling.Compact? then base + Short(pre) + number else s
  {
    var head := base + Middle(pre, spelling);
    MiddleEnd(pre, spelling);
    DigitCountOf(head, number);
    HeadEnds(base, pre, spelling, other);
  }

  lemma MiddleEnd(pre: Prerelease, spelling: Spelling)
    ensures Middle(pre, spelling) != "" && !IsDigit(Middle(pre, spelling)[|Middle(pre, spelling)| - 1])
  {
  }

  lemma HeadEnds(base: string, pre: Prerelease, spelling: Spelling, other: Prerelease)
    requires IsBase(base)
    ensures var head := base + Middle(pre, spelling);
            && (EndsWith(head, "-" + Name(other) + ".") <==> other == pre && spelling.Dotted?)
            && (EndsWith(head, "-" + Name(other)) <==> other == pre && spelling.Dashed?)
            && (spelling.Dotted? ==> head[..|head| - |Name(pre)| - 2] == base)
            && (spelling.Dashed? ==> head[..|head| - |Name(pre)| - 1] == base)
  {
    hide IsBase, Name, EndsWith;
    EndsInMiddle(base, Middle(pre, spelling), "-" + Name(other));
    EndsInMiddle(base, Middle(pre, spelling), "-" + Name(other) + ".");
    MiddleEnds(pre, spelling, other);
  }

  /** A base contains no dash. */
  lemma EndsInMiddle(base: string, middle: string, suffix: string)
    requires IsBase(base) && suffix != "" && suffix[0] == '-'
    ensures EndsWith(base + middle, suffix) <==> EndsWith(middle, suffix)
  {
    var s := base + middle;
    if |suffix| <= |middle| {
      assert s[|s| - |suffix|..] == middle[|middle| - |suffix|..];
    } else {
      EndsWithFirst(s, suffix);
    }
  }

  lemma MiddleEnds(pre: Prerelease, spelling: Spelling, other: Prerelease)
    ensures EndsWith(Middle(pre, spelling), "-" + Name(other) + ".") <==> other == pre && spelling.Dotted?
    ensures EndsWith(Middle(pre, spelling), "-" + Name(other)) <==> other == pre && spelling.Dashed?
  {
    hide EndsWith;
    var middle, dashed := Middle(pre, spelling), "-" + Name(other);
    LastTwo(middle, dashed);
    LastTwo(middle, dashed + ".");
    assert Name(Alpha)[3] == 'h' && Name(Alpha)[4] == 'a';
    assert Name(Beta)[2] == 't' && Name(Beta)[3] == 'a';
    assert Name(Candidate)[0] == 'r' && Name(Candidate)[1] == 'c';
    EndsWithItself(middle);
  }

  lemma EndsWithItself(s: string)
    ensures EndsWith(s, s)
  {
    assert s[0..] == s;
  }

  lemma LastTwo(s: string, suffix: string)
    requires |suffix| >= 3
    ensures EndsWith(s, suffix) ==>
              |s| >= |suffix| && s[|s| - 1] == suffix[|suffix| - 1] && s[|s| - 2] == suffix[|suffix| - 2]
              && s[|s| - 3] == suffix[|suffix| - 3]
  {
    if EndsWith(s, suffix) {
      var tail := s[|s| - |suffix|..];
      assert tail[|suffix| - 1] == s[|s| - 1] && tail[|suffix| - 2] == s[|s| - 2] && tail[|suffix| - 3] == s[|s| - 3];
    }
  }

  /** Every spelling of a prerelease, with any prefix, has the compact one as its normal form. */
  lemma SpellingsNormalise(prefix: string, base: string, pre: Prerelease, spelling: Spelling, number: string)
    requires prefix in {"", "v", "rust-v"} && IsBase(base) && IsDigits(number)
    ensures Normalized(prefix + (base + Middle(pre, spelling) + number)) == base + Short(pre) + number
  {
    var bare := base + Middle(pre, spelling) + number;
    var compact := base + Short(pre) + number;
    PrefixRemoved(prefix, bare);
    HeadShortened(base, pre, spelling, number, Alpha);
    HeadShortened(base, pre, spelling, number, Beta);
    HeadShortened(base, pre, spelling, number, Candidate);
    assert Middle(pre, Compact) == Short(pre);
    HeadShortened(base, pre, Compact, number, Beta);
    HeadShortened(base, pre, Compact, number, Candidate);
  }

  lemma Unpadded(s: string)
    requires s != "" && !IsPythonSpace(s[0]) && !IsPythonSpace(s[|s| - 1])
    ensures Strip(s) == s
  {
    hide IsPythonSpace;
  }

  lemma PrefixRemoved(prefix: string, bare: string)
    requires prefix in {"", "v", "rust-v"}
    requires bare != "" && IsDigit(bare[0]) && IsDigit(bare[|bare| - 1])
    ensures WithoutPrefix(Strip(prefix + bare)) == bare
  {
    hide Strip;
    var s := prefix + bare;
    assert s[|s| - 1] == bare[|bare| - 1];
    assert s[|prefix|..] == bare;
    assert s[0] == if prefix == "" then bare[0] else prefix[0];
    Unpadded(s);
    StartsWithFirst(s, "rust-v");
    StartsWithFirst(s, "v");
    assert prefix == "v" ==> s[..1] == "v";
    assert prefix == "rust-v" ==> s[..6] == "rust-v";
  }

  lemma PrereleaseFound(base: string, pre: Prerelease, number: string)
    requires IsBase(base) && IsDigits(number)
    ensures var compact := base + Short(pre) + number;
            PrereleaseOf(compact) == Some((base, pre)) && Digits(compact) == number
  {
    var head := base + Short(pre);
    DigitCountOf(head, number);
    assert head[|head| - |Short(pre)|..] == Short(pre) && head[..|head| - |Short(pre)|] == base;
    if pre == Candidate {
      assert !EndsWith(head, "a") && !EndsWith(head, "b");
    }
  }

  lemma PrereleaseParts(s: string)
    requires PrereleaseOf(s).Some?
    ensures var (base, pre) := PrereleaseOf(s).value;
            IsBase(base) && IsDigits(Digits(s)) && s == base + Short(pre) + Digits(s)
  {
    hide IsBase, DigitCount;
    DigitsAreDigits(s);
    var head := Head(s);
    assert s == head + Digits(s);
    if EndsWith(head, "a") && IsBase(head[..|head| - 1]) {
      EndsWithSplit(head, "a");
    } else if EndsWith(head, "b") && IsBase(head[..|head| - 1]) {
      EndsWithSplit(head, "b");
    } else {
      EndsWithSplit(head, "rc");
    }
  }

  lemma {:induction false} DigitsAreDigits(s: string)
    ensures forall i :: 0 <= i < |Digits(s)| ==> IsDigit(Digits(s)[i])
  {
    if s != "" && IsDigit(s[|s| - 1]) {
      DigitsAreDigits(s[..|s| - 1]);
      assert Digits(s) == Digits(s[..|s| - 1]) + [s[|s| - 1]];
    }
  }

  /** All spellings of a prerelease share one release tag, and tagging a tag changes nothing. */
  lemma SpellingsShareTag(prefix: string, base: string, pre: Prerelease, spelling: Spelling, number: string)
    requires prefix in {"", "v", "rust-v"} && IsBase(base) && IsDigits(number)
    ensures var tag := ReleaseTag(prefix + (base + Middle(pre, spelling) + number));
            tag == "rust-v" + Tagged(base, pre, number) && ReleaseTag(tag) == tag
  {
    hide Normalized, PrereleaseOf, Digits, IsBase;
    SpellingsNormalise(prefix, base, pre, spelling, number);
    SpellingsNormalise("rust-v", base, pre, Dotted, number);
    PrereleaseFound(base, pre, number);
    assert Tagged(base, pre, number) == base + Middle(pre, Dotted) + number;
  }

  /** A base has no letters for a prerelease to be made of. */
  lemma BaseEnds(base: string, suffix: string)
    requires IsBase(base) && suffix != "" && (suffix[0] == '-' || 'a' <= suffix[0] <= 'z')
    ensures !EndsWith(Head(base), suffix)
  {
    EndsWithFirst(Head(base), suffix);
  }

  lemma BaseUntouched(base: string)
    requires IsBase(base)
    ensures PrereleaseOf(base).None? && forall pre: Prerelease :: BeforeName(base, pre).None?
  {
    hide IsBase, EndsWith, Head;
    BaseEnds(base, "a");
    BaseEnds(base, "b");
    BaseEnds(base, "rc");
    forall pre: Prerelease ensures BeforeName(base, pre).None? {
      BaseEnds(base, "-" + Name(pre));
      BaseEnds(base, "-" + Name(pre) + ".");
    }
  }

  /** So do the spellings of a plain release. */
  lemma PlainReleasesShareTag(prefix: string, base: string)
    requires prefix in {"", "v", "rust-v"} && IsBase(base)
    ensures ReleaseTag(prefix + base) == "rust-v" + base && ReleaseTag("rust-v" + base) == "rust-v" + base
  {
    hide Strip, WithoutPrefix, BeforeName, PrereleaseOf, Digits, Name, Short;
    PrefixRemoved(prefix, base);
    PrefixRemoved("rust-v", base);
    BaseUntouched(base);
  }

  /** Normalising a release version gives the normal form back exactly when that form is settled. */
  lemma RoundTripIfSettled(version: string)
    ensures Normalized(ReleaseVersion(version)) == Normalized(version) <==> Settled(Normalized(version))
  {
    hide Settled, IsBase, PrereleaseOf, Normalized, Name, Short, Digits;
    var normalized := Normalized(version);
    SettledExactly(normalized);
    if PrereleaseOf(normalized).Some? {
      var (base, pre) := PrereleaseOf(normalized).value;
      var number := Digits(normalized);
      PrereleaseParts(normalized);
      SpellingsNormalise("", base, pre, Dotted, number);
      SpellingsNormalise("", base, pre, Compact, number);
      assert "" + (base + Middle(pre, Dotted) + number) == Tagged(base, pre, number);
      assert "" + (base + Middle(pre, Compact) + number) == normalized;
    }
  }

  // ---------- tags, written out ----------

  predicate AllDigits(parts: seq<string>) { parts != [] && forall i :: 0 <= i < |parts| ==> IsDigits(parts[i]) }

  lemma {:induction false} JoinedIsBase(parts: seq<string>)
    requires AllDigits(parts)
    ensures IsBase(Join(parts, '.'))
  {
    if |parts| > 1 {
      JoinedIsBase(parts[1..]);
      BaseMore(parts[0], Join(parts[1..], '.'));
    }
  }

  lemma BaseMore(first: string, rest: string)
    requires IsDigits(first) && IsBase(rest)
    ensures IsBase(first + ['.'] + rest)
  {
    var s := first + ['.'] + rest;
    assert s[|s| - 1] == rest[|rest| - 1];
    forall i, j | 0 <= i < j < |s| && s[i] == '.' && s[j] == '.' ensures i + 1 < j {
      assert i >= |first| && j > |first|;
      assert s[j] == rest[j - |first| - 1];
      assert i > |first| ==> s[i] == rest[i - |first| - 1];
    }
  }

  lemma {:induction false} BaseIsJoined(s: string)
    requires IsBase(s)
    ensures AllDigits(Split(s, '.')) && Join(Split(s, '.'), '.') == s
    decreases |s|
  {
    JoinedSplit(s, '.');
    var i := IndexOf(s, '.');
    if i < |s| {
      var rest := s[i + 1..];
      assert rest[|rest| - 1] == s[|s| - 1];
      assert rest[0] != '.';
      BaseIsJoined(rest);
      assert IsDigits(s[..i]);
    }
  }

  function Names(short: string): string { if short == "a" then "alpha" else if short == "b" then "beta" else "rc" }

  /** The normalised prereleases are exactly the numbers joined by dots, then a, b or rc, then
      a number. */
  lemma PrereleasesExactly(s: string)
    ensures PrereleaseOf(s).Some?
            <==> exists parts: seq<string>, short: string, number: string ::
                   AllDigits(parts) && short in {"a", "b", "rc"} && IsDigits(number)
                   && s == Join(parts, '.') + short + number
  {
    hide IsBase, IsDigits, PrereleaseOf;
    if PrereleaseOf(s).Some? {
      PrereleaseParts(s);
      var (base, pre) := PrereleaseOf(s).value;
      BaseIsJoined(base);
      assert s == Join(Split(base, '.'), '.') + Short(pre) + Digits(s);
    }
    if parts: seq<string>, short: string, number: string :|
      AllDigits(parts) && short in {"a", "b", "rc"} && IsDigits(number) && s == Join(parts, '.') + short + number {
      JoinedIsBase(parts);
      var pre := if short == "a" then Alpha else if short == "b" then Beta else Candidate;
      PrereleaseFound(Join(parts, '.'), pre, number);
    }
  }

  /** With any prefix, and with its prerelease written in any of three ways or not at all, a
      version of numbers joined by dots has its one release tag. */
  lemma TagsWrittenOut(prefix: string, parts: seq<string>, short: string, middle: string, number: string)
    requires prefix in {"", "v", "rust-v"} && AllDigits(parts) && short in {"a", "b", "rc"} && IsDigits(number)
    requires middle in {short, "-" + Names(short), "-" + Names(short) + "."}
    ensures var base := Join(parts, '.');
            && ReleaseTag(prefix + (base + middle + number)) == "rust-v" + base + "-" + Names(short) + "." + number
            && ReleaseTag(prefix + base) == "rust-v" + base
  {
    hide ReleaseTag, IsBase, AllDigits;
    var pre := if short == "a" then Alpha else if short == "b" then Beta else Candidate;
    var spelling := if middle == short then Compact else if middle == "-" + Names(short) then Dashed else Dotted;
    JoinedIsBase(parts);
    SpellingsShareTag(prefix, Join(parts, '.'), pre, spelling, number);
    PlainReleasesShareTag(prefix, Join(parts, '.'));
  }

  // ---------- which versions round-trip ----------

  /** Behind its prefix a version is unpadded and has no second prefix, and what precedes its
      prerelease name does not make a new name out of the short one. */
  predicate Unambiguous(version: string) {
    var bare := WithoutPrefix(Strip(version));
    && Bare(bare)
    && (var base := BeforeName(bare, Alpha); base.Some? ==> !EndsWith(base.value, "-alph"))
    && (var base := BeforeName(bare, Candidate); base.Some? ==> !EndsWith(base.value, "-"))
  }

  lemma EndsWithTail(s: string, suffix: string, tail: string)
    ensures EndsWith(s + tail, suffix + tail) <==> EndsWith(s, suffix)
  {
    var long := s + tail;
    if |suffix| <= |s| {
      assert long[|long| - |suffix + tail|..] == s[|s| - |suffix|..] + tail;
      if long[|long| - |suffix + tail|..] == suffix + tail {
        assert (suffix + tail)[..|suffix|] == suffix;
      }
    }
  }

  lemma EndsWithLast(s: string, suffix: string)
    ensures EndsWith(s, suffix) && suffix != "" ==> s != "" && s[|s| - 1] == suffix[|suffix| - 1]
  {
    if EndsWith(s, suffix) && suffix != "" {
      assert s[|s| - |suffix|..][|suffix| - 1] == s[|s| - 1];
    }
  }

  /** When a short name completes a spelled-out one. */
  predicate Completes(base: string, short: Prerelease, pre: Prerelease) {
    match (short, pre)
    case (Alpha, Alpha) => EndsWith(base, "-alph")
    case (Alpha, Beta) => EndsWith(base, "-bet")
    case (Candidate, Candidate) => EndsWith(base, "-")
    case _ => false
  }

  lemma ShortEnds(base: string, short: Prerelease, pre: Prerelease)
    ensures var head := base + Short(short);
            && !EndsWith(head, "-" + Name(pre) + ".")
            && (EndsWith(head, "-" + Name(pre)) <==> Completes(base, short, pre))
  {
    hide EndsWith;
    var head := base + Short(short);
    EndsWithLast(head, "-" + Name(pre) + ".");
    EndsWithLast(head, "-" + Name(pre));
    assert head[|head| - 1] == Short(short)[|Short(short)| - 1];
    match (short, pre)
    case (Alpha, Alpha) => EndsWithTail(base, "-alph", "a"); assert "-alph" + "a" == "-" + Name(pre);
    case (Alpha, Beta) => EndsWithTail(base, "-bet", "a"); assert "-bet" + "a" == "-" + Name(pre);
    case (Candidate, Candidate) => EndsWithTail(base, "-", "rc"); assert "-" + "rc" == "-" + Name(pre);
    case _ =>
  }

  lemma ShortenedAgain(base: string, short: Prerelease, number: string, pre: Prerelease)
    requires IsDigits(number)
    ensures var s := base + Short(short) + number;
            && (BeforeName(s, pre).Some? <==> Completes(base, short, pre))
            && (BeforeName(s, pre).Some? ==>
                  BeforeName(s, pre).value + "-" + Name(pre) == base + Short(short) && Digits(s) == number)
  {
    hide EndsWith, Name, Short, DigitCount, Head, Digits, Completes;
    var head := base + Short(short);
    MiddleEnd(short, Compact);
    assert head[|head| - 1] == Middle(short, Compact)[|Short(short)| - 1];
    DigitCountOf(head, number);
    ShortEnds(base, short, pre);
    if Completes(base, short, pre) {
      EndsWithSplit(head, "-" + Name(pre));
    }
  }

  lemma NameEnds(s: string, pre: Prerelease)
    requires BeforeName(s, pre).Some?
    ensures var base := BeforeName(s, pre).value;
            && IsDigits(Digits(s))
            && (s == base + ("-" + Name(pre)) + Digits(s) || s == base + ("-" + Name(pre) + ".") + Digits(s))
  {
    hide EndsWith, Name, DigitCount;
    DigitsAreDigits(s);
    assert s == Head(s) + Digits(s);
    if EndsWith(Head(s), "-" + Name(pre) + ".") {
      EndsWithSplit(Head(s), "-" + Name(pre) + ".");
    } else {
      EndsWithSplit(Head(s), "-" + Name(pre));
    }
  }

  lemma OneName(s: string, pre: Prerelease, other: Prerelease)
    requires BeforeName(s, pre).Some? && BeforeName(s, other).Some?
    ensures pre == other
  {
    hide EndsWith, DigitCount;
    var head := Head(s);
    LastTwo(head, "-" + Name(pre) + ".");
    LastTwo(head, "-" + Name(pre));
    LastTwo(head, "-" + Name(other) + ".");
    LastTwo(head, "-" + Name(other));
  }

  lemma StartsInBase(base: string, tail: string, prefix: string)
    requires prefix != "" && prefix[|prefix| - 1] == 'v' && 'v' !in tail
    ensures StartsWith(base + tail, prefix) <==> StartsWith(base, prefix)
  {
    var s := base + tail;
    if StartsWith(s, prefix) {
      assert s[..|prefix|][|prefix| - 1] == s[|prefix| - 1];
    }
    if |prefix| <= |base| {
      assert s[..|prefix|] == base[..|prefix|];
    }
  }

  /** What stands between a base and its number does not decide whether a version is bare. */
  lemma BareByBase(base: string, middle: string, other: string, number: string)
    requires middle != "" && other != "" && !IsPythonSpace(middle[0]) && !IsPythonSpace(other[0])
    requires 'v' !in middle && 'v' !in other && IsDigits(number)
    ensures Bare(base + middle + number) <==> Bare(base + other + number)
  {
    hide Strip, StartsWith, IsPythonSpace;
    BareIff(base, middle, number);
    BareIff(base, other, number);
  }

  lemma BareIff(base: string, middle: string, number: string)
    requires middle != "" && !IsPythonSpace(middle[0]) && 'v' !in middle && IsDigits(number)
    ensures Bare(base + middle + number)
            <==> (base == "" || !IsPythonSpace(base[0])) && !StartsWith(base, "rust-v") && !StartsWith(base, "v")
  {
    hide StartsWith;
    var s := base + middle + number;
    assert s == base + (middle + number);
    StartsInBase(base, middle + number, "rust-v");
    StartsInBase(base, middle + number, "v");
    assert s[0] == if base == "" then middle[0] else base[0];
    assert s[|s| - 1] == number[|number| - 1];
    StripExactly(s);
  }

  lemma StripExactly(s: string)
    requires s != ""
    ensures Strip(s) == s <==> !IsPythonSpace(s[0]) && !IsPythonSpace(s[|s| - 1])
  {
    hide IsPythonSpace;
    if !IsPythonSpace(s[0]) && !IsPythonSpace(s[|s| - 1]) {
      Unpadded(s);
    }
  }

  /** Shortening a name does not touch the start of a version. */
  lemma ShortenedBare(s: string, pre: Prerelease)
    ensures Bare(Shortened(s, pre)) <==> Bare(s)
  {
    hide Bare, BeforeName, Digits;
    if BeforeName(s, pre).Some? {
      var base, number := BeforeName(s, pre).value, Digits(s);
      NameEnds(s, pre);
      BareByBase(base, "-" + Name(pre), Short(pre), number);
      BareByBase(base, "-" + Name(pre) + ".", Short(pre), number);
    }
  }

  lemma NamelessExactly(bare: string)
    ensures Nameless(Shortened(Shortened(Shortened(bare, Alpha), Beta), Candidate))
            <==> && (BeforeName(bare, Alpha).Some? ==> !EndsWith(BeforeName(bare, Alpha).value, "-alph"))
                 && (BeforeName(bare, Candidate).Some? ==> !EndsWith(BeforeName(bare, Candidate).value, "-"))
  {
    hide BeforeName, EndsWith, Digits, Name, Short;
    forall pre: Prerelease, other: Prerelease | BeforeName(bare, pre).Some? && BeforeName(bare, other).Some?
      ensures pre == other
    {
      OneName(bare, pre, other);
    }
    if pre: Prerelease :| BeforeName(bare, pre).Some? {
      NameEnds(bare, pre);
      var base, number := BeforeName(bare, pre).value, Digits(bare);
      ShortenedOnce(base, pre, number);
    }
  }

  lemma ShortenedOnce(base: string, pre: Prerelease, number: string)
    requires IsDigits(number)
    ensures var s := base + Short(pre) + number;
            && (pre.Alpha? ==> (Nameless(Shortened(Shortened(s, Beta), Candidate)) <==> !EndsWith(base, "-alph")))
            && (pre.Beta? ==> Nameless(Shortened(s, Candidate)))
            && (pre.Candidate? ==> (Nameless(s) <==> !EndsWith(base, "-")))
  {
    hide BeforeName, EndsWith, Digits, Name, Short;
    var s := base + Short(pre) + number;
    ShortenedAgain(base, pre, number, Alpha);
    ShortenedAgain(base, pre, number, Beta);
    ShortenedAgain(base, pre, number, Candidate);
    if pre.Alpha? && EndsWith(base, "-bet") {
      var shorter := BeforeName(s, Beta).value;
      EndsWithLast(base, "-bet");
      EndsWithLast(base, "-alph");
      ShortenedAgain(shorter, Beta, number, Alpha);
      ShortenedAgain(shorter, Beta, number, Beta);
      ShortenedAgain(shorter, Beta, number, Candidate);
    }
  }

  /** A release version normalises back to the normal form of the version it was made from,
      exactly for the versions without such an ambiguity. */
  lemma ReleaseRoundTripExactly(version: string)
    ensures Normalized(ReleaseVersion(version)) == Normalized(version) <==> Unambiguous(version)
  {
    hide BeforeName, Shortened, EndsWith, StartsWith, Strip, ReleaseVersion, WithoutPrefix;
    var bare := WithoutPrefix(Strip(version));
    RoundTripIfSettled(version);
    ShortenedBare(bare, Alpha);
    ShortenedBare(Shortened(bare, Alpha), Beta);
    ShortenedBare(Shortened(Shortened(bare, Alpha), Beta), Candidate);
    NamelessExactly(bare);
  }

  /** A doubled prefix, of either kind, loses one prefix at each pass. */
  lemma DoubledPrefixUnsettled(outer: string, inner: string, number: string)
    requires outer in {"v", "rust-v"} && inner in {"v", "rust-v"} && IsDigits(number)
    ensures Normalized(outer + (inner + number)) == inner + number
    ensures Normalized(ReleaseVersion(outer + (inner + number))) == number
  {
    ShortText(outer, inner, number);
    ShortText(inner, "", number);
    assert "" + number == number;
  }

  /** Nothing is left to shorten in a number behind at most one prefix, and another prefix in
      front of it is removed. */
  lemma ShortText(outer: string, inner: string, number: string)
    requires outer in {"v", "rust-v"} && inner in {"", "v", "rust-v"} && IsDigits(number)
    ensures Normalized(outer + (inner + number)) == inner + number
    ensures PrereleaseOf(inner + number).None?
  {
    hide EndsWith, StartsWith, Strip, WithoutPrefix, IsBase;
    OuterStripped(outer, inner, number);
    DigitCountOf(inner, number);
    PrefixEnds(inner);
  }

  lemma OuterStripped(outer: string, inner: string, number: string)
    requires outer in {"v", "rust-v"} && inner in {"", "v", "rust-v"} && IsDigits(number)
    ensures WithoutPrefix(Strip(outer + (inner + number))) == inner + number
  {
    hide Strip;
    var s, bare := outer + (inner + number), inner + number;
    assert s[|s| - 1] == number[|number| - 1] && s[|outer|..] == bare && s[..|outer|] == outer;
    StartsWithFirst(s, "rust-v");
    Unpadded(s);
  }

  lemma PrefixEnds(inner: string)
    requires inner in {"", "v", "rust-v"}
    ensures !EndsWith(inner, "a") && !EndsWith(inner, "b") && !EndsWith(inner, "rc")
    ensures forall pre: Prerelease :: !EndsWith(inner, "-" + Name(pre)) && !EndsWith(inner, "-" + Name(pre) + ".")
  {
    EndsWithLast(inner, "a");
    EndsWithLast(inner, "b");
    EndsWithLast(inner, "rc");
    forall pre: Prerelease
      ensures !EndsWith(inner, "-" + Name(pre)) && !EndsWith(inner, "-" + Name(pre) + ".")
    {
      EndsWithLast(inner, "-" + Name(pre));
      EndsWithLast(inner, "-" + Name(pre) + ".");
    }
  }

  lemma PythonTrimmingDiffers(c: char)
    ensures IsPythonSpace(c) != IsWhiteSpace(c) <==> 0x1C <= c as int <= 0x1F
  {
  }
}
