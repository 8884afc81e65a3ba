/** The argument wrapper of the comment linter: arguments before the first separator go to the
    linter, those after it to cargo, and missing defaults are filled in. */
module WrapperArgs {
  import opened Text

  const SEPARATOR := "--"

  datatype Flags = Flags(
    manifestPath: bool,
    packageSelection: bool,
    noDeps: bool,
    librarySelection: bool,
    fix: bool)

  datatype Parsed = Parsed(lintArgs: seq<string>, cargoArgs: seq<string>, flags: Flags, cargoTargetSelection: bool)

  /** What the next argument is the value of. */
  datatype Awaited = Nothing | ManifestPath | PackageSelection | LibrarySelection

  const NO_FLAGS := Flags(false, false, false, false, false)

  predicate SelectsTarget(arg: string) {
    || arg in {"--all-targets", "--lib", "--bins", "--tests", "--examples", "--benches", "--doc"}
    || arg in {"--bin", "--test", "--example", "--bench"}
    || StartsWith(arg, "--bin=") || StartsWith(arg, "--test=") || StartsWith(arg, "--example=")
    || StartsWith(arg, "--bench=")
  }

  /** The flag an argument sets when it is the value of another. */
  function ValueFlag(awaited: Awaited): Flags {
    NO_FLAGS.(manifestPath := awaited.ManifestPath?,
              packageSelection := awaited.PackageSelection?,
              librarySelection := awaited.LibrarySelection?)
  }

  /** The flag an argument sets by itself, and the value it asks for. */
  function OptionFlag(arg: string): (Flags, Awaited) {
    if arg == "--manifest-path" then (NO_FLAGS, ManifestPath)
    else if StartsWith(arg, "--manifest-path=") then (NO_FLAGS.(manifestPath := true), Nothing)
    else if arg == "-p" || arg == "--package" then (NO_FLAGS, PackageSelection)
    else if StartsWith(arg, "--package=") then (NO_FLAGS.(packageSelection := true), Nothing)
    else if arg == "--fix" then (NO_FLAGS.(fix := true), Nothing)
    else if arg == "--workspace" then (NO_FLAGS.(packageSelection := true), Nothing)
    else if arg == "--no-deps" then (NO_FLAGS.(noDeps := true), Nothing)
    else if arg == "--lib" || arg == "--lib-path" then (NO_FLAGS, LibrarySelection)
    else if StartsWith(arg, "--lib=") || StartsWith(arg, "--lib-path=") then
      (NO_FLAGS.(librarySelection := true), Nothing)
    else (NO_FLAGS, Nothing)
  }

  function Or(a: Flags, b: Flags): Flags {
    Flags(a.manifestPath || b.manifestPath, a.packageSelection || b.packageSelection, a.noDeps || b.noDeps,
          a.librarySelection || b.librarySelection, a.fix || b.fix)
  }

  function Scan(args: seq<string>, awaited: Awaited): (Flags, Awaited) {
    if args == [] then (NO_FLAGS, awaited)
    else
      var (flag, next) := if awaited.Nothing? then OptionFlag(args[0]) else (ValueFlag(awaited), Nothing);
      var (flags, last) := Scan(args[1..], next);
      (Or(flag, flags), last)
  }

  function LintPart(argv: seq<string>): seq<string> {
    if argv == [] || argv[0] == SEPARATOR then [] else [argv[0]] + LintPart(argv[1..])
  }

  function CargoPart(argv: seq<string>): seq<string> {
    if argv == [] then [] else if argv[0] == SEPARATOR then argv[1..] else CargoPart(argv[1..])
  }

  predicate AnySelectsTarget(args: seq<string>) { exists i :: 0 <= i < |args| && SelectsTarget(args[i]) }

  function Parse(argv: seq<string>): Parsed {
    Parsed(LintPart(argv), CargoPart(argv), Scan(LintPart(argv), Nothing).0, AnySelectsTarget(CargoPart(argv)))
  }

  method ParseWrapperArgs(argv: seq<string>) returns (parsed: Parsed)
    ensures parsed == Parse(argv)
  {
    hide OptionFlag, ValueFlag, SelectsTarget, AnySelectsTarget, Scan, Or;
    ScanNone();
    parsed := Parsed([], [], NO_FLAGS, false);
    var afterSeparator, awaited := false, Nothing;
    for i := 0 to |argv|
      invariant afterSeparator ==>
                  && parsed.lintArgs == LintPart(argv) && parsed.flags == Scan(LintPart(argv), Nothing).0
                  && parsed.cargoArgs + argv[i..] == CargoPart(argv)
      invariant !afterSeparator ==>
                  && parsed.lintArgs == argv[..i] && parsed.cargoArgs == []
                  && LintPart(argv) == parsed.lintArgs + LintPart(argv[i..])
                  && CargoPart(argv) == CargoPart(argv[i..])
                  && (parsed.flags, awaited) == Scan(parsed.lintArgs, Nothing)
      invariant parsed.cargoTargetSelection <==> AnySelectsTarget(parsed.cargoArgs)
    {
      var arg := argv[i];
      assert argv[i..] == [arg] + argv[i + 1..];
      if afterSeparator {
        SelectsAlso(parsed.cargoArgs, arg);
        parsed := parsed.(cargoArgs := parsed.cargoArgs + [arg]);
        if SelectsTarget(arg) {
          parsed := parsed.(cargoTargetSelection := true);
        }
      } else if arg == SEPARATOR {
        afterSeparator := true;
      } else {
        ScanOneMore(parsed.lintArgs, arg);
        assert argv[..i + 1] == argv[..i] + [arg];
        parsed := parsed.(lintArgs := parsed.lintArgs + [arg]);
        if awaited != Nothing {
          parsed := parsed.(flags := Or(parsed.flags, ValueFlag(awaited)));
          awaited := Nothing;
        } else {
          var (flag, next) := OptionFlag(arg);
          parsed := parsed.(flags := Or(parsed.flags, flag));
          awaited := next;
        }
      }
    }
    assert argv[|argv|..] == [] && parsed.lintArgs + [] == parsed.lintArgs && parsed.cargoArgs + [] == parsed.cargoArgs;
  }

  function Prepended(flags: Flags, manifest: string): seq<string> {
    (if flags.manifestPath then [] else ["--manifest-path", manifest])
    + (if flags.packageSelection || flags.manifestPath then [] else ["--workspace"])
    + (if flags.noDeps then [] else ["--no-deps"])
  }

  function FinalCargoArgs(parsed: Parsed): seq<string> {
    parsed.cargoArgs + if parsed.flags.fix || parsed.cargoTargetSelection then [] else ["--all-targets"]
  }

  function Build(parsed: Parsed, manifest: string): seq<string> {
    var cargoArgs := FinalCargoArgs(parsed);
    Prepended(parsed.flags, manifest) + parsed.lintArgs + if cargoArgs == [] then [] else [SEPARATOR] + cargoArgs
  }

  method BuildFinalArgs(parsed: Parsed, manifest: string) returns (finalArgs: seq<string>)
    ensures finalArgs == Build(parsed, manifest)
  {
    finalArgs := [];
    var cargoArgs := parsed.cargoArgs;
    if !parsed.flags.manifestPath {
      finalArgs := finalArgs + ["--manifest-path", manifest];
    }
    if !parsed.flags.packageSelection && !parsed.flags.manifestPath {
      finalArgs := finalArgs + ["--workspace"];
    }
    if !parsed.flags.noDeps {
      finalArgs := finalArgs + ["--no-deps"];
    }
    if !parsed.flags.fix && !parsed.cargoTargetSelection {
      cargoArgs := cargoArgs + ["--all-targets"];
    }
    finalArgs := finalArgs + parsed.lintArgs;
    if cargoArgs != [] {
      finalArgs := finalArgs + [SEPARATOR] + cargoArgs;
    }
  }

  // ---------- parsing loses nothing ----------

  lemma ScanNone()
    ensures Scan([], Nothing) == (NO_FLAGS, Nothing) && !AnySelectsTarget([])
  {
  }

  lemma ScanOneMore(args: seq<string>, arg: string)
    ensures var (flags, awaited) := Scan(args, Nothing);
            var (flag, next) := if awaited.Nothing? then OptionFlag(arg) else (ValueFlag(awaited), Nothing);
            Scan(args + [arg], Nothing) == (Or(flags, flag), next)
  {
    hide OptionFlag, ValueFlag;
    ScanSplit(args, [arg], Nothing);
    assert [arg][1..] == [];
  }

  lemma SelectsAlso(args: seq<string>, arg: string)
    ensures AnySelectsTarget(args + [arg]) <==> AnySelectsTarget(args) || SelectsTarget(arg)
  {
    hide SelectsTarget;
    if SelectsTarget(arg) { assert (args + [arg])[|args|] == arg; }
    if i :| 0 <= i < |args| && SelectsTarget(args[i]) { assert (args + [arg])[i] == args[i]; }
  }

  lemma {:induction false} ScanSplit(a: seq<string>, b: seq<string>, awaited: Awaited)
    ensures var (first, next) := Scan(a, awaited);
            var (second, last) := Scan(b, next);
            Scan(a + b, awaited) == (Or(first, second), last)
  {
    hide OptionFlag, ValueFlag;
    if a == [] {
      assert a + b == b;
    } else {
      assert (a + b)[1..] == a[1..] + b;
      var next := if awaited.Nothing? then OptionFlag(a[0]).1 else Nothing;
      ScanSplit(a[1..], b, next);
    }
  }

  /** With the separator put back, the two parts are the whole command line. */
  lemma {:induction false} PartsReconstruct(argv: seq<string>)
    ensures argv == LintPart(argv) + if SEPARATOR in argv then [SEPARATOR] + CargoPart(argv) else []
    ensures SEPARATOR !in LintPart(argv)
    ensures SEPARATOR !in argv ==> CargoPart(argv) == []
  {
    if argv != [] && argv[0] != SEPARATOR {
      PartsReconstruct(argv[1..]);
    }
  }

  lemma {:induction false} PartsOfJoined(lint: seq<string>, rest: seq<string>)
    requires SEPARATOR !in lint
    ensures LintPart(lint + rest) == lint + LintPart(rest) && CargoPart(lint + rest) == CargoPart(rest)
  {
    if lint == [] {
      assert lint + rest == rest;
    } else {
      assert (lint + rest)[1..] == lint[1..] + rest;
      PartsOfJoined(lint[1..], rest);
    }
  }

  // ---------- which defaults are added ----------

  predicate TakesValue(arg: string) { arg in {"--manifest-path", "-p", "--package", "--lib", "--lib-path"} }

  /** The argument is read for itself and not as the value of the one before it. */
  predicate Free(args: seq<string>, i: nat)
    requires i < |args|
  {
    i == 0 || !(Free(args, i - 1) && TakesValue(args[i - 1]))
  }

  predicate ManifestAt(args: seq<string>, i: nat)
    requires i < |args|
  {
    || (Free(args, i) && StartsWith(args[i], "--manifest-path="))
    || (i > 0 && Free(args, i - 1) && args[i - 1] == "--manifest-path")
  }

  predicate PackageAt(args: seq<string>, i: nat)
    requires i < |args|
  {
    || (Free(args, i) && (args[i] == "--workspace" || StartsWith(args[i], "--package=")))
    || (i > 0 && Free(args, i - 1) && (args[i - 1] == "-p" || args[i - 1] == "--package"))
  }

  predicate LibraryAt(args: seq<string>, i: nat)
    requires i < |args|
  {
    || (Free(args, i) && (StartsWith(args[i], "--lib=") || StartsWith(args[i], "--lib-path=")))
    || (i > 0 && Free(args, i - 1) && (args[i - 1] == "--lib" || args[i - 1] == "--lib-path"))
  }

  predicate HasManifest(args: seq<string>) { exists i :: 0 <= i < |args| && ManifestAt(args, i) }

  predicate HasPackage(args: seq<string>) { exists i :: 0 <= i < |args| && PackageAt(args, i) }

  predicate HasLibrary(args: seq<string>) { exists i :: 0 <= i < |args| && LibraryAt(args, i) }

  predicate HasFree(args: seq<string>, arg: string) { exists i :: 0 <= i < |args| && Free(args, i) && args[i] == arg }

  /** What the scan finds, position by position; an option left without its value sets nothing,
      and a flag that stands for a value is no flag. */
  lemma {:induction false} ScanExactly(args: seq<string>)
    ensures var (flags, awaited) := Scan(args, Nothing);
            && (flags.manifestPath <==> HasManifest(args))
            && (flags.packageSelection <==> HasPackage(args))
            && (flags.librarySelection <==> HasLibrary(args))
            && (flags.noDeps <==> HasFree(args, "--no-deps"))
            && (flags.fix <==> HasFree(args, "--fix"))
            && awaited == AwaitedAfter(args)
  {
    hide OptionFlag, ValueFlag, AwaitedAfter, HasManifest, HasPackage, HasLibrary, HasFree;
    if args == [] {
      NothingFound();
    } else {
      var init, arg := args[..|args| - 1], args[|args| - 1];
      assert args == init + [arg];
      ScanExactly(init);
      ScanOneMore(init, arg);
      LastAwaited(init, arg);
      FoundManifest(init, arg);
      FoundPackage(init, arg);
      FoundLibrary(init, arg);
      FoundFree(init, arg, "--no-deps");
      FoundFree(init, arg, "--fix");
      LastFlag(init, arg);
    }
  }

  function AwaitedAfter(args: seq<string>): Awaited {
    if args == [] || !Free(args, |args| - 1) then Nothing
    else
      var last := args[|args| - 1];
      if last == "--manifest-path" then ManifestPath
      else if last == "-p" || last == "--package" then PackageSelection
      else if last == "--lib" || last == "--lib-path" then LibrarySelection
      else Nothing
  }

  lemma NothingFound()
    ensures Scan([], Nothing) == (NO_FLAGS, Nothing) && AwaitedAfter([]) == Nothing
    ensures !HasManifest([]) && !HasPackage([]) && !HasLibrary([])
    ensures forall arg: string :: !HasFree([], arg)
  {
  }

  lemma {:induction false} FreeOfMore(args: seq<string>, arg: string, i: nat)
    requires i < |args|
    ensures Free(args + [arg], i) <==> Free(args, i)
  {
    if i > 0 { FreeOfMore(args, arg, i - 1); }
  }

  lemma LastFree(init: seq<string>, arg: string)
    ensures Free(init + [arg], |init|) <==> AwaitedAfter(init) == Nothing
  {
    if init != [] {
      FreeOfMore(init, arg, |init| - 1);
      assert (init + [arg])[|init| - 1] == init[|init| - 1];
    }
  }

  lemma LastAwaited(init: seq<string>, arg: string)
    ensures AwaitedAfter(init + [arg]) == if AwaitedAfter(init) == Nothing then OptionFlag(arg).1 else Nothing
  {
    hide OptionFlag, Free;
    LastFree(init, arg);
    AwaitedByOption(arg);
    assert (init + [arg])[|init|] == arg;
  }

  lemma AwaitedByOption(arg: string)
    ensures OptionFlag(arg).1
         == if arg == "--manifest-path" then ManifestPath
            else if arg == "-p" || arg == "--package" then PackageSelection
            else if arg == "--lib" || arg == "--lib-path" then LibrarySelection
            else Nothing
  {
    PrefixLonger(arg, "--manifest-path=");
    PrefixLonger(arg, "--package=");
  }

  lemma PrefixLonger(arg: string, prefix: string)
    requires |prefix| >= 1 && prefix[|prefix| - 1] == '='
    ensures StartsWith(arg, prefix) ==> |arg| >= |prefix| && arg[|prefix| - 1] == '='
  {
    if StartsWith(arg, prefix) {
      assert arg[..|prefix|][|prefix| - 1] == '=';
    }
  }

  /** The last argument sets, by itself or as a value, what the scan makes of it. */
  lemma LastFlag(init: seq<string>, arg: string)
    ensures var args, k := init + [arg], |init|;
            var flag := if AwaitedAfter(init) == Nothing then OptionFlag(arg).0 else ValueFlag(AwaitedAfter(init));
            && (flag.manifestPath <==> ManifestAt(args, k))
            && (flag.packageSelection <==> PackageAt(args, k))
            && (flag.librarySelection <==> LibraryAt(args, k))
            && (flag.noDeps <==> Free(args, k) && arg == "--no-deps")
            && (flag.fix <==> Free(args, k) && arg == "--fix")
  {
    hide AwaitedAfter, OptionFlag, Free;
    LastFree(init, arg);
    AwaitedMeans(init);
    if init != [] {
      FreeOfMore(init, arg, |init| - 1);
    }
    OptionSets(arg);
  }

  lemma AwaitedMeans(args: seq<string>)
    ensures AwaitedAfter(args) == ManifestPath
            <==> args != [] && Free(args, |args| - 1) && args[|args| - 1] == "--manifest-path"
    ensures AwaitedAfter(args) == PackageSelection
            <==> args != [] && Free(args, |args| - 1) && args[|args| - 1] in {"-p", "--package"}
    ensures AwaitedAfter(args) == LibrarySelection
            <==> args != [] && Free(args, |args| - 1) && args[|args| - 1] in {"--lib", "--lib-path"}
  {
  }

  lemma OptionSets(arg: string)
    ensures var flag := OptionFlag(arg).0;
            && (flag.manifestPath <==> StartsWith(arg, "--manifest-path="))
            && (flag.packageSelection <==> arg == "--workspace" || StartsWith(arg, "--package="))
            && (flag.librarySelection <==> StartsWith(arg, "--lib=") || StartsWith(arg, "--lib-path="))
            && (flag.noDeps <==> arg == "--no-deps")
            && (flag.fix <==> arg == "--fix")
  {
    hide StartsWith;
    var prefixes := ["--manifest-path=", "--package=", "--lib=", "--lib-path="];
    forall i | 0 <= i < 4
      ensures StartsWith(arg, prefixes[i]) ==>
                && |arg| >= |prefixes[i]| && arg[|prefixes[i]| - 1] == '='
                && arg[2] == prefixes[i][2] && arg[3] == prefixes[i][3]
    {
      PrefixLonger(arg, prefixes[i]);
      PrefixStart(arg, prefixes[i]);
    }
    assert prefixes[0] == "--manifest-path=" && prefixes[1] == "--package="
        && prefixes[2] == "--lib=" && prefixes[3] == "--lib-path=";
  }

  lemma PrefixStart(arg: string, prefix: string)
    requires |prefix| >= 6
    ensures StartsWith(arg, prefix) ==> |arg| >= 6 && arg[2] == prefix[2] && arg[3] == prefix[3] && arg[5] == prefix[5]
  {
    if StartsWith(arg, prefix) {
      assert arg[..|prefix|][2] == arg[2] && arg[..|prefix|][3] == arg[3] && arg[..|prefix|][5] == arg[5];
    }
  }

  lemma FoundManifest(init: seq<string>, arg: string)
    ensures HasManifest(init + [arg]) <==> HasManifest(init) || ManifestAt(init + [arg], |init|)
  {
    forall i | 0 <= i < |init| ensures ManifestAt(init + [arg], i) <==> ManifestAt(init, i) {
      FreeOfMore(init, arg, i);
      if i > 0 { FreeOfMore(init, arg, i - 1); }
    }
  }

  lemma FoundPackage(init: seq<string>, arg: string)
    ensures HasPackage(init + [arg]) <==> HasPackage(init) || PackageAt(init + [arg], |init|)
  {
    forall i | 0 <= i < |init| ensures PackageAt(init + [arg], i) <==> PackageAt(init, i) {
      FreeOfMore(init, arg, i);
      if i > 0 { FreeOfMore(init, arg, i - 1); }
    }
  }

  lemma FoundLibrary(init: seq<string>, arg: string)
    ensures HasLibrary(init + [arg]) <==> HasLibrary(init) || LibraryAt(init + [arg], |init|)
  {
    forall i | 0 <= i < |init| ensures LibraryAt(init + [arg], i) <==> LibraryAt(init, i) {
      FreeOfMore(init, arg, i);
      if i > 0 { FreeOfMore(init, arg, i - 1); }
    }
  }

  lemma FoundFree(init: seq<string>, arg: string, name: string)
    ensures HasFree(init + [arg], name) <==> HasFree(init, name) || (Free(init + [arg], |init|) && arg == name)
  {
    hide Free;
    var args := init + [arg];
    forall i | 0 <= i < |init| ensures (Free(args, i) <==> Free(init, i)) && args[i] == init[i] {
      FreeOfMore(init, arg, i);
    }
    assert args[|init|] == arg;
  }

  /** Cargo is told what to build, by a name alone, or by a name with a value in either form. */
  ghost predicate NamesTarget(arg: string) {
    || (exists name :: name in {"all-targets", "lib", "bins", "tests", "examples", "benches", "doc"}
                       && arg == "--" + name)
    || (exists name :: name in {"bin", "test", "example", "bench"}
                       && (arg == "--" + name || StartsWith(arg, "--" + name + "=")))
  }

  lemma TargetsNamed(arg: string)
    ensures SelectsTarget(arg) <==> NamesTarget(arg)
  {
    hide StartsWith;
    assert "--" + "all-targets" == "--all-targets" && "--" + "lib" == "--lib" && "--" + "bins" == "--bins"
        && "--" + "tests" == "--tests" && "--" + "examples" == "--examples" && "--" + "benches" == "--benches"
        && "--" + "doc" == "--doc";
    assert "--" + "bin" == "--bin" && "--" + "test" == "--test" && "--" + "example" == "--example"
        && "--" + "bench" == "--bench";
    assert "--" + "bin" + "=" == "--bin=" && "--" + "test" + "=" == "--test=" && "--" + "example" + "=" == "--example="
        && "--" + "bench" + "=" == "--bench=";
  }

  /** The whole command line that is run: each default is there exactly if the linter arguments
      do not settle it, and all targets exactly if nothing is fixed and no target is named. */
  lemma DefaultsExactly(argv: seq<string>, manifest: string)
    ensures var lint, cargo := LintPart(argv), CargoPart(argv);
            var added := if HasFree(lint, "--fix") || exists i :: 0 <= i < |cargo| && NamesTarget(cargo[i])
                         then cargo else cargo + ["--all-targets"];
            Build(Parse(argv), manifest)
            == (if HasManifest(lint) then [] else ["--manifest-path", manifest])
               + (if HasPackage(lint) || HasManifest(lint) then [] else ["--workspace"])
               + (if HasFree(lint, "--no-deps") then [] else ["--no-deps"])
               + lint
               + (if added == [] then [] else ["--"] + added)
  {
    hide Scan, LintPart, CargoPart, SelectsTarget, NamesTarget, HasFree, HasManifest, HasPackage, HasLibrary;
    ScanExactly(LintPart(argv));
    var cargo := CargoPart(argv);
    forall i | 0 <= i < |cargo| ensures SelectsTarget(cargo[i]) <==> NamesTarget(cargo[i]) {
      TargetsNamed(cargo[i]);
    }
  }

  // ---------- building is a projection ----------

  lemma ScanPrepended(flags: Flags, manifest: string)
    ensures var (scanned, last) := Scan(Prepended(flags, manifest), Nothing);
            && last == Nothing && !scanned.fix && !scanned.librarySelection
            && scanned.manifestPath == !flags.manifestPath
            && scanned.packageSelection == !(flags.packageSelection || flags.manifestPath)
            && scanned.noDeps == !flags.noDeps
  {
    var manifestArgs := if flags.manifestPath then [] else ["--manifest-path", manifest];
    var workspace := if flags.packageSelection || flags.manifestPath then [] else ["--workspace"];
    var noDeps := if flags.noDeps then [] else ["--no-deps"];
    ScanSplit(manifestArgs + workspace, noDeps, Nothing);
    ScanSplit(manifestArgs, workspace, Nothing);
    ScanDefaults(manifest);
  }

  lemma ScanDefaults(manifest: string)
    ensures Scan(["--manifest-path", manifest], Nothing) == (NO_FLAGS.(manifestPath := true), Nothing)
    ensures Scan(["--workspace"], Nothing) == (NO_FLAGS.(packageSelection := true), Nothing)
    ensures Scan(["--no-deps"], Nothing) == (NO_FLAGS.(noDeps := true), Nothing)
  {
    OptionFlags();
    ScanOneMore([], "--manifest-path");
    ScanOneMore(["--manifest-path"], manifest);
    ScanOneMore([], "--workspace");
    ScanOneMore([], "--no-deps");
    assert [] + ["--manifest-path"] == ["--manifest-path"] && [] + ["--workspace"] == ["--workspace"]
        && [] + ["--no-deps"] == ["--no-deps"] && ["--manifest-path"] + [manifest] == ["--manifest-path", manifest];
  }

  lemma OptionFlags()
    ensures OptionFlag("--manifest-path") == (NO_FLAGS, ManifestPath)
    ensures OptionFlag("--workspace") == (NO_FLAGS.(packageSelection := true), Nothing)
    ensures OptionFlag("--no-deps") == (NO_FLAGS.(noDeps := true), Nothing)
  {
  }

  /** A manifest path that is not itself the separator survives being parsed again. */
  predicate SafeManifest(parsed: Parsed, manifest: string) { parsed.flags.manifestPath || manifest != SEPARATOR }

  /** Parsing the built arguments finds the same arguments, now with every default present. */
  lemma ReparsedBuild(argv: seq<string>, manifest: string)
    requires SafeManifest(Parse(argv), manifest)
    ensures var parsed := Parse(argv);
            var again := Parse(Build(parsed, manifest));
            && again.lintArgs == Prepended(parsed.flags, manifest) + parsed.lintArgs
            && again.cargoArgs == FinalCargoArgs(parsed)
            && again.flags.manifestPath && again.flags.noDeps
            && again.flags.fix == parsed.flags.fix
            && again.cargoTargetSelection == (parsed.cargoTargetSelection || !parsed.flags.fix)
  {
    hide OptionFlag, ValueFlag, SelectsTarget, AnySelectsTarget;
    var parsed := Parse(argv);
    var prepended, cargoArgs := Prepended(parsed.flags, manifest), FinalCargoArgs(parsed);
    var lint := prepended + parsed.lintArgs;
    var rest := if cargoArgs == [] then [] else [SEPARATOR] + cargoArgs;
    PartsReconstruct(argv);
    assert SEPARATOR !in lint;
    PartsOfJoined(lint, rest);
    assert Build(parsed, manifest) == lint + rest && lint + [] == lint;
    if cargoArgs != [] {
      assert rest[1..] == cargoArgs;
    }
    assert LintPart(rest) == [] && CargoPart(rest) == cargoArgs;
    ScanSplit(prepended, parsed.lintArgs, Nothing);
    ScanPrepended(parsed.flags, manifest);
    FinalArgsSelect(parsed);
    var again := Parse(Build(parsed, manifest));
    assert again.lintArgs == lint;
    assert again.cargoArgs == cargoArgs;
    assert again.flags == Or(Scan(prepended, Nothing).0, parsed.flags);
  }

  lemma FinalArgsSelect(parsed: Parsed)
    requires parsed.cargoTargetSelection <==> AnySelectsTarget(parsed.cargoArgs)
    ensures AnySelectsTarget(FinalCargoArgs(parsed)) <==> parsed.cargoTargetSelection || !parsed.flags.fix
  {
    hide AnySelectsTarget;
    SelectsAlso(parsed.cargoArgs, "--all-targets");
    assert parsed.cargoArgs + [] == parsed.cargoArgs;
  }

  /** Normalising twice is normalising once, for every command line, exactly when the manifest
      path cannot be mistaken for the separator. */
  lemma NormalisationIdempotentExactly(argv: seq<string>, manifest: string)
    ensures var once := Build(Parse(argv), manifest);
            Build(Parse(once), manifest) == once <==> SafeManifest(Parse(argv), manifest)
  {
    var parsed := Parse(argv);
    var once := Build(parsed, manifest);
    if SafeManifest(parsed, manifest) {
      ReparsedBuild(argv, manifest);
    } else {
      MistakenManifest(once, manifest);
    }
  }

  /** Otherwise everything after the manifest option moves to cargo, and the result grows. */
  lemma MistakenManifest(once: seq<string>, manifest: string)
    requires manifest == SEPARATOR && |once| >= 2 && once[0] == "--manifest-path" && once[1] == SEPARATOR
    ensures |Build(Parse(once), manifest)| > |once|
  {
    hide OptionFlag, ValueFlag, SelectsTarget;
    assert once == [once[0]] + once[1..] && once[1..] == [SEPARATOR] + once[2..];
    assert LintPart(once[1..]) == [] && CargoPart(once[1..]) == once[2..];
    assert LintPart(once) == ["--manifest-path"] && CargoPart(once) == once[2..];
    OptionFlags();
    ScanOneMore([], "--manifest-path");
    assert [] + ["--manifest-path"] == ["--manifest-path"];
    assert Scan(["--manifest-path"], Nothing).0 == NO_FLAGS;
  }
}
