/**
 The records of the OS detector and its three platform gatherers (Windows, Linux,
 macOS). Every external query a gatherer makes (a command it launches or the file it
 reads) is an input: a `Host` says what each query yields, either the captured
 standard output as text or the text of the I/O error. A gatherer answers with its
 result and the queries it made, in order.
 */
module OsDetect {
  import opened Prelude
  import opened RustStr

  /** The error kinds of `OsDetectorError`. */
  datatype OsDetectorError =
    | CommandFailed(detail: string)
    | UnsupportedOs(tag: string)
    | ParseError(detail: string)

  /** What the detector reports about the operating system. */
  datatype OsInfo = OsInfo(
    name: string,
    version: string,
    architecture: string,
    additionalInfo: Option<string>)

  /** The supported platform families. */
  datatype Platform = Windows | Linux | MacOs

  /** The external queries the gatherers make. */
  datatype Query =
    | CmdVer                 // cmd /C ver
    | CmdSystemInfo          // cmd /C systeminfo
    | ReadOsRelease          // read /etc/os-release
    | UnameR                 // uname -r
    | SwVersProductVersion   // sw_vers -productVersion
    | SwVersBuildVersion     // sw_vers -buildVersion

  /**
   The environment a detection runs in: the platform tag and architecture the program
   was built for, and the outcome of every external query (stdout text, or the error
   the launch or the read failed with).
   */
  datatype Host = Host(os: string, arch: string, run: Query -> Result<string, string>)

  /** A gatherer's answer together with the queries it made, in the order made. */
  datatype Gathered<T> = Gathered(result: Result<T, OsDetectorError>, queries: seq<Query>)

  /** The platform a query belongs to. */
  function QueryPlatform(q: Query): Platform {
    match q
    case CmdVer | CmdSystemInfo => Windows
    case ReadOsRelease | UnameR => Linux
    case SwVersProductVersion | SwVersBuildVersion => MacOs
  }

  /** The two queries a platform's gatherer makes, in order. */
  datatype Plan = Plan(first: Query, second: Query)

  /** Each platform's plan; the queries of a plan belong to its platform. */
  function PlanOf(p: Platform): (plan: Plan)
    ensures QueryPlatform(plan.first) == p && QueryPlatform(plan.second) == p
    ensures plan.first != plan.second
  {
    match p
    case Windows => Plan(CmdVer, CmdSystemInfo)
    case Linux => Plan(ReadOsRelease, UnameR)
    case MacOs => Plan(SwVersProductVersion, SwVersBuildVersion)
  }

  /**
   Whether a gatherer goes on to its second query once the first produced `out`:
   always on Linux and macOS; on Windows only when `ver` printed a first line.
   */
  predicate Proceeds(p: Platform, out: string) {
    p != Windows || out != []
  }

  /**
   The discipline all three gatherers follow: they make the first query of their
   plan, make the second exactly when the first succeeded and its output lets them
   proceed, report a failed query as `CommandFailed` carrying that failure's text and
   stop there, succeed exactly when both queries were made and succeeded, and never
   report `UnsupportedOs`.
   */
  predicate Attempted<T>(p: Platform, host: Host, g: Gathered<T>) {
    var plan := PlanOf(p);
    var first := host.run(plan.first);
    var second := host.run(plan.second);
    && (g.queries == [plan.first] || g.queries == [plan.first, plan.second])
    && (first.Ok? ==> (|g.queries| == 2 <==> Proceeds(p, first.value)))
    && (first.Ok? && Proceeds(p, first.value) && second.Ok? ==> g.result.Ok?)
    && (first.Err? ==> g == Gathered(Err(CommandFailed(first.error)), [plan.first]))
    && (|g.queries| == 2 && second.Err? ==> g.result == Err(CommandFailed(second.error)))
    && (g.result.Ok? ==> |g.queries| == 2 && first.Ok? && second.Ok?)
    && (g.result.Err? ==> !g.result.error.UnsupportedOs?)
  }

  /** A gatherer following the discipline starts with its plan's first query and queries nothing outside its platform. */
  lemma AttemptedQueriesOwnPlatform<T>(p: Platform, host: Host, g: Gathered<T>)
    requires Attempted(p, host, g)
    ensures g.queries != [] && g.queries[0] == PlanOf(p).first
    ensures forall k :: 0 <= k < |g.queries| ==> QueryPlatform(g.queries[k]) == p
  {
  }

  // ---------------------------------------------------------------------------
  // Linux: scanning /etc/os-release

  /** The two fields the Linux scan fills in. */
  datatype Release = Release(name: string, version: string)

  /** The keys the Linux scan looks for. */
  datatype Field = Name | Version

  /** The line prefix that selects a field. */
  function Key(f: Field): string {
    match f
    case Name => "NAME="
    case Version => "VERSION="
  }

  /** The value a field currently holds. */
  function Get(r: Release, f: Field): string {
    match f
    case Name => r.name
    case Version => r.version
  }

  /**
   The value kept from a matching line: the text between its first and second `=`
   (or `"Unknown"` if there is no `=`), with every leading and trailing `"` removed.
   */
  function FieldValue(line: string): (v: string)
    ensures v != [] ==> v[0] != '"' && v[|v| - 1] != '"'
  {
    TrimMatches(SplitSecond(line, '=').UnwrapOr("Unknown"), Char('"'))
  }

  /** One step of the scan: a `NAME=` line sets the name, else a `VERSION=` line sets the version. */
  function ScanLine(acc: Release, line: string): Release {
    if StartsWith(line, "NAME=") then acc.(name := FieldValue(line))
    else if StartsWith(line, "VERSION=") then acc.(version := FieldValue(line))
    else acc
  }

  /** The scan over `lines`, from the first line to the last, starting from `acc`. */
  function ScanLines(acc: Release, lines: seq<string>): Release
    decreases |lines|
  {
    if lines == [] then acc else ScanLines(ScanLine(acc, lines[0]), lines[1..])
  }

  /** Name and version read from the text of /etc/os-release; both start out empty. */
  function ScanOsRelease(text: string): Release {
    ScanLines(Release("", ""), Lines(text))
  }

  /** A line updates a field exactly when it starts with that field's key; the other field is kept. */
  lemma ScanLineField(acc: Release, line: string, f: Field)
    ensures Get(ScanLine(acc, line), f)
         == if StartsWith(line, Key(f)) then FieldValue(line) else Get(acc, f)
  {
  }

  /** The two keys exclude each other: they differ in their first character. */
  lemma VersionLineIsNotNameLine(line: string)
    requires StartsWith(line, "VERSION=")
    ensures !StartsWith(line, "NAME=")
  {
    assert line[0] == "VERSION="[0];
  }

  /** Lines without a field's key leave that field as it was. */
  lemma {:induction false} ScanKeepsUnmatched(acc: Release, lines: seq<string>, f: Field)
    requires forall j :: 0 <= j < |lines| ==> !StartsWith(lines[j], Key(f))
    ensures Get(ScanLines(acc, lines), f) == Get(acc, f)
    decreases |lines|
  {
    if lines != [] {
      ScanLineField(acc, lines[0], f);
      ScanKeepsUnmatched(ScanLine(acc, lines[0]), lines[1..], f);
    }
  }

  /** The last line carrying a field's key decides that field. */
  lemma {:induction false} ScanLastMatchWins(acc: Release, lines: seq<string>, f: Field, k: nat)
    requires k < |lines| && StartsWith(lines[k], Key(f))
    requires forall j :: k < j < |lines| ==> !StartsWith(lines[j], Key(f))
    ensures Get(ScanLines(acc, lines), f) == FieldValue(lines[k])
    decreases |lines|
  {
    ScanLineField(acc, lines[0], f);
    if k == 0 {
      ScanKeepsUnmatched(ScanLine(acc, lines[0]), lines[1..], f);
    } else {
      ScanLastMatchWins(ScanLine(acc, lines[0]), lines[1..], f, k - 1);
    }
  }

  /** Without a `NAME=` line the name stays empty; without a `VERSION=` line so does the version. */
  lemma OsReleaseWithoutKey(text: string, f: Field)
    requires forall j :: 0 <= j < |Lines(text)| ==> !StartsWith(Lines(text)[j], Key(f))
    ensures Get(ScanOsRelease(text), f) == ""
  {
    ScanKeepsUnmatched(Release("", ""), Lines(text), f);
  }

  /** The last line of the os-release text that carries a field's key decides that field. */
  lemma OsReleaseLastKeyedLine(text: string, f: Field, k: nat)
    requires k < |Lines(text)| && StartsWith(Lines(text)[k], Key(f))
    requires forall j :: k < j < |Lines(text)| ==> !StartsWith(Lines(text)[j], Key(f))
    ensures Get(ScanOsRelease(text), f) == FieldValue(Lines(text)[k])
  {
    ScanLastMatchWins(Release("", ""), Lines(text), f, k);
  }

  /** Scanning one more line is one more step after the scan of the others. */
  lemma {:induction false} ScanLinesSnoc(acc: Release, lines: seq<string>, line: string)
    ensures ScanLines(acc, lines + [line]) == ScanLine(ScanLines(acc, lines), line)
    decreases |lines|
  {
    if lines == [] {
      assert lines + [line] == [line];
    } else {
      assert (lines + [line])[1..] == lines[1..] + [line];
      ScanLinesSnoc(ScanLine(acc, lines[0]), lines[1..], line);
    }
  }

  /** A line carrying neither exact key, such as `PRETTY_NAME=` or `VERSION_ID=`, changes nothing. */
  lemma ScanIgnoresOtherKeys(acc: Release, lines: seq<string>, line: string)
    requires !StartsWith(line, "NAME=") && !StartsWith(line, "VERSION=")
    ensures ScanLines(acc, lines + [line]) == ScanLines(acc, lines)
  {
    ScanLinesSnoc(acc, lines, line);
  }

  /** `PRETTY_NAME=` and `VERSION_ID=` lines are not `NAME=` or `VERSION=` lines. */
  lemma OtherKeysDoNotMatch(v: string)
    ensures !StartsWith("PRETTY_NAME=" + v, "NAME=") && !StartsWith("PRETTY_NAME=" + v, "VERSION=")
    ensures !StartsWith("VERSION_ID=" + v, "NAME=") && !StartsWith("VERSION_ID=" + v, "VERSION=")
  {
    assert ("PRETTY_NAME=" + v)[0] == 'P';
    assert ("VERSION_ID=" + v)[0] == 'V';
    assert ("VERSION_ID=" + v)[7] == '_';
  }

  /**
   A line `key=rest` whose key holds no `=` keeps the part of `rest` before its next
   `=`, quotes trimmed; the `"Unknown"` fallback is never taken for such a line.
   */
  lemma FieldValueOfKeyed(key: string, rest: string)
    requires '=' !in key
    ensures SplitSecond(key + "=" + rest, '=').Some?
    ensures FieldValue(key + "=" + rest) == TrimMatches(Split(rest, '=')[0], Char('"'))
  {
    assert key + "=" + rest == key + ['='] + rest;
    SplitSecondAfterKey(key, '=', rest);
  }

  /** The `"Unknown"` fallback of the Linux scan is unreachable: every line it reads has a second piece. */
  lemma ScanFallbackUnreachable(line: string, f: Field)
    requires StartsWith(line, Key(f))
    ensures SplitSecond(line, '=').Some?
  {
    assert line[|Key(f)| - 1] == '=';
  }

  // ---------------------------------------------------------------------------
  // Windows: version and build number

  /** Index of the first line containing `sub`, if any (`lines.find(|l| l.contains(sub))`). */
  function FindContaining(lines: seq<string>, sub: string): (r: Option<nat>)
    ensures r.None? <==> forall k :: 0 <= k < |lines| ==> !Contains(lines[k], sub)
    ensures r.Some? ==> r.value < |lines| && Contains(lines[r.value], sub)
    ensures r.Some? ==> forall k :: 0 <= k < r.value ==> !Contains(lines[k], sub)
    decreases |lines|
  {
    if lines == [] then None
    else if Contains(lines[0], sub) then Some(0)
    else match FindContaining(lines[1..], sub)
      case None => None
      case Some(k) => Some(k + 1)
  }

  /**
   The build number reported by `systeminfo`: on the first line containing
   `"OS Build"`, the text between its first and second `:` trimmed (empty when the
   line has no `:`); `"Unknown"` when no line contains `"OS Build"`.
   */
  function BuildNumber(systeminfo: string): string {
    var lines := Lines(systeminfo);
    match FindContaining(lines, "OS Build")
    case None => "Unknown"
    case Some(k) => Trim(SplitSecond(lines[k], ':').UnwrapOr(""))
  }

  /** The `additional_info` text of the Windows record. */
  function BuildLine(systeminfo: string): (r: string)
    ensures StartsWith(r, "Build: ")
  {
    "Build: " + BuildNumber(systeminfo)
  }

  /** Without an `"OS Build"` line the build is `"Unknown"`, not an error. */
  lemma BuildNumberWithoutMarker(systeminfo: string)
    requires forall k :: 0 <= k < |Lines(systeminfo)| ==> !Contains(Lines(systeminfo)[k], "OS Build")
    ensures BuildLine(systeminfo) == "Build: Unknown"
  {
  }

  /**
   When the first `"OS Build"` line is `p:v` followed by nothing or by another `:`,
   with no `:` in `p` or `v`, the build is `v` trimmed.
   */
  lemma BuildNumberOfMarkedLine(systeminfo: string, k: nat, p: string, v: string, rest: string)
    requires k < |Lines(systeminfo)| && Contains(Lines(systeminfo)[k], "OS Build")
    requires forall j :: 0 <= j < k ==> !Contains(Lines(systeminfo)[j], "OS Build")
    requires Lines(systeminfo)[k] == p + ":" + v + rest
    requires ':' !in p && ':' !in v && (rest == [] || rest[0] == ':')
    ensures BuildLine(systeminfo) == "Build: " + Trim(v)
  {
    var lines := Lines(systeminfo);
    var r := FindContaining(lines, "OS Build");
    assert r == Some(k);
    assert p + ":" + v + rest == p + [':'] + v + rest;
    SplitSecondBetween(p, ':', v, rest);
  }

  /** A marked line without `:` gives an empty build, `"Build: "`. */
  lemma BuildNumberOfLineWithoutColon(systeminfo: string, k: nat)
    requires k < |Lines(systeminfo)| && Contains(Lines(systeminfo)[k], "OS Build")
    requires forall j :: 0 <= j < k ==> !Contains(Lines(systeminfo)[j], "OS Build")
    requires ':' !in Lines(systeminfo)[k]
    ensures BuildLine(systeminfo) == "Build: "
  {
    var lines := Lines(systeminfo);
    assert FindContaining(lines, "OS Build") == Some(k);
    assert Trim("") == [];
  }

  // ---------------------------------------------------------------------------
  // The gatherers

  /** `get_windows_build_info`: runs `systeminfo` and formats its build line. */
  function WindowsBuildInfo(host: Host): (g: Gathered<string>)
    ensures g.queries == [CmdSystemInfo]
    ensures g.result.Err? <==> host.run(CmdSystemInfo).Err?
    ensures g.result.Err? ==> g.result.error == CommandFailed(host.run(CmdSystemInfo).error)
    ensures g.result.Ok? ==> StartsWith(g.result.value, "Build: ")
    ensures g.result.Ok? ==> g.result.value == BuildLine(host.run(CmdSystemInfo).value)
  {
    match host.run(CmdSystemInfo)
    case Err(e) => Gathered(Err(CommandFailed(e)), [CmdSystemInfo])
    case Ok(out) => Gathered(Ok(BuildLine(out)), [CmdSystemInfo])
  }

  /**
   `get_windows_info`: the version is the first line of `ver`'s output, the build
   line comes from `systeminfo`.
   */
  function WindowsInfo(host: Host): (g: Gathered<OsInfo>)
    ensures Attempted(Windows, host, g)
    ensures g.result.Err? && g.result.error.ParseError? <==> host.run(CmdVer) == Ok([])
    ensures g.result.Ok? ==> var info := g.result.value;
      && info.name == "Windows"
      && info.architecture == host.arch
      && host.run(CmdVer).Ok?
      && FirstLine(host.run(CmdVer).value) == Some(info.version)
      && '\n' !in info.version && info.version <= host.run(CmdVer).value
      && info.additionalInfo.Some? && StartsWith(info.additionalInfo.value, "Build: ")
      && host.run(CmdSystemInfo).Ok?
      && info.additionalInfo == Some(BuildLine(host.run(CmdSystemInfo).value))
  {
    match host.run(CmdVer)
    case Err(e) => Gathered(Err(CommandFailed(e)), [CmdVer])
    case Ok(out) =>
      match FirstLine(out)
      case None => Gathered(Err(ParseError("Unable to read Windows version")), [CmdVer])
      case Some(version) =>
        var build := WindowsBuildInfo(host);
        match build.result
        case Err(e) => Gathered(Err(e), [CmdVer] + build.queries)
        case Ok(b) => Gathered(Ok(OsInfo("Windows", version, host.arch, Some(b))), [CmdVer] + build.queries)
  }

  /**
   `get_linux_info`: name and version from /etc/os-release, the kernel release from
   `uname -r`, trimmed, as additional information even when it is empty.
   */
  function LinuxInfo(host: Host): (g: Gathered<OsInfo>)
    ensures Attempted(Linux, host, g)
    ensures g.result.Err? ==> g.result.error.CommandFailed?
    ensures g.result.Ok? ==> var info := g.result.value;
      && host.run(ReadOsRelease).Ok? && host.run(UnameR).Ok?
      && info == OsInfo(ScanOsRelease(host.run(ReadOsRelease).value).name,
                        ScanOsRelease(host.run(ReadOsRelease).value).version,
                        host.arch,
                        Some(Trim(host.run(UnameR).value)))
  {
    match host.run(ReadOsRelease)
    case Err(e) => Gathered(Err(CommandFailed(e)), [ReadOsRelease])
    case Ok(text) =>
      assert Proceeds(Linux, text);
      var release := ScanOsRelease(text);
      match host.run(UnameR)
      case Err(e) => Gathered(Err(CommandFailed(e)), [ReadOsRelease, UnameR])
      case Ok(kernel) =>
        Gathered(Ok(OsInfo(release.name, release.version, host.arch, Some(Trim(kernel)))),
                 [ReadOsRelease, UnameR])
  }

  /** `get_macos_info`: product version and build version from `sw_vers`, both trimmed. */
  function MacOsInfo(host: Host): (g: Gathered<OsInfo>)
    ensures Attempted(MacOs, host, g)
    ensures g.result.Err? ==> g.result.error.CommandFailed?
    ensures g.result.Ok? ==> var info := g.result.value;
      && host.run(SwVersProductVersion).Ok? && host.run(SwVersBuildVersion).Ok?
      && info == OsInfo("macOS",
                        Trim(host.run(SwVersProductVersion).value),
                        host.arch,
                        Some("Build: " + Trim(host.run(SwVersBuildVersion).value)))
  {
    match host.run(SwVersProductVersion)
    case Err(e) => Gathered(Err(CommandFailed(e)), [SwVersProductVersion])
    case Ok(version) =>
      assert Proceeds(MacOs, version);
      match host.run(SwVersBuildVersion)
      case Err(e) => Gathered(Err(CommandFailed(e)), [SwVersProductVersion, SwVersBuildVersion])
      case Ok(build) =>
        Gathered(Ok(OsInfo("macOS", Trim(version), host.arch, Some("Build: " + Trim(build)))),
                 [SwVersProductVersion, SwVersBuildVersion])
  }

  /** The gatherer of a platform. */
  function Gather(p: Platform, host: Host): (g: Gathered<OsInfo>)
    ensures Attempted(p, host, g)
    ensures p == Windows ==> g == WindowsInfo(host)
    ensures p == Linux ==> g == LinuxInfo(host)
    ensures p == MacOs ==> g == MacOsInfo(host)
  {
    match p
    case Windows => WindowsInfo(host)
    case Linux => LinuxInfo(host)
    case MacOs => MacOsInfo(host)
  }

  // ---------------------------------------------------------------------------
  // Worked examples

  /** A line `key="v"` yields `v` with the quotes stripped. */
  lemma FieldValueQuoted(key: string, v: string)
    requires '=' !in key && '=' !in v
    requires v == [] || (v[0] != '"' && v[|v| - 1] != '"')
    ensures FieldValue(key + "=\"" + v + "\"") == v
  {
    var quoted := "\"" + v + "\"";
    assert key + "=\"" + v + "\"" == key + "=" + quoted;
    FieldValueOfKeyed(key, quoted);
    assert '=' !in quoted;
    assert Split(quoted, '=') == [quoted];
    TrimMatchesExact("\"", v, "\"", Char('"'));
  }

  /** A value that can stand between the quotes of an os-release line and be read back whole. */
  predicate PlainValue(v: string) {
    && '=' !in v && '\n' !in v
    && (v == [] || (v[0] != '"' && v[|v| - 1] != '"'))
  }

  /** A quoted `NAME=` line sets the name to the unquoted value. */
  lemma ScanQuotedName(acc: Release, n: string)
    requires PlainValue(n)
    ensures ScanLine(acc, "NAME=\"" + n + "\"") == acc.(name := n)
  {
    var line := "NAME=\"" + n + "\"";
    assert line == "NAME" + "=\"" + n + "\"";
    FieldValueQuoted("NAME", n);
    assert StartsWith(line, "NAME=");
  }

  /** A quoted `VERSION=` line sets the version to the unquoted value. */
  lemma ScanQuotedVersion(acc: Release, v: string)
    requires PlainValue(v)
    ensures ScanLine(acc, "VERSION=\"" + v + "\"") == acc.(version := v)
  {
    var line := "VERSION=\"" + v + "\"";
    assert line == "VERSION" + "=\"" + v + "\"";
    FieldValueQuoted("VERSION", v);
    assert StartsWith(line, "VERSION=");
    VersionLineIsNotNameLine(line);
  }

  /** Scanning two lines is two steps. */
  lemma ScanTwoLines(acc: Release, l0: string, l1: string)
    ensures ScanLines(acc, [l0, l1]) == ScanLine(ScanLine(acc, l0), l1)
  {
    assert [l0, l1][1..] == [l1];
    assert ScanLines(acc, [l0, l1]) == ScanLines(ScanLine(acc, l0), [l1]);
    var next := ScanLine(acc, l0);
    assert [l1][1..] == [];
    assert ScanLines(next, [l1]) == ScanLines(ScanLine(next, l1), []);
  }

  /** Two lines, each ended by a newline, are read back as exactly those two lines. */
  lemma TwoLines(l0: string, l1: string)
    requires '\n' !in l0 && '\n' !in l1 && !EndsWithCr(l0) && !EndsWithCr(l1)
    ensures Lines(l0 + "\n" + l1 + "\n") == [l0, l1]
  {
    assert [l0, l1][1..] == [l1];
    assert Unlines([l1]) == l1 + "\n";
    assert Unlines([l0, l1]) == l0 + "\n" + l1 + "\n";
    LinesUnlines([l0, l1]);
  }

  /** A line made of a newline-free opening, a plain value and a closing quote neither holds a newline nor ends in a carriage return. */
  lemma QuotedLineIsPlain(opening: string, v: string)
    requires PlainValue(v) && '\n' !in opening
    ensures '\n' !in opening + v + "\"" && !EndsWithCr(opening + v + "\"")
  {
  }

  /** The os-release text `NAME="n"`, `VERSION="v"` has exactly those two lines. */
  lemma QuotedReleaseLines(n: string, v: string)
    requires PlainValue(n) && PlainValue(v)
    ensures Lines(("NAME=\"" + n + "\"") + "\n" + ("VERSION=\"" + v + "\"") + "\n")
         == ["NAME=\"" + n + "\"", "VERSION=\"" + v + "\""]
  {
    QuotedLineIsPlain("NAME=\"", n);
    QuotedLineIsPlain("VERSION=\"", v);
    TwoLines("NAME=\"" + n + "\"", "VERSION=\"" + v + "\"");
  }

  /**
   An os-release text `NAME="n"`, `VERSION="v"` yields name `n` and version `v`, quotes
   stripped (for `Ubuntu` and `22.04`, say).
   */
  lemma OsReleaseQuotedValues(n: string, v: string)
    requires PlainValue(n) && PlainValue(v)
    ensures ScanOsRelease(("NAME=\"" + n + "\"") + "\n" + ("VERSION=\"" + v + "\"") + "\n") == Release(n, v)
  {
    QuotedReleaseLines(n, v);
    var l0 := "NAME=\"" + n + "\"";
    var l1 := "VERSION=\"" + v + "\"";
    ScanTwoLines(Release("", ""), l0, l1);
    ScanQuotedName(Release("", ""), n);
    ScanQuotedVersion(Release(n, ""), v);
  }

  /** `trim()` removes the spaces before a value. */
  lemma TrimPadding(pad: string, v: string)
    requires forall k :: 0 <= k < |pad| ==> pad[k] == ' '
    requires v == [] || (!IsWhitespace(v[0]) && !IsWhitespace(v[|v| - 1]))
    ensures Trim(pad + v) == v
  {
    assert pad + v + [] == pad + v;
    TrimMatchesExact(pad, v, [], Whitespace);
  }

  /**
   A `systeminfo` output that is the single line `OS Build:` followed by spaces and
   a build number (`19045`, say) yields `Build: ` and that number.
   */
  lemma WindowsBuildOfPaddedLine(pad: string, number: string)
    requires forall k :: 0 <= k < |pad| ==> pad[k] == ' '
    requires ':' !in number && '\n' !in number
    requires number == [] || (!IsWhitespace(number[0]) && !IsWhitespace(number[|number| - 1]))
    ensures BuildLine("OS Build:" + pad + number) == "Build: " + number
  {
    var line := "OS Build:" + pad + number;
    var value := pad + number;
    assert line == "OS Build" + ":" + value + "";
    assert ':' !in value by {
      assert forall k :: 0 <= k < |pad| ==> value[k] == ' ';
      assert forall k :: 0 <= k < |number| ==> value[|pad| + k] == number[k];
    }
    assert '\n' !in line by {
      assert forall k :: 0 <= k < |value| ==> line[9 + k] == value[k];
      assert forall k :: 0 <= k < |pad| ==> value[k] == ' ';
      assert forall k :: 0 <= k < |number| ==> value[|pad| + k] == number[k];
    }
    assert Lines(line) == [line];
    assert StartsWith(line, "OS Build");
    BuildNumberOfMarkedLine(line, 0, "OS Build", value, "");
    TrimPadding(pad, number);
  }

  /**
   A Windows host whose `ver` printed something and whose `systeminfo` output is the
   line `OS Build:`, spaces and a build number gets `Build: ` and that number as the
   additional information of its record.
   */
  lemma WindowsInfoOfPaddedBuild(host: Host, pad: string, number: string)
    requires host.run(CmdVer).Ok? && host.run(CmdVer).value != []
    requires host.run(CmdSystemInfo) == Ok("OS Build:" + pad + number)
    requires forall k :: 0 <= k < |pad| ==> pad[k] == ' '
    requires ':' !in number && '\n' !in number
    requires number == [] || (!IsWhitespace(number[0]) && !IsWhitespace(number[|number| - 1]))
    ensures WindowsInfo(host).result.Ok?
    ensures WindowsInfo(host).result.value.additionalInfo == Some("Build: " + number)
  {
    WindowsBuildOfPaddedLine(pad, number);
  }
}
