# OS detector — a Dafny model

This project models the operating-system detector of `src/os/os_detect.rs`:

- `OsDetector` keeps a cache that is empty until the first successful detection.
- Its `get_os_info` returns the cached record when there is one. Otherwise it
  picks the gatherer for the build's platform tag, stores the gathered
  `OsInfo` and returns it. A tag other than `windows`, `linux` or `macos` fails
  with `UnsupportedOs`.
- Each gatherer runs one or two external queries and turns their text into a
  record. The Windows gatherer uses `cmd /C ver` and `systeminfo`. The Linux
  gatherer reads `/etc/os-release` and runs `uname -r`. The macOS gatherer runs
  `sw_vers -productVersion` and `sw_vers -buildVersion`.

The project has four modules:

- `Prelude` (`prelude.dfy`) defines `Option` and `Result`.
- `RustStr` (`rust_str.dfy`) models the Rust string operations the detector
  relies on. These are `starts_with`, `contains`, `split(c).nth(1)`, `lines()`,
  `lines().next()`, `trim_matches(c)` and `trim()`.
- `OsDetect` (`os_detect.dfy`) holds the records, the Linux scan of the
  os-release text, the Windows build-line extraction and the three gatherers.
- `Detector` (`detector.dfy`) holds the cache, the dispatch on the platform tag,
  and runs of several consecutive calls.

The outside world is a `Host` value with three parts:

- `os` is the platform tag, `std::env::consts::OS`.
- `arch` is the architecture string, `std::env::consts::ARCH`.
- `run` is a total function that maps each external `Query` to its outcome. An
  `Ok` outcome carries the text the query produced. An `Err` outcome carries
  the text of the I/O error, which the code wraps in `CommandFailed`.

Every gatherer returns a `Gathered` value holding its result and the list of
queries it made, so the model can talk about which commands a call ran. The
mutation of `&mut self` becomes a function from one detector to the next:
`GetOsInfo` returns a `Step` with the result, the detector afterwards, and the
queries.

All gatherers follow one discipline, `OsDetect.Attempted`:

- Each platform has a plan of two queries.
- The first query is always made.
- The second query is made exactly when the first one succeeded and its output
  lets the gatherer go on (`OsDetect.Proceeds`). Linux and macOS always go on.
  Windows goes on only when `ver` printed something, since otherwise there is
  no first line and the gather fails with `ParseError`.
- A failed query becomes `CommandFailed` with the failure's text, and the gather
  stops there.
- A gather succeeds exactly when both queries were made and succeeded.
- A gatherer never reports `UnsupportedOs`.

Some behaviours of the code are easy to get wrong when reading it quickly:

- A `systeminfo` output without an `OS Build` line gives `Build: Unknown`, not
  an error (`OsDetect.BuildNumberWithoutMarker`). `CommandFailed` comes only
  from a failed launch of `systeminfo`.
- `split(':').nth(1)` keeps only the text between the first and the second `:`
  of the `OS Build` line (`OsDetect.BuildNumberOfMarkedLine`).
- os-release values are cut in the same way at a second `=`
  (`OsDetect.FieldValueOfKeyed`).
- The Linux name stays empty when `/etc/os-release` has no `NAME=` line, and
  the version stays empty when it has no `VERSION=` line
  (`OsDetect.OsReleaseWithoutKey`).

## Model

| member | source | states |
|---|---|---|
| `RustStr.ContainsIffOccurs` | src/os/os_detect.rs:163 | `Contains`, the model of `line.contains(sub)`, holds exactly when `sub` occurs at some position of `line` |
| `RustStr.StartsWithIffPrefix` | src/os/os_detect.rs:108-111 | `StartsWith`, the model of `line.starts_with(p)`, holds exactly when the line is `p` followed by something |
| `RustStr.IndexOf` | src/os/os_detect.rs:109 | the position of the first occurrence of a separator: absent exactly when the separator does not occur, otherwise it holds the separator and nothing before it does |
| `RustStr.IndexOfAfterPrefix` | src/os/os_detect.rs:109 | after a separator-free prefix, the first separator is the one right after that prefix |
| `RustStr.Split` | src/os/os_detect.rs:109 | `split(c)` yields at least one piece, and no piece contains `c` |
| `RustStr.JoinSplit` | src/os/os_detect.rs:109 | joining the pieces of `split(c)` with `c` gives back the original string |
| `RustStr.SplitJoin` | src/os/os_detect.rs:109 | splitting a join of `c`-free pieces gives back exactly those pieces |
| `RustStr.SplitSecond` | src/os/os_detect.rs:109 | `split(c).nth(1)` is absent exactly when `c` does not occur, and when present it contains no `c` |
| `RustStr.SplitSecondBetween` | src/os/os_detect.rs:164 | for `p:v` followed by nothing or by another `:`, with no `:` in `p` or `v`, the second piece is `v` |
| `RustStr.SplitSecondAfterKey` | src/os/os_detect.rs:109 | for `key=rest` with no `=` in the key, the second piece is the part of `rest` before its next `=` |
| `RustStr.StripCr` | src/os/os_detect.rs:84 | removes exactly one final carriage return when there is one, and otherwise leaves the line as it is |
| `RustStr.Lines` | src/os/os_detect.rs:84 | `lines()` yields no line for the empty string and at least one line otherwise, and no line contains a newline |
| `RustStr.LinesSplit` | src/os/os_detect.rs:84 | for every text, `lines()` equals cutting the text at each `\n`. Every piece but the last loses one final carriage return. The last piece is kept as it is unless it is empty |
| `RustStr.LinesUnlines` | src/os/os_detect.rs:107 | newline-terminated lines with no newline and no trailing carriage return are read back by `lines()` exactly |
| `RustStr.FirstLine` | src/os/os_detect.rs:83-86 | `lines().next()` is absent exactly for the empty output; otherwise it is a newline-free prefix of the output |
| `RustStr.FirstLineOf` | src/os/os_detect.rs:83-86 | for output `line\nrest`, the first line is `line` with a final carriage return removed |
| `RustStr.FirstLineWhole` | src/os/os_detect.rs:83-86 | a non-empty output without a newline is its own first line |
| `RustStr.TrimStartMatches` | src/os/os_detect.rs:110 | removes the longest prefix of matching characters: the result is a suffix of the text, everything removed matches, and the result does not start with a match |
| `RustStr.TrimEndMatches` | src/os/os_detect.rs:110 | removes the longest suffix of matching characters: the result is a prefix of the text, everything removed matches, and the result does not end with a match |
| `RustStr.TrimMatches` | src/os/os_detect.rs:110 | `trim_matches(c)` leaves neither end matching the pattern |
| `RustStr.TrimStartExact` | src/os/os_detect.rs:110 | removing matching characters from the front of `p + t` leaves exactly `t`, when `p` consists of matching characters and `t` does not begin with one |
| `RustStr.TrimEndExact` | src/os/os_detect.rs:110 | removing matching characters from the back of `t + q` leaves exactly `t`, when `q` consists of matching characters and `t` does not end with one |
| `RustStr.TrimMatchesExact` | src/os/os_detect.rs:110 | trimming `p + m + q`, where `p` and `q` consist of matching characters and `m` neither starts nor ends with one, gives exactly `m` |
| `RustStr.TrimMatchesIdempotent` | src/os/os_detect.rs:110 | trimming twice is the same as trimming once |
| `RustStr.Trim` | src/os/os_detect.rs:126 | `trim()` leaves no Unicode white space at either end |
| `OsDetect.FieldValue` | src/os/os_detect.rs:109-110 | the value kept from an os-release line never starts or ends with a double quote |
| `OsDetect.ScanLineField` | src/os/os_detect.rs:107-114 | one step of the scan, `ScanLine`: a line sets a field exactly when it starts with that field's key (`NAME=` or `VERSION=`); otherwise the field keeps its value |
| `OsDetect.VersionLineIsNotNameLine` | src/os/os_detect.rs:108-111 | a `VERSION=` line never starts with `NAME=`, so the two branches of the scan cannot both apply |
| `OsDetect.ScanKeepsUnmatched` | src/os/os_detect.rs:104-115 | lines without a field's key leave that field unchanged |
| `OsDetect.ScanLastMatchWins` | src/os/os_detect.rs:107-115 | the last line carrying a field's key decides that field |
| `OsDetect.OsReleaseLastKeyedLine` | src/os/os_detect.rs:104-115 | for the whole os-release text, `ScanOsRelease`, the last line carrying a field's key decides that field |
| `OsDetect.OsReleaseWithoutKey` | src/os/os_detect.rs:104-115 | without a `NAME=` line the name stays empty, and without a `VERSION=` line the version stays empty |
| `OsDetect.ScanIgnoresOtherKeys` | src/os/os_detect.rs:107-115 | a line starting with neither `NAME=` nor `VERSION=` changes nothing |
| `OsDetect.ScanLinesSnoc` | src/os/os_detect.rs:107-115 | the scan over the lines, `ScanLines`, handles one more line by one more step after the others, in order |
| `OsDetect.OtherKeysDoNotMatch` | src/os/os_detect.rs:108-111 | `PRETTY_NAME=` and `VERSION_ID=` lines are not taken for `NAME=` or `VERSION=` lines |
| `OsDetect.FieldValueOfKeyed` | src/os/os_detect.rs:109-110 | for a line `key=rest`, the value is the part of `rest` before its next `=` with quotes trimmed, and the `"Unknown"` fallback is not taken |
| `OsDetect.ScanFallbackUnreachable` | src/os/os_detect.rs:108-113 | every line that the scan reads a value from has a second `=`-piece, so the `"Unknown"` fallback never applies |
| `OsDetect.FindContaining` | src/os/os_detect.rs:161-163 | `lines().find(contains "OS Build")` is absent exactly when no line contains the marker; otherwise it is the first line that does |
| `OsDetect.BuildLine` | src/os/os_detect.rs:167 | the build information always starts with `Build: `; what follows, `BuildNumber`, is stated by the three lemmas below |
| `OsDetect.BuildNumberWithoutMarker` | src/os/os_detect.rs:161-167 | with no `OS Build` line, the build information is `Build: Unknown` and not an error |
| `OsDetect.BuildNumberOfMarkedLine` | src/os/os_detect.rs:161-167 | when the first `OS Build` line is `p:v`, ending there or at a further `:`, the build information is `Build: ` followed by `v` trimmed |
| `OsDetect.BuildNumberOfLineWithoutColon` | src/os/os_detect.rs:164-167 | an `OS Build` line without a colon gives an empty build, `Build: ` |
| `OsDetect.WindowsBuildInfo` | src/os/os_detect.rs:154-168 | runs `systeminfo` only; fails exactly when that query fails, as `CommandFailed` with the failure's text; otherwise the result is the build information, `BuildLine`, of the `systeminfo` output |
| `OsDetect.WindowsInfo` | src/os/os_detect.rs:76-97 | follows the two-query discipline, so it succeeds exactly when `ver` printed something and both queries succeeded. `ParseError` happens exactly when `ver` printed nothing. A record is named `Windows`, carries the host architecture, and takes as version the first line of the `ver` output. Its additional information is the build information of the `systeminfo` output |
| `OsDetect.LinuxInfo` | src/os/os_detect.rs:100-128 | follows the two-query discipline, so it runs `uname -r` exactly when the os-release file was read and succeeds exactly when both succeeded; every failure is `CommandFailed`; a record has the scanned name and version, the host architecture, and the trimmed kernel release as additional information, even when it is empty |
| `OsDetect.MacOsInfo` | src/os/os_detect.rs:131-151 | follows the two-query discipline, so it succeeds exactly when both `sw_vers` queries succeed; every failure is `CommandFailed`; a record is named `macOS` and has the trimmed product version, the host architecture, and `Build: ` followed by the trimmed build version |
| `OsDetect.Gather` | src/os/os_detect.rs:64-67 | each supported platform is handled by its own gatherer. Every gatherer follows the discipline: the first query of its plan always, the second exactly when the first succeeded and lets it go on, failures become `CommandFailed`, success exactly when both queries succeeded, and never `UnsupportedOs` |
| `OsDetect.FieldValueQuoted` | src/os/os_detect.rs:109-110 | a line `key="v"` yields `v` with the quotes stripped |
| `OsDetect.ScanQuotedName` | src/os/os_detect.rs:108-110 | a quoted `NAME=` line sets the name to the unquoted value and keeps the version |
| `OsDetect.ScanQuotedVersion` | src/os/os_detect.rs:111-113 | a quoted `VERSION=` line sets the version to the unquoted value and keeps the name |
| `OsDetect.QuotedReleaseLines` | src/os/os_detect.rs:107 | the text `NAME="n"` newline `VERSION="v"` newline has exactly those two lines |
| `OsDetect.OsReleaseQuotedValues` | src/os/os_detect.rs:100-115 | that os-release text yields name `n` and version `v` |
| `OsDetect.TrimPadding` | src/os/os_detect.rs:164 | `trim()` removes the spaces in front of a value |
| `OsDetect.WindowsBuildOfPaddedLine` | src/os/os_detect.rs:154-168 | `systeminfo` output `OS Build:` followed by spaces and a build number gives `Build: ` followed by that number |
| `OsDetect.WindowsInfoOfPaddedBuild` | src/os/os_detect.rs:76-97 | a Windows host whose `ver` printed something and whose `systeminfo` output is `OS Build:`, spaces and a build number gets a record whose additional information is `Build: ` and that number |
| `Detector.PlatformOf` | src/os/os_detect.rs:64-68 | a tag selects a platform only when it is that platform's tag (`windows`, `linux`, `macos`), and every other tag selects none |
| `Detector.PlatformTagRoundTrip` | src/os/os_detect.rs:64-68 | the tags `windows`, `linux` and `macos` correspond one to one with the supported platforms |
| `Detector.GetOsInfo` | src/os/os_detect.rs:59-73 | a cached record is returned with no query and no change. With an empty cache, an unsupported tag fails with `UnsupportedOs` carrying the tag, makes no query and changes nothing. A supported tag gives exactly the result and the queries of that platform's gatherer. A failure leaves the detector as it was, and a success caches the returned record. `UnsupportedOs` arises only from an unsupported tag with an empty cache |
| `Detector.SecondCallHitsCache` | src/os/os_detect.rs:182-198 | after a successful call, the next call returns the same record, makes no query and keeps the cache |
| `Detector.RetryAfterFailure` | src/os/os_detect.rs:59-73 | a failed call caches nothing, so the next call behaves as if the failed one had not happened |
| `Detector.DispatchQueriesOwnPlatform` | src/os/os_detect.rs:64-67 | a detection with an empty cache makes at least one query, starts with its platform's first query, and makes only its own platform's queries |
| `Detector.DispatchIgnoresOtherPlatforms` | src/os/os_detect.rs:64-69 | the outcomes of other platforms' queries cannot change the result of a detection |
| `Detector.CachedSessionIsConstant` | src/os/os_detect.rs:60-62 | once the cache holds a record, any number of calls return that record, make no query, and leave the cache as it is |
| `Detector.StableAfterFirstSuccess` | src/os/os_detect.rs:59-73 | in a run of calls, every call after a successful one returns an equal record |
| `Detector.EmptyCacheMeansNoSuccess` | src/os/os_detect.rs:71-72 | when the cache is still empty after a run of calls, every call of that run failed |
| `Detector.UnsupportedFailsClosed` | src/os/os_detect.rs:68 | on an unsupported platform, every call fails with `UnsupportedOs` carrying the tag, makes no query and caches nothing |

## Left out

- Running commands and reading files. `Command::new(..).output()` and
  `std::fs::read_to_string` are replaced by `Host.run`, which gives each query's
  outcome. A command that starts but exits with a non-zero status counts as
  success, exactly as in the code, since the code reads `stdout` without looking
  at the exit status.
- `String::from_utf8_lossy` (lines 82, 126, 144, 148 and 160). Query outputs are
  given as already decoded text, so invalid UTF-8 is not modelled.
- `std::env::consts::OS` and `std::env::consts::ARCH` are compile-time constants
  of the build. They are parameters of `Host` here.
- The `Display` implementation of `OsDetectorError` (lines 13-21) and the
  `Error` marker implementation (line 23). These only format messages.
- `Detector.New` (lines 42-44) carries no contract. It is the empty-cache
  detector by definition, which is also what `test_detector_creation` checks.
- `#[derive(Debug, Clone, Default)]`. Dafny datatypes are values, so the clone
  returned at lines 61 and 71 is the same value. The test at lines 195-198
  compares the `Debug` text of two records; here the records themselves are
  compared.
- `RustStr.Lines` follows the current standard library: a `'\r'` is removed
  only when it stands just before a `'\n'`. A lone `'\r'` at the very end of
  the text is kept. Older Rust releases removed that one too.
- `RustStr.Trim`: its contract states only that neither end is white space.
  Which characters are removed is stated by `RustStr.TrimMatchesExact`.
- `RustStr.TrimMatches`: the same holds; the exact result is stated by
  `RustStr.TrimMatchesExact` and `RustStr.TrimMatchesIdempotent`.
