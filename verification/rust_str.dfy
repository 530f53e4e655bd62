/**
 The handful of Rust `str` operations the detector's text extraction is built from,
 modelled on `string` (a `seq<char>`): `starts_with`, `contains`, `split(c)` with
 `nth(1)`, `lines()`, `trim_matches(c)` and `trim()`.
 */
module RustStr {
  import opened Prelude

  /** `s.starts_with(p)`. */
  predicate StartsWith(s: string, p: string) {
    |p| <= |s| && s[..|p|] == p
  }

  /** `s.starts_with(p)` holds exactly when `s` is `p` followed by something. */
  lemma StartsWithIffPrefix(s: string, p: string)
    ensures StartsWith(s, p) <==> exists rest :: s == p + rest
  {
    if StartsWith(s, p) {
      assert s == p + s[|p|..];
    }
  }

  /** `s.contains(sub)`, scanning start positions from the left. */
  predicate Contains(s: string, sub: string)
    decreases |s|
  {
    StartsWith(s, sub) || (s != [] && Contains(s[1..], sub))
  }

  /** `Contains` holds exactly when `sub` occurs at some position of `s`. */
  lemma {:induction false} ContainsIffOccurs(s: string, sub: string)
    ensures Contains(s, sub) <==> exists i :: 0 <= i <= |s| && StartsWith(s[i..], sub)
    decreases |s|
  {
    if Contains(s, sub) {
      if StartsWith(s, sub) {
        assert s[0..] == s;
      } else {
        ContainsIffOccurs(s[1..], sub);
        var j :| 0 <= j <= |s[1..]| && StartsWith(s[1..][j..], sub);
        assert s[1..][j..] == s[j + 1..];
      }
    }
    if exists i :: 0 <= i <= |s| && StartsWith(s[i..], sub) {
      var i :| 0 <= i <= |s| && StartsWith(s[i..], sub);
      if i == 0 {
        assert s[0..] == s;
      } else {
        assert s[1..][i - 1..] == s[i..];
        ContainsIffOccurs(s[1..], sub);
      }
    }
  }

  /** Position of the first `c` in `s`, if any (what `split` cuts at). */
  function IndexOf(s: string, c: char): (r: Option<nat>)
    ensures r.None? <==> c !in s
    ensures r.Some? ==> r.value < |s| && s[r.value] == c && c !in s[..r.value]
    decreases |s|
  {
    if s == [] then None
    else if s[0] == c then Some(0)
    else match IndexOf(s[1..], c)
      case None => None
      case Some(i) =>
        assert s[..i + 1] == [s[0]] + s[1..][..i];
        Some(i + 1)
  }

  /** The first `c` after a `c`-free prefix `p` is the one right after `p`. */
  lemma IndexOfAfterPrefix(p: string, c: char, q: string)
    requires c !in p
    ensures IndexOf(p + [c] + q, c) == Some(|p|)
  {
    var s := p + [c] + q;
    assert s[|p|] == c;
    assert forall k :: 0 <= k < |p| ==> s[k] == p[k];
  }

  /** `s.split(c)` collected: the maximal `c`-free pieces of `s`, in order. */
  function Split(s: string, c: char): (segs: seq<string>)
    ensures |segs| >= 1
    ensures forall k :: 0 <= k < |segs| ==> c !in segs[k]
    decreases |s|
  {
    match IndexOf(s, c)
    case None => [s]
    case Some(i) => [s[..i]] + Split(s[i + 1..], c)
  }

  /** The first piece of `s.split(c)` is the text before the first `c` (all of `s` if there is none). */
  lemma SplitFirstPiece(s: string, c: char) returns (tail: string)
    ensures s == Split(s, c)[0] + tail
    ensures tail == [] || tail[0] == c
  {
    match IndexOf(s, c)
    case None =>
      tail := [];
    case Some(i) =>
      assert Split(s, c)[0] == s[..i];
      tail := s[i..];
  }

  /** `segs.join(c)`: the pieces glued back together with `c` between neighbours. */
  function Join(segs: seq<string>, c: char): string
    requires |segs| >= 1
    decreases |segs|
  {
    if |segs| == 1 then segs[0] else segs[0] + [c] + Join(segs[1..], c)
  }

  /** Splitting loses nothing: joining the pieces restores the text. */
  lemma {:induction false} JoinSplit(s: string, c: char)
    ensures Join(Split(s, c), c) == s
    decreases |s|
  {
    match IndexOf(s, c)
    case None =>
    case Some(i) =>
      var segs := Split(s, c);
      assert segs == [s[..i]] + Split(s[i + 1..], c);
      assert segs[1..] == Split(s[i + 1..], c);
      JoinSplit(s[i + 1..], c);
      assert Join(segs, c) == s[..i] + [c] + s[i + 1..];
      assert s == s[..i] + [c] + s[i + 1..];
  }

  /** Joining `c`-free pieces and splitting again gives the same pieces back. */
  lemma {:induction false} SplitJoin(segs: seq<string>, c: char)
    requires |segs| >= 1
    requires forall k :: 0 <= k < |segs| ==> c !in segs[k]
    ensures Split(Join(segs, c), c) == segs
    decreases |segs|
  {
    if |segs| > 1 {
      var rest := Join(segs[1..], c);
      IndexOfAfterPrefix(segs[0], c, rest);
      var s := segs[0] + [c] + rest;
      assert s[..|segs[0]|] == segs[0];
      assert s[|segs[0]| + 1..] == rest;
      SplitJoin(segs[1..], c);
      assert segs == [segs[0]] + segs[1..];
    }
  }

  /**
   `s.split(c).nth(1)`: the text between the first and the second `c` (or up to
   the end when `c` occurs once); absent when `c` does not occur at all.
   */
  function SplitSecond(s: string, c: char): (r: Option<string>)
    ensures r.None? <==> c !in s
    ensures r.Some? ==> c !in r.value
  {
    var segs := Split(s, c);
    if |segs| >= 2 then Some(segs[1]) else None
  }

  /** A `c`-free run followed by nothing or by a `c` is the first piece of the split. */
  lemma SplitFirstPieceOf(v: string, c: char, rest: string)
    requires c !in v
    requires rest == [] || rest[0] == c
    ensures Split(v + rest, c)[0] == v
  {
    if rest == [] {
      assert v + rest == v;
    } else {
      assert v + rest == v + [c] + rest[1..];
      IndexOfAfterPrefix(v, c, rest[1..]);
      assert (v + [c] + rest[1..])[..|v|] == v;
    }
  }

  /** Whatever surrounds it, the piece after the first `c` is exactly the `c`-free run that follows it. */
  lemma SplitSecondBetween(p: string, c: char, v: string, rest: string)
    requires c !in p && c !in v
    requires rest == [] || rest[0] == c
    ensures SplitSecond(p + [c] + v + rest, c) == Some(v)
  {
    var s := p + [c] + (v + rest);
    assert p + [c] + v + rest == s;
    IndexOfAfterPrefix(p, c, v + rest);
    assert s[..|p|] == p;
    assert s[|p| + 1..] == v + rest;
    assert Split(s, c) == [p] + Split(v + rest, c);
    SplitFirstPieceOf(v, c, rest);
  }

  /** After a `c`-free key and one `c`, `split(c).nth(1)` is the first piece of what follows. */
  lemma SplitSecondAfterKey(key: string, c: char, rest: string)
    requires c !in key
    ensures SplitSecond(key + [c] + rest, c) == Some(Split(rest, c)[0])
  {
    var v := Split(rest, c)[0];
    var tail := SplitFirstPiece(rest, c);
    assert key + [c] + rest == key + [c] + v + tail;
    SplitSecondBetween(key, c, v, tail);
  }

  /** Does `line` end with a carriage return. */
  predicate EndsWithCr(line: string) {
    |line| > 0 && line[|line| - 1] == '\r'
  }

  /** Drops one carriage return that ended a line before its `'\n'`. */
  function StripCr(line: string): (r: string)
    ensures r <= line
    ensures !EndsWithCr(line) ==> r == line
    ensures EndsWithCr(line) ==> |r| == |line| - 1
  {
    if EndsWithCr(line) then line[..|line| - 1] else line
  }

  /**
   `s.lines()` collected: the pieces between `'\n'` terminators, each losing one
   `'\r'` that stood right before its `'\n'`. A final terminator does not start an
   extra empty line, and a final line without terminator is kept as it is.
   */
  function Lines(s: string): (ls: seq<string>)
    ensures |ls| == 0 <==> s == []
    ensures forall k :: 0 <= k < |ls| ==> '\n' !in ls[k]
    decreases |s|
  {
    if s == [] then []
    else match IndexOf(s, '\n')
      case None => [s]
      case Some(i) =>
        var line := StripCr(s[..i]);
        assert line == s[..i][..|line|];
        [line] + Lines(s[i + 1..])
  }

  /**
   The lines read off the `'\n'`-pieces of a text: every piece but the last loses one
   `'\r'` at its end, and an empty last piece (after a final terminator, or the whole
   empty text) is not a line.
   */
  function LinesOfPieces(segs: seq<string>): seq<string>
    decreases |segs|
  {
    if |segs| == 0 then []
    else if |segs| == 1 then (if segs[0] == [] then [] else segs)
    else [StripCr(segs[0])] + LinesOfPieces(segs[1..])
  }

  /** `lines()` agrees with cutting the text at every `'\n'` and reading the pieces as lines. */
  lemma {:induction false} LinesSplit(s: string)
    ensures Lines(s) == LinesOfPieces(Split(s, '\n'))
    decreases |s|
  {
    match IndexOf(s, '\n')
    case None =>
    case Some(i) =>
      var segs := Split(s, '\n');
      assert segs[1..] == Split(s[i + 1..], '\n');
      LinesSplit(s[i + 1..]);
  }

  /** The text of `ls`, each line followed by a `'\n'`. */
  function Unlines(ls: seq<string>): string
    decreases |ls|
  {
    if ls == [] then [] else ls[0] + "\n" + Unlines(ls[1..])
  }

  /** Lines that hold no `'\n'` and do not end in `'\r'` are recovered from their text. */
  lemma {:induction false} LinesUnlines(ls: seq<string>)
    requires forall k :: 0 <= k < |ls| ==> '\n' !in ls[k] && !EndsWithCr(ls[k])
    ensures Lines(Unlines(ls)) == ls
    decreases |ls|
  {
    if ls != [] {
      var rest := Unlines(ls[1..]);
      var s := ls[0] + "\n" + rest;
      assert s == ls[0] + ['\n'] + rest;
      IndexOfAfterPrefix(ls[0], '\n', rest);
      assert s[..|ls[0]|] == ls[0];
      assert s[|ls[0]| + 1..] == rest;
      LinesUnlines(ls[1..]);
      assert ls == [ls[0]] + ls[1..];
    }
  }

  /** `s.lines().next()`: the first line, absent only for the empty text. */
  function FirstLine(s: string): (r: Option<string>)
    ensures r.None? <==> s == []
    ensures r.Some? ==> '\n' !in r.value && r.value <= s
  {
    var ls := Lines(s);
    if ls == [] then None
    else
      assert ls[0] <= s by {
        var i := IndexOf(s, '\n');
        if i.Some? {
          assert s[..i.value] <= s;
        }
      }
      Some(ls[0])
  }

  /** A text without a `'\n'` is its own first line, a final `'\r'` included. */
  lemma FirstLineWhole(s: string)
    requires s != [] && '\n' !in s
    ensures FirstLine(s) == Some(s)
  {
  }

  /** The first line of `line + "\n" + rest` is `line`, minus a `'\r'` before the break. */
  lemma FirstLineOf(line: string, rest: string)
    requires '\n' !in line
    ensures FirstLine(line + "\n" + rest) == Some(StripCr(line))
  {
    var s := line + "\n" + rest;
    assert s == line + ['\n'] + rest;
    IndexOfAfterPrefix(line, '\n', rest);
    assert s[..|line|] == line;
  }

  /** `char::is_whitespace`: the 25 code points with the Unicode White_Space property. */
  predicate IsWhitespace(x: char) {
    || '\t' <= x <= '\r'
    || x == ' '
    || x == '\U{0085}'
    || x == '\U{00A0}'
    || x == '\U{1680}'
    || '\U{2000}' <= x <= '\U{200A}'
    || x == '\U{2028}'
    || x == '\U{2029}'
    || x == '\U{202F}'
    || x == '\U{205F}'
    || x == '\U{3000}'
  }

  /** The character patterns the detector trims with: one given character, or white space. */
  datatype Pattern = Char(c: char) | Whitespace

  /** Does `x` match `pat`. */
  predicate Matches(pat: Pattern, x: char) {
    match pat
    case Char(c) => x == c
    case Whitespace => IsWhitespace(x)
  }

  /** `s.trim_start_matches(pat)`: removes the leading characters that match. */
  function TrimStartMatches(s: string, pat: Pattern): (r: string)
    ensures |r| <= |s| && r == s[|s| - |r|..]
    ensures forall k :: 0 <= k < |s| - |r| ==> Matches(pat, s[k])
    ensures r != [] ==> !Matches(pat, r[0])
    decreases |s|
  {
    if s != [] && Matches(pat, s[0]) then TrimStartMatches(s[1..], pat) else s
  }

  /** `s.trim_end_matches(pat)`: removes the trailing characters that match. */
  function TrimEndMatches(s: string, pat: Pattern): (r: string)
    ensures |r| <= |s| && r == s[..|r|]
    ensures forall k :: |r| <= k < |s| ==> Matches(pat, s[k])
    ensures r != [] ==> !Matches(pat, r[|r| - 1])
    decreases |s|
  {
    if s != [] && Matches(pat, s[|s| - 1]) then TrimEndMatches(s[..|s| - 1], pat) else s
  }

  /** `s.trim_matches(pat)`: both ends trimmed. */
  function TrimMatches(s: string, pat: Pattern): (r: string)
    ensures r != [] ==> !Matches(pat, r[0]) && !Matches(pat, r[|r| - 1])
  {
    TrimEndMatches(TrimStartMatches(s, pat), pat)
  }

  /** `trim_start_matches` removes a matching prefix `p` and stops at the first non-matching character. */
  lemma {:induction false} TrimStartExact(p: string, t: string, pat: Pattern)
    requires forall k :: 0 <= k < |p| ==> Matches(pat, p[k])
    requires t == [] || !Matches(pat, t[0])
    ensures TrimStartMatches(p + t, pat) == t
    decreases |p|
  {
    if p == [] {
      assert p + t == t;
    } else {
      assert (p + t)[0] == p[0];
      assert (p + t)[1..] == p[1..] + t;
      TrimStartExact(p[1..], t, pat);
    }
  }

  /** `trim_end_matches` removes a matching suffix `q` and stops at the last non-matching character. */
  lemma {:induction false} TrimEndExact(t: string, q: string, pat: Pattern)
    requires forall k :: 0 <= k < |q| ==> Matches(pat, q[k])
    requires t == [] || !Matches(pat, t[|t| - 1])
    ensures TrimEndMatches(t + q, pat) == t
    decreases |q|
  {
    if q == [] {
      assert t + q == t;
    } else {
      var s := t + q;
      assert s[|s| - 1] == q[|q| - 1];
      assert s[..|s| - 1] == t + q[..|q| - 1];
      TrimEndExact(t, q[..|q| - 1], pat);
    }
  }

  /** Trimming removes the matching ends `p` and `q` and nothing of a middle `m` that does not start or end with a match. */
  lemma TrimMatchesExact(p: string, m: string, q: string, pat: Pattern)
    requires forall k :: 0 <= k < |p| ==> Matches(pat, p[k])
    requires forall k :: 0 <= k < |q| ==> Matches(pat, q[k])
    requires m == [] || (!Matches(pat, m[0]) && !Matches(pat, m[|m| - 1]))
    ensures TrimMatches(p + m + q, pat) == m
  {
    if m == [] {
      var s := p + q;
      assert p + m + q == s;
      assert forall k :: 0 <= k < |s| ==> Matches(pat, s[k]) by {
        forall k | 0 <= k < |s| ensures Matches(pat, s[k]) {
          if k < |p| { assert s[k] == p[k]; } else { assert s[k] == q[k - |p|]; }
        }
      }
      TrimStartExact(s, [], pat);
      assert s + [] == s;
    } else {
      assert p + m + q == p + (m + q);
      assert (m + q)[0] == m[0];
      TrimStartExact(p, m + q, pat);
      TrimEndExact(m, q, pat);
    }
  }

  /** Trimming twice trims no more than trimming once. */
  lemma TrimMatchesIdempotent(s: string, pat: Pattern)
    ensures TrimMatches(TrimMatches(s, pat), pat) == TrimMatches(s, pat)
  {
  }

  /** `s.trim()`: leading and trailing white space removed. */
  function Trim(s: string): (r: string)
    ensures r != [] ==> !IsWhitespace(r[0]) && !IsWhitespace(r[|r| - 1])
  {
    TrimMatches(s, Whitespace)
  }
}
