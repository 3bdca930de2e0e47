/**
 * The slice of JavaScript's value and string semantics that the engine
 * supervisor's main-process handlers rely on: primitive values and their
 * truthiness, template-literal stringification, `String.prototype.trim`,
 * `split`, `startsWith`, `includes`, `lastIndexOf`, `replaceAll` and the
 * global `parseInt`.
 */
module Js {

  datatype Option<+T> = None | Some(value: T)

  /** A primitive JavaScript value as it arrives over IPC or out of a JSON file.
      Numbers are the integral ones; fractional numbers are not modelled. */
  datatype Scalar = Undefined | Null | Bool(b: bool) | Num(n: int) | Str(s: string)

  /** A JSON file as `JSON.parse(fs.readFileSync(path))` sees it: unreadable
      (missing, not JSON, or not an array), or an array of records. */
  datatype Disk<T> = Unreadable | Stored(records: seq<T>)

  /** The state of a promise: resolved with a value, rejected with the
      message of the error it was rejected with, or still pending because
      no callback that settles it has run. */
  datatype Settled<+T> = Resolved(value: T) | Rejected(reason: string) | Pending

  /** The result of `parseInt`: NaN, or an integral number. */
  datatype Number = NaN | Int(i: int)

  predicate Truthy(x: Scalar) {
    match x
    case Undefined => false
    case Null => false
    case Bool(b) => b
    case Num(n) => n != 0
    case Str(s) => s != ""
  }

  /** `a || b` */
  function Or(a: Scalar, b: Scalar): Scalar {
    if Truthy(a) then a else b
  }

  lemma OrTruthy(a: Scalar, b: Scalar)
    requires Truthy(b)
    ensures Truthy(Or(a, b))
    ensures Truthy(a) ==> Or(a, b) == a
  {
  }

  // ---------------------------------------------------------------------------
  // Stringification: `${x}`

  function DigitChar(d: nat): (c: char)
    requires d < 10
    ensures IsDigit(c) && DigitOf(c) == d
  {
    "0123456789"[d]
  }

  /** Decimal notation of a natural number, no leading zeros. */
  function NatToDecimal(n: nat): (s: string)
    ensures |s| >= 1
    ensures forall i :: 0 <= i < |s| ==> IsDigit(s[i])
    ensures |s| > 1 ==> s[0] != '0'
  {
    if n < 10 then [DigitChar(n)] else NatToDecimal(n / 10) + [DigitChar(n % 10)]
  }

  function IntToDecimal(n: int): string {
    if n < 0 then "-" + NatToDecimal(-n) else NatToDecimal(n)
  }

  /** Template-literal conversion `${x}`. */
  function ToStr(x: Scalar): string {
    match x
    case Undefined => "undefined"
    case Null => "null"
    case Bool(b) => if b then "true" else "false"
    case Num(n) => IntToDecimal(n)
    case Str(s) => s
  }

  // ---------------------------------------------------------------------------
  // Characters

  /** The characters `trim` removes and `\s` matches (WhiteSpace and
      LineTerminator of ECMA-262). */
  predicate IsSpace(c: char) {
    c == ' ' || c == '\t' || c == '\n' || c == '\r' || c == '\U{000B}' || c == '\U{000C}'
    || c == '\U{00A0}' || c == '\U{1680}' || ('\U{2000}' <= c <= '\U{200A}')
    || c == '\U{2028}' || c == '\U{2029}' || c == '\U{202F}' || c == '\U{205F}'
    || c == '\U{3000}' || c == '\U{FEFF}'
  }

  predicate IsDigit(c: char) {
    '0' <= c <= '9'
  }

  predicate IsRadixDigit(c: char, radix: nat) {
    IsDigit(c) || (radix == 16 && (('a' <= c <= 'f') || ('A' <= c <= 'F')))
  }

  function DigitOf(c: char): nat {
    if IsDigit(c) then c as nat - '0' as nat
    else if 'a' <= c <= 'f' then c as nat - 'a' as nat + 10
    else if 'A' <= c <= 'F' then c as nat - 'A' as nat + 10
    else 0
  }

  predicate AllDigits(s: string) {
    forall i :: 0 <= i < |s| ==> IsDigit(s[i])
  }

  // ---------------------------------------------------------------------------
  // trim

  function TrimStart(s: string): (r: string)
    ensures |r| <= |s| && r == s[|s| - |r|..]
    ensures r == [] || !IsSpace(r[0])
    ensures forall i :: 0 <= i < |s| - |r| ==> IsSpace(s[i])
  {
    if |s| > 0 && IsSpace(s[0]) then TrimStart(s[1..]) else s
  }

  function TrimEnd(s: string): (r: string)
    ensures |r| <= |s| && r == s[..|r|]
    ensures r == [] || !IsSpace(r[|r| - 1])
    ensures forall i :: |r| <= i < |s| ==> IsSpace(s[i])
  {
    if |s| > 0 && IsSpace(s[|s| - 1]) then TrimEnd(s[..|s| - 1]) else s
  }

  /** `s.trim()` */
  function Trim(s: string): string {
    TrimEnd(TrimStart(s))
  }

  /** A string that neither starts nor ends with white space. */
  predicate IsTrimmed(s: string) {
    s == [] || (!IsSpace(s[0]) && !IsSpace(s[|s| - 1]))
  }

  /** `t` is `s[a..b]` and everything of `s` outside it is white space. */
  predicate SpaceOutside(s: string, a: nat, b: nat, t: string) {
    && a <= b <= |s| && t == s[a..b]
    && (forall i :: 0 <= i < a ==> IsSpace(s[i]))
    && (forall i :: b <= i < |s| ==> IsSpace(s[i]))
  }

  /** `trim` removes white space from both ends and nothing else. */
  lemma TrimResult(s: string)
    ensures IsTrimmed(Trim(s))
    ensures exists a: nat, b: nat :: SpaceOutside(s, a, b, Trim(s))
  {
    var t := TrimStart(s);
    var r := TrimEnd(t);
    PrefixTrimmed(t, r);
    SliceBetweenSpaces(s, t, r);
  }

  /** A prefix of a text that does not start with white space, itself not
      ending in white space, is trimmed. */
  lemma PrefixTrimmed(t: string, r: string)
    requires t == [] || !IsSpace(t[0])
    requires |r| <= |t| && r == t[..|r|]
    requires r == [] || !IsSpace(r[|r| - 1])
    ensures IsTrimmed(r)
  {
    if r != [] {
      assert r[0] == t[0];
    }
  }

  /** A suffix `t` of `s` after white space, and a prefix `r` of `t` before
      white space, is the slice of `s` with only white space outside it. */
  lemma SliceBetweenSpaces(s: string, t: string, r: string)
    requires |t| <= |s| && t == s[|s| - |t|..]
    requires forall i :: 0 <= i < |s| - |t| ==> IsSpace(s[i])
    requires |r| <= |t| && r == t[..|r|]
    requires forall i :: |r| <= i < |t| ==> IsSpace(t[i])
    ensures SpaceOutside(s, |s| - |t|, |s| - |t| + |r|, r)
  {
    var a := |s| - |t|;
    var b := a + |r|;
    assert r == s[a..b];
    forall i | b <= i < |s| ensures IsSpace(s[i]) {
      assert s[i] == t[i - a];
    }
  }

  /** Trimming the end does not reach past a leading non-space character. */
  lemma {:induction false} TrimEndCons(c: char, s: string)
    requires !IsSpace(c)
    ensures TrimEnd([c] + s) == [c] + TrimEnd(s)
    decreases |s|
  {
    var t := [c] + s;
    if |s| > 0 && IsSpace(s[|s| - 1]) {
      assert t[..|t| - 1] == [c] + s[..|s| - 1];
      TrimEndCons(c, s[..|s| - 1]);
    }
  }

  /** A line ending in a non-space character loses only its newline. */
  lemma TrimEndNewline(line: string)
    requires line != [] && !IsSpace(line[|line| - 1])
    ensures TrimEnd(line + "\n") == line
  {
    var s := line + "\n";
    assert s[..|s| - 1] == line;
    assert IsSpace(s[|s| - 1]);
    assert TrimEnd(line) == line;
  }

  /** A string whose first character is not white space loses only its tail. */
  lemma TrimOfNonSpaceStart(s: string)
    requires |s| > 0 && !IsSpace(s[0])
    ensures Trim(s) == TrimEnd(s)
  {
  }

  // ---------------------------------------------------------------------------
  // Searching

  /** `s.startsWith(p)` */
  predicate StartsWith(s: string, p: string) {
    |p| <= |s| && s[..|p|] == p
  }

  /** `s.includes(p)` */
  predicate Includes(s: string, p: string)
    decreases |s|
  {
    StartsWith(s, p) || (|s| > 0 && Includes(s[1..], p))
  }

  /** A needle without `c` cannot first appear when `c` is appended. */
  lemma {:induction false} IncludesAppend(s: string, c: char, p: string)
    requires |p| > 0 && c !in p
    ensures Includes(s + [c], p) ==> Includes(s, p)
    decreases |s|
  {
    var t := s + [c];
    if StartsWith(t, p) {
      assert t[|s|] == c;
      assert p != t;
      assert t[..|p|] == s[..|p|];
    } else if |s| > 0 {
      assert t[1..] == s[1..] + [c];
      IncludesAppend(s[1..], c, p);
    } else {
      assert t[1..] == [];
    }
  }

  /** `s.lastIndexOf(c)` for a one-character needle. */
  function LastIndexOf(s: string, c: char): (k: int)
    ensures -1 <= k < |s|
    ensures k >= 0 ==> s[k] == c
    ensures forall i :: k < i < |s| ==> s[i] != c
  {
    if |s| == 0 then -1
    else if s[|s| - 1] == c then |s| - 1
    else LastIndexOf(s[..|s| - 1], c)
  }

  /** Everything after the last occurrence of `c`, or all of `s` when there is
      none: `s.substr(s.lastIndexOf(c) + 1)`. */
  function AfterLast(s: string, c: char): (r: string)
    ensures c !in r
    ensures |r| <= |s| && r == s[|s| - |r|..]
    ensures |r| < |s| ==> s[|s| - |r| - 1] == c
  {
    s[LastIndexOf(s, c) + 1..]
  }

  lemma AfterLastOfJoin(a: string, c: char, b: string)
    requires c !in b
    ensures AfterLast(a + [c] + b, c) == b
  {
    var s := a + [c] + b;
    assert s[|a|] == c;
    assert forall i :: |a| < i < |s| ==> s[i] == b[i - |a| - 1];
    assert LastIndexOf(s, c) == |a|;
    assert s[|a| + 1..] == b;
  }

  // ---------------------------------------------------------------------------
  // split

  function IndexOfChar(s: string, c: char): (i: nat)
    requires c in s
    ensures i < |s| && s[i] == c && c !in s[..i]
  {
    if s[0] == c then 0 else 1 + IndexOfChar(s[1..], c)
  }

  /** `s.split(sep)` for a one-character separator. */
  function SplitOn(s: string, sep: char): (parts: seq<string>)
    ensures |parts| >= 1
    ensures forall i :: 0 <= i < |parts| ==> sep !in parts[i]
    decreases |s|
  {
    if sep !in s then [s]
    else
      var i := IndexOfChar(s, sep);
      [s[..i]] + SplitOn(s[i + 1..], sep)
  }

  /** A string without the separator splits into itself alone. */
  lemma SplitOnAbsent(s: string, sep: char)
    requires sep !in s
    ensures SplitOn(s, sep) == [s]
  {
  }

  /** `parts.join(sep)` */
  function Join(parts: seq<string>, sep: char): string {
    if |parts| == 0 then ""
    else if |parts| == 1 then parts[0]
    else parts[0] + [sep] + Join(parts[1..], sep)
  }

  /** Splitting and joining on the same separator gives the text back. */
  lemma {:induction false} SplitOnJoin(s: string, sep: char)
    ensures Join(SplitOn(s, sep), sep) == s
    decreases |s|
  {
    if sep in s {
      var i := IndexOfChar(s, sep);
      var rest := SplitOn(s[i + 1..], sep);
      SplitOnJoin(s[i + 1..], sep);
      var parts := [s[..i]] + rest;
      assert SplitOn(s, sep) == parts;
      assert |parts| >= 2 && parts[0] == s[..i] && parts[1..] == rest;
      assert Join(parts, sep) == s[..i] + [sep] + Join(rest, sep);
      assert s == s[..i] + [sep] + s[i + 1..];
    }
  }

  predicate HasSpace(s: string) {
    exists i :: 0 <= i < |s| && IsSpace(s[i])
  }

  function FirstSpace(s: string): (i: nat)
    requires HasSpace(s)
    ensures i < |s| && IsSpace(s[i]) && !HasSpace(s[..i])
  {
    if IsSpace(s[0]) then 0
    else
      assert HasSpace(s[1..]) by {
        var k :| 0 <= k < |s| && IsSpace(s[k]);
        assert s[1..][k - 1] == s[k];
      }
      var k := FirstSpace(s[1..]);
      assert s[1..][..k] == s[1..k + 1];
      1 + k
  }

  /** The end of the run of white space that starts at `i`. */
  function SpaceRunEnd(s: string, i: nat): (j: nat)
    requires i <= |s|
    ensures i <= j <= |s|
    ensures forall k :: i <= k < j ==> IsSpace(s[k])
    ensures j == |s| || !IsSpace(s[j])
    decreases |s| - i
  {
    if i < |s| && IsSpace(s[i]) then SpaceRunEnd(s, i + 1) else i
  }

  /** `s.split(/\s+/)`: the pieces between maximal runs of white space,
      including an empty first (last) piece when `s` starts (ends) with one. */
  function SplitWs(s: string): (parts: seq<string>)
    ensures |parts| >= 1
    ensures forall i :: 0 <= i < |parts| ==> !HasSpace(parts[i])
    decreases |s|
  {
    if !HasSpace(s) then [s]
    else
      var i := FirstSpace(s);
      [s[..i]] + SplitWs(s[SpaceRunEnd(s, i)..])
  }

  /** The first white space of `s` is at `j` when `j` holds one and nothing
      before it does. */
  lemma {:induction false} FirstSpaceAt(s: string, j: nat)
    requires j < |s| && IsSpace(s[j]) && !HasSpace(s[..j])
    ensures HasSpace(s) && FirstSpace(s) == j
    decreases j
  {
    assert 0 <= j < |s| && IsSpace(s[j]);
    if j > 0 {
      assert s[0] == s[..j][0];
      var t := s[1..];
      assert t[j - 1] == s[j];
      var u := t[..j - 1];
      assert !HasSpace(u) by {
        forall k | 0 <= k < |u| ensures !IsSpace(u[k]) {
          assert u[k] == s[..j][k + 1];
        }
      }
      FirstSpaceAt(t, j - 1);
    }
  }

  /** A non-empty run of white space: what `\s+` matches between words. */
  predicate IsSpaceRun(g: string) {
    |g| > 0 && forall k :: 0 <= k < |g| ==> IsSpace(g[k])
  }

  /** The words with the given runs of white space between them, as in a
      column-padded table row. */
  function JoinWith(words: seq<string>, gaps: seq<string>): string
    requires |words| >= 1 && |gaps| == |words| - 1
  {
    if |words| == 1 then words[0]
    else words[0] + gaps[0] + JoinWith(words[1..], gaps[1..])
  }

  /** The run of white space from `i` ends at `j` when everything in between
      is white space and `s[j]` is not. */
  lemma {:induction false} SpaceRunEndAt(s: string, i: nat, j: nat)
    requires i <= j <= |s|
    requires forall k :: i <= k < j ==> IsSpace(s[k])
    requires j == |s| || !IsSpace(s[j])
    ensures SpaceRunEnd(s, i) == j
    decreases j - i
  {
    if i < j {
      SpaceRunEndAt(s, i + 1, j);
    }
  }

  /** A string whose first white space is at `i` splits there, and again
      after the run of white space that starts at `i`. */
  lemma SplitWsAt(s: string, i: nat)
    requires i < |s| && IsSpace(s[i]) && !HasSpace(s[..i])
    ensures SplitWs(s) == [s[..i]] + SplitWs(s[SpaceRunEnd(s, i)..])
  {
    FirstSpaceAt(s, i);
  }

  /** After a word, a run of white space ends where the next text begins. */
  lemma RunAfterWord(w: string, g: string, rest: string)
    requires IsSpaceRun(g)
    requires rest == [] || !IsSpace(rest[0])
    ensures SpaceRunEnd(w + g + rest, |w|) == |w| + |g|
  {
    var s := w + g + rest;
    var e := |w| + |g|;
    forall k | |w| <= k < e ensures IsSpace(s[k]) {
      assert s[k] == g[k - |w|];
    }
    if e < |s| {
      assert s[e] == rest[0];
    }
    SpaceRunEndAt(s, |w|, e);
  }

  /** A word, a run of white space, and a remainder that does not start with
      white space split into the word and the remainder's pieces. */
  lemma SplitWsConsRun(w: string, g: string, rest: string)
    requires !HasSpace(w) && IsSpaceRun(g)
    requires rest == [] || !IsSpace(rest[0])
    ensures SplitWs(w + g + rest) == [w] + SplitWs(rest)
  {
    var s := w + g + rest;
    assert s[..|w|] == w;
    assert s[|w|] == g[0];
    RunAfterWord(w, g, rest);
    SplitWsAt(s, |w|);
    assert s[|w| + |g|..] == rest;
  }

  /** Words joined by single spaces are the words with one-space gaps. */
  lemma {:induction false} JoinAsJoinWith(words: seq<string>, gaps: seq<string>)
    requires |words| >= 1 && |gaps| == |words| - 1
    requires forall i :: 0 <= i < |gaps| ==> gaps[i] == " "
    ensures Join(words, ' ') == JoinWith(words, gaps)
  {
    if |words| > 1 {
      JoinAsJoinWith(words[1..], gaps[1..]);
      assert gaps[0] == [' '];
    }
  }

  /** Joined non-empty words start with the first word's first character and
      end with the last word's last character. */
  lemma {:induction false} JoinWithEnds(words: seq<string>, gaps: seq<string>)
    requires |words| >= 1 && |gaps| == |words| - 1
    requires forall i :: 0 <= i < |words| ==> words[i] != ""
    ensures |JoinWith(words, gaps)| > 0
    ensures JoinWith(words, gaps)[0] == words[0][0]
    ensures JoinWith(words, gaps)[|JoinWith(words, gaps)| - 1] == words[|words| - 1][|words[|words| - 1]| - 1]
  {
    if |words| > 1 {
      JoinWithEnds(words[1..], gaps[1..]);
    }
  }

  /** Splitting words joined by runs of white space gives the words back. */
  lemma {:induction false} SplitWsJoinWith(words: seq<string>, gaps: seq<string>)
    requires |words| >= 1 && |gaps| == |words| - 1
    requires forall i :: 0 <= i < |words| ==> words[i] != "" && !HasSpace(words[i])
    requires forall i :: 0 <= i < |gaps| ==> IsSpaceRun(gaps[i])
    ensures SplitWs(JoinWith(words, gaps)) == words
  {
    if |words| > 1 {
      var rest := JoinWith(words[1..], gaps[1..]);
      JoinWithEnds(words[1..], gaps[1..]);
      SplitWsJoinWith(words[1..], gaps[1..]);
      SplitWsConsRun(words[0], gaps[0], rest);
      assert words == [words[0]] + words[1..];
    }
  }

  /** White space in front of a text that does not start with white space is
      all `trimStart` removes. */
  lemma {:induction false} TrimStartPast(lead: string, core: string, trail: string)
    requires forall k :: 0 <= k < |lead| ==> IsSpace(lead[k])
    requires core != [] && !IsSpace(core[0])
    ensures TrimStart(lead + core + trail) == core + trail
    decreases |lead|
  {
    if lead == [] {
      assert lead + core + trail == core + trail;
      assert (core + trail)[0] == core[0];
    } else {
      var s := lead + core + trail;
      assert s[0] == lead[0];
      assert s[1..] == lead[1..] + core + trail;
      TrimStartPast(lead[1..], core, trail);
    }
  }

  /** White space after a text that does not end with white space is all
      `trimEnd` removes. */
  lemma {:induction false} TrimEndPast(y: string, trail: string)
    requires forall k :: 0 <= k < |trail| ==> IsSpace(trail[k])
    requires y != [] && !IsSpace(y[|y| - 1])
    ensures TrimEnd(y + trail) == y
    decreases |trail|
  {
    if trail == [] {
      assert y + trail == y;
    } else {
      var s := y + trail;
      var shorter := trail[..|trail| - 1];
      assert s[|s| - 1] == trail[|trail| - 1];
      assert s[..|s| - 1] == y + shorter;
      TrimEndPast(y, shorter);
    }
  }

  /** `trim` of a non-empty trimmed text padded with white space is that
      text. */
  lemma TrimPadded(lead: string, core: string, trail: string)
    requires forall k :: 0 <= k < |lead| ==> IsSpace(lead[k])
    requires forall k :: 0 <= k < |trail| ==> IsSpace(trail[k])
    requires core != [] && IsTrimmed(core)
    ensures Trim(lead + core + trail) == core
  {
    TrimStartPast(lead, core, trail);
    TrimEndPast(core, trail);
  }

  lemma {:induction false} JoinWithout(parts: seq<string>, sep: char, c: char)
    requires c != sep && forall i :: 0 <= i < |parts| ==> c !in parts[i]
    ensures c !in Join(parts, sep)
  {
    if |parts| > 1 {
      JoinWithout(parts[1..], sep, c);
    }
  }

  /** The maximal run of `radix` digits at the front of `s`. */
  function LeadingDigits(s: string, radix: nat): (d: string)
    ensures |d| <= |s| && d == s[..|d|]
    ensures forall i :: 0 <= i < |d| ==> IsRadixDigit(d[i], radix)
    ensures |d| < |s| ==> !IsRadixDigit(s[|d|], radix)
  {
    if |s| > 0 && IsRadixDigit(s[0], radix) then [s[0]] + LeadingDigits(s[1..], radix) else []
  }

  /** `s.replaceAll(p, "")`: deletes the non-overlapping occurrences of `p`,
      found from left to right. */
  function RemoveAll(s: string, p: string): string
    requires |p| > 0
    decreases |s|
  {
    if |s| == 0 then ""
    else if StartsWith(s, p) then RemoveAll(s[|p|..], p)
    else [s[0]] + RemoveAll(s[1..], p)
  }

  /** A leading occurrence is removed and the search resumes after it. */
  lemma RemoveAllLeading(p: string, t: string)
    requires |p| > 0
    ensures RemoveAll(p + t, p) == RemoveAll(t, p)
  {
    var s := p + t;
    assert StartsWith(s, p);
    assert s[|p|..] == t;
  }

  lemma {:induction false} RemoveAllAbsent(s: string, p: string)
    requires |p| > 0 && !Includes(s, p)
    ensures RemoveAll(s, p) == s
    decreases |s|
  {
    if |s| > 0 {
      RemoveAllAbsent(s[1..], p);
    }
  }

  // ---------------------------------------------------------------------------
  // parseInt

  function DigitsValue(d: string, radix: nat): nat {
    if d == [] then 0 else DigitsValue(d[..|d| - 1], radix) * radix + DigitOf(d[|d| - 1])
  }

  /** The global `parseInt(s)` with no radix argument: leading white space is
      skipped, one sign is accepted, a `0x`/`0X` prefix selects base 16, and
      the longest run of digits that follows is read; NaN when there is none. */
  function ParseInt(s: string): Number {
    var t := TrimStart(s);
    if |t| > 0 && t[0] == '-' then Negate(ParseMagnitude(t[1..]))
    else if |t| > 0 && t[0] == '+' then ParseMagnitude(t[1..])
    else ParseMagnitude(t)
  }

  function Negate(x: Number): Number {
    match x
    case NaN => NaN
    case Int(i) => Int(-i)
  }

  function ParseMagnitude(u: string): Number {
    if StartsWith(u, "0x") || StartsWith(u, "0X") then DigitsNumber(LeadingDigits(u[2..], 16), 16)
    else DigitsNumber(LeadingDigits(u, 10), 10)
  }

  function DigitsNumber(digits: string, radix: nat): Number {
    if digits == [] then NaN else Int(DigitsValue(digits, radix))
  }

  lemma {:induction false} DecimalValue(n: nat)
    ensures DigitsValue(NatToDecimal(n), 10) == n
  {
    if n >= 10 {
      var s := NatToDecimal(n);
      assert s[..|s| - 1] == NatToDecimal(n / 10);
      DecimalValue(n / 10);
    }
  }

  lemma LeadingDigitsOfDigits(s: string, radix: nat)
    requires AllDigits(s)
    ensures LeadingDigits(s, radix) == s
  {
  }

  lemma ParseMagnitudeOfDigits(u: string)
    requires |u| > 0 && AllDigits(u)
    ensures ParseMagnitude(u) == Int(DigitsValue(u, 10))
  {
    assert !StartsWith(u, "0x") && !StartsWith(u, "0X") by {
      if |u| >= 2 {
        assert IsDigit(u[1]);
      }
    }
    LeadingDigitsOfDigits(u, 10);
  }

  lemma TrimStartOfNonSpace(s: string)
    requires |s| > 0 && !IsSpace(s[0])
    ensures TrimStart(s) == s
  {
  }

  /** `parseInt` reads back what decimal stringification writes. */
  lemma ParseIntOfDecimal(n: int)
    ensures ParseInt(IntToDecimal(n)) == Int(n)
  {
    var m: nat := if n < 0 then -n else n;
    var u := NatToDecimal(m);
    DecimalValue(m);
    ParseMagnitudeOfDigits(u);
    var s := IntToDecimal(n);
    assert s[0] == '-' || IsDigit(s[0]);
    TrimStartOfNonSpace(s);
    if n < 0 {
      assert s[1..] == u;
    }
  }

  lemma ParseIntOfNat(n: nat)
    ensures ParseInt(NatToDecimal(n)) == Int(n)
  {
    ParseIntOfDecimal(n);
  }

  // ---------------------------------------------------------------------------
  // Generic sequence filter (`Array.prototype.filter`)

  function Filter<T>(f: T -> bool, s: seq<T>): (r: seq<T>)
    ensures |r| <= |s|
    ensures forall i :: 0 <= i < |r| ==> r[i] in s && f(r[i])
    ensures forall i :: 0 <= i < |s| && f(s[i]) ==> s[i] in r
  {
    if s == [] then [] else (if f(s[0]) then [s[0]] else []) + Filter(f, s[1..])
  }

  /** Filtering a list with one more element at the end keeps what it kept
      and then that element if it passes. */
  lemma {:induction false} FilterSnoc<T>(f: T -> bool, s: seq<T>, x: T)
    ensures Filter(f, s + [x]) == Filter(f, s) + (if f(x) then [x] else [])
  {
    if s == [] {
      assert [x][1..] == [];
    } else {
      assert (s + [x])[0] == s[0];
      assert (s + [x])[1..] == s[1..] + [x];
      FilterSnoc(f, s[1..], x);
    }
  }
}
