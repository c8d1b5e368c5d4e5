/** The handful of Python `str` operations the modelled code relies on:
    `strip`, `startswith`, `in`, `split`, `join`, `splitlines`, `int(...)`,
    decimal rendering in f-strings, and the ordering `sorted` uses. */
module PyStr {
  import opened Wrappers

  /** `str.isspace` for one character: the characters Python's `strip()`
      removes when called without arguments. */
  const Whitespace: set<char> := {' ', '\t', '\n', '\r', '\U{0B}', '\U{0C}', '\U{1C}', '\U{1D}', '\U{1E}', '\U{1F}',
    '\U{85}', '\U{A0}', '\U{1680}', '\U{2000}', '\U{2001}', '\U{2002}', '\U{2003}', '\U{2004}', '\U{2005}',
    '\U{2006}', '\U{2007}', '\U{2008}', '\U{2009}', '\U{200A}', '\U{2028}', '\U{2029}', '\U{202F}', '\U{205F}', '\U{3000}'}

  predicate IsSpace(c: char)
  {
    c in Whitespace
  }

  /** Every character of `s` is whitespace. */
  predicate AllSpace(s: string)
  {
    forall k :: 0 <= k < |s| ==> IsSpace(s[k])
  }

  /** `str.lstrip()`: a suffix of `s` that does not start with whitespace
      (what it drops is whitespace: `LStripDropsSpace`). */
  function LStrip(s: string): (r: string)
    ensures |r| <= |s|
    ensures r != [] ==> !IsSpace(r[0])
  {
    if s != [] && IsSpace(s[0]) then LStrip(s[1..]) else s
  }

  /** What `lstrip` keeps is a suffix. */
  lemma {:induction false} LStripSuffix(s: string)
    ensures LStrip(s) == s[|s| - |LStrip(s)|..]
    decreases |s|
  {
    if s != [] && IsSpace(s[0]) {
      LStripSuffix(s[1..]);
    }
  }

  /** `str.rstrip()`: a prefix of `s` that does not end with whitespace
      (what it drops is whitespace: `RStripDropsSpace`). */
  function RStrip(s: string): (r: string)
    ensures |r| <= |s|
    ensures r != [] ==> !IsSpace(r[|r| - 1])
  {
    if s != [] && IsSpace(s[|s| - 1]) then RStrip(s[..|s| - 1]) else s
  }

  /** What `rstrip` keeps is a prefix. */
  lemma {:induction false} RStripPrefix(s: string)
    ensures RStrip(s) == s[..|RStrip(s)|]
    decreases |s|
  {
    if s != [] && IsSpace(s[|s| - 1]) {
      RStripPrefix(s[..|s| - 1]);
    }
  }

  /** `lstrip` drops only whitespace. */
  lemma {:induction false} LStripDropsSpace(s: string)
    ensures AllSpace(s[..|s| - |LStrip(s)|])
    decreases |s|
  {
    if s != [] && IsSpace(s[0]) {
      var r := LStrip(s[1..]);
      LStripDropsSpace(s[1..]);
      var d := s[..|s| - |r|];
      var d' := s[1..][..|s| - 1 - |r|];
      assert d == [s[0]] + d';
      forall k | 0 <= k < |d|
        ensures IsSpace(d[k])
      {
        if k > 0 {
          assert d[k] == d'[k - 1];
        }
      }
    }
  }

  /** `rstrip` drops only whitespace. */
  lemma {:induction false} RStripDropsSpace(s: string)
    ensures AllSpace(s[|RStrip(s)|..])
    decreases |s|
  {
    if s != [] && IsSpace(s[|s| - 1]) {
      var r := RStrip(s[..|s| - 1]);
      RStripDropsSpace(s[..|s| - 1]);
      var d := s[|r|..];
      var d' := s[..|s| - 1][|r|..];
      assert d == d' + [s[|s| - 1]];
      forall k | 0 <= k < |d|
        ensures IsSpace(d[k])
      {
        if k < |d'| {
          assert d[k] == d'[k];
        }
      }
    }
  }

  /** `str.strip()`: the longest infix of `s` that neither starts nor ends with
      whitespace, once all the surrounding whitespace is gone. */
  function Strip(s: string): (r: string)
    ensures |r| <= |s|
    ensures r != [] ==> !IsSpace(r[0]) && !IsSpace(r[|r| - 1])
  {
    RStripPrefix(LStrip(s));
    RStrip(LStrip(s))
  }

  /** `strip` keeps only characters of `s`. */
  lemma StripKeeps(s: string, c: char)
    requires c in Strip(s)
    ensures c in s
  {
    var l := LStrip(s);
    LStripSuffix(s);
    RStripPrefix(l);
    var k :| 0 <= k < |Strip(s)| && Strip(s)[k] == c;
    assert l[k] == c;
    assert s[|s| - |l| + k] == c;
  }

  /** A stripped string is its own strip: `strip` is idempotent. */
  lemma StripIdempotent(s: string)
    ensures Strip(Strip(s)) == Strip(s)
  {
    StripOfTrimmed(Strip(s));
  }

  /** A string that neither starts nor ends with whitespace is its own strip. */
  lemma StripOfTrimmed(t: string)
    requires t != [] ==> !IsSpace(t[0]) && !IsSpace(t[|t| - 1])
    ensures Strip(t) == t
  {
    assert LStrip(t) == t;
    assert RStrip(t) == t;
  }

  /** An all-whitespace string strips to empty, and a string containing a
      non-whitespace character does not. */
  lemma StripEmptyIff(s: string)
    ensures Strip(s) == [] <==> AllSpace(s)
  {
    var l := LStrip(s);
    LStripDropsSpace(s);
    RStripDropsSpace(l);
    LStripSuffix(s);
    RStripPrefix(l);
    if Strip(s) == [] {
      assert RStrip(l) == [];
      assert l[0..] == l;
      assert l == [];
      assert s[..|s|] == s;
    } else {
      var r := Strip(s);
      assert r[0] == l[0] == s[|s| - |l|];
      assert !IsSpace(s[|s| - |l|]);
    }
  }

  /** `s.startswith(p)`. */
  predicate StartsWith(s: string, p: string)
  {
    |p| <= |s| && s[..|p|] == p
  }

  /** `p in s` for a (possibly multi-character) needle. */
  predicate ContainsSub(s: string, p: string)
    decreases |s|
  {
    if |s| < |p| then false else StartsWith(s, p) || (s != [] && ContainsSub(s[1..], p))
  }

  /** `p` occurs in `s` at offset `k`. */
  predicate OccursAt(s: string, p: string, k: int)
  {
    0 <= k <= |s| - |p| && s[k..k + |p|] == p
  }

  /** `ContainsSub` holds exactly when `p` occurs somewhere in `s`. */
  lemma {:induction false} ContainsSubIff(s: string, p: string)
    ensures ContainsSub(s, p) <==> exists k :: OccursAt(s, p, k)
    decreases |s|
  {
    if |s| < |p| {
    } else if s == [] {
      assert OccursAt(s, p, 0);
    } else {
      ContainsSubIff(s[1..], p);
      if ContainsSub(s[1..], p) {
        var k :| OccursAt(s[1..], p, k);
        assert s[k + 1..k + 1 + |p|] == s[1..][k..k + |p|];
        assert OccursAt(s, p, k + 1);
      }
      if StartsWith(s, p) {
        assert OccursAt(s, p, 0);
      }
      if exists k :: OccursAt(s, p, k) {
        var k :| OccursAt(s, p, k);
        if k == 0 {
          assert StartsWith(s, p);
        } else {
          assert s[1..][k - 1..k - 1 + |p|] == s[k..k + |p|];
          assert OccursAt(s[1..], p, k - 1);
        }
      }
    }
  }

  /** `sep.join(parts)`. */
  function Join(parts: seq<string>, sep: string): (r: string)
    ensures parts == [] ==> r == []
    ensures |parts| == 1 ==> r == parts[0]
  {
    if parts == [] then []
    else if |parts| == 1 then parts[0]
    else parts[0] + sep + Join(parts[1..], sep)
  }

  /** Total length of the parts (a `join` with an empty separator). */
  function TotalLength(parts: seq<string>): nat
  {
    if parts == [] then 0 else |parts[0]| + TotalLength(parts[1..])
  }

  /** Joining k >= 1 parts puts exactly k - 1 separators between them. */
  lemma {:induction false} JoinLength(parts: seq<string>, sep: string)
    requires parts != []
    ensures |Join(parts, sep)| == TotalLength(parts) + (|parts| - 1) * |sep|
  {
    if |parts| > 1 {
      JoinLength(parts[1..], sep);
    }
  }

  /** Joining appends one separator and the new part at the end. */
  lemma {:induction false} JoinSnoc(parts: seq<string>, x: string, sep: string)
    requires parts != []
    ensures Join(parts + [x], sep) == Join(parts, sep) + sep + x
  {
    if |parts| == 1 {
      assert (parts + [x])[1..] == [x];
    } else {
      assert (parts + [x])[1..] == parts[1..] + [x];
      JoinSnoc(parts[1..], x, sep);
    }
  }

  /** `r` holds `a` from position `o` on. */
  predicate InfixAt(r: string, o: int, a: string)
  {
    0 <= o && o + |a| <= |r| && r[o..o + |a|] == a
  }

  /** Where part i starts inside `Join(parts, sep)`: the parts before it and
      one separator after each of them. */
  function PartOffset(parts: seq<string>, sep: string, i: nat): nat
    requires i <= |parts|
  {
    TotalLength(parts[..i]) + i * |sep|
  }

  /** Part i of a join sits at `PartOffset(parts, sep, i)`, and a separator
      follows every part but the last. */
  lemma {:induction false} JoinPartAt(parts: seq<string>, sep: string, i: nat)
    requires i < |parts|
    ensures var o := PartOffset(parts, sep, i);
            var r := Join(parts, sep);
            InfixAt(r, o, parts[i]) && (i + 1 < |parts| ==> InfixAt(r, o + |parts[i]|, sep))
  {
    var r := Join(parts, sep);
    if i == 0 {
      JoinFirstPart(parts, sep);
    } else {
      var tail := parts[1..];
      JoinPartAt(tail, sep, i - 1);
      var d := |parts[0]| + |sep|;
      var o' := PartOffset(tail, sep, i - 1);
      PartOffsetCons(parts, sep, i);
      JoinTailAt(parts, sep);
      SliceShift(r, d, Join(tail, sep), o', parts[i]);
      if i + 1 < |parts| {
        SliceShift(r, d, Join(tail, sep), o' + |parts[i]|, sep);
      }
    }
  }

  /** The first part opens the join, followed by a separator when more follow. */
  lemma JoinFirstPart(parts: seq<string>, sep: string)
    requires parts != []
    ensures PartOffset(parts, sep, 0) == 0
    ensures InfixAt(Join(parts, sep), 0, parts[0])
    ensures |parts| > 1 ==> InfixAt(Join(parts, sep), |parts[0]|, sep)
  {
    assert parts[..0] == [];
    if |parts| > 1 {
      assert Join(parts, sep) == parts[0] + sep + Join(parts[1..], sep);
    }
  }

  /** Past the first part, the offsets are those of the remaining parts. */
  lemma PartOffsetCons(parts: seq<string>, sep: string, i: nat)
    requires 1 <= i <= |parts|
    ensures PartOffset(parts, sep, i) == |parts[0]| + |sep| + PartOffset(parts[1..], sep, i - 1)
  {
    assert parts[..i][1..] == parts[1..][..i - 1];
    assert TotalLength(parts[..i]) == |parts[0]| + TotalLength(parts[1..][..i - 1]);
    assert i * |sep| == |sep| + (i - 1) * |sep|;
  }

  /** Past the first part and its separator comes the join of the rest. */
  lemma JoinTailAt(parts: seq<string>, sep: string)
    requires |parts| > 1
    ensures |parts[0]| + |sep| <= |Join(parts, sep)|
    ensures Join(parts, sep)[|parts[0]| + |sep|..] == Join(parts[1..], sep)
  {
    assert Join(parts, sep) == parts[0] + sep + Join(parts[1..], sep);
  }

  /** A slice of a suffix `r[d..]` is the slice of `r` shifted by `d`. */
  lemma SliceShift(r: string, d: nat, rest: string, o: int, a: string)
    requires d <= |r| && r[d..] == rest && InfixAt(rest, o, a)
    ensures InfixAt(r, d + o, a)
  {
    assert r[d + o..d + o + |a|] == r[d..][o..o + |a|];
  }

  /** Number of non-overlapping occurrences of `sep` found scanning left to
      right, as `str.split` and `str.count` find them. */
  function Occurrences(s: string, sep: string): nat
    requires sep != []
    decreases |s|
  {
    if |s| < |sep| then 0
    else if s[..|sep|] == sep then 1 + Occurrences(s[|sep|..], sep)
    else Occurrences(s[1..], sep)
  }

  /** `s.split(sep)` for a non-empty separator: the pieces between the
      non-overlapping occurrences of `sep`, scanned left to right. */
  function Split(s: string, sep: string): (r: seq<string>)
    requires sep != []
    ensures r != []
    decreases |s|
  {
    if |s| < |sep| then [s]
    else if s[..|sep|] == sep then [""] + Split(s[|sep|..], sep)
    else
      var rest := Split(s[1..], sep);
      [[s[0]] + rest[0]] + rest[1..]
  }

  /** k occurrences of the separator give k + 1 pieces. */
  lemma {:induction false} SplitCount(s: string, sep: string)
    requires sep != []
    ensures |Split(s, sep)| == Occurrences(s, sep) + 1
    decreases |s|
  {
    if |s| < |sep| {
    } else if s[..|sep|] == sep {
      SplitCount(s[|sep|..], sep);
    } else {
      SplitCount(s[1..], sep);
    }
  }

  /** Splitting and re-joining with the same separator gives back the input. */
  lemma {:induction false} SplitJoin(s: string, sep: string)
    requires sep != []
    ensures Join(Split(s, sep), sep) == s
    decreases |s|
  {
    if |s| < |sep| {
    } else if s[..|sep|] == sep {
      SplitJoin(s[|sep|..], sep);
      JoinEmptyHead(Split(s[|sep|..], sep), sep);
      assert s == sep + s[|sep|..];
    } else {
      SplitJoin(s[1..], sep);
      JoinMergedHead(s[0], Split(s[1..], sep), sep);
      assert s == [s[0]] + s[1..];
    }
  }

  /** An empty first part contributes only its separator. */
  lemma JoinEmptyHead(rest: seq<string>, sep: string)
    requires rest != []
    ensures Join([""] + rest, sep) == sep + Join(rest, sep)
  {
    assert ([""] + rest)[1..] == rest;
  }

  /** Prefixing one character to the first part prefixes it to the join. */
  lemma JoinMergedHead(c: char, rest: seq<string>, sep: string)
    requires rest != []
    ensures Join([[c] + rest[0]] + rest[1..], sep) == [c] + Join(rest, sep)
  {
    var r := [[c] + rest[0]] + rest[1..];
    if |rest| > 1 {
      assert r[1..] == rest[1..];
    }
  }

  /** A string without the separator splits into itself alone. */
  lemma {:induction false} SplitWithout(s: string, sep: string)
    requires sep != []
    requires !ContainsSub(s, sep)
    ensures Split(s, sep) == [s]
    decreases |s|
  {
    if |s| >= |sep| {
      assert !StartsWith(s, sep);
      SplitWithout(s[1..], sep);
      assert [s[0]] + s[1..] == s;
    }
  }

  // ---------------------------------------------------------------------
  // Digits, int(...) and decimal rendering

  predicate IsDigit(c: char)
  {
    '0' <= c <= '9'
  }

  function DigitValue(c: char): nat
    requires IsDigit(c)
  {
    (c as int - '0' as int) as nat
  }

  function DigitChar(d: nat): (c: char)
    requires d < 10
    ensures IsDigit(c) && DigitValue(c) == d
  {
    ('0' as int + d) as char
  }

  /** The f-string rendering of a non-negative integer: decimal, no leading
      zeros. */
  function NatToString(n: nat): (r: string)
    ensures r != []
    ensures forall k :: 0 <= k < |r| ==> IsDigit(r[k])
    ensures |r| > 1 ==> r[0] != '0'
  {
    if n < 10 then [DigitChar(n)]
    else NatToString(n / 10) + [DigitChar(n % 10)]
  }

  /** The f-string rendering of any integer. */
  function IntToString(i: int): (r: string)
    ensures r != []
    ensures i >= 0 ==> r == NatToString(i)
    ensures i < 0 ==> r[0] == '-'
  {
    if i < 0 then "-" + NatToString(-i) else NatToString(i)
  }

  /** A digit string as Python integer literals accept it in `int(...)`: digits,
      with single underscores allowed between two digits. */
  predicate IsDigitGroups(s: string)
  {
    && s != []
    && IsDigit(s[0]) && IsDigit(s[|s| - 1])
    && (forall k :: 0 <= k < |s| ==> IsDigit(s[k]) || s[k] == '_')
    && (forall k :: 0 <= k < |s| - 1 ==> !(s[k] == '_' && s[k + 1] == '_'))
  }

  /** The value of a digit string, underscores ignored. */
  function DigitsValue(s: string): nat
    requires forall k :: 0 <= k < |s| ==> IsDigit(s[k]) || s[k] == '_'
  {
    if s == [] then 0
    else if s[|s| - 1] == '_' then DigitsValue(s[..|s| - 1])
    else DigitsValue(s[..|s| - 1]) * 10 + DigitValue(s[|s| - 1])
  }

  /** `int(s)` on a string: surrounding whitespace ignored, an optional sign,
      then digit groups; anything else is a `ValueError` (`None` here). */
  function ParseInt(s: string): (r: Option<int>)
    ensures r.Some? ==> Strip(s) != []
  {
    var t := Strip(s);
    if t == [] then None
    else if t[0] == '-' || t[0] == '+' then
      var body := t[1..];
      if IsDigitGroups(body) then
        Some(if t[0] == '-' then -(DigitsValue(body) as int) else DigitsValue(body))
      else None
    else if IsDigitGroups(t) then Some(DigitsValue(t))
    else None
  }

  lemma DigitNotSpace(c: char)
    requires IsDigit(c)
    ensures !IsSpace(c)
  {
  }

  lemma {:induction false} DigitsValueOfRendering(n: nat)
    ensures DigitsValue(NatToString(n)) == n
  {
    if n >= 10 {
      DigitsValueOfRendering(n / 10);
      var r := NatToString(n);
      assert r[..|r| - 1] == NatToString(n / 10);
    }
  }

  /** Rendering an integer and parsing it back gives the integer. */
  lemma ParseIntOfRendering(n: nat)
    ensures ParseInt(NatToString(n)) == Some(n)
  {
    var r := NatToString(n);
    DigitNotSpace(r[0]);
    DigitNotSpace(r[|r| - 1]);
    StripOfTrimmed(r);
    assert IsDigitGroups(r);
    DigitsValueOfRendering(n);
  }

  // ---------------------------------------------------------------------
  // splitlines

  /** The line boundaries `str.splitlines` recognises. */
  predicate IsLineBreak(c: char)
  {
    c == '\n' || c == '\r' || c == '\U{0B}' || c == '\U{0C}' || c == '\U{1C}' || c == '\U{1D}'
    || c == '\U{1E}' || c == '\U{85}' || c == '\U{2028}' || c == '\U{2029}'
  }

  /** Index of the first line break in `s`, or `|s|` when there is none. */
  function FirstBreak(s: string): (k: nat)
    ensures k <= |s|
    ensures k < |s| ==> IsLineBreak(s[k])
    ensures forall j :: 0 <= j < k ==> !IsLineBreak(s[j])
  {
    if s == [] then 0
    else if IsLineBreak(s[0]) then 0
    else 1 + FirstBreak(s[1..])
  }

  /** `str.splitlines()`: a `\r\n` pair is one boundary, and a final
      boundary does not start an empty last line. */
  function SplitLines(s: string): (lines: seq<string>)
    ensures forall i, j :: 0 <= i < |lines| && 0 <= j < |lines[i]| ==> !IsLineBreak(lines[i][j])
    ensures s == [] <==> lines == []
    decreases |s|
  {
    if s == [] then []
    else
      var k := FirstBreak(s);
      if k == |s| then [s]
      else
        var width := if s[k] == '\r' && k + 1 < |s| && s[k + 1] == '\n' then 2 else 1;
        [s[..k]] + SplitLines(s[k + width..])
  }

  /** A non-empty text without line breaks is one line. */
  lemma SplitLinesSingle(s: string)
    requires s != []
    requires forall j :: 0 <= j < |s| ==> !IsLineBreak(s[j])
    ensures SplitLines(s) == [s]
  {
  }

  // ---------------------------------------------------------------------
  // The ordering of `sorted` on names

  /** Python's `<=` on strings: lexicographic by code point. */
  predicate StrLe(a: string, b: string)
    decreases |a|
  {
    a == [] || (b != [] && (a[0] < b[0] || (a[0] == b[0] && StrLe(a[1..], b[1..]))))
  }

  lemma {:induction false} StrLeTotal(a: string, b: string)
    ensures StrLe(a, b) || StrLe(b, a)
    decreases |a|
  {
    if a != [] && b != [] && a[0] == b[0] {
      StrLeTotal(a[1..], b[1..]);
    }
  }

  /** Generic sequence facts, stated once so that the string-heavy proofs
      need not rediscover them. */
  lemma PrefixSnoc<T>(s: seq<T>, i: nat)
    requires i < |s|
    ensures s[..i + 1] == s[..i] + [s[i]]
  {
  }

  lemma LastSplit<T>(s: seq<T>)
    requires s != []
    ensures s == s[..|s| - 1] + [s[|s| - 1]]
  {
  }

  lemma SnocAssoc<T>(p: seq<T>, x: T, rest: seq<T>)
    ensures (p + [x]) + rest == p + ([x] + rest)
  {
  }

  lemma AppendAssoc<T>(a: seq<T>, b: seq<T>, c: seq<T>, d: seq<T>)
    ensures ((a + b) + c) + d == a + ((b + c) + d)
  {
  }

  /** A sequence that agrees with `p` below `|p|` and ends in `y` is `p + [y]`. */
  lemma SnocExt<T>(l: seq<T>, p: seq<T>, y: T)
    requires |l| == |p| + 1 && l[|p|] == y
    requires forall k :: 0 <= k < |p| ==> l[k] == p[k]
    ensures l == p + [y]
  {
  }
}
