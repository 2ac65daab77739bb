/**
 * The string and path operations of Python that the scripts rely on:
 * `str.split` with a one-character separator, `str.join`, `str.index`,
 * `str.startswith`/`endswith`, `str.strip`, `str.upper`/`lower` (ASCII letters),
 * string ordering, `int()` on a decimal string, `Path.stem` and `os.path.splitext`.
 */
module Text {
  import opened Results

  // ---------------------------------------------------------------- case

  function UpperChar(c: char): char {
    if 'a' <= c <= 'z' then (c as int - 32) as char else c
  }

  function LowerChar(c: char): char {
    if 'A' <= c <= 'Z' then (c as int + 32) as char else c
  }

  /** `s.lower()` for ASCII letters; other characters are kept as they are. */
  function Lower(s: string): (r: string)
    ensures |r| == |s|
    ensures forall i :: 0 <= i < |s| ==> r[i] == LowerChar(s[i])
  {
    if s == [] then [] else [LowerChar(s[0])] + Lower(s[1..])
  }

  /** `s[0].upper() + s[1:]` for an ASCII first letter, an IndexError on the empty string. */
  function CapitalizeFirst(s: string): (r: Result<string>)
    ensures r.Ok? <==> |s| > 0
    ensures r.Ok? ==> |r.value| == |s| && r.value[0] == UpperChar(s[0]) && r.value[1..] == s[1..]
  {
    if |s| == 0 then Err(IndexError("s[0]")) else Ok([UpperChar(s[0])] + s[1..])
  }

  lemma CapitalizeIdempotent(s: string)
    requires |s| > 0
    ensures CapitalizeFirst(CapitalizeFirst(s).value) == CapitalizeFirst(s)
  {
  }

  // ---------------------------------------------------------------- prefixes and suffixes

  predicate StartsWith(s: string, prefix: string) {
    |prefix| <= |s| && s[..|prefix|] == prefix
  }

  predicate EndsWith(s: string, suffix: string) {
    |suffix| <= |s| && s[|s| - |suffix|..] == suffix
  }

  // ---------------------------------------------------------------- split and join

  /** `s.split(sep)`: the pieces between occurrences of `sep`, always at least one. */
  function Split(s: string, sep: char): (parts: seq<string>)
    ensures |parts| >= 1
    ensures forall i :: 0 <= i < |parts| ==> sep !in parts[i]
    decreases |s|
  {
    if |s| == 0 then [""]
    else
      var rest := Split(s[1..], sep);
      if s[0] == sep then [""] + rest
      else [[s[0]] + rest[0]] + rest[1..]
  }

  /** `sep.join(parts)`. */
  function Join(parts: seq<string>, sep: string): string {
    if |parts| == 0 then ""
    else if |parts| == 1 then parts[0]
    else parts[0] + sep + Join(parts[1..], sep)
  }

  /** Joining the pieces of a split with the same separator gives the string back. */
  lemma {:induction false} JoinSplit(s: string, sep: char)
    ensures Join(Split(s, sep), [sep]) == s
    decreases |s|
  {
    if |s| > 0 {
      var rest := Split(s[1..], sep);
      JoinSplit(s[1..], sep);
      if s[0] == sep {
        assert Split(s, sep) == [""] + rest;
        assert ([""] + rest)[1..] == rest;
      } else if |rest| == 1 {
        assert Split(s, sep) == [[s[0]] + rest[0]];
      } else {
        var parts := Split(s, sep);
        assert parts == [[s[0]] + rest[0]] + rest[1..];
        assert parts[1..] == rest[1..];
        assert Join(rest, [sep]) == rest[0] + [sep] + Join(rest[1..], [sep]);
      }
    }
  }

  lemma {:induction false} SplitWithoutSep(p: string, sep: char)
    requires sep !in p
    ensures Split(p, sep) == [p]
    decreases |p|
  {
    if |p| > 0 {
      SplitWithoutSep(p[1..], sep);
      assert [p[0]] + p[1..] == p;
    }
  }

  lemma {:induction false} SplitAfterPiece(p: string, sep: char, t: string)
    requires sep !in p
    ensures Split(p + [sep] + t, sep) == [p] + Split(t, sep)
    decreases |p|
  {
    if |p| == 0 {
      assert p + [sep] + t == [sep] + t;
      assert ([sep] + t)[1..] == t;
    } else {
      var s := p + [sep] + t;
      assert s[0] == p[0] && s[1..] == p[1..] + [sep] + t;
      SplitAfterPiece(p[1..], sep, t);
      assert [p[0]] + p[1..] == p;
    }
  }

  /** Splitting a join recovers the pieces when none of them contains the separator. */
  lemma {:induction false} SplitJoin(parts: seq<string>, sep: char)
    requires |parts| >= 1
    requires forall i :: 0 <= i < |parts| ==> sep !in parts[i]
    ensures Split(Join(parts, [sep]), sep) == parts
    decreases |parts|
  {
    if |parts| == 1 {
      SplitWithoutSep(parts[0], sep);
    } else {
      SplitJoin(parts[1..], sep);
      SplitAfterPiece(parts[0], sep, Join(parts[1..], [sep]));
      assert [parts[0]] + parts[1..] == parts;
    }
  }

  /** `s.split(sep)[-1]`: the text after the last `sep`. */
  function LastSegment(s: string, sep: char): (r: string)
    ensures sep !in r
    ensures |r| <= |s| && s[|s| - |r|..] == r
    ensures |r| < |s| ==> s[|s| - |r| - 1] == sep
  {
    var parts := Split(s, sep);
    LastOfSplitIsSuffix(s, sep);
    parts[|parts| - 1]
  }

  /** The last segment of `a + sep + b` is `b` when `b` has no separator. */
  lemma LastSegmentAfter(a: string, sep: char, b: string)
    requires sep !in b
    ensures LastSegment(a + [sep] + b, sep) == b
  {
    var s := a + [sep] + b;
    var r := LastSegment(s, sep);
    assert s[|s| - |b| - 1] == sep;
    assert forall i :: |s| - |r| <= i < |s| ==> s[i] == r[i - (|s| - |r|)] && s[i] != sep;
    assert forall i :: |s| - |b| <= i < |s| ==> s[i] == b[i - (|s| - |b|)] && s[i] != sep;
    assert s[|s| - |b|..] == b;
  }

  lemma {:induction false} LastOfSplitIsSuffix(s: string, sep: char)
    ensures var parts := Split(s, sep); var r := parts[|parts| - 1];
      && |r| <= |s| && s[|s| - |r|..] == r
      && (|r| < |s| ==> s[|s| - |r| - 1] == sep)
      && (|parts| > 1 ==> |r| < |s|)
    decreases |s|
  {
    if |s| > 0 {
      var t := s[1..];
      var rest := Split(t, sep);
      var parts := Split(s, sep);
      LastOfSplitIsSuffix(t, sep);
      var q := rest[|rest| - 1];
      if s[0] == sep {
        assert parts == [""] + rest;
        assert parts[|parts| - 1] == q && |parts| > 1;
        SuffixOfTail(s, sep, q);
      } else if |rest| == 1 {
        assert parts == [[s[0]] + rest[0]] + rest[1..];
        JoinSplit(t, sep);
        assert parts == [[s[0]] + t];
        assert [s[0]] + t == s;
      } else {
        assert parts == [[s[0]] + rest[0]] + rest[1..];
        assert parts[|parts| - 1] == q && |parts| > 1;
        SuffixOfTail(s, sep, q);
      }
    }
  }

  /** A suffix of `s[1..]` that follows a separator, or all of `s[1..]` after a leading one, follows one in `s`. */
  lemma SuffixOfTail(s: string, sep: char, q: string)
    requires |s| > 0 && |q| < |s| && s[1..][|s| - 1 - |q|..] == q
    requires |q| < |s| - 1 ==> s[1..][|s| - 2 - |q|] == sep
    requires |q| == |s| - 1 ==> s[0] == sep
    ensures s[|s| - |q|..] == q && s[|s| - |q| - 1] == sep
  {
    assert s[|s| - |q|..] == s[1..][|s| - 1 - |q|..];
    if |q| < |s| - 1 {
      assert s[|s| - |q| - 1] == s[1..][|s| - 2 - |q|];
    }
  }

  // ---------------------------------------------------------------- searching

  predicate OccursAt(s: string, pat: string, i: nat) {
    i + |pat| <= |s| && s[i..i + |pat|] == pat
  }

  /** The lowest index at or after `from` where `pat` occurs in `s`. */
  function FindFrom(s: string, pat: string, from: nat): (r: Option<nat>)
    requires from <= |s|
    ensures r.Some? ==> from <= r.value && OccursAt(s, pat, r.value)
    ensures r.Some? ==> forall j :: from <= j < r.value ==> !OccursAt(s, pat, j)
    ensures r.None? ==> forall j :: from <= j <= |s| ==> !OccursAt(s, pat, j)
    decreases |s| - from
  {
    if OccursAt(s, pat, from) then Some(from)
    else if from == |s| then None
    else FindFrom(s, pat, from + 1)
  }

  /** `s.index(pat)`: the lowest index of `pat`, a ValueError when it does not occur. */
  function Index(s: string, pat: string): (r: Result<nat>)
    ensures r.Ok? ==> OccursAt(s, pat, r.value) && forall j :: 0 <= j < r.value ==> !OccursAt(s, pat, j)
    ensures r.Err? ==> forall j :: 0 <= j <= |s| ==> !OccursAt(s, pat, j)
  {
    match FindFrom(s, pat, 0)
    case Some(i) => Ok(i)
    case None => Err(ValueError("substring not found"))
  }

  /** The largest index of `c` in `s`, as `s.rfind(c)` for a one-character argument. */
  function RFind(s: string, c: char): (r: Option<nat>)
    ensures r.Some? ==> r.value < |s| && s[r.value] == c && forall j :: r.value < j < |s| ==> s[j] != c
    ensures r.None? ==> c !in s
  {
    if |s| == 0 then None
    else if s[|s| - 1] == c then Some(|s| - 1)
    else RFind(s[..|s| - 1], c)
  }

  // ---------------------------------------------------------------- whitespace

  /**
   * The characters Python's `str.strip` removes: the ASCII whitespace and
   * separators, NEL, and every Unicode space separator and line or paragraph
   * separator.
   */
  predicate IsSpace(c: char) {
    || c == ' ' || c == '\t' || c == '\n' || c == '\r' || c == '\U{000B}' || c == '\U{000C}'
    || c == '\U{001C}' || c == '\U{001D}' || c == '\U{001E}' || c == '\U{001F}'
    || c == '\U{0085}' || c == '\U{00A0}' || c == '\U{1680}'
    || ('\U{2000}' <= c <= '\U{200A}')
    || c == '\U{2028}' || c == '\U{2029}' || c == '\U{202F}' || c == '\U{205F}' || c == '\U{3000}'
  }

  function StripStart(s: string): (r: string)
    ensures |r| <= |s| && s[|s| - |r|..] == r
    ensures r == [] || !IsSpace(r[0])
    ensures forall i :: 0 <= i < |s| - |r| ==> IsSpace(s[i])
  {
    if |s| > 0 && IsSpace(s[0]) then StripStart(s[1..]) else s
  }

  function StripEnd(s: string): (r: string)
    ensures |r| <= |s| && s[..|r|] == r
    ensures r == [] || !IsSpace(r[|r| - 1])
    ensures forall i :: |r| <= i < |s| ==> IsSpace(s[i])
  {
    if |s| > 0 && IsSpace(s[|s| - 1]) then StripEnd(s[..|s| - 1]) else s
  }

  /** `s.strip()`. */
  function Strip(s: string): string {
    StripEnd(StripStart(s))
  }

  // ---------------------------------------------------------------- ordering

  /** Python's `a <= b` on strings: lexicographic on code points. */
  predicate StrLe(a: string, b: string) {
    if a == [] then true
    else if b == [] then false
    else if a[0] != b[0] then a[0] < b[0]
    else StrLe(a[1..], b[1..])
  }

  predicate StrLt(a: string, b: string) {
    StrLe(a, b) && a != b
  }

  lemma {:induction false} StrLeReflexive(a: string)
    ensures StrLe(a, a)
    decreases |a|
  {
    if a != [] { StrLeReflexive(a[1..]); }
  }

  lemma {:induction false} StrLeTotal(a: string, b: string)
    ensures StrLe(a, b) || StrLe(b, a)
    decreases |a|
  {
    if a != [] && b != [] && a[0] == b[0] { StrLeTotal(a[1..], b[1..]); }
  }

  lemma {:induction false} StrLeAntisymmetric(a: string, b: string)
    requires StrLe(a, b) && StrLe(b, a)
    ensures a == b
    decreases |a|
  {
    if a != [] && b != [] {
      StrLeAntisymmetric(a[1..], b[1..]);
      assert a == [a[0]] + a[1..] && b == [b[0]] + b[1..];
    }
  }

  lemma {:induction false} StrLeTransitive(a: string, b: string, c: string)
    requires StrLe(a, b) && StrLe(b, c)
    ensures StrLe(a, c)
    decreases |a|
  {
    if a != [] && b != [] && c != [] && a[0] == b[0] && b[0] == c[0] {
      StrLeTransitive(a[1..], b[1..], c[1..]);
    }
  }

  /** StrLe is a total order on strings. */
  lemma StrLeIsTotalOrder()
    ensures forall a: string :: StrLe(a, a)
    ensures forall a: string, b: string :: StrLe(a, b) || StrLe(b, a)
    ensures forall a: string, b: string :: StrLe(a, b) && StrLe(b, a) ==> a == b
    ensures forall a: string, b: string, c: string :: StrLe(a, b) && StrLe(b, c) ==> StrLe(a, c)
  {
    forall a: string { StrLeReflexive(a); }
    forall a: string, b: string { StrLeTotal(a, b); }
    forall a: string, b: string | StrLe(a, b) && StrLe(b, a) { StrLeAntisymmetric(a, b); }
    forall a: string, b: string, c: string | StrLe(a, b) && StrLe(b, c) { StrLeTransitive(a, b, c); }
  }

  // ---------------------------------------------------------------- integers

  predicate IsDigit(c: char) {
    '0' <= c <= '9'
  }

  /** Digits, with single underscores allowed between two digits, as `int()` accepts. */
  predicate IsDigitString(s: string) {
    && |s| > 0
    && IsDigit(s[0])
    && IsDigit(s[|s| - 1])
    && (forall i :: 0 <= i < |s| ==> IsDigit(s[i]) || s[i] == '_')
    && (forall i, j {:trigger s[i], s[j]} :: 0 <= i && j == i + 1 < |s| && s[i] == '_' ==> IsDigit(s[j]))
  }

  /** The value of a digit string, underscores skipped. */
  function DigitsValue(s: string): nat {
    if s == [] then 0
    else if IsDigit(s[|s| - 1]) then 10 * DigitsValue(s[..|s| - 1]) + (s[|s| - 1] as int - '0' as int)
    else DigitsValue(s[..|s| - 1])
  }

  /** `int(s)` for a decimal string: surrounding whitespace, an optional sign, digits. */
  function ParseInt(s: string): (r: Result<int>)
  {
    var t := Strip(s);
    var signed := |t| > 0 && (t[0] == '-' || t[0] == '+');
    var digits := if signed then t[1..] else t;
    if !IsDigitString(digits) then Err(ValueError("invalid literal for int()"))
    else
      var v: int := DigitsValue(digits);
      Ok(if signed && t[0] == '-' then -v else v)
  }

  /** The shortest decimal spelling of a natural number, as `str(n)` writes it. */
  function DecimalString(n: nat): (r: string)
    ensures IsDigitString(r)
    ensures forall i :: 0 <= i < |r| ==> IsDigit(r[i])
  {
    if n < 10 then [('0' as int + n) as char]
    else DecimalString(n / 10) + [('0' as int + n % 10) as char]
  }

  /** `int(str(n)) == n`: reading back a written number gives the number. */
  lemma {:induction false} ParseDecimalString(n: nat)
    ensures ParseInt(DecimalString(n)) == Ok(n)
  {
    DecimalValue(n);
    ParseDigitString(DecimalString(n));
  }

  lemma ParseDigitString(d: string)
    requires IsDigitString(d)
    ensures ParseInt(d) == Ok(DigitsValue(d))
  {
    StripStartKeepsDigits(d);
    StripEndKeepsDigits(d);
    assert Strip(d) == d;
    assert !(|d| > 0 && (d[0] == '-' || d[0] == '+'));
  }

  lemma StripStartKeepsDigits(d: string)
    requires IsDigitString(d)
    ensures StripStart(d) == d
  {
  }

  lemma StripEndKeepsDigits(d: string)
    requires IsDigitString(d)
    ensures StripEnd(d) == d
  {
  }

  lemma {:induction false} DecimalValue(n: nat)
    ensures DigitsValue(DecimalString(n)) == n
    decreases n
  {
    if n >= 10 {
      DecimalValue(n / 10);
      var d := DecimalString(n);
      assert d[..|d| - 1] == DecimalString(n / 10);
    }
  }

  // ---------------------------------------------------------------- paths

  /** `Path(p).name`: the last `/`-separated part. */
  function PathName(p: string): string {
    LastSegment(p, '/')
  }

  /** `Path(p).stem`: the name without its final suffix; a leading or trailing dot is no suffix. */
  function PathStem(p: string): (r: string)
    ensures var name := PathName(p); |r| <= |name| && name[..|r|] == r
  {
    var name := PathName(p);
    match RFind(name, '.')
    case Some(i) => if 0 < i < |name| - 1 then name[..i] else name
    case None => name
  }

  /** The stem of `d/n.png` is `n`, for a non-empty `n` without `/`. */
  lemma PathStemPng(d: string, n: string)
    requires |n| > 0 && '/' !in n
    ensures PathStem(d + "/" + n + ".png") == n
  {
    var name := n + ".png";
    assert d + "/" + n + ".png" == d + ['/'] + name;
    LastSegmentAfter(d, '/', name);
    assert name[|n|] == '.' && forall j :: |n| < j < |name| ==> name[j] != '.';
    assert name[..|n|] == n;
  }

  /** `os.path.splitext(name)[0]` for a name without `/`: the last extension goes unless only dots precede it. */
  function SplitExtRoot(name: string): (r: string)
    ensures |r| <= |name| && name[..|r|] == r
  {
    match RFind(name, '.')
    case Some(i) => if exists j :: 0 <= j < i && name[j] != '.' then name[..i] else name
    case None => name
  }
}
