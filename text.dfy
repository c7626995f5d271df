/**
 * String primitives the parsers and formatters rely on: Rust's `str::trim`,
 * maximal runs of a regex character class, substring tests, decimal
 * formatting (`Display` for unsigned integers) and parsing (`u8`/`u16`
 * `FromStr`), `splitn` and ASCII lower-casing.
 */
module Text {
  import opened Prelude

  /** Unicode White_Space: what `char::is_whitespace` (and so `str::trim`) and the regex class `\s` accept. */
  predicate IsWhitespace(c: char) {
    ('\t' <= c <= '\r') || c == ' ' || c == '\U{85}' || c == '\U{A0}' || c == '\U{1680}'
    || ('\U{2000}' <= c <= '\U{200A}') || c == '\U{2028}' || c == '\U{2029}'
    || c == '\U{202F}' || c == '\U{205F}' || c == '\U{3000}'
  }

  /** `\d`, restricted to ASCII digits. */
  predicate IsDigit(c: char) {
    '0' <= c <= '9'
  }

  /** `\w`, restricted to ASCII letters, digits and the underscore. */
  predicate IsWordChar(c: char) {
    ('a' <= c <= 'z') || ('A' <= c <= 'Z') || IsDigit(c) || c == '_'
  }

  /** The regex character classes that the log patterns use. */
  datatype CharClass = Space | Word | Digit | DigitOrDot

  predicate InClass(c: char, k: CharClass) {
    match k
    case Space => IsWhitespace(c)
    case Word => IsWordChar(c)
    case Digit => IsDigit(c)
    case DigitOrDot => IsDigit(c) || c == '.'
  }

  predicate AllIn(s: string, k: CharClass) {
    forall i :: 0 <= i < |s| ==> InClass(s[i], k)
  }

  /** The end of the longest run of class-`k` characters that starts at `i` (a greedy `k*`). */
  function Span(s: string, i: nat, k: CharClass): (j: nat)
    requires i <= |s|
    ensures i <= j <= |s|
    ensures forall m :: i <= m < j ==> InClass(s[m], k)
    ensures j < |s| ==> !InClass(s[j], k)
    decreases |s| - i
  {
    if i < |s| && InClass(s[i], k) then Span(s, i + 1, k) else i
  }

  /** A run of class-`k` characters from `i` to `j` that is followed by a character outside the class is the maximal one. */
  lemma {:induction false} SpanUnique(s: string, i: nat, j: nat, k: CharClass)
    requires i <= j <= |s|
    requires forall m :: i <= m < j ==> InClass(s[m], k)
    requires j < |s| ==> !InClass(s[j], k)
    ensures Span(s, i, k) == j
    decreases j - i
  {
    if i < j {
      SpanUnique(s, i + 1, j, k);
    }
  }

  /** `s[i..]` starts with `pat`. */
  predicate StartsAt(s: string, i: nat, pat: string) {
    i + |pat| <= |s| && s[i..i + |pat|] == pat
  }

  predicate StartsWith(s: string, pat: string) {
    StartsAt(s, 0, pat)
  }

  /** No occurrence of `pat` starts anywhere in `s`. */
  predicate Free(s: string, pat: string) {
    forall i :: 0 <= i < |s| ==> !StartsAt(s, i, pat)
  }

  /** A pattern whose first character does not occur again in it, so two occurrences never overlap. */
  predicate Unbordered(pat: string) {
    |pat| > 0 && pat[0] !in pat[1..]
  }

  /** An occurrence of an unbordered pattern cannot straddle the start of another occurrence. */
  lemma {:induction false} NoStraddle(pre: string, rest: string, pat: string, i: nat)
    requires Unbordered(pat) && StartsWith(rest, pat)
    requires i < |pre| < i + |pat|
    ensures !StartsAt(pre + rest, i, pat)
  {
    var s := pre + rest;
    var j := |pre| - i;
    assert s[|pre|] == rest[0] == pat[0];
    assert pat[j] != pat[0] by {
      assert pat[j] == pat[1..][j - 1];
    }
    assert s[i..i + |pat|][j] != pat[j];
  }

  /** A run of class-`k` characters up to the end of `x`, followed by a character outside the class, is maximal. */
  lemma {:induction false} SpanConcat(x: string, y: string, i: nat, k: CharClass)
    requires i <= |x|
    requires forall m :: i <= m < |x| ==> InClass(x[m], k)
    requires y == [] || !InClass(y[0], k)
    ensures Span(x + y, i, k) == |x|
  {
    SpanUnique(x + y, i, |x|, k);
  }

  /** A pattern containing a character that `s` lacks occurs nowhere in `s`. */
  lemma {:induction false} FreeByChar(s: string, pat: string, c: char)
    requires c in pat && c !in s
    ensures Free(s, pat)
  {
    var j :| 0 <= j < |pat| && pat[j] == c;
    forall i | 0 <= i < |s| ensures !StartsAt(s, i, pat) {
      if i + |pat| <= |s| {
        assert s[i..i + |pat|][j] == s[i + j];
      }
    }
  }

  /** Two pattern-free strings stay pattern-free when joined, if no occurrence can straddle the joint. */
  lemma {:induction false} FreeConcat(a: string, b: string, pat: string)
    requires Free(a, pat) && Free(b, pat) && |pat| > 0
    requires b != [] ==> b[0] !in pat[1..]
    ensures Free(a + b, pat)
  {
    var s := a + b;
    forall i | 0 <= i < |s| ensures !StartsAt(s, i, pat) {
      if i + |pat| <= |a| {
        assert s[i..i + |pat|] == a[i..i + |pat|];
        assert !StartsAt(a, i, pat);
      } else if i < |a| {
        if i + |pat| <= |s| {
          var j := |a| - i;
          assert s[i..i + |pat|][j] == b[0];
          assert pat[j] == pat[1..][j - 1];
        }
      } else {
        assert !StartsAt(b, i - |a|, pat);
        if i + |pat| <= |s| {
          assert s[i..i + |pat|] == b[i - |a|..i - |a| + |pat|];
        }
      }
    }
  }

  /** The same, when the last character of `a` cannot begin a straddling occurrence. */
  lemma {:induction false} FreeJoin(a: string, b: string, pat: string)
    requires Free(a, pat) && Free(b, pat) && |pat| > 0
    requires a != [] ==> a[|a| - 1] !in pat[..|pat| - 1]
    ensures Free(a + b, pat)
  {
    var s := a + b;
    forall i | 0 <= i < |s| ensures !StartsAt(s, i, pat) {
      if i + |pat| <= |a| {
        assert s[i..i + |pat|] == a[i..i + |pat|];
        assert !StartsAt(a, i, pat);
      } else if i < |a| {
        if i + |pat| <= |s| {
          var j := |a| - 1 - i;
          assert s[i..i + |pat|][j] == a[|a| - 1];
          assert pat[j] == pat[..|pat| - 1][j];
        }
      } else {
        assert !StartsAt(b, i - |a|, pat);
        if i + |pat| <= |s| {
          assert s[i..i + |pat|] == b[i - |a|..i - |a| + |pat|];
        }
      }
    }
  }

  /** The first position at or after `i` where `pat` occurs, like `str::find(&str)` on `s[i..]`. */
  function FindFrom(s: string, pat: string, i: nat): (r: Option<nat>)
    requires i <= |s|
    ensures r.Some? ==> (i <= r.value <= |s| && StartsAt(s, r.value, pat)
      && forall j :: i <= j < r.value ==> !StartsAt(s, j, pat))
    ensures r.None? ==> forall j :: i <= j <= |s| ==> !StartsAt(s, j, pat)
    decreases |s| - i
  {
    if StartsAt(s, i, pat) then Some(i)
    else if i == |s| then None
    else FindFrom(s, pat, i + 1)
  }

  // ---------------------------------------------------------------------------
  // str::trim_start, str::trim_end, str::trim
  // ---------------------------------------------------------------------------

  function TrimStart(s: string): (r: string)
    ensures |r| <= |s| && r == s[|s| - |r|..]
    ensures forall m :: 0 <= m < |s| - |r| ==> IsWhitespace(s[m])
    ensures r == [] || !IsWhitespace(r[0])
  {
    if |s| > 0 && IsWhitespace(s[0]) then TrimStart(s[1..]) else s
  }

  function TrimEnd(s: string): (r: string)
    ensures |r| <= |s| && r == s[..|r|]
    ensures forall m :: |r| <= m < |s| ==> IsWhitespace(s[m])
    ensures r == [] || !IsWhitespace(r[|r| - 1])
  {
    if |s| > 0 && IsWhitespace(s[|s| - 1]) then TrimEnd(s[..|s| - 1]) else s
  }

  /** `str::trim`: drops leading and trailing Unicode whitespace. */
  function Trim(s: string): (r: string)
    ensures |r| <= |s|
    ensures r == [] || (!IsWhitespace(r[0]) && !IsWhitespace(r[|r| - 1]))
  {
    var t := TrimStart(s);
    var r := TrimEnd(t);
    assert r == [] || r[0] == t[0];
    r
  }

  /** Trimming keeps a first character that is not whitespace. */
  lemma {:induction false} TrimFirst(s: string)
    requires s != [] && !IsWhitespace(s[0])
    ensures Trim(s) != [] && Trim(s)[0] == s[0]
  {
    assert TrimStart(s) == s;
    var r := TrimEnd(s);
    assert IsWhitespace(s[0]) || |r| > 0;
  }

  /** A string with no whitespace at either end is its own trim. */
  lemma {:induction false} TrimFixed(s: string)
    requires s == [] || (!IsWhitespace(s[0]) && !IsWhitespace(s[|s| - 1]))
    ensures Trim(s) == s
  {
    assert TrimStart(s) == s;
  }

  lemma {:induction false} TrimIdempotent(s: string)
    ensures Trim(Trim(s)) == Trim(s)
  {
    TrimFixed(Trim(s));
  }

  /** A blank line trims to the empty string. */
  lemma {:induction false} TrimBlank(s: string)
    requires forall m :: 0 <= m < |s| ==> IsWhitespace(s[m])
    ensures Trim(s) == []
  {
    if s != [] {
      TrimBlank(s[1..]);
    }
  }

  // ---------------------------------------------------------------------------
  // ASCII case mapping (`str::to_lowercase` on the strings the program compares)
  // ---------------------------------------------------------------------------

  function LowerChar(c: char): char {
    if 'A' <= c <= 'Z' then (c as int - 'A' as int + 'a' as int) as char else c
  }

  function ToLower(s: string): string {
    seq(|s|, i requires 0 <= i < |s| => LowerChar(s[i]))
  }

  /** Lower-casing twice is lower-casing once. */
  lemma {:induction false} ToLowerIdempotent(s: string)
    ensures ToLower(ToLower(s)) == ToLower(s)
  {
    assert forall i :: 0 <= i < |s| ==> LowerChar(LowerChar(s[i])) == LowerChar(s[i]);
  }

  // ---------------------------------------------------------------------------
  // Decimal digits: `Display` for unsigned integers and `FromStr` for u8/u16
  // ---------------------------------------------------------------------------

  function DigitChar(d: nat): char
    requires d < 10
  {
    ('0' as int + d) as char
  }

  function DigitValue(c: char): nat
    requires IsDigit(c)
  {
    c as int - '0' as int
  }

  /** Canonical: one digit, or no leading zero. */
  predicate IsCanonicalDecimal(s: string) {
    |s| >= 1 && AllIn(s, Digit) && (s[0] == '0' ==> |s| == 1)
  }

  /** The decimal rendering of `n`, as `format!("{}", n)` writes it. */
  function Decimal(n: nat): (r: string)
    ensures IsCanonicalDecimal(r)
    ensures n < 10 <==> |r| == 1
    decreases n
  {
    if n < 10 then [DigitChar(n)] else Decimal(n / 10) + [DigitChar(n % 10)]
  }

  /** The value of a run of decimal digits (leading zeros allowed). */
  function DigitsValue(s: string): nat
    requires AllIn(s, Digit)
  {
    if s == [] then 0 else DigitsValue(s[..|s| - 1]) * 10 + DigitValue(s[|s| - 1])
  }

  lemma {:induction false} ValueOfDecimal(n: nat)
    ensures DigitsValue(Decimal(n)) == n
    decreases n
  {
    if n >= 10 {
      var s := Decimal(n);
      assert s[..|s| - 1] == Decimal(n / 10);
      ValueOfDecimal(n / 10);
    }
  }

  lemma {:induction false} CanonicalValuePositive(s: string)
    requires IsCanonicalDecimal(s) && |s| > 1
    ensures DigitsValue(s) >= 10
  {
    var p := s[..|s| - 1];
    if |p| > 1 {
      CanonicalValuePositive(p);
    } else {
      assert p[0] == s[0];
    }
  }

  /** A canonical digit string is the decimal rendering of its own value. */
  lemma {:induction false} DecimalOfValue(s: string)
    requires IsCanonicalDecimal(s)
    ensures Decimal(DigitsValue(s)) == s
  {
    if |s| > 1 {
      var p := s[..|s| - 1];
      assert p[0] == s[0];
      if |p| > 1 {
        CanonicalValuePositive(p);
      }
      DecimalOfValue(p);
      var v := DigitsValue(s);
      assert v / 10 == DigitsValue(p) && v % 10 == DigitValue(s[|s| - 1]);
      assert s == p + [s[|s| - 1]];
    }
  }

  lemma {:induction false} ShortDecimal(n: nat)
    requires n < 1000
    ensures |Decimal(n)| <= 3
  {
    if n >= 10 {
      assert |Decimal(n / 10)| <= 2;
    }
  }

  lemma {:induction false} LongDigitsValue(s: string)
    requires IsCanonicalDecimal(s) && |s| > 3
    ensures DigitsValue(s) >= 1000
  {
    var p := s[..|s| - 1];
    assert p[0] == s[0];
    if |p| > 3 {
      LongDigitsValue(p);
    } else {
      CanonicalValuePositive(p[..2]);
      assert p[..2][..1] == p[..1];
      assert DigitsValue(p) == DigitsValue(p[..2]) * 10 + DigitValue(p[2]);
    }
  }

  /**
   * `str::parse::<uN>()` for an unsigned type whose largest value is `max`:
   * an optional `+`, then one or more ASCII digits whose value fits.
   */
  function ParseUnsigned(s: string, max: nat): (r: Option<nat>)
    ensures r.Some? ==> r.value <= max
    ensures s != [] && AllIn(s, Digit) ==> r == if DigitsValue(s) <= max then Some(DigitsValue(s)) else None
  {
    if s == [] then None
    else
      var digits := if s[0] == '+' then s[1..] else s;
      if digits != [] && AllIn(digits, Digit) && DigitsValue(digits) <= max
      then Some(DigitsValue(digits))
      else None
  }

  /** A number above the type's maximum does not parse: the error path of `parse`. */
  lemma {:induction false} ParseOutOfRange(n: nat, max: nat)
    requires max < n
    ensures ParseUnsigned(Decimal(n), max) == None
  {
    ValueOfDecimal(n);
  }

  /** Formatting a number in range and parsing it back yields the number. */
  lemma {:induction false} ParseDecimal(n: nat, max: nat)
    requires n <= max
    ensures ParseUnsigned(Decimal(n), max) == Some(n)
  {
    ValueOfDecimal(n);
  }

  // ---------------------------------------------------------------------------
  // Searching and splitting
  // ---------------------------------------------------------------------------

  function CountChar(s: string, c: char): nat {
    if s == [] then 0 else CountChar(s[1..], c) + (if s[0] == c then 1 else 0)
  }

  lemma {:induction false} CountCharAppend(a: string, b: string, c: char)
    ensures CountChar(a + b, c) == CountChar(a, c) + CountChar(b, c)
  {
    if a != [] {
      assert (a + b)[1..] == a[1..] + b;
      CountCharAppend(a[1..], b, c);
    } else {
      assert a + b == b;
    }
  }

  /** The first index of `c` in `s`, like `str::find(char)`. */
  function FindChar(s: string, c: char): (r: Option<nat>)
    ensures r.Some? ==> r.value < |s| && s[r.value] == c
  {
    if s == [] then None
    else if s[0] == c then Some(0)
    else match FindChar(s[1..], c)
      case None => None
      case Some(k) => Some(k + 1)
  }

  /** The index found is the first occurrence, and nothing is found only when there is none. */
  lemma {:induction false} FindCharFirst(s: string, c: char)
    ensures FindChar(s, c).Some? ==> c !in s[..FindChar(s, c).value]
    ensures FindChar(s, c).None? <==> c !in s
    decreases |s|
  {
    if s != [] && s[0] != c {
      FindCharFirst(s[1..], c);
      if FindChar(s, c).Some? {
        var k := FindChar(s[1..], c).value;
        assert s[..k + 1] == [s[0]] + s[1..][..k];
      }
      assert s == [s[0]] + s[1..];
    }
  }

  /** The first `c` of `a + [c] + b` is the one after `a` when `a` holds none. */
  lemma {:induction false} FindCharJoint(a: string, b: string, c: char)
    requires c !in a
    ensures FindChar(a + [c] + b, c) == Some(|a|)
    decreases |a|
  {
    if a != [] {
      assert (a + [c] + b)[1..] == a[1..] + [c] + b;
      FindCharJoint(a[1..], b, c);
    }
  }

  /** The last index of `c` in `s`, like `str::rfind(char)`. */
  function RFindChar(s: string, c: char): (r: Option<nat>)
    ensures r.Some? ==> r.value < |s| && s[r.value] == c && c !in s[r.value + 1..]
    ensures r.None? <==> c !in s
    decreases |s|
  {
    if s == [] then None
    else if s[|s| - 1] == c then Some(|s| - 1)
    else match RFindChar(s[..|s| - 1], c)
      case None => None
      case Some(k) => assert s[k + 1..] == s[..|s| - 1][k + 1..] + [s[|s| - 1]]; Some(k)
  }

  /** The last `c` of `a + [c] + b` is the one between them when `b` has none. */
  lemma {:induction false} RFindCharJoint(a: string, b: string, c: char)
    requires c !in b
    ensures RFindChar(a + [c] + b, c) == Some(|a|)
    decreases |b|
  {
    var s := a + [c] + b;
    if b != [] {
      var b' := b[..|b| - 1];
      assert s[|s| - 1] == b[|b| - 1];
      assert s[..|s| - 1] == a + [c] + b';
      RFindCharJoint(a, b', c);
    }
  }

  /** `str::splitn(n, sep)`: at most `n` pieces, the last one holding the rest of the string. */
  function SplitN(s: string, n: nat, sep: char): (parts: seq<string>)
    requires n >= 1
    ensures 1 <= |parts| <= n
    decreases n
  {
    if n == 1 then [s]
    else match FindChar(s, sep)
      case None => [s]
      case Some(k) => [s[..k]] + SplitN(s[k + 1..], n - 1, sep)
  }

  function Join(parts: seq<string>, sep: char): string
    requires |parts| >= 1
  {
    if |parts| == 1 then parts[0] else parts[0] + [sep] + Join(parts[1..], sep)
  }

  /** `splitn` loses nothing: joining the pieces with the separator gives the string back. */
  lemma {:induction false} SplitNJoin(s: string, n: nat, sep: char)
    requires n >= 1
    ensures Join(SplitN(s, n, sep), sep) == s
    decreases n
  {
    var f := FindChar(s, sep);
    if n > 1 && f.Some? {
      var k := f.value;
      var rest := SplitN(s[k + 1..], n - 1, sep);
      SplitNJoin(s[k + 1..], n - 1, sep);
      var parts := SplitN(s, n, sep);
      assert parts == [s[..k]] + rest;
      assert Join(parts, sep) == s[..k] + [sep] + Join(rest, sep);
      assert s == s[..k] + [sep] + s[k + 1..];
    }
  }

  /** `splitn(n, sep)` yields `n` pieces exactly when `sep` occurs at least `n - 1` times. */
  lemma {:induction false} SplitNCount(s: string, n: nat, sep: char)
    requires n >= 1
    ensures |SplitN(s, n, sep)| == n <==> CountChar(s, sep) >= n - 1
    decreases n
  {
    var f := FindChar(s, sep);
    FindCharFirst(s, sep);
    if n > 1 && f.None? {
      CountAbsent(s, sep);
    } else if n > 1 {
      var k := f.value;
      assert |SplitN(s, n, sep)| == 1 + |SplitN(s[k + 1..], n - 1, sep)|;
      SplitNCount(s[k + 1..], n - 1, sep);
      CountPastFirst(s, k, sep);
    }
  }

  /** Past the first `c`, one `c` fewer is left. */
  lemma {:induction false} CountPastFirst(s: string, k: nat, c: char)
    requires k < |s| && s[k] == c && c !in s[..k]
    ensures CountChar(s, c) == CountChar(s[k + 1..], c) + 1
  {
    var tail := [c] + s[k + 1..];
    assert s == s[..k] + tail;
    CountCharAppend(s[..k], tail, c);
    CountAbsent(s[..k], c);
    assert tail[1..] == s[k + 1..];
  }

  lemma {:induction false} CountAbsent(s: string, c: char)
    requires c !in s
    ensures CountChar(s, c) == 0
  {
    if s != [] {
      assert s[0] != c;
      assert c !in s[1..];
      CountAbsent(s[1..], c);
    }
  }

  /** Splitting `a + sep + b` where `a` holds no separator peels `a` off as the first piece. */
  lemma {:induction false} SplitNCons(a: string, b: string, n: nat, sep: char)
    requires n >= 2 && sep !in a
    ensures SplitN(a + [sep] + b, n, sep) == [a] + SplitN(b, n - 1, sep)
  {
    var s := a + [sep] + b;
    FindCharJoint(a, b, sep);
    assert s[..|a|] == a;
    assert s[|a| + 1..] == b;
  }

  /** Each piece followed by the separator: `p0 sep p1 sep ... pk sep`. */
  function Terminated(parts: seq<string>, sep: char): string {
    if parts == [] then [] else parts[0] + [sep] + Terminated(parts[1..], sep)
  }

  /** Terminated parts end with the separator. */
  lemma {:induction false} TerminatedEnds(parts: seq<string>, sep: char)
    requires parts != []
    ensures |Terminated(parts, sep)| > 0 && Terminated(parts, sep)[|Terminated(parts, sep)| - 1] == sep
    decreases |parts|
  {
    var t := Terminated(parts, sep);
    assert t == parts[0] + [sep] + Terminated(parts[1..], sep);
    if parts[1..] != [] {
      TerminatedEnds(parts[1..], sep);
    }
  }

  /** A non-empty list of terminated parts is its first part, a separator and the rest. */
  lemma {:induction false} TerminatedCons(parts: seq<string>, sep: char, rest: string)
    requires parts != []
    ensures Terminated(parts, sep) + rest == parts[0] + [sep] + (Terminated(parts[1..], sep) + rest)
  {
    assert Terminated(parts, sep) == parts[0] + [sep] + Terminated(parts[1..], sep);
  }

  /** Splitting terminated parts followed by a rest gives back the parts and then the rest. */
  lemma {:induction false} SplitNTerminated(parts: seq<string>, rest: string, sep: char)
    requires forall i :: 0 <= i < |parts| ==> sep !in parts[i]
    ensures SplitN(Terminated(parts, sep) + rest, |parts| + 1, sep) == parts + [rest]
    decreases |parts|
  {
    if parts != [] {
      TerminatedCons(parts, sep, rest);
      SplitNCons(parts[0], Terminated(parts[1..], sep) + rest, |parts| + 1, sep);
      SplitNTerminated(parts[1..], rest, sep);
      assert [parts[0]] + (parts[1..] + [rest]) == parts + [rest];
    } else {
      assert Terminated(parts, sep) + rest == rest;
    }
  }

  /** Pieces free of the separator, each terminated by it, hold exactly one separator per piece. */
  lemma {:induction false} TerminatedCount(parts: seq<string>, sep: char)
    requires forall i :: 0 <= i < |parts| ==> sep !in parts[i]
    ensures CountChar(Terminated(parts, sep), sep) == |parts|
    decreases |parts|
  {
    if parts != [] {
      TerminatedCount(parts[1..], sep);
      CountAbsent(parts[0], sep);
      CountCharAppend(parts[0], [sep], sep);
      CountCharAppend(parts[0] + [sep], Terminated(parts[1..], sep), sep);
    }
  }

  /** A character in none of the pieces, other than the separator, is not in their terminated concatenation. */
  lemma {:induction false} TerminatedLacks(parts: seq<string>, sep: char, c: char)
    requires c != sep && forall i :: 0 <= i < |parts| ==> c !in parts[i]
    ensures c !in Terminated(parts, sep)
    decreases |parts|
  {
    if parts != [] {
      TerminatedLacks(parts[1..], sep, c);
      assert c !in parts[0];
    }
  }

  /** `str::trim_start_matches(pat)`: strip every leading repetition of `pat`. */
  function TrimStartMatches(s: string, pat: string): (r: string)
    requires |pat| > 0
    ensures |r| <= |s| && r == s[|s| - |r|..]
    ensures !StartsWith(r, pat)
    decreases |s|
  {
    if StartsWith(s, pat) then TrimStartMatches(s[|pat|..], pat) else s
  }

  /** Stripping a pattern that occurs exactly once at the front. */
  lemma {:induction false} TrimStartMatchesOnce(pat: string, x: string)
    requires |pat| > 0 && !StartsWith(x, pat)
    ensures TrimStartMatches(pat + x, pat) == x
  {
    assert (pat + x)[..|pat|] == pat;
    assert (pat + x)[|pat|..] == x;
  }
}
