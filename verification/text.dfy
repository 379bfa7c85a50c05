/**
 The Python string operations the discussion core relies on. Strings are
 sequences of Unicode code points other than surrogates. Python's `str`
 indexes code points, so `len`, slicing and `strip` count the same
 characters here as there; a `str` holding a lone surrogate has no
 counterpart in the model.
 */
module Text {

  /** Python's `str.isspace` for one code point: the characters `str.strip()` removes. */
  predicate IsSpace(c: char) {
    || ('\U{0009}' <= c <= '\U{000D}')
    || ('\U{001C}' <= c <= '\U{0020}')
    || c == '\U{0085}' || c == '\U{00A0}' || c == '\U{1680}'
    || ('\U{2000}' <= c <= '\U{200A}')
    || c == '\U{2028}' || c == '\U{2029}' || c == '\U{202F}'
    || c == '\U{205F}' || c == '\U{3000}'
  }

  /** Which characters a strip removes: `strip()` or `strip(chars)`. */
  datatype Trim = Spaces | Chars(chars: set<char>)

  /** `c` is removed by a strip of kind `t`. */
  predicate Drops(t: Trim, c: char) {
    match t
    case Spaces => IsSpace(c)
    case Chars(cs) => c in cs
  }

  /** Python's `s.startswith(p)`. */
  predicate StartsWith(s: string, p: string) {
    |p| <= |s| && s[..|p|] == p
  }

  /** Python's `s.endswith(p)`. */
  predicate EndsWith(s: string, p: string) {
    |p| <= |s| && s[|s| - |p|..] == p
  }

  /** `p` occurs in `s` starting at index `k`. */
  predicate OccursAt(p: string, s: string, k: nat) {
    k + |p| <= |s| && s[k..k + |p|] == p
  }

  /** Python's `p in s` for strings. */
  predicate Occurs(p: string, s: string) {
    exists k: nat :: k <= |s| && OccursAt(p, s, k)
  }

  /** An occurrence survives appending text after it. */
  lemma OccursExtend(p: string, s: string, t: string)
    requires Occurs(p, s)
    ensures Occurs(p, s + t)
  {
    var k: nat :| k <= |s| && OccursAt(p, s, k);
    assert (s + t)[k..k + |p|] == s[k..k + |p|];
    assert OccursAt(p, s + t, k);
  }

  /** A text occurs where it is placed between two others. */
  lemma OccursBetween(p: string, s: string, t: string)
    ensures Occurs(p, s + (p + t))
  {
    assert (s + (p + t))[|s|..|s| + |p|] == p;
    assert OccursAt(p, s + (p + t), |s|);
  }

  /** The marker appended to a text that was cut short. */
  const Ellipsis: string := "..."

  /** Python's `s[:n]` for a non-negative `n`. */
  function Prefix(s: string, n: nat): (r: string)
    ensures |r| == (if |s| < n then |s| else n)
    ensures StartsWith(s, r)
  {
    if |s| <= n then s else s[..n]
  }

  /**
   Python's `s.strip()` (`trim` is `Spaces`) and `s.strip(chars)` (`trim`
   is `Chars(chars)`). Dropping from the front
   first or from the back first leaves the same stretch: the one between the
   first and the last character that is not dropped.
   */
  function Strip(s: string, trim: Trim): (r: string)
    ensures |r| <= |s|
    ensures r != [] ==> !Drops(trim, r[0]) && !Drops(trim, r[|r| - 1])
    decreases |s|
  {
    if s != [] && Drops(trim, s[0]) then Strip(s[1..], trim)
    else if s != [] && Drops(trim, s[|s| - 1]) then Strip(s[..|s| - 1], trim)
    else s
  }

  /** The strip leaves nothing exactly when every character is dropped. */
  lemma {:induction false} StripEmpty(s: string, trim: Trim)
    ensures Strip(s, trim) == [] <==> forall i :: 0 <= i < |s| ==> Drops(trim, s[i])
  {
    var k := StripSpan(s, trim);
    var r := Strip(s, trim);
    if r != [] {
      assert s[k] == r[0];
    }
  }

  /** `r` is the stretch of `s` at `k`, and everything around it is dropped. */
  predicate SpanAt(r: string, s: string, k: nat, trim: Trim) {
    && k + |r| <= |s|
    && r == s[k..k + |r|]
    && (forall i :: 0 <= i < k ==> Drops(trim, s[i]))
    && (forall i :: k + |r| <= i < |s| ==> Drops(trim, s[i]))
  }

  /** A span of `s[1..]` moves one place right in `s` when `s[0]` is dropped. */
  lemma SpanAfterFront(r: string, s: string, k: nat, trim: Trim)
    requires s != [] && Drops(trim, s[0])
    requires SpanAt(r, s[1..], k, trim)
    ensures SpanAt(r, s, k + 1, trim)
  {
    var t := s[1..];
    assert s[k + 1..k + 1 + |r|] == t[k..k + |r|];
    forall i | 0 <= i < k + 1 ensures Drops(trim, s[i]) {
      if i > 0 { assert s[i] == t[i - 1]; }
    }
    forall i | k + 1 + |r| <= i < |s| ensures Drops(trim, s[i]) {
      assert s[i] == t[i - 1];
    }
  }

  /** A span of `s` without its last character stays put when that character is dropped. */
  lemma SpanBeforeBack(r: string, s: string, k: nat, trim: Trim)
    requires s != [] && Drops(trim, s[|s| - 1])
    requires SpanAt(r, s[..|s| - 1], k, trim)
    ensures SpanAt(r, s, k, trim)
  {
    var t := s[..|s| - 1];
    assert s[k..k + |r|] == t[k..k + |r|];
    forall i | 0 <= i < k ensures Drops(trim, s[i]) {
      assert s[i] == t[i];
    }
    forall i | k + |r| <= i < |s| ensures Drops(trim, s[i]) {
      if i < |t| { assert s[i] == t[i]; }
    }
  }

  /**
   The stripped text is the stretch of the original starting at `k`, and
   everything before and after that stretch is dropped.
   */
  lemma {:induction false} StripSpan(s: string, trim: Trim) returns (k: nat)
    ensures SpanAt(Strip(s, trim), s, k, trim)
    decreases |s|
  {
    if s != [] && Drops(trim, s[0]) {
      var k' := StripSpan(s[1..], trim);
      SpanAfterFront(Strip(s, trim), s, k', trim);
      k := k' + 1;
    } else if s != [] && Drops(trim, s[|s| - 1]) {
      k := StripSpan(s[..|s| - 1], trim);
      SpanBeforeBack(Strip(s, trim), s, k, trim);
    } else {
      assert s[0..|s|] == s;
      k := 0;
    }
  }

  /** Every character of a stripped text comes from the original. */
  lemma {:induction false} StripKeepsCharacters(s: string, trim: Trim)
    ensures forall c :: c in Strip(s, trim) ==> c in s
  {
    var k := StripSpan(s, trim);
    var r := Strip(s, trim);
    forall c | c in r ensures c in s {
      var i :| 0 <= i < |r| && r[i] == c;
      assert s[k + i] == r[i];
    }
  }

  /** Stripping twice is stripping once. */
  lemma {:induction false} StripIdempotent(s: string, trim: Trim)
    ensures Strip(Strip(s, trim), trim) == Strip(s, trim)
  {
    var r := Strip(s, trim);
    StripClean(r, trim);
  }

  /** A string with nothing to drop at either end is left as it is. */
  lemma StripClean(s: string, trim: Trim)
    requires s != [] ==> !Drops(trim, s[0]) && !Drops(trim, s[|s| - 1])
    ensures Strip(s, trim) == s
  {
  }

  /** Python's `s.replace(c, "")` for a one-character `c`. */
  function RemoveAll(s: string, c: char): (r: string)
    ensures |r| <= |s|
    ensures forall x :: x in r <==> x in s && x != c
    ensures c !in s ==> r == s
  {
    if s == [] then []
    else (if s[0] == c then [] else [s[0]]) + RemoveAll(s[1..], c)
  }

  /**
   Removal works character by character: removing from a concatenation is
   concatenating the removals, so order and repetition of the kept
   characters are preserved.
   */
  lemma {:induction false} RemoveAllAppend(s: string, t: string, c: char)
    ensures RemoveAll(s + t, c) == RemoveAll(s, c) + RemoveAll(t, c)
    decreases |s|
  {
    if s != [] {
      assert (s + t)[1..] == s[1..] + t;
      RemoveAllAppend(s[1..], t, c);
    } else {
      assert s + t == t;
    }
  }

  /** A single character is kept exactly when it is not `c`. */
  lemma RemoveAllOne(x: char, c: char)
    ensures RemoveAll([x], c) == if x == c then [] else [x]
  {
    assert [x][1..] == [];
  }

  /** Python's `sep.join(lines)`. */
  function Join(lines: seq<string>, sep: string): string
  {
    if |lines| == 0 then ""
    else if |lines| == 1 then lines[0]
    else lines[0] + sep + Join(lines[1..], sep)
  }

  /** Every joined line appears in the joined text. */
  lemma {:induction false} JoinContains(lines: seq<string>, sep: string, i: nat)
    requires i < |lines|
    ensures Occurs(lines[i], Join(lines, sep))
  {
    var j := Join(lines, sep);
    if |lines| == 1 {
      assert OccursAt(lines[0], j, 0);
    } else if i == 0 {
      assert j[..|lines[0]|] == lines[0];
      assert OccursAt(lines[0], j, 0);
    } else {
      var tail := Join(lines[1..], sep);
      JoinContains(lines[1..], sep, i - 1);
      assert lines[1..][i - 1] == lines[i];
      var k: nat :| k <= |tail| && OccursAt(lines[i], tail, k);
      var off := |lines[0]| + |sep|;
      assert j == lines[0] + sep + tail;
      assert |j| == off + |tail|;
      assert k + |lines[i]| <= |tail|;
      assert j[off + k..off + k + |lines[i]|] == tail[k..k + |lines[i]|];
      assert OccursAt(lines[i], j, off + k);
    }
  }

  /** The joined text begins with the first line. */
  lemma {:induction false} JoinStartsWithFirst(lines: seq<string>, sep: string)
    requires lines != []
    ensures StartsWith(Join(lines, sep), lines[0])
  {
    if |lines| > 1 {
      assert Join(lines, sep) == lines[0] + (sep + Join(lines[1..], sep));
    }
  }

  /** The decimal digit character of `d`. */
  function DigitChar(d: nat): (c: char)
    requires d < 10
    ensures '0' <= c <= '9'
  {
    (48 + d) as char
  }

  /** The value of a decimal digit character. */
  function DigitValue(c: char): nat
    requires '0' <= c <= '9'
  {
    c as nat - 48
  }

  /** All characters of `s` are decimal digits. */
  predicate AllDigits(s: string) {
    forall i :: 0 <= i < |s| ==> '0' <= s[i] <= '9'
  }

  /** Python's `str(n)` (as inside an f-string) for a non-negative integer. */
  function Decimal(n: nat): (r: string)
    ensures r != [] && AllDigits(r)
    ensures |r| > 1 ==> r[0] != '0'
    decreases n
  {
    if n < 10 then [DigitChar(n)] else Decimal(n / 10) + [DigitChar(n % 10)]
  }

  /** Python's `int(s)` for a string of decimal digits. */
  function ParseDecimal(s: string): nat
    requires AllDigits(s)
  {
    if s == [] then 0 else ParseDecimal(s[..|s| - 1]) * 10 + DigitValue(s[|s| - 1])
  }

  /** Reading back the decimal text of a number gives the number. */
  lemma {:induction false} DecimalRoundTrip(n: nat)
    ensures ParseDecimal(Decimal(n)) == n
    decreases n
  {
    if n < 10 {
      assert Decimal(n)[..0] == [];
    } else {
      var d := Decimal(n / 10);
      var r := Decimal(n);
      assert r == d + [DigitChar(n % 10)];
      assert r[..|r| - 1] == d;
      DecimalRoundTrip(n / 10);
    }
  }
}
