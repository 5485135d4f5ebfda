/** The pieces of Python's `str` behaviour the handlers rely on: ordering, searching,
    pathlib's suffix and stem, `str.replace`, `str.strip`, text-mode line reading and
    decimal formatting of integers. */
module Text {

  // ---------------------------------------------------------------------------
  // Ordering (Python compares str by code point, lexicographically)
  // ---------------------------------------------------------------------------

  /** `a < b` on Python strings. */
  predicate Less(a: string, b: string)
    decreases |a|
  {
    if |a| == 0 then |b| > 0
    else |b| > 0 && (a[0] < b[0] || (a[0] == b[0] && Less(a[1..], b[1..])))
  }

  lemma {:induction false} LessIrreflexive(a: string)
    ensures !Less(a, a)
    decreases |a|
  {
    if |a| > 0 {
      LessIrreflexive(a[1..]);
    }
  }

  lemma {:induction false} LessTransitive(a: string, b: string, c: string)
    requires Less(a, b) && Less(b, c)
    ensures Less(a, c)
    decreases |a|
  {
    if |a| > 0 && a[0] == b[0] && b[0] == c[0] {
      LessTransitive(a[1..], b[1..], c[1..]);
    }
  }

  /** Any two different strings are ordered one way round. */
  lemma {:induction false} LessTotal(a: string, b: string)
    requires a != b
    ensures Less(a, b) || Less(b, a)
    decreases |a|
  {
    if |a| > 0 && |b| > 0 && a[0] == b[0] {
      assert a == [a[0]] + a[1..] && b == [b[0]] + b[1..];
      LessTotal(a[1..], b[1..]);
    }
  }

  /** Strictly increasing, as `sorted()` leaves a list without duplicates. */
  ghost predicate Sorted(s: seq<string>)
  {
    forall i, j :: 0 <= i < j < |s| ==> Less(s[i], s[j])
  }

  /** A set of strings has one sorted listing: `sorted()` does not depend on the order in
      which the elements arrive. */
  lemma {:induction false} SortedUnique(a: seq<string>, b: seq<string>)
    requires Sorted(a) && Sorted(b) && forall x :: x in a <==> x in b
    ensures a == b
    decreases |a|
  {
    if b != [] {
      assert b[0] in b;
    }
    if a != [] {
      assert a[0] in b;
      assert b != [] && b[0] in a;
      if a[0] != b[0] {
        assert Less(a[0], b[0]) && Less(b[0], a[0]);
        LessTransitive(a[0], b[0], a[0]);
        LessIrreflexive(a[0]);
      }
      forall x ensures x in a[1..] <==> x in b[1..] {
        if x in a[1..] {
          var i :| 1 <= i < |a| && a[i] == x;
          assert Less(a[0], a[i]);
          LessIrreflexive(x);
          assert x in b && x != b[0];
          var j :| 0 <= j < |b| && b[j] == x;
          assert b[1..][j - 1] == x;
        }
        if x in b[1..] {
          var i :| 1 <= i < |b| && b[i] == x;
          assert Less(b[0], b[i]);
          LessIrreflexive(x);
          assert x in a && x != a[0];
          var j :| 0 <= j < |a| && a[j] == x;
          assert a[1..][j - 1] == x;
        }
      }
      SortedUnique(a[1..], b[1..]);
      assert a == [a[0]] + a[1..] && b == [b[0]] + b[1..];
    }
  }

  /** Places `x` into a sorted list at its ordered position. */
  function Insert(s: seq<string>, x: string): (r: seq<string>)
    requires Sorted(s) && x !in s
    ensures Sorted(r) && |r| == |s| + 1
    ensures forall y :: y in r <==> y == x || y in s
  {
    if s == [] then [x]
    else if Less(x, s[0]) then
      assert Sorted([x] + s) by {
        forall j | 0 <= j < |s| ensures Less(x, s[j]) {
          if j > 0 { LessTransitive(x, s[0], s[j]); }
        }
      }
      [x] + s
    else
      LessTotal(x, s[0]);
      var t := Insert(s[1..], x);
      assert forall y :: y in t ==> Less(s[0], y);
      assert Sorted([s[0]] + t);
      [s[0]] + t
  }

  // ---------------------------------------------------------------------------
  // Searching
  // ---------------------------------------------------------------------------

  /** `s.rfind(c)`: the index of the last `c`, or -1. */
  function LastIndexOf(s: string, c: char): (r: int)
    ensures -1 <= r < |s|
    ensures r >= 0 ==> s[r] == c
    ensures forall k :: r < k < |s| ==> s[k] != c
  {
    if |s| == 0 then -1
    else if s[|s| - 1] == c then |s| - 1
    else LastIndexOf(s[..|s| - 1], c)
  }

  /** `s.find(c)`: the index of the first `c`, or -1. */
  function FirstIndexOf(s: string, c: char): (r: int)
    ensures -1 <= r < |s|
    ensures r >= 0 ==> s[r] == c
    ensures forall k :: 0 <= k < |s| && (r < 0 || k < r) ==> s[k] != c
  {
    if |s| == 0 then -1
    else if s[0] == c then 0
    else var i := FirstIndexOf(s[1..], c); if i < 0 then -1 else i + 1
  }

  predicate StartsWith(s: string, prefix: string)
  {
    prefix <= s
  }

  predicate EndsWith(s: string, suffix: string)
  {
    |suffix| <= |s| && s[|s| - |suffix|..] == suffix
  }

  // ---------------------------------------------------------------------------
  // pathlib's suffix and stem of one path component
  // ---------------------------------------------------------------------------

  /** `PurePath.suffix`: from the last dot on, unless that dot is the first or the last
      character (so ".jar" and "a." have no suffix). */
  function Suffix(name: string): string
  {
    var i := LastIndexOf(name, '.');
    if 0 < i < |name| - 1 then name[i..] else ""
  }

  /** `PurePath.stem`: the name without its suffix. */
  function Stem(name: string): string
  {
    var i := LastIndexOf(name, '.');
    if 0 < i < |name| - 1 then name[..i] else name
  }

  lemma StemSuffix(name: string)
    ensures Stem(name) + Suffix(name) == name
    ensures name != "" ==> Stem(name) != ""
  {
  }

  /** `with_suffix(ext)` on a non-empty name: the stem followed by the new suffix. */
  function WithSuffix(name: string, ext: string): string
  {
    Stem(name) + ext
  }

  /** A suffix of the form ".x..." with no further dot. */
  predicate PlainSuffix(ext: string)
  {
    |ext| >= 2 && ext[0] == '.' && '.' !in ext[1..]
  }

  /** Replacing the suffix of a non-empty name yields a name with exactly that suffix and
      the same stem, so replacing it again is a round trip. */
  lemma {:induction false} WithSuffixRoundTrip(name: string, ext: string, ext': string)
    requires name != "" && PlainSuffix(ext)
    ensures Suffix(WithSuffix(name, ext)) == ext
    ensures Stem(WithSuffix(name, ext)) == Stem(name)
    ensures WithSuffix(WithSuffix(name, ext), ext') == WithSuffix(name, ext')
  {
    StemSuffix(name);
    var stem := Stem(name);
    var w := stem + ext;
    LastDotOfConcat(stem, ext);
    assert w[..|stem|] == stem;
    assert w[|stem|..] == ext;
  }

  /** A non-empty stem followed by a plain suffix has that stem and that suffix. */
  lemma SuffixOfConcat(stem: string, ext: string)
    requires stem != "" && PlainSuffix(ext)
    ensures Suffix(stem + ext) == ext && Stem(stem + ext) == stem
  {
    var w := stem + ext;
    LastDotOfConcat(stem, ext);
    assert w[..|stem|] == stem;
    assert w[|stem|..] == ext;
  }

  lemma LastDotOfConcat(stem: string, ext: string)
    requires stem != "" && PlainSuffix(ext)
    ensures LastIndexOf(stem + ext, '.') == |stem|
  {
    var w := stem + ext;
    var i := LastIndexOf(w, '.');
    assert w[|stem|] == '.';
    forall k | |stem| < k < |w| ensures w[k] != '.' {
      assert w[k] == ext[1..][k - |stem| - 1];
    }
  }

  // ---------------------------------------------------------------------------
  // str.replace
  // ---------------------------------------------------------------------------

  /** `pat` occurs somewhere in `t`. */
  ghost predicate Occurs(t: string, pat: string)
  {
    exists i :: OccursAt(t, pat, i)
  }

  /** `pat` occurs in `t` starting at index `i`. */
  predicate OccursAt(t: string, pat: string, i: int)
  {
    0 <= i <= |t| - |pat| && t[i..i + |pat|] == pat
  }

  /** `t.replace("", repl)`: `repl` before every character and at the end. */
  function Interleave(t: string, repl: string): string
  {
    if t == [] then repl else repl + [t[0]] + Interleave(t[1..], repl)
  }

  /** `t.replace(pat, repl)`: every non-overlapping occurrence, scanning left to right. */
  function Replace(t: string, pat: string, repl: string): string
    decreases |t|
  {
    if pat == "" then Interleave(t, repl)
    else if |t| < |pat| then t
    else if t[..|pat|] == pat then repl + Replace(t[|pat|..], pat, repl)
    else [t[0]] + Replace(t[1..], pat, repl)
  }

  /** Text without any occurrence of a non-empty `pat` is returned unchanged. */
  lemma {:induction false} ReplaceAbsent(t: string, pat: string, repl: string)
    requires pat != "" && !Occurs(t, pat)
    ensures Replace(t, pat, repl) == t
    decreases |t|
  {
    if |t| >= |pat| {
      assert !OccursAt(t, pat, 0);
      assert t[0..0 + |pat|] == t[..|pat|];
      assert !Occurs(t[1..], pat) by {
        forall i | 0 <= i <= |t[1..]| - |pat|
          ensures !OccursAt(t[1..], pat, i)
        {
          assert !OccursAt(t, pat, i + 1);
          assert t[1..][i..i + |pat|] == t[i + 1..i + 1 + |pat|];
        }
      }
      ReplaceAbsent(t[1..], pat, repl);
    }
  }

  /** Replacing a string by itself changes nothing. */
  lemma {:induction false} ReplaceIdentity(t: string, pat: string)
    ensures Replace(t, pat, pat) == t
    decreases |t|
  {
    if pat == "" {
      InterleaveEmpty(t);
    } else if |t| >= |pat| {
      if t[..|pat|] == pat {
        ReplaceIdentity(t[|pat|..], pat);
        assert t == t[..|pat|] + t[|pat|..];
      } else {
        ReplaceIdentity(t[1..], pat);
        assert t == [t[0]] + t[1..];
      }
    }
  }

  lemma {:induction false} InterleaveEmpty(t: string)
    ensures Interleave(t, "") == t
  {
    if t != [] {
      InterleaveEmpty(t[1..]);
      assert t == [t[0]] + t[1..];
    }
  }

  /** Replacing one character by another is a character-wise map. */
  lemma {:induction false} ReplaceChar(t: string, a: char, b: char)
    ensures |Replace(t, [a], [b])| == |t|
    ensures forall k :: 0 <= k < |t| ==> Replace(t, [a], [b])[k] == if t[k] == a then b else t[k]
    decreases |t|
  {
    if |t| >= 1 {
      ReplaceChar(t[1..], a, b);
      assert t[..1] == [t[0]];
      var r := Replace(t, [a], [b]);
      var r' := Replace(t[1..], [a], [b]);
      assert r == (if t[0] == a then [b] else [t[0]]) + r';
      forall k | 0 <= k < |t| ensures r[k] == if t[k] == a then b else t[k] {
        if k > 0 { assert r[k] == r'[k - 1] && t[k] == t[1..][k - 1]; }
      }
    }
  }

  // ---------------------------------------------------------------------------
  // str.strip
  // ---------------------------------------------------------------------------

  /** `c.isspace()` for Python's `str`. */
  predicate IsSpace(c: char)
  {
    c in {' ', '\t', '\n', '\r', '\U{0B}', '\U{0C}', '\U{1C}', '\U{1D}', '\U{1E}', '\U{1F}',
          '\U{85}', '\U{A0}', '\U{1680}', '\U{2000}', '\U{2001}', '\U{2002}', '\U{2003}',
          '\U{2004}', '\U{2005}', '\U{2006}', '\U{2007}', '\U{2008}', '\U{2009}', '\U{200A}',
          '\U{2028}', '\U{2029}', '\U{202F}', '\U{205F}', '\U{3000}'}
  }

  /** The number of leading whitespace characters. */
  function LeadingSpace(s: string): (n: nat)
    ensures n <= |s|
    ensures forall k :: 0 <= k < n ==> IsSpace(s[k])
    ensures n < |s| ==> !IsSpace(s[n])
  {
    if |s| > 0 && IsSpace(s[0]) then 1 + LeadingSpace(s[1..]) else 0
  }

  /** The number of trailing whitespace characters. */
  function TrailingSpace(s: string): (n: nat)
    ensures n <= |s|
    ensures forall k :: |s| - n <= k < |s| ==> IsSpace(s[k])
    ensures n < |s| ==> !IsSpace(s[|s| - 1 - n])
  {
    if |s| > 0 && IsSpace(s[|s| - 1]) then 1 + TrailingSpace(s[..|s| - 1]) else 0
  }

  /** `s.strip()`. */
  function Strip(s: string): (r: string)
    ensures r == "" || (!IsSpace(r[0]) && !IsSpace(r[|r| - 1]))
  {
    var i := LeadingSpace(s);
    if i == |s| then ""
    else
      var t := TrailingSpace(s);
      assert !IsSpace(s[i]);
      s[i..|s| - t]
  }

  /** Text with no whitespace at either end is its own strip. */
  lemma StripStripped(s: string)
    requires s == "" || (!IsSpace(s[0]) && !IsSpace(s[|s| - 1]))
    ensures Strip(s) == s
  {
    if s != "" {
      assert LeadingSpace(s) == 0 && TrailingSpace(s) == 0;
    }
  }

  // ---------------------------------------------------------------------------
  // Reading a text file line by line
  // ---------------------------------------------------------------------------

  /** Text mode's universal newlines: "\r\n" and a lone "\r" read as "\n". */
  function UniversalNewlines(t: string): (r: string)
    ensures '\r' !in r
  {
    if t == [] then []
    else if t[0] == '\r' then
      (if |t| > 1 && t[1] == '\n' then "\n" + UniversalNewlines(t[2..]) else "\n" + UniversalNewlines(t[1..]))
    else [t[0]] + UniversalNewlines(t[1..])
  }

  /** Text without a carriage return reads as it is. */
  lemma {:induction false} UniversalNewlinesPlain(t: string)
    requires '\r' !in t
    ensures UniversalNewlines(t) == t
  {
    if t != [] {
      UniversalNewlinesPlain(t[1..]);
      assert t == [t[0]] + t[1..];
    }
  }

  /** The first `c` is at `i` when `s[i]` is one and none comes before it. */
  lemma FirstIndexOfAt(s: string, c: char, i: int)
    requires 0 <= i < |s| && s[i] == c && c !in s[..i]
    ensures FirstIndexOf(s, c) == i
  {
  }

  /** The pieces of `t` between occurrences of `c`. */
  function Split(t: string, c: char): (r: seq<string>)
    ensures |r| >= 1
    ensures forall k :: 0 <= k < |r| ==> c !in r[k]
  {
    var i := FirstIndexOf(t, c);
    if i < 0 then [t]
    else
      var head, rest := t[..i], Split(t[i + 1..], c);
      assert c !in head by {
        forall k | 0 <= k < |head| ensures head[k] != c { assert head[k] == t[k]; }
      }
      [head] + rest
  }

  /** `c.join(parts)`. */
  function Join(parts: seq<string>, c: char): string
  {
    if |parts| == 0 then ""
    else if |parts| == 1 then parts[0]
    else parts[0] + [c] + Join(parts[1..], c)
  }

  /** One step of the split: the piece before the first `c`, then the pieces of the rest. */
  lemma SplitStep(t: string, c: char)
    requires FirstIndexOf(t, c) >= 0
    ensures Split(t, c) == [t[..FirstIndexOf(t, c)]] + Split(t[FirstIndexOf(t, c) + 1..], c)
  {
  }

  /** Splitting and joining again gives back the text. */
  lemma {:induction false} JoinSplit(t: string, c: char)
    ensures Join(Split(t, c), c) == t
    decreases |t|
  {
    var i := FirstIndexOf(t, c);
    if i < 0 {
      assert Split(t, c) == [t];
    } else {
      var head, rest := t[..i], t[i + 1..];
      var parts, tail := Split(t, c), Split(rest, c);
      SplitStep(t, c);
      assert parts[0] == head && parts[1..] == tail && |parts| > 1;
      JoinSplit(rest, c);
      assert Join(parts, c) == head + [c] + Join(tail, c);
      assert t == head + [c] + rest;
    }
  }

  /** A piece of a split holds no character its text does not hold. */
  lemma {:induction false} SplitWithout(t: string, c: char, x: char, k: int)
    requires x !in t && 0 <= k < |Split(t, c)|
    ensures x !in Split(t, c)[k]
    decreases |t|
  {
    var i := FirstIndexOf(t, c);
    if i < 0 {
      assert Split(t, c) == [t];
    } else {
      var head, rest := t[..i], t[i + 1..];
      SplitStep(t, c);
      if k == 0 {
        assert x !in head by {
          assert forall m :: 0 <= m < |head| ==> head[m] == t[m];
        }
      } else {
        assert x !in rest by {
          assert forall m :: 0 <= m < |rest| ==> rest[m] == t[i + 1 + m];
        }
        SplitWithout(rest, c, x, k - 1);
      }
    }
  }

  /** Joining pieces that hold no `c` and splitting again gives back the pieces. */
  lemma {:induction false} SplitJoin(parts: seq<string>, c: char)
    requires |parts| >= 1 && forall k :: 0 <= k < |parts| ==> c !in parts[k]
    ensures Split(Join(parts, c), c) == parts
  {
    if |parts| == 1 {
      assert FirstIndexOf(parts[0], c) == -1;
    } else {
      var t := Join(parts, c);
      var n := |parts[0]|;
      assert t == parts[0] + [c] + Join(parts[1..], c);
      assert t[..n] == parts[0];
      FirstIndexOfAt(t, c, n);
      assert t[n + 1..] == Join(parts[1..], c);
      SplitJoin(parts[1..], c);
      assert parts == [parts[0]] + parts[1..];
    }
  }

  /** A character in none of the pieces, other than the separator, is not in their join. */
  lemma {:induction false} JoinWithout(parts: seq<string>, c: char, x: char)
    requires x != c && forall k :: 0 <= k < |parts| ==> x !in parts[k]
    ensures x !in Join(parts, c)
  {
    if |parts| > 1 {
      JoinWithout(parts[1..], c, x);
    }
  }

  /** `t.split(c)[-1]`. */
  function LastPiece(t: string, c: char): (r: string)
    ensures c !in r
  {
    var parts := Split(t, c);
    parts[|parts| - 1]
  }

  /** Past the first separator, the last piece is the last piece of the rest. */
  lemma {:induction false} LastPieceOfRest(t: string, c: char)
    requires FirstIndexOf(t, c) >= 0
    ensures LastPiece(t, c) == LastPiece(t[FirstIndexOf(t, c) + 1..], c)
  {
    var i := FirstIndexOf(t, c);
    var parts, rest := Split(t, c), Split(t[i + 1..], c);
    assert parts[|parts| - 1] == rest[|rest| - 1] by {
      SplitStep(t, c);
      assert |parts| == |rest| + 1;
    }
  }

  /** The last piece is what follows the last separator. */
  lemma {:induction false} LastPieceAfter(head: string, c: char, tail: string)
    requires c !in tail
    ensures LastPiece(head + [c] + tail, c) == tail
    decreases |head|
  {
    var t := head + [c] + tail;
    assert t[|head|] == c;
    var i := FirstIndexOf(t, c);
    assert 0 <= i <= |head|;
    LastPieceOfRest(t, c);
    if i == |head| {
      assert t[i + 1..] == tail;
      assert FirstIndexOf(tail, c) == -1;
      assert Split(tail, c) == [tail];
    } else {
      assert t[i + 1..] == head[i + 1..] + [c] + tail;
      LastPieceAfter(head[i + 1..], c, tail);
    }
  }

  /** The lines a `for line in file` loop sees, without their line terminators. A final
      empty piece, which Python does not produce, is harmless to every caller here: each
      skips lines that strip to nothing. */
  function FileLines(text: string): seq<string>
  {
    Split(UniversalNewlines(text), '\n')
  }

  // ---------------------------------------------------------------------------
  // Decimal formatting of integers (an f-string of an int)
  // ---------------------------------------------------------------------------

  predicate IsDigit(c: char)
  {
    '0' <= c <= '9'
  }

  function Digit(d: nat): (c: char)
    requires d < 10
    ensures IsDigit(c) && (c as int) - ('0' as int) == d
  {
    "0123456789"[d]
  }

  /** `f"{n}"` for a non-negative `n`: decimal digits, no leading zero. */
  function Decimal(n: nat): (r: string)
    ensures |r| >= 1 && (r[0] == '0' ==> n == 0)
    ensures forall k :: 0 <= k < |r| ==> IsDigit(r[k])
  {
    if n < 10 then [Digit(n)] else Decimal(n / 10) + [Digit(n % 10)]
  }

  /** `int(s)` on a string of decimal digits. */
  function ParseDecimal(s: string): nat
    requires forall k :: 0 <= k < |s| ==> IsDigit(s[k])
  {
    if s == [] then 0
    else
      assert IsDigit(s[|s| - 1]);
      ParseDecimal(s[..|s| - 1]) * 10 + ((s[|s| - 1] as int) - ('0' as int))
  }

  /** Formatting is inverted by parsing, so different numbers format differently. */
  lemma {:induction false} ParseDecimalOfDecimal(n: nat)
    ensures ParseDecimal(Decimal(n)) == n
    decreases n
  {
    if n >= 10 {
      ParseDecimalOfDecimal(n / 10);
      var r := Decimal(n);
      assert r[..|r| - 1] == Decimal(n / 10);
    }
  }
}
