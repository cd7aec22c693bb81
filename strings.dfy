/**
 * The JavaScript string built-ins the dashboard relies on, restricted to
 * ASCII: `toLowerCase`, `includes`, `trim`, `split` on a one-character
 * separator, `replace` of the first occurrence of a one-character pattern,
 * and the decimal rendering of a non-negative integer in a template string.
 */
module Strings {

  // ---------------------------------------------------------------- toLowerCase

  /** ASCII case folding of one character. */
  function LowerChar(c: char): char {
    if 'A' <= c <= 'Z' then (c as int + 32) as char else c
  }

  /** `s.toLowerCase()`, ASCII only: no capital letter is left, each capital
      becomes the letter 32 code points above it, and nothing else changes. */
  function Lower(s: string): (r: string)
    ensures |r| == |s|
    ensures forall i :: 0 <= i < |r| ==> !('A' <= r[i] <= 'Z')
    ensures forall i :: 0 <= i < |s| ==>
      if 'A' <= s[i] <= 'Z' then r[i] as int == s[i] as int + 32 else r[i] == s[i]
  {
    seq(|s|, i requires 0 <= i < |s| => LowerChar(s[i]))
  }

  lemma LowerIdempotent(s: string)
    ensures Lower(Lower(s)) == Lower(s)
  {
  }

  /** Case folding works piece by piece. */
  lemma LowerAppend(a: string, b: string)
    ensures Lower(a + b) == Lower(a) + Lower(b)
  {
    var l, r := Lower(a + b), Lower(a) + Lower(b);
    forall i | 0 <= i < |l| ensures l[i] == r[i] {
      if i < |a| {
        assert (a + b)[i] == a[i];
      } else {
        assert (a + b)[i] == b[i - |a|];
      }
    }
  }

  /** A lower-case letter appears after folding only where the string had it
      in either case. */
  lemma LowerAvoids(s: string, lower: char, upper: char)
    requires 'A' <= upper <= 'Z' && lower as int == upper as int + 32
    requires lower !in s && upper !in s
    ensures lower !in Lower(s)
  {
    forall i | 0 <= i < |s| ensures Lower(s)[i] != lower {
      assert s[i] != lower && s[i] != upper;
    }
  }

  // ------------------------------------------------------------------ includes

  /** `sub` occurs in `s` starting at position `i`. */
  predicate OccursAt(s: string, sub: string, i: int) {
    0 <= i <= |s| - |sub| && s[i..i + |sub|] == sub
  }

  /** `s.includes(sub)`: `sub` occurs in `s` at some position, as the
      search of ECMAScript's `String.prototype.includes` defines it. */
  predicate Includes(s: string, sub: string) {
    exists i :: 0 <= i <= |s| - |sub| && OccursAt(s, sub, i)
  }

  /** A string occurs in any string that has it as a middle part. */
  lemma IncludesMiddle(a: string, b: string, c: string)
    ensures Includes(a + b + c, b)
  {
    assert (a + b + c)[|a|..|a| + |b|] == b;
    assert OccursAt(a + b + c, b, |a|);
  }

  /** The same after lower-casing, for a middle part that lower-cases to `sub`. */
  lemma LowerIncludesMiddle(a: string, b: string, c: string, sub: string)
    requires Lower(b) == sub
    ensures Includes(Lower(a + b + c), sub)
  {
    LowerAppend(a + b, c);
    LowerAppend(a, b);
    IncludesMiddle(Lower(a), sub, Lower(c));
  }

  /** If character `k` of `sub` does not occur in `p`, and the tail `q` is too
      short to hold `sub` from position `k` on, then `sub` does not occur in
      `p + q`. */
  lemma IncludesBlocked(p: string, q: string, sub: string, k: nat)
    requires k < |sub| && sub[k] !in p && |q| < |sub| - k
    ensures !Includes(p + q, sub)
  {
    var s := p + q;
    forall i | 0 <= i <= |s| - |sub| ensures !OccursAt(s, sub, i) {
      assert s[i + k] == p[i + k];
      assert s[i..i + |sub|][k] != sub[k];
    }
  }

  /** The same after lower-casing `p + q`, for a letter `sub[k]` that occurs
      in `p` in neither case. */
  lemma LowerBlocked(p: string, q: string, sub: string, k: nat, upper: char)
    requires k < |sub| && 'A' <= upper <= 'Z' && sub[k] as int == upper as int + 32
    requires sub[k] !in p && upper !in p && |q| < |sub| - k
    ensures !Includes(Lower(p + q), sub)
  {
    LowerAppend(p, q);
    LowerAvoids(p, sub[k], upper);
    IncludesBlocked(Lower(p), Lower(q), sub, k);
  }

  /** A string in which a letter of `sub` occurs in neither case does not
      include `sub` once lower-cased. */
  lemma LowerLacks(p: string, sub: string, k: nat, upper: char)
    requires k < |sub| && 'A' <= upper <= 'Z' && sub[k] as int == upper as int + 32
    requires sub[k] !in p && upper !in p
    ensures !Includes(Lower(p), sub)
  {
    LowerAvoids(p, sub[k], upper);
    assert Lower(p) + "" == Lower(p);
    IncludesBlocked(Lower(p), "", sub, k);
  }

  /** The empty string occurs in every string. */
  lemma IncludesEmpty(s: string)
    ensures Includes(s, "")
  {
    assert OccursAt(s, "", 0);
  }

  // ---------------------------------------------------------------------- trim

  /** The characters `trim` removes, restricted to ASCII. */
  predicate IsWhitespace(c: char) {
    c == ' ' || c == '\t' || c == '\n' || c == '\r' || c as int == 11 || c as int == 12
  }

  /** Drops the longest whitespace prefix. */
  function TrimStart(s: string): (r: string)
    ensures |r| <= |s| && r == s[|s| - |r|..]
    ensures forall i :: 0 <= i < |s| - |r| ==> IsWhitespace(s[i])
    ensures r == [] || !IsWhitespace(r[0])
    decreases |s|
  {
    if |s| > 0 && IsWhitespace(s[0]) then TrimStart(s[1..]) else s
  }

  /** Drops the longest whitespace suffix. */
  function TrimEnd(s: string): (r: string)
    ensures |r| <= |s| && r == s[..|r|]
    ensures forall i :: |r| <= i < |s| ==> IsWhitespace(s[i])
    ensures r == [] || !IsWhitespace(r[|r| - 1])
    decreases |s|
  {
    if |s| > 0 && IsWhitespace(s[|s| - 1]) then TrimEnd(s[..|s| - 1]) else s
  }

  /** `s.trim()`: whitespace removed from both ends. */
  function Trim(s: string): string {
    TrimEnd(TrimStart(s))
  }

  /** `s.trim()` is the slice of `s` that starts after the leading whitespace,
      and it neither starts nor ends with whitespace. */
  lemma TrimIsSlice(s: string)
    ensures |s| - |TrimStart(s)| + |Trim(s)| <= |s|
    ensures Trim(s) == s[|s| - |TrimStart(s)|..][..|Trim(s)|]
    ensures Trim(s) == [] || (!IsWhitespace(Trim(s)[0]) && !IsWhitespace(Trim(s)[|Trim(s)| - 1]))
  {
    TrimSides(s, TrimStart(s), TrimEnd(TrimStart(s)));
  }

  /** Everything `s.trim()` cuts off, on either side, is whitespace. */
  lemma TrimCutsWhitespace(s: string)
    ensures forall i :: 0 <= i < |s| - |TrimStart(s)| ==> IsWhitespace(s[i])
    ensures forall i :: |s| - |TrimStart(s)| + |Trim(s)| <= i < |s| ==> IsWhitespace(s[i])
  {
    TrimSides(s, TrimStart(s), TrimEnd(TrimStart(s)));
  }

  /** A whitespace-free-ended slice taken from a whitespace-cut suffix. */
  lemma TrimSides(s: string, t: string, r: string)
    requires |t| <= |s| && t == s[|s| - |t|..]
    requires t == [] || !IsWhitespace(t[0])
    requires |r| <= |t| && r == t[..|r|]
    requires forall i :: |r| <= i < |t| ==> IsWhitespace(t[i])
    requires r == [] || !IsWhitespace(r[|r| - 1])
    ensures forall i :: |s| - |t| + |r| <= i < |s| ==> IsWhitespace(s[i])
    ensures r == [] || !IsWhitespace(r[0])
  {
    var k, m := |s| - |t|, |r|;
    if r != [] {
      assert r[0] == t[0];
    }
    forall i | k + m <= i < |s| ensures IsWhitespace(s[i]) {
      assert s[i] == t[i - k];
    }
  }

  /** A string that neither starts nor ends with whitespace, followed by
      whitespace, trims to itself. */
  lemma TrimPadded(s: string, pad: string)
    requires s != [] && !IsWhitespace(s[0]) && !IsWhitespace(s[|s| - 1])
    requires forall i :: 0 <= i < |pad| ==> IsWhitespace(pad[i])
    ensures Trim(s + pad) == s
  {
    assert TrimStart(s + pad) == s + pad;
    TrimEndPadded(s, pad);
  }

  lemma {:induction false} TrimEndPadded(s: string, pad: string)
    requires s != [] && !IsWhitespace(s[|s| - 1])
    requires forall i :: 0 <= i < |pad| ==> IsWhitespace(pad[i])
    ensures TrimEnd(s + pad) == s
    decreases |pad|
  {
    if pad == [] {
      assert s + pad == s;
    } else {
      var t := s + pad;
      assert t[..|t| - 1] == s + pad[..|pad| - 1];
      TrimEndPadded(s, pad[..|pad| - 1]);
    }
  }

  /** A trimmed string is empty exactly when the original was all whitespace. */
  lemma TrimEmptyIff(s: string)
    ensures Trim(s) == [] <==> forall i :: 0 <= i < |s| ==> IsWhitespace(s[i])
  {
    var t := TrimStart(s);
    if t != [] {
      assert !IsWhitespace(s[|s| - |t|]);
    }
  }

  lemma TrimIdempotent(s: string)
    ensures Trim(Trim(s)) == Trim(s)
  {
    var r := Trim(s);
    if r != [] {
      assert TrimStart(r) == r;
      assert TrimEnd(r) == r;
    }
  }

  // --------------------------------------------------------------------- split

  /** `s.split(sep)` for a one-character separator: never empty; consecutive or
      boundary separators give empty pieces, as in JavaScript. */
  function Split(s: string, sep: char): (r: seq<string>)
    ensures |r| >= 1
    decreases |s|
  {
    if |s| == 0 then [""]
    else
      var rest := Split(s[1..], sep);
      if s[0] == sep then [""] + rest
      else [[s[0]] + rest[0]] + rest[1..]
  }

  /** The inverse of `Split`: the pieces glued back with the separator. */
  function Join(parts: seq<string>, sep: char): string
    decreases |parts|
  {
    if |parts| == 0 then ""
    else if |parts| == 1 then parts[0]
    else parts[0] + [sep] + Join(parts[1..], sep)
  }

  /** How many times `c` occurs in `s`. */
  function Occurrences(s: string, c: char): nat {
    multiset(s)[c]
  }

  /** No piece of a split contains the separator. */
  lemma {:induction false} SplitPiecesFree(s: string, sep: char)
    ensures forall k :: 0 <= k < |Split(s, sep)| ==> sep !in Split(s, sep)[k]
    decreases |s|
  {
    if |s| > 0 {
      SplitPiecesFree(s[1..], sep);
    }
  }

  /** Gluing the pieces back gives the original string. */
  lemma {:induction false} JoinSplit(s: string, sep: char)
    ensures Join(Split(s, sep), sep) == s
    decreases |s|
  {
    if |s| > 0 {
      var rest := Split(s[1..], sep);
      JoinSplit(s[1..], sep);
      if s[0] == sep {
        assert ([""] + rest)[1..] == rest;
        assert s == [sep] + s[1..];
      } else if |rest| == 1 {
        assert s == [s[0]] + s[1..];
      } else {
        var r := Split(s, sep);
        assert r[1..] == rest[1..];
        assert s == [s[0]] + s[1..];
      }
    }
  }

  /** A string without the separator splits into itself alone. */
  lemma {:induction false} SplitFree(s: string, sep: char)
    requires sep !in s
    ensures Split(s, sep) == [s]
    decreases |s|
  {
    if |s| > 0 {
      SplitFree(s[1..], sep);
      assert s == [s[0]] + s[1..];
    }
  }

  /** A separator-free prefix followed by the separator becomes the first piece. */
  lemma {:induction false} SplitAfterFree(a: string, b: string, sep: char)
    requires sep !in a
    ensures Split(a + [sep] + b, sep) == [a] + Split(b, sep)
    decreases |a|
  {
    var s := a + [sep] + b;
    if |a| == 0 {
      assert s == [sep] + b;
      assert s[1..] == b;
    } else {
      assert s[1..] == a[1..] + [sep] + b;
      SplitAfterFree(a[1..], b, sep);
      assert a == [a[0]] + a[1..];
    }
  }

  /** Splitting undoes joining, provided no piece contains the separator. */
  lemma {:induction false} SplitJoin(parts: seq<string>, sep: char)
    requires |parts| >= 1
    requires forall k :: 0 <= k < |parts| ==> sep !in parts[k]
    ensures Split(Join(parts, sep), sep) == parts
    decreases |parts|
  {
    if |parts| == 1 {
      SplitFree(parts[0], sep);
    } else {
      SplitJoin(parts[1..], sep);
      SplitAfterFree(parts[0], Join(parts[1..], sep), sep);
      assert parts == [parts[0]] + parts[1..];
    }
  }

  /** A split has one more piece than the string has separators. */
  lemma {:induction false} SplitCount(s: string, sep: char)
    ensures |Split(s, sep)| == Occurrences(s, sep) + 1
    decreases |s|
  {
    if |s| > 0 {
      SplitCount(s[1..], sep);
      assert s == [s[0]] + s[1..];
      assert multiset(s) == multiset([s[0]]) + multiset(s[1..]);
    }
  }

  /** Two separator-free pieces joined by one separator split back into them. */
  lemma SplitInTwo(a: string, b: string, sep: char)
    requires sep !in a && sep !in b
    ensures Split(a + [sep] + b, sep) == [a, b]
  {
    SplitAfterFree(a, b, sep);
    SplitFree(b, sep);
  }

  /** A string with exactly one separator splits into the part before it
      and the part after it, and the part after it holds no separator. */
  lemma SplitOnce(s: string, sep: char)
    requires Occurrences(s, sep) == 1
    ensures sep !in s[IndexOf(s, sep) + 1..]
    ensures Split(s, sep) == [s[..IndexOf(s, sep)], s[IndexOf(s, sep) + 1..]]
  {
    assert sep in multiset(s);
    var i := IndexOf(s, sep);
    var a, b := s[..i], s[i + 1..];
    assert s == a + [sep] + b;
    assert multiset(s) == multiset(a) + multiset([sep]) + multiset(b);
    assert sep !in multiset(a);
    assert sep !in multiset(b);
    SplitInTwo(a, b, sep);
  }

  /** The first piece is the whole string exactly when the separator is absent. */
  lemma {:induction false} FirstPieceWhole(s: string, sep: char)
    ensures Split(s, sep)[0] == s <==> sep !in s
  {
    if sep !in s {
      SplitFree(s, sep);
    } else {
      var r := Split(s, sep);
      SplitPiecesFree(s, sep);
      assert sep !in r[0];
    }
  }

  /** The first piece of a split is the part before the first separator, so a
      separator inside `a` ends the first piece of `a + rest` inside `a`. */
  lemma {:induction false} FirstPieceOfPrefixed(a: string, rest: string, sep: char)
    requires sep in a
    ensures |Split(a + rest, sep)[0]| < |a|
    decreases |a|
  {
    var s := a + rest;
    if a[0] != sep {
      assert s[1..] == a[1..] + rest;
      FirstPieceOfPrefixed(a[1..], rest, sep);
    }
  }

  // ------------------------------------------------------------------- replace

  /** Position of the first `c` in `s`, or `|s|` when there is none. */
  function IndexOf(s: string, c: char): (i: nat)
    ensures i <= |s|
    ensures i < |s| ==> s[i] == c
    ensures c !in s[..i]
    ensures i == |s| <==> c !in s
    decreases |s|
  {
    if s == [] then 0
    else if s[0] == c then 0
    else
      var j := 1 + IndexOf(s[1..], c);
      assert s[..j] == [s[0]] + s[1..][..j - 1];
      j
  }

  /** `s.replace(c, '')` with a one-character string pattern: only the FIRST
      occurrence of `c` is removed. */
  function RemoveFirst(s: string, c: char): (r: string)
    ensures c !in s ==> r == s
    ensures c in s ==> |r| == |s| - 1 && s == r[..IndexOf(s, c)] + [c] + r[IndexOf(s, c)..]
  {
    var i := IndexOf(s, c);
    if i < |s| then
      var r := s[..i] + s[i + 1..];
      assert r[..i] == s[..i] && r[i..] == s[i + 1..];
      assert s == s[..i] + [c] + s[i + 1..];
      r
    else s
  }

  /** The first `c` of `a + [c] + b` is the one after `a` when `a` has none. */
  lemma IndexOfAfterFree(a: string, b: string, c: char)
    requires c !in a
    ensures IndexOf(a + [c] + b, c) == |a|
  {
    var s := a + [c] + b;
    assert s[|a|] == c;
    assert s[..|a|] == a;
    assert s[..|a| + 1] == a + [c];
  }

  /** Removing the first `c` after a `c`-free prefix drops exactly that one. */
  lemma RemoveFirstAfterFree(a: string, b: string, c: char)
    requires c !in a
    ensures RemoveFirst(a + [c] + b, c) == a + b
  {
    var s := a + [c] + b;
    IndexOfAfterFree(a, b, c);
    assert s[..|a|] == a;
    assert s[|a| + 1..] == b;
  }

  // ------------------------------------------------------ number to decimal text

  predicate IsDigit(c: char) {
    '0' <= c <= '9'
  }

  function DigitChar(d: nat): (c: char)
    requires d < 10
    ensures IsDigit(c)
  {
    ('0' as int + d) as char
  }

  /** `${n}` for a non-negative integer: its decimal digits, most significant first. */
  function NatToString(n: nat): (r: string)
    ensures |r| >= 1
    ensures forall i :: 0 <= i < |r| ==> IsDigit(r[i])
    ensures (r[0] == '0') == (n == 0)
    ensures |r| == 1 || r[0] != '0'
    decreases n
  {
    if n < 10 then [DigitChar(n)] else NatToString(n / 10) + [DigitChar(n % 10)]
  }

  /** The value of a string of decimal digits. */
  function DigitsValue(s: string): nat
    requires forall i :: 0 <= i < |s| ==> IsDigit(s[i])
    decreases |s|
  {
    if s == [] then 0
    else
      var last := s[|s| - 1];
      assert IsDigit(last);
      DigitsValue(s[..|s| - 1]) * 10 + (last as int - '0' as int)
  }

  /** The decimal rendering is read back as the same number. */
  lemma {:induction false} NatToStringRoundTrip(n: nat)
    ensures DigitsValue(NatToString(n)) == n
    decreases n
  {
    var r := NatToString(n);
    if n >= 10 {
      NatToStringRoundTrip(n / 10);
      assert r[..|r| - 1] == NatToString(n / 10);
    } else {
      assert r[..0] == [];
    }
  }

  /** The rendering contains no hyphen. */
  lemma NatToStringNoHyphen(n: nat)
    ensures '-' !in NatToString(n)
  {
  }
}
