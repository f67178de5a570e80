/** The Python `str` operations that the modelled code uses, restricted to
    ASCII: whitespace is ASCII whitespace and case mapping touches only
    'A'..'Z'.  Strings are sequences of characters, as in Python 3. */
module PyStr {
  import opened Wrappers

  /** `c.isspace()` on ASCII: space, \t \n \v \f \r and the separators
      \x1c..\x1f. */
  predicate IsSpace(c: char) {
    c == ' ' || 9 <= c as int <= 13 || 28 <= c as int <= 31
  }

  predicate IsUpper(c: char) {
    'A' <= c <= 'Z'
  }

  predicate IsLowerLetter(c: char) {
    'a' <= c <= 'z'
  }

  /** No leading and no trailing whitespace. */
  predicate Trimmed(s: string) {
    s == [] || (!IsSpace(s[0]) && !IsSpace(s[|s| - 1]))
  }

  predicate NoUpper(s: string) {
    forall i :: 0 <= i < |s| ==> !IsUpper(s[i])
  }

  function LowerChar(c: char): (r: char)
    ensures !IsUpper(r)
    ensures IsSpace(r) <==> IsSpace(c)
    ensures !IsUpper(c) ==> r == c
    ensures IsUpper(c) ==> IsLowerLetter(r)
  {
    if IsUpper(c) then (c as int + 32) as char else c
  }

  function UpperChar(c: char): (r: char)
    ensures !IsLowerLetter(r)
    ensures !IsLowerLetter(c) ==> r == c
    ensures IsLowerLetter(c) ==> IsUpper(r)
  {
    if IsLowerLetter(c) then (c as int - 32) as char else c
  }

  /** `s.lower()` */
  function Lower(s: string): (r: string)
    ensures |r| == |s|
    ensures forall i :: 0 <= i < |s| ==> r[i] == LowerChar(s[i])
    ensures NoUpper(r)
  {
    seq(|s|, i requires 0 <= i < |s| => LowerChar(s[i]))
  }

  /** `s.lstrip()` */
  function LStrip(s: string): (r: string)
    ensures |r| <= |s|
    ensures r == [] || !IsSpace(r[0])
    decreases |s|
  {
    if s != [] && IsSpace(s[0]) then LStrip(s[1..]) else s
  }

  /** `s.rstrip()` */
  function RStrip(s: string): (r: string)
    ensures |r| <= |s|
    ensures r == [] || !IsSpace(r[|r| - 1])
    decreases |s|
  {
    if s != [] && IsSpace(s[|s| - 1]) then RStrip(s[..|s| - 1]) else s
  }

  /** `s.strip()`, which is `s.lstrip().rstrip()` */
  function Strip(s: string): (r: string)
    ensures Trimmed(r)
    ensures |r| <= |s|
  {
    var t := LStrip(s);
    var r := RStrip(t);
    RStripIsPrefix(t);
    assert r != [] ==> r[0] == t[0];
    r
  }

  /** `s.lstrip(chars)`: drops the longest prefix made of characters of
      `chars` (a set of characters, not a prefix string). */
  function LStripChars(s: string, chars: string): (r: string)
    ensures |r| <= |s| && r == s[|s| - |r|..]
    ensures r == [] || r[0] !in chars
    decreases |s|
  {
    if s != [] && s[0] in chars then LStripChars(s[1..], chars) else s
  }

  /** `s.replace(c, rep)` for a one-character pattern `c`. */
  function ReplaceChar(s: string, c: char, rep: string): (r: string)
    ensures c !in rep ==> c !in r
    ensures c !in s ==> r == s
  {
    if s == [] then []
    else (if s[0] == c then rep else [s[0]]) + ReplaceChar(s[1..], c, rep)
  }

  /** `s.capitalize()`: first character upper case, the rest lower case. */
  function Capitalize(s: string): (r: string)
    ensures |r| == |s|
    ensures s != [] ==> r[0] == UpperChar(s[0]) && r[1..] == Lower(s[1..])
  {
    if s == [] then [] else [UpperChar(s[0])] + Lower(s[1..])
  }

  /** `" " * n`, which is "" for n <= 0. */
  function Spaces(n: int): (r: string)
    ensures |r| == if n <= 0 then 0 else n
    ensures forall i :: 0 <= i < |r| ==> r[i] == ' '
    decreases n
  {
    if n <= 0 then "" else " " + Spaces(n - 1)
  }

  /** `s[:n]` for n >= 0. */
  function Take(s: string, n: nat): (r: string)
    ensures |r| == if n <= |s| then n else |s|
    ensures r == s[..|r|]
  {
    if n <= |s| then s[..n] else s
  }

  predicate IsPrefix(p: string, s: string) {
    |p| <= |s| && s[..|p|] == p
  }

  /** `sub in s` */
  predicate Contains(s: string, sub: string)
    decreases |s|
  {
    IsPrefix(sub, s) || (s != [] && Contains(s[1..], sub))
  }

  /** `s.find(sub)`, with -1 as None: the first index at which `sub` occurs. */
  function Find(s: string, sub: string): (r: Option<nat>)
    ensures r.Some? ==> r.value + |sub| <= |s| && s[r.value..r.value + |sub|] == sub
    ensures r.Some? ==> forall j :: 0 <= j < r.value ==> !IsPrefix(sub, s[j..])
    ensures r.Some? <==> Contains(s, sub)
    decreases |s|
  {
    if IsPrefix(sub, s) then Some(0)
    else if s == [] then None
    else match Find(s[1..], sub)
      case None => None
      case Some(i) =>
        FindShift(s, sub, i);
        Some(i + 1)
  }

  /** An occurrence found in `s[1..]` at `i` is one in `s` at `i + 1`. */
  lemma FindShift(s: string, sub: string, i: nat)
    requires s != [] && !IsPrefix(sub, s)
    requires i + |sub| <= |s[1..]| && s[1..][i..i + |sub|] == sub
    requires forall j :: 0 <= j < i ==> !IsPrefix(sub, s[1..][j..])
    ensures s[i + 1..i + 1 + |sub|] == sub
    ensures forall j :: 0 <= j < i + 1 ==> !IsPrefix(sub, s[j..])
  {
    assert s[0..] == s;
    assert forall j :: 1 <= j <= i ==> s[j..] == s[1..][j - 1..];
    assert s[i + 1..i + 1 + |sub|] == s[1..][i..i + |sub|];
  }

  /** `s.count(sub)`: non-overlapping occurrences, scanning left to right. */
  function Count(s: string, sub: string): nat
    requires sub != []
    decreases |s|
  {
    match Find(s, sub)
    case None => 0
    case Some(i) => 1 + Count(s[i + |sub|..], sub)
  }

  /** Counting goes on after the first occurrence. */
  lemma CountAt(s: string, sub: string, i: nat)
    requires sub != [] && Find(s, sub) == Some(i)
    ensures Count(s, sub) == 1 + Count(s[i + |sub|..], sub)
  {
  }

  /** A string without occurrences counts none. */
  lemma CountNone(s: string, sub: string)
    requires sub != [] && Count(s, sub) == 0
    ensures Find(s, sub) == None
  {
  }

  /** `sep.join(parts)` */
  function Join(parts: seq<string>, sep: string): string
  {
    if parts == [] then ""
    else if |parts| == 1 then parts[0]
    else parts[0] + sep + Join(parts[1..], sep)
  }

  /** `s.split(sep)` for a non-empty separator. */
  function Split(s: string, sep: string): (parts: seq<string>)
    requires sep != []
    ensures |parts| == Count(s, sep) + 1
    ensures forall k :: 0 <= k < |parts| ==> !Contains(parts[k], sep)
    ensures Join(parts, sep) == s
    decreases |s|
  {
    match Find(s, sep)
    case None => [s]
    case Some(i) =>
      var rest := Split(s[i + |sep|..], sep);
      FirstOccurrence(s, sep, i);
      JoinCons(s[..i], rest, sep);
      CutAround(s, i, sep);
      var parts := [s[..i]] + rest;
      assert forall k :: 1 <= k < |parts| ==> parts[k] == rest[k - 1];
      parts
  }

  lemma JoinCons(x: string, rest: seq<string>, sep: string)
    requires rest != []
    ensures Join([x] + rest, sep) == x + sep + Join(rest, sep)
  {
    assert ([x] + rest)[1..] == rest;
  }

  /** A string is what comes before an occurrence, the occurrence, and what
      comes after. */
  lemma CutAround(s: string, i: nat, sub: string)
    requires i + |sub| <= |s| && s[i..i + |sub|] == sub
    ensures s == s[..i] + sub + s[i + |sub|..]
  {
    assert s == s[..i] + s[i..i + |sub|] + s[i + |sub|..];
  }

  /** `a < b` on str: lexicographic order of code points. */
  predicate Less(a: string, b: string)
    decreases |a|
  {
    if a == [] then b != []
    else b != [] && (a[0] < b[0] || (a[0] == b[0] && Less(a[1..], b[1..])))
  }

  // ---------------------------------------------------------------------
  // Lemmas

  /** `lstrip()` leaves a suffix. */
  lemma {:induction false} LStripIsSuffix(s: string)
    ensures LStrip(s) == s[|s| - |LStrip(s)|..]
    decreases |s|
  {
    if s != [] && IsSpace(s[0]) {
      LStripIsSuffix(s[1..]);
    }
  }

  /** `rstrip()` leaves a prefix. */
  lemma {:induction false} RStripIsPrefix(s: string)
    ensures RStrip(s) == s[..|RStrip(s)|]
    decreases |s|
  {
    if s != [] && IsSpace(s[|s| - 1]) {
      RStripIsPrefix(s[..|s| - 1]);
    }
  }

  /** `lstrip()` drops only whitespace. */
  lemma {:induction false} LStripDropsSpaces(s: string)
    ensures forall i :: 0 <= i < |s| - |LStrip(s)| ==> IsSpace(s[i])
    decreases |s|
  {
    if s != [] && IsSpace(s[0]) {
      LStripDropsSpaces(s[1..]);
      assert forall i :: 1 <= i < |s| ==> s[i] == s[1..][i - 1];
    }
  }

  /** `rstrip()` drops only whitespace. */
  lemma {:induction false} RStripDropsSpaces(s: string)
    ensures forall i :: |RStrip(s)| <= i < |s| ==> IsSpace(s[i])
    decreases |s|
  {
    if s != [] && IsSpace(s[|s| - 1]) {
      RStripDropsSpaces(s[..|s| - 1]);
    }
  }

  /** `lstrip(chars)` drops only characters of `chars`. */
  lemma {:induction false} LStripCharsDrops(s: string, chars: string)
    ensures forall i :: 0 <= i < |s| - |LStripChars(s, chars)| ==> s[i] in chars
    decreases |s|
  {
    if s != [] && s[0] in chars {
      LStripCharsDrops(s[1..], chars);
      assert forall i :: 1 <= i < |s| ==> s[i] == s[1..][i - 1];
    }
  }

  /** Nothing contains a longer string. */
  lemma {:induction false} LongerNotContained(s: string, sub: string)
    requires |s| < |sub|
    ensures !Contains(s, sub)
    decreases |s|
  {
    if s != [] {
      LongerNotContained(s[1..], sub);
    }
  }

  /** Capitalising leaves a character that is not a letter where it was. */
  lemma {:induction false} CapitalizeKeeps(s: string, c: char)
    requires !IsUpper(c) && !IsLowerLetter(c)
    ensures c in Capitalize(s) <==> c in s
  {
    if s != [] {
      var r := Capitalize(s);
      assert r == [r[0]] + r[1..] && s == [s[0]] + s[1..];
      assert (r[0] == c) <==> (s[0] == c);
      assert forall k :: 0 <= k < |s| - 1 ==> (r[1..][k] == c <==> s[1..][k] == c);
      assert c in r[1..] <==> c in s[1..];
    }
  }

  /** An occurrence can be pulled out of a containing string. */
  lemma {:induction false} ContainsSplit(s: string, sub: string) returns (a: string, b: string)
    requires Contains(s, sub)
    ensures s == a + sub + b
    decreases |s|
  {
    if IsPrefix(sub, s) {
      a, b := [], s[|sub|..];
      assert s == s[..|sub|] + s[|sub|..];
    } else {
      var a', b' := ContainsSplit(s[1..], sub);
      a, b := [s[0]] + a', b';
      assert s == [s[0]] + s[1..];
    }
  }

  /** Every string of the form a + sub + b contains sub. */
  lemma {:induction false} ContainsIntro(a: string, sub: string, b: string)
    ensures Contains(a + sub + b, sub)
    decreases |a|
  {
    var s := a + sub + b;
    if a == [] {
      assert s[..|sub|] == sub;
    } else {
      ContainsIntro(a[1..], sub, b);
      assert s[1..] == a[1..] + sub + b;
    }
  }

  /** A string none of whose suffixes starts with sub does not contain it. */
  lemma {:induction false} NotContains(t: string, sub: string)
    requires forall j :: 0 <= j <= |t| ==> !IsPrefix(sub, t[j..])
    ensures !Contains(t, sub)
    decreases |t|
  {
    assert t[0..] == t;
    if t != [] {
      assert forall j :: 0 <= j <= |t[1..]| ==> t[1..][j..] == t[j + 1..];
      NotContains(t[1..], sub);
    }
  }

  /** The prefix before the first occurrence holds no occurrence. */
  lemma FirstOccurrence(s: string, sub: string, i: nat)
    requires sub != []
    requires Find(s, sub) == Some(i)
    ensures !Contains(s[..i], sub)
  {
    var t := s[..i];
    forall j | 0 <= j <= |t|
      ensures !IsPrefix(sub, t[j..])
    {
      if j < i {
        assert t[j..] == s[j..i];
        assert !IsPrefix(sub, s[j..]);
      }
    }
    NotContains(t, sub);
  }

  lemma {:induction false} LowerAppend(a: string, b: string)
    ensures Lower(a + b) == Lower(a) + Lower(b)
  {
    assert forall i :: 0 <= i < |a + b| ==> Lower(a + b)[i] == (Lower(a) + Lower(b))[i];
  }

  /** Lower-casing is pointwise, so it commutes with slicing. */
  lemma LowerSlice(s: string, i: nat, j: nat)
    requires i <= j <= |s|
    ensures Lower(s[i..j]) == Lower(s)[i..j]
  {
  }

  lemma LowerOfLower(s: string)
    requires NoUpper(s)
    ensures Lower(s) == s
  {
  }

  /** Lower-casing keeps every whitespace character where it is. */
  lemma {:induction false} LowerTrimmed(s: string)
    requires Trimmed(s)
    ensures Trimmed(Lower(s))
  {
  }

  lemma {:induction false} StripTrimmed(s: string)
    requires Trimmed(s)
    ensures Strip(s) == s
  {
    assert LStrip(s) == s;
    assert RStrip(s) == s;
  }

  /** Stripping in front of a part that starts with a non-space. */
  lemma {:induction false} LStripInFront(a: string, p: string, b: string)
    requires p != [] && !IsSpace(p[0])
    ensures LStrip(a + p + b) == LStrip(a) + p + b
    decreases |a|
  {
    if a == [] {
      assert a + p + b == p + b;
    } else if IsSpace(a[0]) {
      assert (a + p + b)[1..] == a[1..] + p + b;
      LStripInFront(a[1..], p, b);
    }
  }

  /** Stripping behind a part that ends with a non-space. */
  lemma {:induction false} RStripBehind(a: string, p: string, b: string)
    requires p != [] && !IsSpace(p[|p| - 1])
    ensures RStrip(a + p + b) == a + p + RStrip(b)
    decreases |b|
  {
    if b == [] {
      assert a + p + b == a + p;
    } else if IsSpace(b[|b| - 1]) {
      assert (a + p + b)[..|a + p + b| - 1] == a + p + b[..|b| - 1];
      RStripBehind(a, p, b[..|b| - 1]);
    }
  }

  lemma {:induction false} ReplaceCharAppend(a: string, b: string, c: char, rep: string)
    ensures ReplaceChar(a + b, c, rep) == ReplaceChar(a, c, rep) + ReplaceChar(b, c, rep)
    decreases |a|
  {
    if a == [] {
      assert a + b == b;
    } else {
      assert (a + b)[1..] == a[1..] + b;
      ReplaceCharAppend(a[1..], b, c, rep);
    }
  }

  /** Replacing a character that occurs only at the end. */
  /** Every character of `s.replace(c, rep)` is one of `s` other than `c`,
      or one of `rep`. */
  lemma {:induction false} ReplaceCharFrom(s: string, c: char, rep: string)
    ensures forall x :: x in ReplaceChar(s, c, rep) ==> (x in s && x != c) || x in rep
    decreases |s|
  {
    if s != [] {
      ReplaceCharFrom(s[1..], c, rep);
      assert forall x :: x in s[1..] ==> x in s;
    }
  }

  lemma ReplaceCharLast(a: string, c: char, rep: string)
    requires c !in a
    ensures ReplaceChar(a + [c], c, rep) == a + rep
  {
    ReplaceCharAppend(a, [c], c, rep);
    assert ReplaceChar([c], c, rep) == rep + ReplaceChar([], c, rep);
  }

  /** Lower-casing and stripping commute, since lower-casing keeps
      whitespace in place. */
  lemma {:induction false} LowerStripCommute(s: string)
    ensures Lower(Strip(s)) == Strip(Lower(s))
  {
    LowerLStrip(s);
    LowerRStrip(LStrip(s));
  }

  lemma {:induction false} LowerLStrip(s: string)
    ensures Lower(LStrip(s)) == LStrip(Lower(s))
    decreases |s|
  {
    if s != [] && IsSpace(s[0]) {
      LowerLStrip(s[1..]);
      assert Lower(s)[1..] == Lower(s[1..]);
    }
  }

  lemma {:induction false} LowerRStrip(s: string)
    ensures Lower(RStrip(s)) == RStrip(Lower(s))
    decreases |s|
  {
    if s != [] && IsSpace(s[|s| - 1]) {
      LowerRStrip(s[..|s| - 1]);
      assert Lower(s)[..|s| - 1] == Lower(s[..|s| - 1]);
    }
  }

  /** Joining pieces free of a one-character separator and splitting at it
      gives the pieces back. */
  lemma {:induction false} SplitJoin(parts: seq<string>, c: char)
    requires parts != []
    requires forall k :: 0 <= k < |parts| ==> c !in parts[k]
    ensures Split(Join(parts, [c]), [c]) == parts
    decreases |parts|
  {
    var s := Join(parts, [c]);
    if |parts| == 1 {
      NoStartNotFound(parts[0], [c]);
    } else {
      var rest := Join(parts[1..], [c]);
      FindAfter(parts[0], [c], rest);
      assert s[|parts[0]| + 1..] == rest;
      SplitJoin(parts[1..], c);
      assert s[..|parts[0]|] == parts[0];
    }
  }

  /** A string without the first character of `sub` does not contain it. */
  lemma {:induction false} NoStartNotFound(s: string, sub: string)
    requires sub != [] && sub[0] !in s
    ensures Find(s, sub) == None
    decreases |s|
  {
    if s != [] {
      assert |sub| <= |s| ==> s[..|sub|][0] == s[0];
      NoStartNotFound(s[1..], sub);
    }
  }

  /** `sub` is found right after a prefix without its first character. */
  lemma {:induction false} FindAfter(p: string, sub: string, rest: string)
    requires sub != [] && sub[0] !in p
    ensures Find(p + sub + rest, sub) == Some(|p|)
    decreases |p|
  {
    var s := p + sub + rest;
    if p == [] {
      assert s == sub + rest;
      assert s[..|sub|] == sub;
    } else {
      assert s[1..] == p[1..] + sub + rest;
      assert |sub| <= |s| ==> s[..|sub|][0] == p[0];
      FindAfter(p[1..], sub, rest);
    }
  }

  lemma {:induction false} LessIrreflexive(a: string)
    ensures !Less(a, a)
    decreases |a|
  {
    if a != [] {
      LessIrreflexive(a[1..]);
    }
  }

  lemma {:induction false} LessTransitive(a: string, b: string, c: string)
    requires Less(a, b) && Less(b, c)
    ensures Less(a, c)
    decreases |a|
  {
    if a != [] && a[0] == b[0] && b[0] == c[0] {
      LessTransitive(a[1..], b[1..], c[1..]);
    }
  }

  lemma {:induction false} LessTotal(a: string, b: string)
    ensures a == b || Less(a, b) || Less(b, a)
    decreases |a|
  {
    if a != [] && b != [] && a[0] == b[0] {
      LessTotal(a[1..], b[1..]);
      if a[1..] == b[1..] {
        assert a == [a[0]] + a[1..] && b == [b[0]] + b[1..];
      }
    }
  }

  lemma {:induction false} LessAsymmetric(a: string, b: string)
    requires Less(a, b)
    ensures !Less(b, a)
    decreases |a|
  {
    if a != [] && b != [] && a[0] == b[0] {
      LessAsymmetric(a[1..], b[1..]);
    }
  }
}
