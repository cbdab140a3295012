/** Go strings are byte strings; this module gives the byte type and the few
    library operations on them (package strings, ASCII subset) that the
    user-interface code relies on. */
module Bytes {

  datatype Option<T> = None | Some(value: T)

  newtype byte = x: int | 0 <= x < 256

  /** A Go `string`: a sequence of bytes, usually but not necessarily UTF-8. */
  type Str = seq<byte>

  const Tab: byte := 0x09
  const Newline: byte := 0x0a
  const Esc: byte := 0x1b
  const Space: byte := 0x20
  const Dot: byte := 0x2e
  const Slash: byte := 0x2f
  const Pipe: byte := 0x7c

  /** Every character of a literal is below 256. */
  ghost predicate IsLatin1(s: string) {
    forall i | 0 <= i < |s| :: s[i] as int < 256
  }

  /** The bytes of a literal written with characters below 256. */
  function B(s: string): (r: Str)
    requires IsLatin1(s)
    ensures |r| == |s|
    ensures forall i | 0 <= i < |s| :: r[i] as int == s[i] as int
  {
    seq(|s|, i requires 0 <= i < |s| => s[i] as int as byte)
  }

  /** `n` copies of the space byte (strings.Repeat(" ", n)). */
  function Spaces(n: nat): (r: Str)
    ensures |r| == n
    ensures forall i | 0 <= i < n :: r[i] == Space
  {
    seq(n, _ => Space)
  }

  predicate HasPrefix(s: Str, p: Str) {
    |p| <= |s| && s[..|p|] == p
  }

  predicate HasSuffix(s: Str, p: Str) {
    |p| <= |s| && s[|s| - |p|..] == p
  }

  /** `t` occurs in `s` at index `i`. */
  predicate OccursAt(s: Str, t: Str, i: int) {
    0 <= i && i + |t| <= |s| && s[i..i + |t|] == t
  }

  /** strings.Index: the first index at which `t` occurs in `s`, or -1. */
  function Index(s: Str, t: Str): (r: int)
    ensures -1 <= r <= |s|
    ensures r >= 0 ==> OccursAt(s, t, r)
    ensures forall j | 0 <= j && (r < 0 || j < r) :: !OccursAt(s, t, j)
    decreases |s|
  {
    if HasPrefix(s, t) then 0
    else if |s| == 0 then -1
    else
      var k := Index(s[1..], t);
      assert forall j | 1 <= j :: OccursAt(s, t, j) == OccursAt(s[1..], t, j - 1);
      if k < 0 then -1 else k + 1
  }

  /** strings.Contains. */
  predicate Contains(s: Str, t: Str) {
    Index(s, t) >= 0
  }

  /** strings.ContainsRune for an ASCII byte. */
  predicate ContainsByte(s: Str, b: byte) {
    exists i :: 0 <= i < |s| && s[i] == b
  }

  /** ASCII lower-casing of one byte. */
  function LowerByte(b: byte): byte {
    if 'A' as int <= b as int <= 'Z' as int then b + 32 else b
  }

  /** U+212A KELVIN SIGN in UTF-8. */
  const KelvinSign: Str := [0xe2, 0x84, 0xaa]

  /** U+212A KELVIN SIGN (e2 84 aa in UTF-8) starts at index `i`. */
  predicate KelvinAt(s: Str, i: int) {
    0 <= i && i + 3 <= |s| && s[i] == 0xe2 && s[i + 1] == 0x84 && s[i + 2] == 0xaa
  }

  /** U+0130 LATIN CAPITAL LETTER I WITH DOT ABOVE (c4 b0) starts at index `i`. */
  predicate CapitalIDotAt(s: Str, i: int) {
    0 <= i && i + 2 <= |s| && s[i] == 0xc4 && s[i + 1] == 0xb0
  }

  /** strings.ToLower, scanning from the front as Go does. The Kelvin sign
      and the dotted capital I are the two runes that unicode.ToLower maps
      into ASCII: they become 'k' and 'i'. ASCII letters are lowered and
      every other byte is kept. Go turns the other non-ASCII letters into
      other non-ASCII runes and invalid bytes into U+FFFD, so a byte kept
      here stands for bytes that are non-ASCII in Go's result too, and no
      comparison with ASCII text tells the two apart. */
  function Lower(s: Str): (r: Str)
    ensures |r| <= |s|
    ensures r == [] <==> s == []
  {
    LowerFrom(s, 0)
  }

  /** The lowering scan from index `i` on. */
  function LowerFrom(s: Str, i: nat): (r: Str)
    ensures i <= |s| ==> |r| <= |s| - i
    ensures r == [] <==> i >= |s|
    decreases |s| - i
  {
    if i >= |s| then [] else [LowerRuneAt(s, i)] + LowerFrom(s, i + RuneLenAt(s, i))
  }

  /** How many bytes the rune at `i` takes, as far as lowering cares. */
  function RuneLenAt(s: Str, i: nat): (n: nat)
    requires i < |s|
    ensures 1 <= n <= |s| - i
  {
    if KelvinAt(s, i) then 3 else if CapitalIDotAt(s, i) then 2 else 1
  }

  /** The lower case of the rune at `i`. */
  function LowerRuneAt(s: Str, i: nat): byte
    requires i < |s|
  {
    if KelvinAt(s, i) then 0x6b else if CapitalIDotAt(s, i) then 0x69 else LowerByte(s[i])
  }

  /** A Kelvin sign or dotted capital I in `s` begins before index `c` and
      ends after it. */
  predicate StraddlesAt(s: Str, c: int) {
    KelvinAt(s, c - 1) || KelvinAt(s, c - 2) || CapitalIDotAt(s, c - 1)
  }

  /** The scan of `b` is the scan of a + b from |a| on. */
  lemma {:induction false} LowerFromShift(a: Str, b: Str, j: nat)
    ensures LowerFrom(a + b, |a| + j) == LowerFrom(b, j)
    decreases |b| - j
  {
    if j < |b| {
      RuneShift(a, b, j);
      var n := RuneLenAt(b, j);
      LowerFromShift(a, b, j + n);
      assert LowerFrom(a + b, |a| + j) == [LowerRuneAt(b, j)] + LowerFrom(a + b, |a| + (j + n));
    }
  }

  lemma RuneShift(a: Str, b: Str, j: nat)
    requires j < |b|
    ensures RuneLenAt(a + b, |a| + j) == RuneLenAt(b, j)
    ensures LowerRuneAt(a + b, |a| + j) == LowerRuneAt(b, j)
  {
    var s := a + b;
    assert s[|a| + j] == b[j];
    if j + 1 < |b| { assert s[|a| + j + 1] == b[j + 1]; }
    if j + 2 < |b| { assert s[|a| + j + 2] == b[j + 2]; }
  }

  lemma RunePrefix(a: Str, b: Str, i: nat)
    requires i < |a| && !StraddlesAt(a + b, |a|)
    ensures RuneLenAt(a + b, i) == RuneLenAt(a, i) && i + RuneLenAt(a, i) <= |a|
    ensures LowerRuneAt(a + b, i) == LowerRuneAt(a, i)
  {
    var s := a + b;
    assert s[i] == a[i];
    if i + 1 < |a| { assert s[i + 1] == a[i + 1]; }
    if i + 2 < |a| { assert s[i + 2] == a[i + 2]; }
  }

  /** Before an unstraddled cut, the scan of a + b is the scan of `a`
      followed by that of `b`. */
  lemma {:induction false} LowerFromAppend(a: Str, b: Str, i: nat)
    requires i <= |a| && !StraddlesAt(a + b, |a|)
    ensures LowerFrom(a + b, i) == LowerFrom(a, i) + LowerFrom(b, 0)
    decreases |a| - i
  {
    if i == |a| {
      LowerFromShift(a, b, 0);
      assert LowerFrom(a, i) == [];
    } else {
      RunePrefix(a, b, i);
      var n, c := RuneLenAt(a, i), LowerRuneAt(a, i);
      LowerFromAppend(a, b, i + n);
      var x, y := LowerFrom(a, i + n), LowerFrom(b, 0);
      assert LowerFrom(a + b, i) == [c] + (x + y);
      assert LowerFrom(a, i) == [c] + x;
      ConsAppend(c, x, y);
    }
  }

  lemma ConsAppend(c: byte, x: Str, y: Str)
    ensures [c] + (x + y) == [c] + x + y
  {
  }

  /** Lowering works piecewise at any cut that no rune straddles. */
  lemma LowerAppend(a: Str, b: Str)
    requires !StraddlesAt(a + b, |a|)
    ensures Lower(a + b) == Lower(a) + Lower(b)
  {
    LowerFromAppend(a, b, 0);
  }

  /** Lowering read from the back: the last rune lowers on its own. */
  lemma LowerSnoc(s: Str)
    requires s != []
    ensures KelvinAt(s, |s| - 3) ==> Lower(s) == Lower(s[..|s| - 3]) + [0x6b]
    ensures CapitalIDotAt(s, |s| - 2) ==> Lower(s) == Lower(s[..|s| - 2]) + [0x69]
    ensures !KelvinAt(s, |s| - 3) && !CapitalIDotAt(s, |s| - 2) ==>
      Lower(s) == Lower(s[..|s| - 1]) + [LowerByte(s[|s| - 1])]
  {
    if KelvinAt(s, |s| - 3) {
      LowerLastRune(s, 3);
    } else if CapitalIDotAt(s, |s| - 2) {
      LowerLastRune(s, 2);
    } else {
      LowerLastRune(s, 1);
    }
  }

  /** Lowering splits off the last `n` bytes when they make one rune that
      starts no earlier than they do. */
  lemma LowerLastRune(s: Str, n: nat)
    requires 1 <= n <= |s| && RuneLenAt(s, |s| - n) == n
    requires !StraddlesAt(s, |s| - n)
    ensures Lower(s) == Lower(s[..|s| - n]) + [LowerRuneAt(s, |s| - n)]
  {
    var a, b := s[..|s| - n], s[|s| - n..];
    assert a + b == s && |a| == |s| - n;
    LowerAppend(a, b);
    LowerFromShift(a, b, 0);
  }

  /** The last rune of `s` lowers to the last byte of Lower(s); a rune of
      several bytes lowers to an ASCII letter and ends in a non-ASCII byte. */
  lemma LowerLast(s: Str) returns (n: nat, y: byte)
    requires s != []
    ensures 1 <= n <= |s| && Lower(s) == Lower(s[..|s| - n]) + [y]
    ensures n == 1 ==> y == LowerByte(s[|s| - 1]) && !KelvinAt(s, |s| - 3) && !CapitalIDotAt(s, |s| - 2)
    ensures n > 1 ==> (y == 0x6b || y == 0x69) && s[|s| - 1] >= 0x80
  {
    LowerSnoc(s);
    if KelvinAt(s, |s| - 3) {
      n, y := 3, 0x6b;
    } else if CapitalIDotAt(s, |s| - 2) {
      n, y := 2, 0x69;
    } else {
      n, y := 1, LowerByte(s[|s| - 1]);
    }
  }

  /** A suffix of u + [z] is a suffix of `u` followed by `z`. */
  lemma HasSuffixSnoc(u: Str, z: byte, t: Str)
    requires t != []
    ensures HasSuffix(u + [z], t) <==> z == t[|t| - 1] && HasSuffix(u, t[..|t| - 1])
  {
    var v := u + [z];
    if |t| <= |v| {
      assert v[|v| - |t|..] == u[|u| - (|t| - 1)..] + [z];
      if v[|v| - |t|..] == t {
        assert t[..|t| - 1] == v[|v| - |t|..][..|t| - 1];
      }
      if z == t[|t| - 1] && HasSuffix(u, t[..|t| - 1]) {
        assert t == t[..|t| - 1] + [t[|t| - 1]];
      }
    }
  }

  /** The last |t| bytes of `s` lower-case to `t` byte by byte. */
  predicate LowersTo(s: Str, t: Str) {
    |t| <= |s| && forall k | 0 <= k < |t| :: LowerByte(s[|s| - |t| + k]) == t[k]
  }

  /** LowersTo, peeled from the back. */
  lemma LowersToSnoc(s: Str, t: Str)
    requires s != [] && t != []
    ensures LowersTo(s, t) <==> LowerByte(s[|s| - 1]) == t[|t| - 1] && LowersTo(s[..|s| - 1], t[..|t| - 1])
  {
  }

  /** The lowered text ends in an ASCII string holding no 'k' and no 'i'
      exactly when the text's own last bytes lower-case to it byte by byte:
      only the Kelvin sign and the dotted capital I lower into ASCII from
      outside it. */
  lemma {:induction false} LowerSuffix(s: Str, t: Str)
    requires forall k | 0 <= k < |t| :: t[k] < 0x80 && t[k] != 0x6b && t[k] != 0x69
    ensures HasSuffix(Lower(s), t) <==> LowersTo(s, t)
    decreases |t|
  {
    if t == [] {
      assert Lower(s)[|Lower(s)|..] == [];
    } else if s != [] {
      var n, y := LowerLast(s);
      var init := s[..|s| - n];
      HasSuffixSnoc(Lower(init), y, t);
      LowersToSnoc(s, t);
      if n == 1 {
        var t' := t[..|t| - 1];
        assert forall k | 0 <= k < |t'| :: t'[k] == t[k];
        LowerSuffix(init, t');
      } else {
        assert t[|t| - 1] < 0x80 <= s[|s| - 1];
      }
    }
  }

  /** The lowered text ends in non-ASCII bytes only where the text does. */
  lemma {:induction false} LowerHighSuffix(s: Str, t: Str)
    requires forall k | 0 <= k < |t| :: t[k] >= 0x80
    ensures HasSuffix(Lower(s), t) ==> HasSuffix(s, t)
    decreases |t|
  {
    if t == [] {
      assert s[|s|..] == [];
    } else if s != [] {
      var n, y := LowerLast(s);
      var init := s[..|s| - n];
      HasSuffixSnoc(Lower(init), y, t);
      if n == 1 {
        LowerHighSuffix(init, t[..|t| - 1]);
        assert s == init + [s[|s| - 1]];
        HasSuffixSnoc(init, s[|s| - 1], t);
      }
    }
  }

  /** A Kelvin sign ends u + [z] exactly when `u` ends in its first two bytes
      and `z` is its last. */
  lemma KelvinEnd(u: Str, z: byte)
    ensures KelvinAt(u + [z], |u| - 2) <==> HasSuffix(u, [0xe2, 0x84]) && z == 0xaa
  {
    if |u| >= 2 {
      assert u[|u| - 2..] == [u[|u| - 2], u[|u| - 1]];
    }
  }

  /** A dotted capital I ends u + [z] exactly when `u` ends in its first byte
      and `z` is its last. */
  lemma CapitalIDotEnd(u: Str, z: byte)
    ensures CapitalIDotAt(u + [z], |u| - 1) <==> HasSuffix(u, [0xc4]) && z == 0xb0
  {
    if |u| >= 1 {
      assert u[|u| - 1..] == [u[|u| - 1]];
    }
  }

  /** ASCII text without upper-case letters: what lowering leaves alone. */
  predicate IsLowerAscii(s: Str) {
    forall k | 0 <= k < |s| :: s[k] < 0x80 && !('A' as int <= s[k] as int <= 'Z' as int)
  }

  lemma LowerAscii(s: Str)
    requires IsLowerAscii(s)
    ensures Lower(s) == s
  {
    LowerFromAscii(s, 0);
  }

  lemma {:induction false} LowerFromAscii(s: Str, i: nat)
    requires IsLowerAscii(s) && i <= |s|
    ensures LowerFrom(s, i) == s[i..]
    decreases |s| - i
  {
    if i < |s| {
      LowerFromAscii(s, i + 1);
      assert s[i..] == [s[i]] + s[i + 1..];
    }
  }

  /** No rune straddles the cut before a Kelvin sign: its lead byte
      continues no rune. */
  lemma KelvinCutBefore(a: Str, b: Str)
    ensures !StraddlesAt(a + (KelvinSign + b), |a|)
  {
    var s := a + (KelvinSign + b);
    assert s[|a|] == 0xe2;
  }

  /** No rune straddles the cut after a whole Kelvin sign. */
  lemma KelvinCutAfter(b: Str)
    ensures !StraddlesAt(KelvinSign + b, 3)
  {
    var kb := KelvinSign + b;
    assert kb[1] == 0x84 && kb[2] == 0xaa;
  }

  /** Wherever it stands, a Kelvin sign lowers to 'k' like a capital K, and
      the text around it lowers on its own. */
  lemma LowerKelvin(a: Str, b: Str)
    ensures Lower(a + KelvinSign + b) == Lower(a) + [0x6b] + Lower(b)
  {
    assert a + KelvinSign + b == a + (KelvinSign + b);
    KelvinCutBefore(a, b);
    LowerAppend(a, KelvinSign + b);
    LowerKelvinFirst(b);
  }

  lemma LowerKelvinFirst(b: Str)
    ensures Lower(KelvinSign + b) == [0x6b] + Lower(b)
  {
    KelvinCutAfter(b);
    LowerAppend(KelvinSign, b);
    assert KelvinAt(KelvinSign, 0);
  }

  /** A last byte that does not end a Kelvin sign or a dotted capital I in
      the text does not end one in the lowered text either. */
  lemma PlainLast(init: Str, x: byte)
    requires !KelvinAt(init + [x], |init| - 2) && !CapitalIDotAt(init + [x], |init| - 1)
    ensures !KelvinAt(Lower(init) + [LowerByte(x)], |Lower(init)| - 2)
    ensures !CapitalIDotAt(Lower(init) + [LowerByte(x)], |Lower(init)| - 1)
  {
    KelvinEnd(init, x);
    CapitalIDotEnd(init, x);
    KelvinEnd(Lower(init), LowerByte(x));
    CapitalIDotEnd(Lower(init), LowerByte(x));
    LowerHighSuffix(init, [0xe2, 0x84]);
    LowerHighSuffix(init, [0xc4]);
  }

  /** Lowering twice is lowering once. */
  lemma {:induction false} LowerTwice(s: Str)
    ensures Lower(Lower(s)) == Lower(s)
    decreases |s|
  {
    if s != [] {
      var n, y := LowerLast(s);
      var init := s[..|s| - n];
      var l := Lower(init);
      LowerTwice(init);
      var t := l + [y];
      if n == 1 {
        assert s == init + [s[|s| - 1]];
        PlainLast(init, s[|s| - 1]);
      }
      assert !KelvinAt(t, |t| - 3) && !CapitalIDotAt(t, |t| - 2);
      LowerSnoc(t);
      assert t[..|t| - 1] == l;
    }
  }

  /** The ASCII white space of Go's unicode.IsSpace: \t \n \v \f \r and space. */
  predicate IsSpace(b: byte) {
    b == Space || (0x09 <= b <= 0x0d)
  }

  /** A space or a tab. */
  predicate IsBlank(b: byte) {
    b == Space || b == Tab
  }

  /** The length of the leading run of spaces and tabs. */
  function BlankRun(s: Str): (n: nat)
    ensures n <= |s|
    ensures forall i | 0 <= i < n :: IsBlank(s[i])
    ensures n == |s| || !IsBlank(s[n])
    decreases |s|
  {
    if s != [] && IsBlank(s[0]) then 1 + BlankRun(s[1..]) else 0
  }

  /** strings.TrimLeft(s, " \t\n\v\f\r"). */
  function TrimLeftSpace(s: Str): (r: Str)
    ensures |r| <= |s|
  {
    if |s| > 0 && IsSpace(s[0]) then TrimLeftSpace(s[1..]) else s
  }

  /** strings.TrimRight(s, " \t\n\v\f\r"). */
  function TrimRightSpace(s: Str): (r: Str)
    ensures |r| <= |s|
  {
    if |s| > 0 && IsSpace(s[|s| - 1]) then TrimRightSpace(s[..|s| - 1]) else s
  }

  /** strings.TrimSpace. */
  function TrimSpace(s: Str): (r: Str)
    ensures |r| <= |s|
  {
    TrimRightSpace(TrimLeftSpace(s))
  }

  /** TrimLeftSpace drops exactly the leading white space. */
  lemma {:induction false} TrimLeftSpaceShape(s: Str)
    ensures var r := TrimLeftSpace(s);
      && r == s[|s| - |r|..]
      && (r == [] || !IsSpace(r[0]))
      && forall i | 0 <= i < |s| - |r| :: IsSpace(s[i])
    decreases |s|
  {
    if |s| > 0 && IsSpace(s[0]) {
      TrimLeftSpaceShape(s[1..]);
    }
  }

  /** TrimRightSpace drops exactly the trailing white space. */
  lemma {:induction false} TrimRightSpaceShape(s: Str)
    ensures var r := TrimRightSpace(s);
      && r == s[..|r|]
      && (r == [] || !IsSpace(r[|r| - 1]))
      && forall i | |r| <= i < |s| :: IsSpace(s[i])
    decreases |s|
  {
    if |s| > 0 && IsSpace(s[|s| - 1]) {
      TrimRightSpaceShape(s[..|s| - 1]);
    }
  }

  /** TrimSpace leaves no white space at either end. */
  lemma TrimSpaceShape(s: Str)
    ensures var r := TrimSpace(s); r == [] || (!IsSpace(r[0]) && !IsSpace(r[|r| - 1]))
  {
    var l := TrimLeftSpace(s);
    TrimLeftSpaceShape(s);
    TrimRightSpaceShape(l);
    var r := TrimRightSpace(l);
    if r != [] {
      assert r[0] == l[0];
    }
  }

  /** strings.Join(parts, string(sep)). */
  function Join(parts: seq<Str>, sep: byte): Str {
    if |parts| == 0 then []
    else if |parts| == 1 then parts[0]
    else parts[0] + [sep] + Join(parts[1..], sep)
  }

  /** strings.Split(s, string(sep)): the pieces between the separators; never empty. */
  function Split(s: Str, sep: byte): (r: seq<Str>)
    ensures |r| >= 1
    ensures forall k | 0 <= k < |r| :: sep !in r[k]
    decreases |s|
  {
    if sep in s then
      var i := FirstIndex(s, sep);
      [s[..i]] + Split(s[i + 1..], sep)
    else [s]
  }

  /** The first index of `b` in `s`. */
  function FirstIndex(s: Str, b: byte): (i: nat)
    requires b in s
    ensures i < |s| && s[i] == b && b !in s[..i]
  {
    if s[0] == b then 0 else FirstIndex(s[1..], b) + 1
  }

  /** Splitting and joining again at the same separator gives the string back. */
  lemma {:induction false} JoinSplit(s: Str, sep: byte)
    ensures Join(Split(s, sep), sep) == s
    decreases |s|
  {
    if sep in s {
      var i := FirstIndex(s, sep);
      var rest := Split(s[i + 1..], sep);
      JoinSplit(s[i + 1..], sep);
      assert Split(s, sep) == [s[..i]] + rest;
      assert ([s[..i]] + rest)[1..] == rest;
      assert s == s[..i] + [sep] + s[i + 1..];
    }
  }

  /** Joining a suffix of the parts gives a suffix of the joined string. */
  lemma {:induction false} JoinSuffix(parts: seq<Str>, k: nat, sep: byte)
    requires k < |parts|
    ensures HasSuffix(Join(parts, sep), Join(parts[k..], sep))
  {
    if k > 0 {
      JoinSuffix(parts[1..], k - 1, sep);
      assert parts[1..][k - 1..] == parts[k..];
    }
  }

  /** Splitting a join of '/'-free parts gives the parts back. */
  lemma {:induction false} SplitJoin(parts: seq<Str>, sep: byte)
    requires |parts| >= 1
    requires forall k | 0 <= k < |parts| :: sep !in parts[k]
    ensures Split(Join(parts, sep), sep) == parts
  {
    if |parts| > 1 {
      var head, tail := parts[0], parts[1..];
      SplitJoin(tail, sep);
      var rest := Join(tail, sep);
      var s := head + [sep] + rest;
      assert Join(parts, sep) == s;
      SplitAtFirst(head, rest, sep);
      assert parts == [head] + tail;
    }
  }

  /** A string with one separator after a separator-free head splits into
      the head and the pieces of the rest. */
  lemma SplitAtFirst(head: Str, rest: Str, sep: byte)
    requires sep !in head
    ensures Split(head + [sep] + rest, sep) == [head] + Split(rest, sep)
  {
    var s := head + [sep] + rest;
    assert s[..|head|] == head && s[|head|] == sep;
    FirstIndexAt(s, sep, |head|);
    assert s[|head| + 1..] == rest;
  }

  lemma FirstIndexAt(s: Str, b: byte, i: nat)
    requires i < |s| && s[i] == b && b !in s[..i]
    ensures b in s && FirstIndex(s, b) == i
  {
    var j := FirstIndex(s, b);
  }

  /** The concatenation of a list of strings. */
  function Concat(parts: seq<Str>): (r: Str)
  {
    if |parts| == 0 then [] else parts[0] + Concat(parts[1..])
  }

  lemma {:induction false} ConcatAppend(a: seq<Str>, b: seq<Str>)
    ensures Concat(a + b) == Concat(a) + Concat(b)
  {
    if |a| > 0 {
      assert (a + b)[1..] == a[1..] + b;
      ConcatAppend(a[1..], b);
    } else {
      assert a + b == b;
    }
  }
}
