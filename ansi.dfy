/** Byte-level scanning of strings that carry ECMA-48 control sequences
    (ESC '[' parameters final-byte): recognising a sequence, skipping it,
    decoding one UTF-8 rune, and measuring visible width (internal/ui/wrap.go). */
module Ansi {
  import opened Bytes

  /** The columns a rune can take in runewidth.RuneWidth. */
  datatype Columns = Zero | One | Two {
    function Count(): (n: nat)
      ensures n <= 2
    {
      match this
      case Zero => 0
      case One => 1
      case Two => 2
    }
  }

  /** runewidth.RuneWidth is library code that is not part of this model: any
      table from runes to 0, 1 or 2 columns. */
  type RuneWidth = int -> Columns

  const LeftBracket: byte := 0x5b

  /** "\033[0m", the reset sequence. */
  const Reset: Str := [Esc, LeftBracket, 0x30, 0x6d]

  /** The widest rune: a tab. */
  const MaxRuneCols := 4

  /** A byte that ends a control sequence. */
  predicate IsFinal(b: byte) {
    0x40 <= b <= 0x7e
  }

  /** ESC '[', the introducer of a control sequence. */
  const Introducer: Str := [Esc, LeftBracket]

  /** isANSIStart: ESC at `i` and '[' right after it. */
  predicate IsAnsiStart(s: Str, i: nat) {
    i + 1 < |s| && s[i] == Esc && s[i + 1] == LeftBracket
  }

  /** A control sequence starts exactly where the introducer occurs (never
      where it would run past the end), in particular wherever a reset
      occurs. */
  lemma AnsiStartIntroducer(s: Str, i: nat)
    ensures IsAnsiStart(s, i) <==> OccursAt(s, Introducer, i)
    ensures OccursAt(s, Reset, i) ==> IsAnsiStart(s, i)
  {
    assert OccursAt(s, Reset, i) ==> s[i..i + 4][..2] == Introducer;
    assert OccursAt(s, Introducer, i) ==> s[i] == s[i..i + 2][0] && s[i + 1] == s[i..i + 2][1];
  }

  /** Just past the first final byte at or after `j`, or |s| when there is none. */
  function FinalFrom(s: Str, j: nat): (e: nat)
    requires j <= |s|
    ensures j <= e <= |s|
    ensures e == |s| || (j < e && IsFinal(s[e - 1]))
    decreases |s| - j
  {
    if j == |s| then |s| else if IsFinal(s[j]) then j + 1 else FinalFrom(s, j + 1)
  }

  /** The end of the control sequence starting at `i`: just past the first final
      byte after "ESC[", or |s| when the sequence is never terminated. */
  function SeqEnd(s: Str, i: nat): (e: nat)
    requires IsAnsiStart(s, i)
    ensures i + 2 <= e <= |s|
    ensures e == |s| || (i + 2 < e && IsFinal(s[e - 1]))
  {
    FinalFrom(s, i + 2)
  }

  /** The sequence starting at `i` has its final byte. */
  predicate Terminated(s: Str, i: nat)
    requires IsAnsiStart(s, i)
  {
    i + 2 < SeqEnd(s, i) && IsFinal(s[SeqEnd(s, i) - 1])
  }

  /** skipANSI: the index just past the control sequence at `i`, or `i + 1`
      when none starts there. */
  method SkipAnsi(s: Str, i: nat) returns (j: nat)
    ensures IsAnsiStart(s, i) ==> j == SeqEnd(s, i)
    ensures !IsAnsiStart(s, i) ==> j == i + 1
  {
    if !IsAnsiStart(s, i) {
      return i + 1;
    }
    j := i + 2;
    while j < |s|
      invariant i + 2 <= j <= |s|
      invariant FinalFrom(s, j) == SeqEnd(s, i)
    {
      var b := s[j];
      if 0x40 <= b <= 0x7e {
        return j + 1;
      }
      j := j + 1;
    }
  }

  predicate IsCont(b: byte) {
    0x80 <= b <= 0xbf
  }

  /** The sequence length announced by a lead byte (the masks of decodeRune),
      1 for ASCII and for bytes that cannot lead a sequence. */
  function LeadLength(b: byte): (n: nat)
    ensures 1 <= n <= 4
    ensures b < 0x80 ==> n == 1
  {
    if b < 0x80 then 1
    else if 0xc0 <= b <= 0xdf then 2
    else if 0xe0 <= b <= 0xef then 3
    else if 0xf0 <= b <= 0xf7 then 4
    else 1
  }

  /** The `n` bytes at `i` form one well-formed UTF-8 encoding (Go's decoder:
      no overlong forms, no surrogates, nothing above U+10FFFF). */
  predicate WellFormed(s: Str, i: nat, n: nat)
    requires i < |s| && i + n <= |s| && n == LeadLength(s[i]) && n >= 2
  {
    var b0 := s[i];
    var b1 := s[i + 1];
    if n == 2 then 0xc2 <= b0 && IsCont(b1)
    else if n == 3 then
      IsCont(s[i + 2]) &&
      (if b0 == 0xe0 then 0xa0 <= b1 <= 0xbf
       else if b0 == 0xed then 0x80 <= b1 <= 0x9f
       else IsCont(b1))
    else
      IsCont(s[i + 2]) && IsCont(s[i + 3]) &&
      (if b0 == 0xf0 then 0x90 <= b1 <= 0xbf
       else if b0 == 0xf4 then 0x80 <= b1 <= 0x8f
       else b0 <= 0xf3 && IsCont(b1))
  }

  const ReplacementChar := 0xfffd

  /** The code point of the well-formed encoding of length `n` at `i`: the
      payload bits of the lead byte followed by six bits per continuation byte
      (on well-formed input, masking a byte equals subtracting its tag bits). */
  function CodePoint(s: Str, i: nat, n: nat): int
    requires i < |s| && i + n <= |s| && n == LeadLength(s[i]) && n >= 2 && WellFormed(s, i, n)
  {
    if n == 2 then (s[i] as int - 0xc0) * 64 + (s[i + 1] as int - 0x80)
    else if n == 3 then
      (s[i] as int - 0xe0) * 4096 + (s[i + 1] as int - 0x80) * 64 + (s[i + 2] as int - 0x80)
    else
      (s[i] as int - 0xf0) * 262144 + (s[i + 1] as int - 0x80) * 4096
      + (s[i + 2] as int - 0x80) * 64 + (s[i + 3] as int - 0x80)
  }

  datatype Decoded = Decoded(rune: int, size: nat)

  /** decodeRune: the rune at `i` and how many bytes it occupies. */
  function DecodeRune(s: Str, i: nat): (d: Decoded)
    ensures i >= |s| ==> d == Decoded(0, 0)
    ensures i < |s| ==> 1 <= d.size <= 4 && i + d.size <= |s|
    ensures i < |s| && s[i] < 0x80 ==> d == Decoded(s[i] as int, 1)
    ensures i < |s| && (LeadLength(s[i]) == 1 || i + LeadLength(s[i]) > |s|) ==>
              d == Decoded(s[i] as int, 1)
    ensures i < |s| && s[i] >= 0x80 ==> d.rune >= 0x80
  {
    if i >= |s| then Decoded(0, 0)
    else
      var n := LeadLength(s[i]);
      if n == 1 || i + n > |s| then Decoded(s[i] as int, 1)
      else if WellFormed(s, i, n) then Decoded(CodePoint(s, i, n), n)
      else Decoded(ReplacementChar, n)
  }

  /** runeVisualWidth: a tab takes 4 columns, other runes what the table says. */
  function RuneCols(r: int, rw: RuneWidth): (w: nat)
    ensures w <= MaxRuneCols
    ensures r == Tab as int ==> w == 4
  {
    if r == Tab as int then 4 else rw(r).Count()
  }

  /** One scanning step: the next token boundary after `i` (past a control
      sequence or past one rune). */
  function Next(s: Str, i: nat): (j: nat)
    requires i < |s|
    ensures i < j <= |s|
  {
    if IsAnsiStart(s, i) then SeqEnd(s, i) else i + DecodeRune(s, i).size
  }

  /** The columns of the token at `i`: 0 for a control sequence. */
  function TokenCols(s: Str, i: nat, rw: RuneWidth): (w: nat)
    requires i < |s|
    ensures w <= MaxRuneCols
  {
    if IsAnsiStart(s, i) then 0 else RuneCols(DecodeRune(s, i).rune, rw)
  }

  /** The visible columns of the tokens from `i` to the end. */
  function ColsFrom(s: Str, i: nat, rw: RuneWidth): nat
    decreases |s| - i
  {
    if i >= |s| then 0 else TokenCols(s, i, rw) + ColsFrom(s, Next(s, i), rw)
  }

  /** Scanning from `i` reaches the token boundary `k`. */
  predicate Reach(s: Str, i: nat, k: nat)
    decreases k - i
  {
    i <= k <= |s| && (i == k || Reach(s, Next(s, i), k))
  }

  /** VisibleWidth: the columns of `s`, control sequences not counted. */
  method VisibleWidth(s: Str, rw: RuneWidth) returns (width: nat)
    ensures width == ColsFrom(s, 0, rw)
  {
    width := 0;
    var i := 0;
    while i < |s|
      invariant i <= |s|
      invariant width + ColsFrom(s, i, rw) == ColsFrom(s, 0, rw)
    {
      if IsAnsiStart(s, i) {
        i := SkipAnsi(s, i);
        continue;
      }
      var d := DecodeRune(s, i);
      width := width + RuneCols(d.rune, rw);
      i := i + d.size;
    }
  }

  // ---------------------------------------------------------------------
  // Scanning is local: it depends only on the bytes it looks at.

  /** Two strings that agree on a window see the same final byte inside it. */
  lemma {:induction false} FinalFromWindow(s: Str, j: nat, t: Str, j': nat, len: nat)
    requires j <= |s| && j' <= |t|
    requires j + len <= |s| && j' + len <= |t|
    requires s[j..j + len] == t[j'..j' + len]
    requires FinalFrom(s, j) <= j + len && j < FinalFrom(s, j) && IsFinal(s[FinalFrom(s, j) - 1])
    ensures FinalFrom(t, j') - j' == FinalFrom(s, j) - j
    ensures IsFinal(t[FinalFrom(t, j') - 1])
    decreases |s| - j
  {
    assert s[j] == s[j..j + len][0] == t[j'..j' + len][0] == t[j'];
    if !IsFinal(s[j]) {
      assert s[j + 1..j + len] == s[j..j + len][1..];
      assert t[j' + 1..j' + len] == t[j'..j' + len][1..];
      FinalFromWindow(s, j + 1, t, j' + 1, len - 1);
    }
  }

  /** A token that ends by `k` is the same token of the prefix s[..k]. */
  lemma NextPrefix(s: Str, i: nat, k: nat, rw: RuneWidth)
    requires i < k <= |s| && Next(s, i) <= k
    ensures Next(s[..k], i) == Next(s, i)
    ensures TokenCols(s[..k], i, rw) == TokenCols(s, i, rw)
    ensures IsAnsiStart(s[..k], i) == IsAnsiStart(s, i)
  {
    var p := s[..k];
    if IsAnsiStart(s, i) {
      assert IsAnsiStart(p, i);
      if k < |s| {
        FinalFromWindow(s, i + 2, p, i + 2, k - (i + 2));
      } else {
        assert p == s;
      }
    } else {
      assert !IsAnsiStart(p, i);
    }
  }

  /** Columns of a prefix ending at a reachable boundary. */
  lemma {:induction false} ColsPrefix(s: Str, i: nat, k: nat, rw: RuneWidth)
    requires Reach(s, i, k)
    ensures ColsFrom(s[..k], i, rw) + ColsFrom(s, k, rw) == ColsFrom(s, i, rw)
    decreases k - i
  {
    if i < k {
      NextPrefix(s, i, k, rw);
      ColsPrefix(s, Next(s, i), k, rw);
    }
  }

  /** Reachability composes. */
  lemma {:induction false} ReachTrans(s: Str, i: nat, k: nat, m: nat)
    requires Reach(s, i, k) && Reach(s, k, m)
    ensures Reach(s, i, m)
    decreases k - i
  {
    if i < k {
      ReachTrans(s, Next(s, i), k, m);
    }
  }
}
