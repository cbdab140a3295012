/** sliceANSIAware (internal/ui/wrap.go): cut a highlighted string after at most
    `maxWidth` visible columns, carrying the styles that are still open. */
module AnsiSlice {
  import opened Bytes
  import opened Ansi

  /** What sliceANSIAware returns. */
  datatype Cut = Cut(content: Str, remainder: Str, activeAnsi: Str)

  /** Where the scanning loop stops: the cut index and the columns copied. */
  datatype Stop = Stop(at: nat, width: nat)

  /** The scanning loop of sliceANSIAware, continued from index `i` with
      `width` columns copied: tokens are copied while they fit, and a control
      sequence, which takes no columns, always fits. */
  function Scan(s: Str, maxW: int, rw: RuneWidth, i: nat, width: nat): (st: Stop)
    requires i <= |s|
    ensures Reach(s, i, st.at)
    decreases |s| - i
  {
    if i < |s| && width < maxW && width + TokenCols(s, i, rw) <= maxW then
      Scan(s, maxW, rw, Next(s, i), width + TokenCols(s, i, rw))
    else Stop(i, width)
  }

  // ---------------------------------------------------------------------
  // Open styles

  /** The control sequences among the tokens from `i` up to the boundary `k`. */
  function EscBetween(s: Str, i: nat, k: nat): seq<Str>
    requires Reach(s, i, k)
    decreases k - i
  {
    if i == k then []
    else (if IsAnsiStart(s, i) then [s[i..Next(s, i)]] else []) + EscBetween(s, Next(s, i), k)
  }

  /** The sequences issued after the last reset in `seqs`. */
  function SinceLastReset(seqs: seq<Str>): (r: seq<Str>)
    ensures Reset !in r
  {
    if seqs == [] then []
    else if seqs[|seqs| - 1] == Reset then []
    else SinceLastReset(seqs[..|seqs| - 1]) + [seqs[|seqs| - 1]]
  }

  /** The styles open at the boundary `k`: every control sequence issued
      since the last reset, concatenated. */
  function OpenStyles(s: Str, k: nat): Str
    requires Reach(s, 0, k)
  {
    Concat(SinceLastReset(EscBetween(s, 0, k)))
  }

  /** The open styles after the control sequence `esc`: a reset closes them
      all, any other sequence is added to them. */
  function Track(open: Str, esc: Str): Str {
    if esc == Reset then [] else open + esc
  }

  /** The result of sliceANSIAware: the bytes before the cut, closed with a
      reset when a style is open, the bytes after it, and the open styles. */
  function Slice(s: Str, maxW: int, rw: RuneWidth): (c: Cut)
    ensures maxW <= 0 ==> c == Cut([], s, [])
    ensures HasSuffix(s, c.remainder)
    ensures c.content == s[..|s| - |c.remainder|] + (if c.activeAnsi == [] then [] else Reset)
  {
    if maxW <= 0 then Cut([], s, [])
    else
      var k := Scan(s, maxW, rw, 0, 0).at;
      var open := OpenStyles(s, k);
      Cut(s[..k] + (if open == [] then [] else Reset), s[k..], open)
  }

  /** The index at which Slice cuts. */
  function CutIndex(s: Str, maxW: int, rw: RuneWidth): (k: nat)
    ensures k <= |s|
  {
    |s| - |Slice(s, maxW, rw).remainder|
  }

  lemma {:induction false} EscSnoc(s: Str, a: nat, i: nat)
    requires Reach(s, a, i) && i < |s|
    ensures Reach(s, a, Next(s, i))
    ensures EscBetween(s, a, Next(s, i)) ==
            EscBetween(s, a, i) + (if IsAnsiStart(s, i) then [s[i..Next(s, i)]] else [])
    decreases i - a
  {
    if a == i {
      assert Reach(s, Next(s, i), Next(s, i));
    } else {
      EscSnoc(s, Next(s, a), i);
    }
  }

  lemma SinceLastResetSnoc(seqs: seq<Str>, t: Str)
    ensures Concat(SinceLastReset(seqs + [t])) == Track(Concat(SinceLastReset(seqs)), t)
  {
    assert (seqs + [t])[..|seqs|] == seqs;
    if t != Reset {
      ConcatAppend(SinceLastReset(seqs), [t]);
    }
  }

  /** One token further: a control sequence updates the open styles as the
      loop's `currentAnsi` does, a rune leaves them as they are. */
  lemma OpenStep(s: Str, i: nat)
    requires Reach(s, 0, i) && i < |s|
    ensures Reach(s, 0, Next(s, i))
    ensures OpenStyles(s, Next(s, i)) ==
            if IsAnsiStart(s, i) then Track(OpenStyles(s, i), s[i..Next(s, i)]) else OpenStyles(s, i)
  {
    EscSnoc(s, 0, i);
    if IsAnsiStart(s, i) {
      SinceLastResetSnoc(EscBetween(s, 0, i), s[i..Next(s, i)]);
    } else {
      assert EscBetween(s, 0, i) + [] == EscBetween(s, 0, i);
    }
  }

  // ---------------------------------------------------------------------
  // The loop

  /** The loop passes over the control sequence that ends at `j`. */
  lemma StepEsc(s: Str, maxW: int, rw: RuneWidth, i: nat, j: nat, width: nat, open: Str)
    requires Reach(s, 0, i) && i < |s| && width < maxW && IsAnsiStart(s, i) && j == SeqEnd(s, i)
    requires open == Track(OpenStyles(s, i), s[i..j])
    ensures Scan(s, maxW, rw, i, width) == Scan(s, maxW, rw, j, width)
    ensures Reach(s, 0, j) && OpenStyles(s, j) == open
  {
    OpenStep(s, i);
  }

  /** The loop copies the rune decoded at `i` when it fits. */
  lemma StepRune(s: Str, maxW: int, rw: RuneWidth, i: nat, width: nat, i': nat, width': nat)
    requires Reach(s, 0, i) && i < |s| && width < maxW && !IsAnsiStart(s, i)
    requires i' == i + DecodeRune(s, i).size && width' == width + RuneCols(DecodeRune(s, i).rune, rw)
    requires width' <= maxW
    ensures Scan(s, maxW, rw, i, width) == Scan(s, maxW, rw, i', width')
    ensures Reach(s, 0, i') && OpenStyles(s, i') == OpenStyles(s, i)
  {
    ScanRune(s, maxW, rw, i, width, i', width');
    OpenStep(s, i);
  }

  /** The scan moves past a rune that fits. */
  lemma ScanRune(s: Str, maxW: int, rw: RuneWidth, i: nat, width: nat, i': nat, width': nat)
    requires i < |s| && width < maxW && !IsAnsiStart(s, i)
    requires i' == i + DecodeRune(s, i).size && width' == width + RuneCols(DecodeRune(s, i).rune, rw)
    requires width' <= maxW
    ensures i' <= |s| && Scan(s, maxW, rw, i, width) == Scan(s, maxW, rw, i', width')
  {
  }

  /** The loop stops at the rune `d` decoded at `i` when it does not fit. */
  lemma StepFull(s: Str, maxW: int, rw: RuneWidth, i: nat, d: Decoded, width: nat)
    requires i < |s| && width < maxW && !IsAnsiStart(s, i) && d == DecodeRune(s, i)
    requires width + RuneCols(d.rune, rw) > maxW
    ensures Scan(s, maxW, rw, i, width) == Stop(i, width)
  {
  }

  lemma PrefixGrow(s: Str, a: nat, b: nat, r0: Str, r: Str)
    requires a <= b <= |s| && r0 == s[..a] && r == r0 + s[a..b]
    ensures r == s[..b]
  {
    assert s[..b] == s[..a] + s[a..b];
  }

  /** sliceANSIAware. */
  method SliceAnsiAware(s: Str, maxWidth: int, rw: RuneWidth)
    returns (content: Str, remainder: Str, activeAnsi: Str)
    ensures Cut(content, remainder, activeAnsi) == Slice(s, maxWidth, rw)
  {
    if maxWidth <= 0 {
      return [], s, [];
    }
    var result: Str := [];
    var currentAnsi: Str := [];
    var width: nat := 0;
    var i: nat := 0;
    var cutPoint := -1;
    ghost var stop := Scan(s, maxWidth, rw, 0, 0);
    assert Reach(s, 0, 0);
    while i < |s| && width < maxWidth
      invariant i <= |s| && Reach(s, 0, i)
      invariant result == s[..i]
      invariant currentAnsi == OpenStyles(s, i)
      invariant Scan(s, maxWidth, rw, i, width) == stop
    {
      if IsAnsiStart(s, i) {
        var start := i;
        i := SkipAnsi(s, i);
        var ansi := s[start..i];
        ghost var r0 := result;
        result := result + ansi;
        PrefixGrow(s, start, i, r0, result);
        if ansi == Reset {
          currentAnsi := [];
        } else {
          currentAnsi := currentAnsi + ansi;
        }
        StepEsc(s, maxWidth, rw, start, i, width, currentAnsi);
        continue;
      }
      var d := DecodeRune(s, i);
      var rwidth := RuneCols(d.rune, rw);
      if width + rwidth > maxWidth {
        StepFull(s, maxWidth, rw, i, d, width);
        cutPoint := i;
        break;
      }
      ghost var i0, w0, r0 := i, width, result;
      result := result + s[i..i + d.size];
      width := width + rwidth;
      i := i + d.size;
      PrefixGrow(s, i0, i, r0, result);
      StepRune(s, maxWidth, rw, i0, w0, i, width);
    }
    if cutPoint == -1 {
      cutPoint := i;
    }
    assert stop.at == cutPoint;
    content := result;
    activeAnsi := [];
    if |currentAnsi| > 0 {
      content := content + Reset;
      activeAnsi := currentAnsi;
    }
    remainder := if cutPoint < |s| then s[cutPoint..] else [];
  }

  // ---------------------------------------------------------------------
  // Columns

  /** Induction along the scanning loop for the column count. */
  lemma {:induction false} ScanCols(s: Str, maxW: int, rw: RuneWidth, i: nat, width: nat)
    requires i <= |s| && width <= maxW
    requires width + ColsFrom(s, i, rw) == ColsFrom(s, 0, rw)
    ensures var st := Scan(s, maxW, rw, i, width);
      && st.width <= maxW
      && st.width + ColsFrom(s, st.at, rw) == ColsFrom(s, 0, rw)
      && (st.at < |s| ==> st.width == maxW || (!IsAnsiStart(s, st.at) && st.width + TokenCols(s, st.at, rw) > maxW))
    decreases |s| - i
  {
    if i < |s| && width < maxW {
      var j := Next(s, i);
      if IsAnsiStart(s, i) {
        ScanCols(s, maxW, rw, j, width);
      } else if width + TokenCols(s, i, rw) <= maxW {
        ScanCols(s, maxW, rw, j, width + TokenCols(s, i, rw));
      }
    }
  }

  /** The visible part of the content fits in `maxW` columns; and when something
      is left over, the content fills `maxW` exactly or the rune at the cut
      would not have fitted. */
  lemma SliceWidth(s: Str, maxW: int, rw: RuneWidth)
    requires maxW > 0
    ensures var k := CutIndex(s, maxW, rw);
      && ColsFrom(s[..k], 0, rw) <= maxW
      && (k < |s| ==> ColsFrom(s[..k], 0, rw) == maxW
                      || (!IsAnsiStart(s, k) && ColsFrom(s[..k], 0, rw) + TokenCols(s, k, rw) > maxW))
  {
    ScanCols(s, maxW, rw, 0, 0);
    var st := Scan(s, maxW, rw, 0, 0);
    ColsPrefix(s, 0, st.at, rw);
  }

  /** Every control sequence among the tokens is at least an ESC and a '['. */
  lemma {:induction false} EscBetweenLong(s: Str, i: nat, k: nat)
    requires Reach(s, i, k)
    ensures forall j | 0 <= j < |EscBetween(s, i, k)| :: |EscBetween(s, i, k)[j]| >= 2
    decreases k - i
  {
    if i != k {
      EscBetweenLong(s, Next(s, i), k);
    }
  }

  /** The styles left open by the copied part of the line: none exactly when
      no control sequence was copied or the last one copied was a reset, and
      otherwise they end with that last sequence. */
  lemma SliceActive(s: Str, maxW: int, rw: RuneWidth)
    requires maxW > 0
    ensures var k := CutIndex(s, maxW, rw);
      && Reach(s, 0, k)
      && var esc := EscBetween(s, 0, k);
      var active := Slice(s, maxW, rw).activeAnsi;
      && (active == [] <==> esc == [] || esc[|esc| - 1] == Reset)
      && (esc != [] && esc[|esc| - 1] != Reset ==> HasSuffix(active, esc[|esc| - 1]))
  {
    var k := CutIndex(s, maxW, rw);
    var esc := EscBetween(s, 0, k);
    if esc != [] && esc[|esc| - 1] != Reset {
      EscBetweenLong(s, 0, k);
      var last := esc[|esc| - 1];
      var before := SinceLastReset(esc[..|esc| - 1]);
      assert SinceLastReset(esc) == before + [last];
      ConcatAppend(before, [last]);
      assert Concat([last]) == last;
      var active := Slice(s, maxW, rw).activeAnsi;
      assert active == Concat(before) + last;
      assert active[|active| - |last|..] == last;
    }
  }

  // ---------------------------------------------------------------------
  // Progress and carried styles

  /** A concatenation of complete control sequences. */
  predicate Escapes(a: Str)
    decreases |a|
  {
    a == [] || (IsAnsiStart(a, 0) && Terminated(a, 0) && Escapes(a[SeqEnd(a, 0)..]))
  }

  /** A control sequence that is a prefix of `a` is the same one in `a + b`. */
  lemma SeqEndAppend(a: Str, b: Str, i: nat)
    requires IsAnsiStart(a, i) && Terminated(a, i)
    ensures IsAnsiStart(a + b, i) && SeqEnd(a + b, i) == SeqEnd(a, i)
  {
    var e := SeqEnd(a, i);
    assert (a + b)[i + 2..e] == a[i + 2..e];
    FinalFromWindow(a, i + 2, a + b, i + 2, e - (i + 2));
  }

  lemma {:induction false} EscapesAppend(a: Str, b: Str)
    requires Escapes(a) && Escapes(b)
    ensures Escapes(a + b)
    decreases |a|
  {
    if a != [] {
      var e := SeqEnd(a, 0);
      SeqEndAppend(a, b, 0);
      assert (a + b)[e..] == a[e..] + b;
      EscapesAppend(a[e..], b);
    } else {
      assert a + b == b;
    }
  }

  /** A terminated control sequence cut out of `s` is one complete sequence. */
  lemma TokenEscapes(s: Str, i: nat)
    requires IsAnsiStart(s, i) && Terminated(s, i)
    ensures Escapes(s[i..SeqEnd(s, i)])
  {
    var e := SeqEnd(s, i);
    var t := s[i..e];
    assert IsAnsiStart(t, 0);
    assert t[2..e - i] == s[i + 2..e];
    FinalFromWindow(s, i + 2, t, 2, e - (i + 2));
    assert t[SeqEnd(t, 0)..] == [];
  }

  /** Induction along the loop: when it stops before the end of the input,
      it has copied a rune and the open styles are complete sequences. */
  lemma {:induction false} ScanEscapes(s: Str, maxW: int, rw: RuneWidth, i: nat, width: nat)
    requires maxW >= MaxRuneCols
    requires Reach(s, 0, i)
    requires Escapes(OpenStyles(s, i)) || i == |s|
    ensures var st := Scan(s, maxW, rw, i, width);
      && Reach(s, 0, st.at)
      && (st.at < |s| ==> Escapes(OpenStyles(s, st.at)) && st.width > 0)
    decreases |s| - i
  {
    if i < |s| && width < maxW && width + TokenCols(s, i, rw) <= maxW {
      var j := Next(s, i);
      OpenEscapesStep(s, i);
      ScanEscapes(s, maxW, rw, j, width + TokenCols(s, i, rw));
      assert Scan(s, maxW, rw, i, width) == Scan(s, maxW, rw, j, width + TokenCols(s, i, rw));
    } else {
      assert Scan(s, maxW, rw, i, width) == Stop(i, width);
      if i < |s| {
        StopWidth(s, maxW, rw, i, width);
      }
    }
  }

  /** One token further on, the open styles are still complete sequences
      unless the token was an unterminated one running to the end. */
  lemma OpenEscapesStep(s: Str, i: nat)
    requires Reach(s, 0, i) && i < |s| && Escapes(OpenStyles(s, i))
    ensures Reach(s, 0, Next(s, i))
    ensures Next(s, i) < |s| ==> Escapes(OpenStyles(s, Next(s, i)))
  {
    var j := Next(s, i);
    OpenStep(s, i);
    if IsAnsiStart(s, i) && j < |s| {
      TokenEscapes(s, i);
      if s[i..j] != Reset {
        EscapesAppend(OpenStyles(s, i), s[i..j]);
      }
    }
  }

  /** Where the loop stops with room for the widest rune, it has copied
      something. */
  lemma StopWidth(s: Str, maxW: int, rw: RuneWidth, i: nat, width: nat)
    requires maxW >= MaxRuneCols && i < |s|
    requires !(width < maxW && width + TokenCols(s, i, rw) <= maxW)
    ensures width > 0
  {
    var c := TokenCols(s, i, rw);
    assert c <= MaxRuneCols;
  }

  /** Induction along the loop: the open styles are shorter than what was
      scanned, by at least the byte of a rune once one has been copied. */
  lemma {:induction false} ScanOpenLength(s: Str, maxW: int, rw: RuneWidth, i: nat, width: nat)
    requires Reach(s, 0, i)
    requires |OpenStyles(s, i)| + (if width > 0 then 1 else 0) <= i
    ensures var st := Scan(s, maxW, rw, i, width);
      && Reach(s, 0, st.at)
      && |OpenStyles(s, st.at)| + (if st.width > 0 then 1 else 0) <= st.at
    decreases |s| - i
  {
    if i < |s| && width < maxW && width + TokenCols(s, i, rw) <= maxW {
      var j := Next(s, i);
      OpenStep(s, i);
      if IsAnsiStart(s, i) {
        assert |OpenStyles(s, j)| <= |OpenStyles(s, i)| + |s[i..j]|;
      }
      ScanOpenLength(s, maxW, rw, j, width + TokenCols(s, i, rw));
      assert Scan(s, maxW, rw, i, width) == Scan(s, maxW, rw, j, width + TokenCols(s, i, rw));
    }
  }

  /** With room for the widest rune, a slice that leaves something over has
      copied at least one rune, and what it carries is made of complete
      control sequences: carried styles plus remainder are shorter than the
      input. */
  lemma SliceProgress(s: Str, maxW: int, rw: RuneWidth)
    requires maxW >= MaxRuneCols
    ensures var c := Slice(s, maxW, rw);
      c.remainder != [] ==> Escapes(c.activeAnsi) && |c.activeAnsi| + |c.remainder| < |s|
  {
    assert Reach(s, 0, 0);
    assert OpenStyles(s, 0) == [];
    ScanEscapes(s, maxW, rw, 0, 0);
    ScanOpenLength(s, maxW, rw, 0, 0);
  }

  /** The first carried sequence of a[i..] is the token at `i` of `a + t`. */
  lemma CarryStep(a: Str, t: Str, i: nat) returns (e: nat)
    requires i < |a| && Escapes(a[i..])
    ensures i + e <= |a| && 0 < e
    ensures IsAnsiStart(a + t, i) && Next(a + t, i) == i + e
    ensures Escapes(a[i + e..])
  {
    var x := a + t;
    var a' := a[i..];
    e := SeqEnd(a', 0);
    assert IsAnsiStart(x, i) by {
      assert x[i] == a'[0] && x[i + 1] == a'[1];
    }
    assert a'[2..e] == x[i + 2..i + e];
    FinalFromWindow(a', 2, x, i + 2, e - 2);
    assert a'[e..] == a[i + e..];
  }

  lemma {:induction false} ScanCarry(a: Str, t: Str, maxW: int, rw: RuneWidth, i: nat)
    requires maxW > 0 && i <= |a| && Escapes(a[i..])
    ensures Scan(a + t, maxW, rw, i, 0).at >= |a|
    decreases |a| - i
  {
    if i < |a| {
      var e := CarryStep(a, t, i);
      assert Scan(a + t, maxW, rw, i, 0) == Scan(a + t, maxW, rw, i + e, 0);
      ScanCarry(a, t, maxW, rw, i + e);
    }
  }

  /** Carried styles put in front of the text are copied whole before any
      rune is measured: the cut never falls inside them. */
  lemma SliceKeepsCarry(a: Str, t: Str, maxW: int, rw: RuneWidth)
    requires maxW > 0 && Escapes(a)
    ensures CutIndex(a + t, maxW, rw) >= |a|
  {
    assert a[0..] == a;
    ScanCarry(a, t, maxW, rw, 0);
  }
}
