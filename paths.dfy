/** Path helpers of the user interface: the extension and base name of a path
    (Go's path/filepath, for '/'-separated paths), the unsupported-file test,
    the path shortening of the list header and the two-sided line padding. */
module Paths {
  import opened Bytes

  /** filepath.Ext: the suffix from the last '.' of the final path element, or
      empty when that element has no '.'. */
  function Ext(path: Str): (r: Str)
    ensures |r| <= |path| && r == path[|path| - |r|..]
    ensures r != [] ==> r[0] == Dot && Slash !in r && Dot !in r[1..]
    decreases |path|
  {
    if |path| == 0 || path[|path| - 1] == Slash then []
    else if path[|path| - 1] == Dot then [Dot]
    else
      var e := Ext(path[..|path| - 1]);
      if e == [] then [] else e + [path[|path| - 1]]
  }

  /** The final path element, the bytes after the last '/'. */
  function LastElement(path: Str): (r: Str)
    ensures |r| <= |path| && r == path[|path| - |r|..]
    ensures Slash !in r
    ensures |r| < |path| ==> path[|path| - |r| - 1] == Slash
    decreases |path|
  {
    if |path| == 0 || path[|path| - 1] == Slash then []
    else LastElement(path[..|path| - 1]) + [path[|path| - 1]]
  }

  /** Ext is empty exactly when the final element has no dot, and otherwise
      it is the final element from its last dot. */
  lemma {:induction false} ExtOfLastElement(path: Str)
    ensures Ext(path) == [] <==> Dot !in LastElement(path)
    ensures Ext(path) != [] ==> HasSuffix(LastElement(path), Ext(path))
    decreases |path|
  {
    if |path| > 0 && path[|path| - 1] != Slash {
      var init, c := path[..|path| - 1], path[|path| - 1];
      var l, e := LastElement(init), Ext(init);
      ExtOfLastElement(init);
      assert LastElement(path) == l + [c];
      assert Dot in l + [c] <==> Dot in l || c == Dot;
      if c != Dot && e != [] {
        SuffixSnoc(l, e, c);
      } else if c == Dot {
        SuffixSnoc(l, [], c);
      }
    }
  }

  lemma SuffixSnoc(l: Str, e: Str, c: byte)
    requires HasSuffix(l, e)
    ensures HasSuffix(l + [c], e + [c])
  {
    assert (l + [c])[|l| - |e|..] == l[|l| - |e|..] + [c];
  }

  /** Drops the trailing '/' bytes. */
  function TrimTrailingSlashes(path: Str): (r: Str)
    ensures |r| <= |path| && r == path[..|r|]
    ensures r == [] || r[|r| - 1] != Slash
    ensures forall i | |r| <= i < |path| :: path[i] == Slash
    decreases |path|
  {
    if |path| > 0 && path[|path| - 1] == Slash then TrimTrailingSlashes(path[..|path| - 1]) else path
  }

  /** filepath.Base: "." for the empty path, "/" for a path of slashes only,
      else the last element once trailing slashes are dropped. */
  function Base(path: Str): (r: Str)
    ensures r != []
    ensures path != [] && TrimTrailingSlashes(path) != [] ==> Slash !in r && HasSuffix(TrimTrailingSlashes(path), r)
  {
    if path == [] then [Dot]
    else
      var t := TrimTrailingSlashes(path);
      if t == [] then [Slash] else LastElement(t)
  }

  const XcWorkspace: Str := B(".xcworkspace")
  const XcodeProj: Str := B(".xcodeproj")

  /** The lower-cased extensions that are never previewed. */
  const UnsupportedExts: set<Str> := {
    B(".xcuserstate"), XcWorkspace, B(".pbxproj"),
    B(".png"), B(".jpg"), B(".jpeg"), B(".gif"), B(".ico"), B(".webp"),
    B(".exe"), B(".dll"), B(".so"), B(".dylib"),
    B(".zip"), B(".tar"), B(".gz"), B(".rar"),
    B(".mp3"), B(".mp4"), B(".wav"), B(".mov"),
    B(".ttf"), B(".otf"), B(".woff"), B(".woff2"),
    B(".pdf")
  }

  /** isUnsupportedFile: no extension, a listed extension in any letter case,
      or an Xcode bundle anywhere in the path. A supported file has an
      extension, and not a listed one. */
  predicate IsUnsupportedFile(path: Str): (b: bool)
    ensures !b ==> Ext(path) != [] && Lower(Ext(path)) !in UnsupportedExts
  {
    var ext := Lower(Ext(path));
    ext == [] || ext in UnsupportedExts
    || Contains(path, XcWorkspace) || Contains(path, XcodeProj)
  }

  /** A file is previewable only when its final element has a dot, so a
      dot-free name (a Makefile, say) is always refused, and a listed
      extension is refused whatever its letter case. */
  lemma UnsupportedCases(path: Str)
    ensures Dot !in LastElement(path) ==> IsUnsupportedFile(path)
    ensures Lower(Ext(path)) in UnsupportedExts ==> IsUnsupportedFile(path)
    ensures !IsUnsupportedFile(path) ==>
      Dot in LastElement(path) && Lower(Ext(path)) !in UnsupportedExts
  {
    ExtOfLastElement(path);
  }

  /** Go lowers U+212A KELVIN SIGN to 'k', so ".xcwor", the Kelvin sign,
      "space" is the Xcode workspace extension and is refused. */
  lemma KelvinExtension()
    ensures IsUnsupportedFile([Dot, 0x78, 0x63, 0x77, 0x6f, 0x72] + KelvinSign + [0x73, 0x70, 0x61, 0x63, 0x65])
  {
    var a: Str := [Dot, 0x78, 0x63, 0x77, 0x6f, 0x72];
    var b: Str := [0x73, 0x70, 0x61, 0x63, 0x65];
    KelvinExtensionLowered(a, b);
    assert XcWorkspace in UnsupportedExts;
    UnsupportedCases(a + KelvinSign + b);
  }

  lemma KelvinExtensionLowered(a: Str, b: Str)
    requires a == [Dot, 0x78, 0x63, 0x77, 0x6f, 0x72] && b == [0x73, 0x70, 0x61, 0x63, 0x65]
    ensures Lower(Ext(a + KelvinSign + b)) == XcWorkspace
  {
    KelvinPathExt(a, b);
    LowerKelvin(a, b);
    LowerAscii(a);
    LowerAscii(b);
    XcWorkspaceBytes();
  }

  lemma KelvinPathExt(a: Str, b: Str)
    requires a == [Dot, 0x78, 0x63, 0x77, 0x6f, 0x72] && b == [0x73, 0x70, 0x61, 0x63, 0x65]
    ensures Ext(a + KelvinSign + b) == a + KelvinSign + b
  {
    ExtWhole(a + KelvinSign + b);
  }

  lemma XcWorkspaceBytes()
    ensures [Dot, 0x78, 0x63, 0x77, 0x6f, 0x72] + [0x6b] + [0x73, 0x70, 0x61, 0x63, 0x65] == XcWorkspace
  {
  }

  /** A dot followed by no dot and no slash is its own extension. */
  lemma {:induction false} ExtWhole(path: Str)
    requires path != [] && path[0] == Dot && Slash !in path && Dot !in path[1..]
    ensures Ext(path) == path
    decreases |path|
  {
    if |path| > 1 {
      var init := path[..|path| - 1];
      assert init[1..] == path[1..|path| - 1];
      ExtWhole(init);
      assert path == init + [path[|path| - 1]];
    }
  }

  const Ellipsis: Str := [Dot, Dot, Dot, Slash]

  /** truncatePath: the path itself when it has at most `n` slash-separated
      parts, else ".../" followed by its last `n` parts. */
  function TruncatePath(path: Str, n: nat): (r: Str)
    ensures |Split(path, Slash)| <= n ==> r == path
  {
    var parts := Split(path, Slash);
    if |parts| <= n then path else Ellipsis + Join(parts[|parts| - n..], Slash)
  }

  /** A shortened path keeps exactly the last `n` parts: ".../" followed by a
      suffix of the path that splits into the path's last `n` parts. */
  lemma {:induction false} TruncatePathKeepsTail(path: Str, n: nat)
    ensures |Split(path, Slash)| <= n ==> TruncatePath(path, n) == path
    ensures |Split(path, Slash)| > n ==>
      HasPrefix(TruncatePath(path, n), Ellipsis) && HasSuffix(path, TruncatePath(path, n)[4..])
      && (n >= 1 ==> Split(TruncatePath(path, n)[4..], Slash) == Split(path, Slash)[|Split(path, Slash)| - n..])
  {
    if |Split(path, Slash)| > n {
      Shortened(path, Split(path, Slash), n);
    }
  }

  lemma {:induction false} Shortened(path: Str, parts: seq<Str>, n: nat)
    requires parts == Split(path, Slash) && |parts| > n
    ensures HasPrefix(TruncatePath(path, n), Ellipsis) && HasSuffix(path, TruncatePath(path, n)[4..])
    ensures n >= 1 ==> Split(TruncatePath(path, n)[4..], Slash) == parts[|parts| - n..]
  {
    var joined := Join(parts[|parts| - n..], Slash);
    var r := Ellipsis + joined;
    assert r[4..] == joined && r[..4] == Ellipsis;
    if n == 0 {
      assert path[|path|..] == [] == joined;
    } else {
      LastParts(path, parts, n);
    }
  }

  /** The last `n` parts, joined again, end the path and split back into
      those parts. */
  lemma {:induction false} LastParts(path: Str, parts: seq<Str>, n: nat)
    requires parts == Split(path, Slash) && 1 <= n < |parts|
    ensures HasSuffix(path, Join(parts[|parts| - n..], Slash))
    ensures Split(Join(parts[|parts| - n..], Slash), Slash) == parts[|parts| - n..]
  {
    JoinSplit(path, Slash);
    JoinSuffix(parts, |parts| - n, Slash);
    SplitJoin(parts[|parts| - n..], Slash);
  }

  /** padLine: `left`, then at least one space, then `right`, the spaces
      filling the row to `width` columns when both sides fit. */
  function PadLine(left: Str, right: Str, width: int, cols: Str -> nat): (r: Str)
    ensures var pad := |r| - |left| - |right|;
      && HasPrefix(r, left) && HasSuffix(r, right) && pad >= 1
      && r[|left|..|left| + pad] == Spaces(pad)
      && (cols(left) + cols(right) < width ==> cols(left) + pad + cols(right) == width)
      && (cols(left) + cols(right) >= width ==> pad == 1)
  {
    var padding := width - cols(left) - cols(right);
    var pad := if padding < 1 then 1 else padding;
    var r := left + Spaces(pad) + right;
    assert r[..|left|] == left;
    assert r[|r| - |right|..] == right;
    assert r[|left|..|left| + pad] == Spaces(pad);
    r
  }
}
