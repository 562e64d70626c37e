/** Paths as `std::path` sees them on Unix: a path is its sequence of components
    (`Path::components`), so `a//b`, `a/./b` and `a/b` are one path. File names,
    stems and extensions are read from the last component; `to_string_lossy` renders a
    path back to text; `Ord for Path` compares component by component. */
module Paths {
  import opened Wrappers
  import opened Text

  datatype Component = RootDir | CurDir | ParentDir | Normal(name: seq<Unit>)

  type Path = seq<Component>

  const Dot := Char('.')

  predicate NoDot(u: seq<Unit>)
  {
    forall j :: 0 <= j < |u| ==> u[j] != Dot
  }

  /** `Path::file_name`: the last component when it is a normal name (a path ending in
      `..`, the root, or the empty path has none). */
  function FileName(p: Path): Option<seq<Unit>>
  {
    if |p| > 0 && p[|p| - 1].Normal? then Some(p[|p| - 1].name) else None
  }

  /** The position of the last `.` in a name, if any. */
  function LastDot(n: seq<Unit>): (k: Option<nat>)
    ensures k.Some? ==> k.value < |n| && n[k.value] == Dot
    ensures k.Some? ==> forall j :: k.value < j < |n| ==> n[j] != Dot
    ensures k.None? ==> forall j :: 0 <= j < |n| ==> n[j] != Dot
  {
    if |n| == 0 then None
    else if n[|n| - 1] == Dot then Some(|n| - 1)
    else LastDot(n[..|n| - 1])
  }

  /** The standard library's `rsplit_file_at_dot`: the parts before and after the last
      dot; a name whose only dot is its first character has no extension. */
  function SplitFileAtDot(n: seq<Unit>): (Option<seq<Unit>>, Option<seq<Unit>>)
  {
    if n == FromStr("..") then (Some(n), None)
    else
      match LastDot(n)
      case None => (None, Some(n))
      case Some(k) => if k == 0 then (Some(n), None) else (Some(n[..k]), Some(n[k + 1..]))
  }

  /** `Path::extension`: `before.and(after)`. */
  function Extension(p: Path): Option<seq<Unit>>
  {
    match FileName(p)
    case None => None
    case Some(n) =>
      var (before, after) := SplitFileAtDot(n);
      if before.Some? then after else None
  }

  /** `Path::file_stem`: `before.or(after)`. */
  function FileStem(p: Path): Option<seq<Unit>>
  {
    match FileName(p)
    case None => None
    case Some(n) =>
      var (before, after) := SplitFileAtDot(n);
      if before.Some? then before else after
  }

  /** Stem and extension partition the file name: a path has a stem exactly when it has
      a file name; with an extension the name is `stem.ext` and the extension holds no
      dot; without one the stem is the whole name. */
  lemma StemAndExtensionRebuildName(p: Path)
    ensures FileStem(p).Some? <==> FileName(p).Some?
    ensures Extension(p).Some? ==> FileName(p).value == FileStem(p).value + [Dot] + Extension(p).value
    ensures Extension(p).Some? ==> NoDot(Extension(p).value)
    ensures FileName(p).Some? && Extension(p).None? ==> FileStem(p) == FileName(p)
  {
    if FileName(p).Some? {
      var n := FileName(p).value;
      if n != FromStr("..") && LastDot(n).Some? && LastDot(n).value != 0 {
        var k := LastDot(n).value;
        assert n == n[..k] + [Dot] + n[k + 1..];
      }
    }
  }

  /** A name built as `stem.ext`, with a non-empty stem and an extension without dots,
      has exactly that stem and that extension. */
  lemma JoinedNameSplits(dir: Path, stem: seq<Unit>, ext: seq<Unit>)
    requires |stem| > 0
    requires NoDot(ext)
    requires stem + [Dot] + ext != FromStr("..")
    ensures Extension(dir + [Normal(stem + [Dot] + ext)]) == Some(ext)
    ensures FileStem(dir + [Normal(stem + [Dot] + ext)]) == Some(stem)
  {
    var n := stem + [Dot] + ext;
    var k := LastDot(n);
    assert n[|stem|] == Dot;
    assert forall j :: |stem| < j < |n| ==> n[j] == ext[j - |stem| - 1];
    assert k.Some? && k.value == |stem|;
    assert n[..|stem|] == stem;
    assert n[|stem| + 1..] == ext;
  }

  /** The name queries look at the last component only. */
  lemma LastComponentDecides(p: Path, q: Path)
    requires |p| > 0 && |q| > 0 && p[|p| - 1] == q[|q| - 1]
    ensures FileName(p) == FileName(q) && Extension(p) == Extension(q) && FileStem(p) == FileStem(q)
  {
  }

  // ---------------------------------------------------------------------------
  // Rendering a path as text and reading text as a path

  function ComponentText(c: Component): string
  {
    match c
    case RootDir => "/"
    case CurDir => "."
    case ParentDir => ".."
    case Normal(n) => Lossy(n)
  }

  function Texts(p: Path): seq<string>
  {
    seq(|p|, i requires 0 <= i < |p| => ComponentText(p[i]))
  }

  /** Pieces joined with `/` between them. */
  function JoinPieces(ps: seq<string>): string
  {
    if |ps| == 0 then ""
    else if |ps| == 1 then ps[0]
    else ps[0] + "/" + JoinPieces(ps[1..])
  }

  /** `Path::to_string_lossy` of a path spelled with single separators. */
  function Display(p: Path): string
  {
    if |p| > 0 && p[0] == RootDir then "/" + JoinPieces(Texts(p[1..]))
    else JoinPieces(Texts(p))
  }

  /** The pieces of a string between `/` separators (empty pieces included). */
  function SplitSlash(s: string): (r: seq<string>)
    ensures |r| >= 1
  {
    if |s| == 0 then [""]
    else
      var rest := SplitSlash(s[1..]);
      if s[0] == '/' then [""] + rest else [[s[0]] + rest[0]] + rest[1..]
  }

  /** How one piece of text becomes components: empty pieces vanish, `.` survives only
      at the head of a relative path, `..` is the parent. */
  function PieceComponent(piece: string, leading: bool): Path
  {
    if piece == "" then []
    else if piece == "." then (if leading then [CurDir] else [])
    else if piece == ".." then [ParentDir]
    else [Normal(FromStr(piece))]
  }

  function PieceComponents(ps: seq<string>, leading: bool): Path
  {
    if |ps| == 0 then []
    else PieceComponent(ps[0], leading) + PieceComponents(ps[1..], false)
  }

  /** `PathBuf::from(s).components()` on Unix. */
  function ParsePath(s: string): Path
  {
    if |s| > 0 && s[0] == '/' then [RootDir] + PieceComponents(SplitSlash(s[1..]), false)
    else PieceComponents(SplitSlash(s), true)
  }

  /** A name the standard library can produce as a `Normal` component and that survives
      the round trip through text: non-empty, valid UTF-8, no separator, not `.` or `..`. */
  predicate ValidName(n: seq<Unit>)
  {
    && |n| > 0
    && (forall i :: 0 <= i < |n| ==> n[i].Char? && n[i].c != '/')
    && n != FromStr(".") && n != FromStr("..")
  }

  /** A path as `components()` yields it: the root or `.` only at the head, valid names. */
  predicate WellFormed(p: Path)
  {
    && (forall i :: 0 < i < |p| ==> p[i] != RootDir && p[i] != CurDir)
    && (forall i :: 0 <= i < |p| && p[i].Normal? ==> ValidName(p[i].name))
  }

  predicate NoSlash(s: string)
  {
    forall i :: 0 <= i < |s| ==> s[i] != '/'
  }

  lemma {:induction false} SplitSlashAfterPiece(x: string, y: string)
    requires NoSlash(x)
    ensures SplitSlash(x + "/" + y) == [x] + SplitSlash(y)
  {
    if |x| == 0 {
      assert x + "/" + y == "/" + y;
      assert ("/" + y)[1..] == y;
    } else {
      assert (x + "/" + y)[1..] == x[1..] + "/" + y;
      SplitSlashAfterPiece(x[1..], y);
      assert [x[0]] + x[1..] == x;
    }
  }

  lemma {:induction false} SplitSlashOfPiece(x: string)
    requires NoSlash(x)
    ensures SplitSlash(x) == [x]
  {
    if |x| > 0 {
      SplitSlashOfPiece(x[1..]);
      assert [x[0]] + x[1..] == x;
    }
  }

  /** Splitting undoes joining, for at least one piece and pieces without separators. */
  lemma {:induction false} SplitJoin(ps: seq<string>)
    requires |ps| >= 1
    requires forall i :: 0 <= i < |ps| ==> NoSlash(ps[i])
    ensures SplitSlash(JoinPieces(ps)) == ps
  {
    if |ps| == 1 {
      SplitSlashOfPiece(ps[0]);
    } else {
      SplitJoin(ps[1..]);
      SplitSlashAfterPiece(ps[0], JoinPieces(ps[1..]));
      assert [ps[0]] + ps[1..] == ps;
    }
  }

  lemma TextOfValidName(n: seq<Unit>)
    requires ValidName(n)
    ensures NoSlash(Lossy(n))
    ensures FromStr(Lossy(n)) == n
    ensures Lossy(n) != "" && Lossy(n) != "." && Lossy(n) != ".."
  {
    assert ToStr(n).Some?;
    LossyAgreesWithToStr(n);
    assert FromStr(Lossy(n)) == n;
  }

  lemma {:induction false} PieceComponentsOfTexts(q: Path, leading: bool)
    requires WellFormed(q)
    requires forall i :: 0 <= i < |q| ==> q[i] != RootDir
    requires forall i :: 0 <= i < |q| && q[i] == CurDir ==> i == 0 && leading
    ensures PieceComponents(Texts(q), leading) == q
    ensures forall i :: 0 <= i < |q| ==> NoSlash(Texts(q)[i])
  {
    if |q| > 0 {
      var t := Texts(q);
      assert t[1..] == Texts(q[1..]);
      assert WellFormed(q[1..]) by {
        assert forall i :: 0 <= i < |q[1..]| ==> q[1..][i] == q[i + 1];
      }
      PieceComponentsOfTexts(q[1..], false);
      match q[0]
      case CurDir =>
      case ParentDir =>
      case Normal(n) =>
        TextOfValidName(n);
      assert PieceComponent(t[0], leading) == [q[0]];
      forall i | 0 <= i < |q| ensures NoSlash(t[i]) {
        if i > 0 {
          assert t[i] == Texts(q[1..])[i - 1];
        } else if q[0].Normal? {
          TextOfValidName(q[0].name);
        }
      }
    }
  }

  /** Rendering then parsing gives the path back: distinct well-formed paths render to
      distinct strings, so a path's text identifies it. */
  lemma ParseDisplay(p: Path)
    requires WellFormed(p)
    ensures ParsePath(Display(p)) == p
  {
    if |p| > 0 && p[0] == RootDir {
      var q := p[1..];
      assert WellFormed(q) by {
        assert forall i :: 0 <= i < |q| ==> q[i] == p[i + 1];
      }
      PieceComponentsOfTexts(q, false);
      var s := Display(p);
      assert s[1..] == JoinPieces(Texts(q));
      if |q| == 0 {
        assert JoinPieces(Texts(q)) == "";
      } else {
        SplitJoin(Texts(q));
      }
      assert [p[0]] + q == p;
    } else if |p| > 0 {
      PieceComponentsOfTexts(p, true);
      SplitJoin(Texts(p));
      var s := Display(p);
      var t0 := Texts(p)[0];
      assert |t0| > 0 && t0[0] != '/' by {
        if p[0].Normal? {
          TextOfValidName(p[0].name);
        }
      }
      if |p| > 1 {
        assert s == t0 + "/" + JoinPieces(Texts(p)[1..]);
      }
      assert s[0] == t0[0];
    }
  }

  // ---------------------------------------------------------------------------
  // `Ord for Path`: lexicographic over components, where components are ordered as
  // the enum declares them (RootDir < CurDir < ParentDir < Normal) and names by their
  // bytes (the code-point order of their text).

  function Rank(c: Component): nat
  {
    match c
    case RootDir => 1
    case CurDir => 2
    case ParentDir => 3
    case Normal(_) => 4
  }

  function NameKey(c: Component): string
  {
    if c.Normal? then Lossy(c.name) else ""
  }

  predicate ComponentLt(a: Component, b: Component)
  {
    Rank(a) < Rank(b) || (Rank(a) == Rank(b) && StrLt(NameKey(a), NameKey(b)))
  }

  /** Two components neither of which sorts before the other. */
  predicate ComponentTie(a: Component, b: Component)
  {
    Rank(a) == Rank(b) && NameKey(a) == NameKey(b)
  }

  lemma ComponentOrder(a: Component, b: Component, c: Component)
    ensures ComponentLt(a, b) || ComponentTie(a, b) || ComponentLt(b, a)
    ensures !(ComponentLt(a, b) && ComponentTie(a, b))
    ensures ComponentLt(a, b) && ComponentLt(b, c) ==> ComponentLt(a, c)
    ensures !ComponentLt(a, a)
  {
    StrLtTrichotomy(NameKey(a), NameKey(b));
    StrLtIrreflexive(NameKey(a));
    if ComponentLt(a, b) && ComponentLt(b, c) && Rank(a) == Rank(b) == Rank(c) {
      StrLtTransitive(NameKey(a), NameKey(b), NameKey(c));
    }
  }

  predicate ComponentsLe(p: Path, q: Path)
  {
    if |p| == 0 then true
    else if |q| == 0 then false
    else if ComponentLt(p[0], q[0]) then true
    else if ComponentLt(q[0], p[0]) then false
    else ComponentsLe(p[1..], q[1..])
  }

  lemma {:induction false} ComponentsLeTotal(p: Path, q: Path)
    ensures ComponentsLe(p, q) || ComponentsLe(q, p)
  {
    if |p| > 0 && |q| > 0 && !ComponentLt(p[0], q[0]) && !ComponentLt(q[0], p[0]) {
      ComponentsLeTotal(p[1..], q[1..]);
    }
  }

  lemma {:induction false} ComponentsLeTransitive(p: Path, q: Path, r: Path)
    requires ComponentsLe(p, q) && ComponentsLe(q, r)
    ensures ComponentsLe(p, r)
  {
    if |p| > 0 && |q| > 0 && |r| > 0 {
      ComponentOrder(p[0], q[0], r[0]);
      ComponentOrder(q[0], r[0], p[0]);
      ComponentOrder(r[0], p[0], q[0]);
      ComponentOrder(q[0], p[0], r[0]);
      ComponentOrder(p[0], r[0], q[0]);
      ComponentOrder(r[0], q[0], p[0]);
      if ComponentTie(p[0], q[0]) && ComponentTie(q[0], r[0]) {
        ComponentsLeTransitive(p[1..], q[1..], r[1..]);
      }
    }
  }

  /** The order `Vec<PathBuf>::sort` uses on path strings. */
  predicate PathLe(a: string, b: string)
  {
    ComponentsLe(ParsePath(a), ParsePath(b))
  }

  /** Path order is total and transitive, so a smallest path exists in every group. */
  lemma PathLeTotalPreorder(a: string, b: string, c: string)
    ensures PathLe(a, b) || PathLe(b, a)
    ensures PathLe(a, b) && PathLe(b, c) ==> PathLe(a, c)
  {
    ComponentsLeTotal(ParsePath(a), ParsePath(b));
    if PathLe(a, b) && PathLe(b, c) {
      ComponentsLeTransitive(ParsePath(a), ParsePath(b), ParsePath(c));
    }
  }

  /** Path order is not string order: `a/b` sorts before `a-b` as paths, after it as
      strings. */
  lemma PathOrderIsNotStringOrder()
    ensures PathLe("a/b", "a-b") && !PathLe("a-b", "a/b")
    ensures StrLt("a-b", "a/b")
  {
    SplitSlashOfPiece("b");
    SplitSlashAfterPiece("a", "b");
    assert "a" + "/" + "b" == "a/b";
    SplitSlashOfPiece("a-b");
    assert ParsePath("a/b") == [Normal(FromStr("a")), Normal(FromStr("b"))];
    assert ParsePath("a-b") == [Normal(FromStr("a-b"))];
    assert Lossy(FromStr("a")) == "a";
    assert Lossy(FromStr("a-b")) == "a-b";
    assert StrLt("a", "a-b");
  }
}
