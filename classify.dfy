/** Sorting a path into a media kind by its extension alone (src/classify.rs). */
module Classification {
  import opened Wrappers
  import opened Text
  import opened Paths

  datatype Kind = Photo | Video | Dvd | Ignore

  /** `normalize_extension`: the extension, lower-cased in ASCII, when the path has one
      and it is valid UTF-8. */
  function NormalizeExtension(p: Path): Option<string>
  {
    match Extension(p)
    case None => None
    case Some(e) =>
      match ToStr(e)
      case None => None
      case Some(s) => Some(AsciiLowercase(s))
  }

  /** `classify`. */
  function Classify(p: Path): Kind
  {
    var e := NormalizeExtension(p);
    if e == Some("jpg") || e == Some("jpeg") || e == Some("png") then Photo
    else if e == Some("mp4") || e == Some("avi") || e == Some("mov") || e == Some("m4v") then Video
    else if e == Some("vob") || e == Some("ifo") || e == Some("bup") then Dvd
    else Ignore
  }

  /** `is_jpeg`: the photos EXIF is read from. */
  predicate IsJpeg(p: Path)
  {
    var e := NormalizeExtension(p);
    e == Some("jpg") || e == Some("jpeg")
  }

  /** The path `dir/stem.ext`. */
  function WithExtension(dir: Path, stem: seq<Unit>, ext: seq<Unit>): Path
  {
    dir + [Normal(stem + [Dot] + ext)]
  }

  /** The normalized extension of `stem.ext` is `ext` lower-cased, or nothing when `ext`
      is not valid UTF-8; it never holds an ASCII capital. */
  lemma NormalizeExtensionOfName(dir: Path, stem: seq<Unit>, ext: seq<Unit>)
    requires |stem| > 0 && NoDot(ext) && stem + [Dot] + ext != FromStr("..")
    ensures NormalizeExtension(WithExtension(dir, stem, ext)).None? <==> ToStr(ext).None?
    ensures ToStr(ext).Some? ==>
              NormalizeExtension(WithExtension(dir, stem, ext)) == Some(AsciiLowercase(ToStr(ext).value))
    ensures NormalizeExtension(WithExtension(dir, stem, ext)).Some? ==>
              forall i :: 0 <= i < |NormalizeExtension(WithExtension(dir, stem, ext)).value| ==>
                !IsAsciiUpper(NormalizeExtension(WithExtension(dir, stem, ext)).value[i])
  {
    JoinedNameSplits(dir, stem, ext);
  }

  /** A path with no extension, or with one that is not valid UTF-8, is ignored. */
  lemma NoExtensionIsIgnored(p: Path)
    requires Extension(p).None? || ToStr(Extension(p).value).None?
    ensures Classify(p) == Ignore && !IsJpeg(p)
  {
  }

  /** The table of kinds: exactly these lower-cased extensions give each kind. */
  lemma ClassifyTable(p: Path)
    ensures Classify(p) == Photo <==> NormalizeExtension(p) in {Some("jpg"), Some("jpeg"), Some("png")}
    ensures Classify(p) == Video <==> NormalizeExtension(p) in {Some("mp4"), Some("avi"), Some("mov"), Some("m4v")}
    ensures Classify(p) == Dvd <==> NormalizeExtension(p) in {Some("vob"), Some("ifo"), Some("bup")}
    ensures Classify(p) == Ignore <==>
              NormalizeExtension(p) !in {Some("jpg"), Some("jpeg"), Some("png"), Some("mp4"), Some("avi"),
                                         Some("mov"), Some("m4v"), Some("vob"), Some("ifo"), Some("bup")}
  {
  }

  /** Every JPEG is a photo; a PNG is a photo but not a JPEG, so EXIF is never read
      from it. */
  lemma JpegIsPhoto(p: Path)
    ensures IsJpeg(p) ==> Classify(p) == Photo
    ensures NormalizeExtension(p) == Some("png") ==> Classify(p) == Photo && !IsJpeg(p)
  {
  }

  lemma CaseChangeKeepsDots(e1: seq<Unit>, e2: seq<Unit>)
    requires UnitsEqIgnoreAsciiCase(e1, e2) && NoDot(e1)
    ensures NoDot(e2)
  {
    forall j | 0 <= j < |e2| ensures e2[j] != Dot {
      assert UnitEqIgnoreAsciiCase(e1[j], e2[j]);
    }
  }

  /** Changing the ASCII case of an extension changes neither the kind nor whether the
      path counts as a JPEG. */
  lemma ClassifyIgnoresExtensionCase(dir: Path, stem: seq<Unit>, e1: seq<Unit>, e2: seq<Unit>)
    requires |stem| > 0 && NoDot(e1) && stem + [Dot] + e1 != FromStr("..")
    requires UnitsEqIgnoreAsciiCase(e1, e2)
    ensures NormalizeExtension(WithExtension(dir, stem, e1)) == NormalizeExtension(WithExtension(dir, stem, e2))
    ensures Classify(WithExtension(dir, stem, e1)) == Classify(WithExtension(dir, stem, e2))
    ensures IsJpeg(WithExtension(dir, stem, e1)) == IsJpeg(WithExtension(dir, stem, e2))
  {
    CaseChangeKeepsDots(e1, e2);
    if |e2| == 0 {
      assert e1 == e2;
    }
    NormalizeExtensionOfName(dir, stem, e1);
    NormalizeExtensionOfName(dir, stem, e2);
    ToStrIgnoresAsciiCase(e1, e2);
  }
}
