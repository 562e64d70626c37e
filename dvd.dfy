/** Recognising the `VIDEO_TS` directory of a DVD rip (src/dvd.rs). */
module DvdLayout {
  import opened Wrappers
  import opened Text
  import opened Paths

  /** `is_dvd_video_ts_dir`: the last component is named `VIDEO_TS`, in any ASCII case. */
  predicate IsDvdVideoTsDir(p: Path)
  {
    match FileName(p)
    case None => false
    case Some(n) =>
      match ToStr(n)
      case None => false
      case Some(s) => EqIgnoreAsciiCase(s, "VIDEO_TS")
  }

  /** A path whose last component is a UTF-8 name is a `VIDEO_TS` directory exactly when
      that name lower-cases to `video_ts`, whatever its parent directories are. */
  lemma VideoTsNamesExactly(parent: Path, s: string)
    ensures IsDvdVideoTsDir(parent + [Normal(FromStr(s))]) <==> AsciiLowercase(s) == "video_ts"
  {
    ToStrFromStr(s);
    EqIgnoreAsciiCaseIsLowercaseEq(s, "VIDEO_TS");
    assert AsciiLowercase("VIDEO_TS") == "video_ts";
  }

  /** A path without a file name (empty, the root, or ending in `..`) is not one. */
  lemma NoFileNameIsNotVideoTs(p: Path)
    requires |p| == 0 || !p[|p| - 1].Normal?
    ensures !IsDvdVideoTsDir(p)
  {
  }

  /** A last component that is not valid UTF-8 is not one. */
  lemma InvalidNameIsNotVideoTs(parent: Path, n: seq<Unit>)
    requires exists i :: 0 <= i < |n| && n[i].Invalid?
    ensures !IsDvdVideoTsDir(parent + [Normal(n)])
  {
  }

  /** Only the last component matters: a file inside `VIDEO_TS` is not itself one. */
  lemma OnlyLastComponentMatters(parent: Path, s: string)
    requires AsciiLowercase(s) != "video_ts"
    ensures !IsDvdVideoTsDir(parent + [Normal(FromStr("VIDEO_TS")), Normal(FromStr(s))])
    ensures IsDvdVideoTsDir(parent + [Normal(FromStr("VIDEO_TS"))])
  {
    VideoTsNamesExactly(parent + [Normal(FromStr("VIDEO_TS"))], s);
    assert parent + [Normal(FromStr("VIDEO_TS")), Normal(FromStr(s))]
        == (parent + [Normal(FromStr("VIDEO_TS"))]) + [Normal(FromStr(s))];
    VideoTsNamesExactly(parent, "VIDEO_TS");
  }
}
