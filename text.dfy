/** Text as the Rust standard library sees it: OS strings and byte strings decoded
    unit by unit, ASCII case mapping, `str::trim`, and the order of strings. */
module Text {
  import opened Wrappers

  newtype byte = x: int | 0 <= x < 256

  /** One unit of an OS string (or of a byte string read as UTF-8): either a decoded
      character, or a maximal run of bytes that is not valid UTF-8, represented by its
      first byte. */
  datatype Unit = Char(c: char) | Invalid(b: byte)

  /** A string viewed as OS-string units. */
  function FromStr(s: string): seq<Unit>
  {
    seq(|s|, i requires 0 <= i < |s| => Char(s[i]))
  }

  /** `OsStr::to_str`: the string when every unit decodes, `None` otherwise. */
  function ToStr(u: seq<Unit>): (r: Option<string>)
    ensures r.Some? <==> forall i :: 0 <= i < |u| ==> u[i].Char?
    ensures r.Some? ==> FromStr(r.value) == u
  {
    if |u| == 0 then Some("")
    else
      match ToStr(u[1..])
      case None => None
      case Some(t) => if u[0].Char? then Some([u[0].c] + t) else None
  }

  /** `to_string_lossy` / `String::from_utf8_lossy`: every invalid run becomes U+FFFD. */
  function Lossy(u: seq<Unit>): string
  {
    seq(|u|, i requires 0 <= i < |u| => if u[i].Char? then u[i].c else '\U{FFFD}')
  }

  /** Decoding what was encoded gives the string back, losslessly either way. */
  lemma ToStrFromStr(s: string)
    ensures ToStr(FromStr(s)) == Some(s)
    ensures Lossy(FromStr(s)) == s
  {
    var r := ToStr(FromStr(s));
    assert r.Some?;
    assert FromStr(r.value) == FromStr(s);
    assert |r.value| == |s|;
    forall i | 0 <= i < |s| ensures r.value[i] == s[i] {
      assert FromStr(r.value)[i] == FromStr(s)[i];
    }
    assert r.value == s;
  }

  /** When `to_str` succeeds, the lossy conversion yields the same string. */
  lemma LossyAgreesWithToStr(u: seq<Unit>)
    requires ToStr(u).Some?
    ensures Lossy(u) == ToStr(u).value
  {
    var s := ToStr(u).value;
    assert FromStr(s) == u;
    assert |Lossy(u)| == |s|;
    forall i | 0 <= i < |u| ensures Lossy(u)[i] == s[i] {
      assert u[i] == Char(s[i]);
    }
  }

  // ---------------------------------------------------------------------------
  // ASCII case

  predicate IsAsciiUpper(c: char) { 'A' <= c <= 'Z' }

  /** `char::to_ascii_lowercase`: only `A`..`Z` change. */
  function AsciiLower(c: char): (d: char)
    ensures !IsAsciiUpper(d)
    ensures IsAsciiUpper(c) ==> d as int == c as int + 32
    ensures !IsAsciiUpper(c) ==> d == c
  {
    if IsAsciiUpper(c) then (c as int + 32) as char else c
  }

  /** `str::to_ascii_lowercase`. */
  function AsciiLowercase(s: string): string
  {
    seq(|s|, i requires 0 <= i < |s| => AsciiLower(s[i]))
  }

  /** Lower-casing is idempotent and leaves no ASCII capital behind. */
  lemma AsciiLowercaseIdempotent(s: string)
    ensures AsciiLowercase(AsciiLowercase(s)) == AsciiLowercase(s)
    ensures forall i :: 0 <= i < |s| ==> !IsAsciiUpper(AsciiLowercase(s)[i])
  {
  }

  /** `str::eq_ignore_ascii_case`. */
  predicate EqIgnoreAsciiCase(a: string, b: string)
  {
    |a| == |b| && forall i :: 0 <= i < |a| ==> AsciiLower(a[i]) == AsciiLower(b[i])
  }

  /** Comparing without ASCII case is comparing the lower-cased strings. */
  lemma EqIgnoreAsciiCaseIsLowercaseEq(a: string, b: string)
    ensures EqIgnoreAsciiCase(a, b) <==> AsciiLowercase(a) == AsciiLowercase(b)
  {
    if AsciiLowercase(a) == AsciiLowercase(b) {
      assert |a| == |AsciiLowercase(a)|;
      forall i | 0 <= i < |a| ensures AsciiLower(a[i]) == AsciiLower(b[i]) {
        assert AsciiLowercase(a)[i] == AsciiLowercase(b)[i];
      }
    }
  }

  /** Two units that are the same up to ASCII case: the same character after
      lower-casing, or the same undecodable run. */
  predicate UnitEqIgnoreAsciiCase(x: Unit, y: Unit)
  {
    if x.Char? && y.Char? then AsciiLower(x.c) == AsciiLower(y.c) else x == y
  }

  predicate UnitsEqIgnoreAsciiCase(u: seq<Unit>, v: seq<Unit>)
  {
    |u| == |v| && forall i :: 0 <= i < |u| ==> UnitEqIgnoreAsciiCase(u[i], v[i])
  }

  /** Units equal up to ASCII case decode together, to strings equal up to ASCII case. */
  lemma ToStrIgnoresAsciiCase(u: seq<Unit>, v: seq<Unit>)
    requires UnitsEqIgnoreAsciiCase(u, v)
    ensures ToStr(u).Some? <==> ToStr(v).Some?
    ensures ToStr(u).Some? ==> AsciiLowercase(ToStr(u).value) == AsciiLowercase(ToStr(v).value)
  {
    if ToStr(u).Some? {
      forall i | 0 <= i < |v| ensures v[i].Char? {
        assert UnitEqIgnoreAsciiCase(u[i], v[i]);
      }
      var s, t := ToStr(u).value, ToStr(v).value;
      assert FromStr(s) == u && FromStr(t) == v;
      forall i | 0 <= i < |s| ensures AsciiLowercase(s)[i] == AsciiLowercase(t)[i] {
        assert u[i] == Char(s[i]) && v[i] == Char(t[i]);
        assert UnitEqIgnoreAsciiCase(u[i], v[i]);
      }
    } else {
      var i :| 0 <= i < |u| && !u[i].Char?;
      assert UnitEqIgnoreAsciiCase(u[i], v[i]);
    }
  }

  // ---------------------------------------------------------------------------
  // Whitespace and `str::trim`

  /** `char::is_whitespace`: the Unicode White_Space property. */
  predicate IsWhitespace(c: char)
  {
    ('\U{9}' <= c <= '\U{D}') || c == ' ' || c == '\U{85}' || c == '\U{A0}' ||
    c == '\U{1680}' || ('\U{2000}' <= c <= '\U{200A}') || c == '\U{2028}' || c == '\U{2029}' ||
    c == '\U{202F}' || c == '\U{205F}' || c == '\U{3000}'
  }

  predicate AllWhitespace(s: string)
  {
    forall i :: 0 <= i < |s| ==> IsWhitespace(s[i])
  }

  /** Neither end of `s` is whitespace. */
  predicate Trimmed(s: string)
  {
    |s| == 0 || (!IsWhitespace(s[0]) && !IsWhitespace(s[|s| - 1]))
  }

  /** How many whitespace characters `s` starts with. */
  function LeadingWhitespace(s: string): (n: nat)
    ensures n <= |s|
    ensures forall i :: 0 <= i < n ==> IsWhitespace(s[i])
    ensures n == |s| || !IsWhitespace(s[n])
  {
    if |s| > 0 && IsWhitespace(s[0]) then
      var n := 1 + LeadingWhitespace(s[1..]);
      assert forall i :: 1 <= i < n ==> s[i] == s[1..][i - 1];
      n
    else 0
  }

  /** How many whitespace characters `s` ends with. */
  function TrailingWhitespace(s: string): (n: nat)
    ensures n <= |s|
    ensures forall i :: |s| - n <= i < |s| ==> IsWhitespace(s[i])
    ensures n == |s| || !IsWhitespace(s[|s| - n - 1])
  {
    if |s| > 0 && IsWhitespace(s[|s| - 1]) then
      var n := 1 + TrailingWhitespace(s[..|s| - 1]);
      assert forall i :: |s| - n <= i < |s| - 1 ==> s[i] == s[..|s| - 1][i];
      n
    else 0
  }

  /** `str::trim_start`. */
  function TrimStart(s: string): (r: string)
    ensures |r| == 0 || !IsWhitespace(r[0])
    ensures |r| <= |s| && r == s[|s| - |r|..]
    ensures AllWhitespace(s[..|s| - |r|])
  {
    s[LeadingWhitespace(s)..]
  }

  /** `str::trim_end`. */
  function TrimEnd(s: string): (r: string)
    ensures |r| == 0 || !IsWhitespace(r[|r| - 1])
    ensures |r| <= |s| && r == s[..|r|]
    ensures AllWhitespace(s[|r|..])
  {
    s[..|s| - TrailingWhitespace(s)]
  }

  /** `str::trim`: drop leading and trailing whitespace. */
  function Trim(s: string): (r: string)
    ensures Trimmed(r)
    ensures |r| <= |s|
  {
    var t := TrimStart(s);
    var r := TrimEnd(t);
    assert |r| > 0 ==> r[0] == t[0];
    r
  }

  /** Whitespace before a text that does not start with whitespace is what
      `trim_start` removes. */
  lemma TrimStartPadded(p: string, m: string)
    requires AllWhitespace(p)
    requires |m| == 0 || !IsWhitespace(m[0])
    ensures TrimStart(p + m) == m
  {
    var s := p + m;
    assert forall i :: 0 <= i < |p| ==> s[i] == p[i];
    assert |m| > 0 ==> s[|p|] == m[0];
    assert LeadingWhitespace(s) == |p|;
    assert s[|p|..] == m;
  }

  /** Whitespace after a text that does not end with whitespace is what `trim_end`
      removes. */
  lemma TrimEndPadded(m: string, q: string)
    requires AllWhitespace(q)
    requires |m| == 0 || !IsWhitespace(m[|m| - 1])
    ensures TrimEnd(m + q) == m
  {
    var s := m + q;
    assert forall i :: |m| <= i < |s| ==> s[i] == q[i - |m|];
    assert |m| > 0 ==> s[|m| - 1] == m[|m| - 1];
    assert TrailingWhitespace(s) == |q|;
    assert s[..|m|] == m;
  }

  /** Trimming undoes whitespace padding: whatever whitespace surrounds a trimmed
      text, `trim` returns exactly that text. */
  lemma TrimRemovesPadding(p: string, m: string, q: string)
    requires AllWhitespace(p) && AllWhitespace(q) && Trimmed(m)
    ensures Trim(p + m + q) == m
  {
    if |m| == 0 {
      assert p + m + q == p + q;
      if |q| > 0 {
        assert (p + q)[|p|] == q[0];
      }
      TrimStartPadded(p + q, "");
      assert p + q + "" == p + q;
      assert TrimStart(p + q) == "";
    } else {
      assert p + m + q == p + (m + q);
      TrimStartPadded(p, m + q);
      TrimEndPadded(m, q);
    }
  }

  // ---------------------------------------------------------------------------
  // Order of strings (code-point order, which is also the byte order of UTF-8)

  predicate StrLt(a: string, b: string)
  {
    if |b| == 0 then false
    else if |a| == 0 then true
    else if a[0] != b[0] then a[0] < b[0]
    else StrLt(a[1..], b[1..])
  }

  lemma {:induction false} StrLtIrreflexive(a: string)
    ensures !StrLt(a, a)
  {
    if |a| > 0 {
      StrLtIrreflexive(a[1..]);
    }
  }

  lemma {:induction false} StrLtTransitive(a: string, b: string, c: string)
    requires StrLt(a, b) && StrLt(b, c)
    ensures StrLt(a, c)
  {
    if |a| > 0 && a[0] == b[0] && b[0] == c[0] {
      StrLtTransitive(a[1..], b[1..], c[1..]);
    }
  }

  lemma {:induction false} StrLtTrichotomy(a: string, b: string)
    ensures a == b || StrLt(a, b) || StrLt(b, a)
  {
    if |a| > 0 && |b| > 0 && a[0] == b[0] {
      StrLtTrichotomy(a[1..], b[1..]);
      if a[1..] == b[1..] {
        assert a == [a[0]] + a[1..] && b == [b[0]] + b[1..];
      }
    }
  }
}
