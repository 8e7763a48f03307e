/**
 The allowed cross-origin hosts setting: a comma-separated string, split on
 every comma (as Python's `str.split(",")`), each piece stripped of leading
 and trailing whitespace (as Python's `str.strip()`).
 */
module Origins {
  import opened Optional

  /** The value used when the setting is not present in the environment. */
  const DefaultSetting: string := "http://localhost:5173,http://localhost:3000"

  const Separator: char := ','

  // ---------------------------------------------------------------------------
  // Splitting
  // ---------------------------------------------------------------------------

  /** How many times `c` occurs in `s`. */
  function Occurrences(s: string, c: char): nat {
    if |s| == 0 then 0
    else (if s[0] == c then 1 else 0) + Occurrences(s[1..], c)
  }

  /** The pieces written one after another with `sep` between neighbours. */
  function Join(pieces: seq<string>, sep: char): string {
    if |pieces| == 0 then ""
    else if |pieces| == 1 then pieces[0]
    else pieces[0] + [sep] + Join(pieces[1..], sep)
  }

  /**
   The maximal `sep`-free pieces of `s`: one more than there are separators,
   none containing the separator, and joined back they give `s`. Empty
   pieces are kept, so the empty string splits into one empty piece.
   */
  function Split(s: string, sep: char): (r: seq<string>)
    ensures |r| == Occurrences(s, sep) + 1
    ensures forall i | 0 <= i < |r| :: sep !in r[i]
    ensures Join(r, sep) == s
    decreases |s|
  {
    if |s| == 0 then [""]
    else
      var rest := Split(s[1..], sep);
      if s[0] == sep then
        [""] + rest
      else
        var r := [[s[0]] + rest[0]] + rest[1..];
        assert s == [s[0]] + s[1..];
        assert |rest| > 1 ==> rest == [rest[0]] + rest[1..];
        r
  }

  /** Splitting a separator-free piece followed by a separator peels off that piece. */
  lemma {:induction false} SplitCons(p: string, sep: char, s: string)
    requires sep !in p
    ensures Split(p + [sep] + s, sep) == [p] + Split(s, sep)
    decreases |p|
  {
    if |p| == 0 {
      assert p + [sep] + s == [sep] + s;
      assert ([sep] + s)[1..] == s;
    } else {
      var w := p + [sep] + s;
      assert w[0] == p[0];
      assert w[1..] == p[1..] + [sep] + s;
      SplitCons(p[1..], sep, s);
      assert [p[0]] + p[1..] == p;
    }
  }

  /** A separator-free string is a single piece. */
  lemma SplitSingle(p: string, sep: char)
    requires sep !in p
    ensures Split(p, sep) == [p]
  {
  }

  /** Joining separator-free pieces and splitting again gives the pieces back. */
  lemma {:induction false} SplitJoin(pieces: seq<string>, sep: char)
    requires |pieces| >= 1
    requires forall i | 0 <= i < |pieces| :: sep !in pieces[i]
    ensures Split(Join(pieces, sep), sep) == pieces
  {
    if |pieces| == 1 {
      SplitSingle(pieces[0], sep);
    } else {
      SplitJoin(pieces[1..], sep);
      SplitCons(pieces[0], sep, Join(pieces[1..], sep));
      assert [pieces[0]] + pieces[1..] == pieces;
    }
  }

  // ---------------------------------------------------------------------------
  // Stripping
  // ---------------------------------------------------------------------------

  /** The characters Python's `str.isspace` accepts, by code point. */
  predicate IsSpace(c: char) {
    var n := c as int;
    || (0x09 <= n <= 0x0D)
    || (0x1C <= n <= 0x20)
    || n == 0x85 || n == 0xA0 || n == 0x1680
    || (0x2000 <= n <= 0x200A)
    || n == 0x2028 || n == 0x2029 || n == 0x202F || n == 0x205F || n == 0x3000
  }

  /** Neither the first nor the last character is whitespace. */
  predicate Trimmed(s: string) {
    |s| > 0 ==> !IsSpace(s[0]) && !IsSpace(s[|s| - 1])
  }

  /** The first position at or after `i` that does not hold whitespace (`|s|` if none). */
  function SkipSpace(s: string, i: nat): (j: nat)
    requires i <= |s|
    ensures i <= j <= |s|
    ensures forall k | i <= k < j :: IsSpace(s[k])
    ensures j < |s| ==> !IsSpace(s[j])
    decreases |s| - i
  {
    if i < |s| && IsSpace(s[i]) then SkipSpace(s, i + 1) else i
  }

  /** The end of `s[lo..j]` once its trailing whitespace is cut off. */
  function SkipSpaceBack(s: string, lo: nat, j: nat): (i: nat)
    requires lo <= j <= |s|
    ensures lo <= i <= j
    ensures forall k | i <= k < j :: IsSpace(s[k])
    ensures i > lo ==> !IsSpace(s[i - 1])
    decreases j
  {
    if j > lo && IsSpace(s[j - 1]) then SkipSpaceBack(s, lo, j - 1) else j
  }

  /**
   `s` without its leading and trailing whitespace: the result sits in `s`
   right after the maximal whitespace prefix, only whitespace follows it,
   and it neither starts nor ends with whitespace.
   */
  function Strip(s: string): (r: string)
    ensures SkipSpace(s, 0) + |r| <= |s|
    ensures r == s[SkipSpace(s, 0)..SkipSpace(s, 0) + |r|]
    ensures forall k | SkipSpace(s, 0) + |r| <= k < |s| :: IsSpace(s[k])
    ensures Trimmed(r)
  {
    var i := SkipSpace(s, 0);
    var j := SkipSpaceBack(s, i, |s|);
    s[i..j]
  }

  /** A string without whitespace at either end is its own strip. */
  lemma StripTrimmed(s: string)
    requires Trimmed(s)
    ensures Strip(s) == s
  {
  }

  /** Stripping twice is stripping once. */
  lemma StripIdempotent(s: string)
    ensures Strip(Strip(s)) == Strip(s)
  {
  }

  // ---------------------------------------------------------------------------
  // The origin list
  // ---------------------------------------------------------------------------

  /** Every piece stripped, in order. */
  function StripEach(pieces: seq<string>): (r: seq<string>)
    ensures |r| == |pieces|
    ensures forall i | 0 <= i < |r| :: r[i] == Strip(pieces[i])
  {
    if |pieces| == 0 then []
    else [Strip(pieces[0])] + StripEach(pieces[1..])
  }

  /** Pieces without whitespace at either end are left as they are. */
  lemma {:induction false} StripEachTrimmed(pieces: seq<string>)
    requires forall i | 0 <= i < |pieces| :: Trimmed(pieces[i])
    ensures StripEach(pieces) == pieces
  {
    if |pieces| > 0 {
      StripTrimmed(pieces[0]);
      StripEachTrimmed(pieces[1..]);
      assert [pieces[0]] + pieces[1..] == pieces;
    }
  }

  /** One origin per comma-separated piece of the setting, stripped. */
  function ParseOrigins(setting: string): (r: seq<string>)
    ensures |r| == Occurrences(setting, Separator) + 1
    ensures forall i | 0 <= i < |r| :: r[i] == Strip(Split(setting, Separator)[i])
  {
    StripEach(Split(setting, Separator))
  }

  /** Stripping keeps only characters of the input. */
  lemma StripKeepsChars(s: string, c: char)
    requires c in Strip(s)
    ensures c in s
  {
  }

  /** No origin contains a comma or starts or ends with whitespace. */
  lemma OriginsClean(setting: string, i: int)
    requires 0 <= i < |ParseOrigins(setting)|
    ensures Separator !in ParseOrigins(setting)[i]
    ensures Trimmed(ParseOrigins(setting)[i])
  {
  }

  /**
   The origins in effect: from the setting when it is present, even when it
   is empty, and from the default only when it is absent.
   */
  function CorsOrigins(env: Option<string>): (r: seq<string>)
    ensures env.Some? ==> |r| == Occurrences(env.value, Separator) + 1
    ensures env.Some? ==> forall i | 0 <= i < |r| :: r[i] == Strip(Split(env.value, Separator)[i])
    ensures env.None? ==> |r| == Occurrences(DefaultSetting, Separator) + 1
  {
    ParseOrigins(if env.Some? then env.value else DefaultSetting)
  }

  /** Comma-joining clean, comma-free origins and parsing the result gives them back. */
  lemma ParseJoin(pieces: seq<string>)
    requires |pieces| >= 1
    requires forall i | 0 <= i < |pieces| :: Separator !in pieces[i] && Trimmed(pieces[i])
    ensures ParseOrigins(Join(pieces, Separator)) == pieces
  {
    SplitJoin(pieces, Separator);
    StripEachTrimmed(pieces);
  }

  /** A setting that is present but empty is used as is: one empty origin. */
  lemma EmptySettingKept()
    ensures CorsOrigins(Some("")) == [""]
  {
  }

  /** Without the setting, exactly the two local development origins are allowed. */
  lemma DefaultOrigins()
    ensures CorsOrigins(None) == ["http://localhost:5173", "http://localhost:3000"]
  {
    var a: string := "http://localhost:5173";
    var b: string := "http://localhost:3000";
    assert Join([a, b], Separator) == DefaultSetting by {
      assert [a, b][1..] == [b];
    }
    ParseJoin([a, b]);
  }
}
