/**
  The cache-key deriver (`mkpath`): an article id and a rendering-parameter
  tuple become the relative path of the audio artifact,
  `audio/<slug>_<total>W<char>C<int(freq)>F[T].ogg`.

  The id is taken after Unicode NFKD normalisation; from there on the slug
  is computed exactly: drop non-ASCII characters, drop characters that are
  not word characters, whitespace or `-`, strip, lowercase, and collapse
  every run of `-` and whitespace into one `-`.
 */
module CachePath {
  import opened Text

  /** The rendering parameters of one pass: overall words per minute,
      character words per minute, tone frequency, and "only the intro". */
  datatype Params = Params(totalWpm: int, charWpm: int, freq: real, onlyIntro: bool)

  /** What of the parameters reaches the path: `freq` only through `int()`. */
  datatype ParamKey = ParamKey(totalWpm: int, charWpm: int, freq: int, trunc: bool)

  const AudioFolder: string := "audio"

  /** Python's `int(x)` on a float: truncation toward zero. */
  function TruncateToInt(x: real): (n: int)
    ensures n as real <= x < n as real + 1.0 || n as real - 1.0 < x <= n as real
    ensures x >= 0.0 ==> 0 <= n && n as real <= x
    ensures x < 0.0 ==> n <= 0 && x <= n as real
  {
    if x >= 0.0 then x.Floor else -((-x).Floor)
  }

  function KeyOf(p: Params): ParamKey {
    ParamKey(p.totalWpm, p.charWpm, TruncateToInt(p.freq), p.onlyIntro)
  }

  // ---------------------------------------------------------------------
  // The slug

  predicate IsAscii(c: char) {
    c < '\U{80}'
  }

  /** `\w` on an ASCII character. */
  predicate IsWordChar(c: char) {
    ('a' <= c <= 'z') || ('A' <= c <= 'Z') || IsDigit(c) || c == '_'
  }

  /** The characters `[-\s]+` matches. */
  predicate IsSeparator(c: char) {
    c == '-' || IsSpace(c)
  }

  /** The characters a slug is made of. */
  predicate IsSlugChar(c: char) {
    ('a' <= c <= 'z') || IsDigit(c) || c == '_' || c == '-'
  }

  /** Lowercase ASCII letters, digits, `_` and `-`, with no `--`. */
  predicate IsSlug(s: string) {
    && (forall k :: 0 <= k < |s| ==> IsSlugChar(s[k]))
    && (forall k :: 0 <= k < |s| - 1 ==> !(s[k] == '-' && s[k + 1] == '-'))
  }

  /** `.encode('ascii', 'ignore').decode('ascii')`: drops every non-ASCII
      character and keeps the others in order. */
  function AsciiOnly(s: string): (r: string)
    ensures forall k :: 0 <= k < |r| ==> IsAscii(r[k])
    ensures (forall k :: 0 <= k < |s| ==> IsAscii(s[k])) ==> r == s
  {
    if s == [] then []
    else if IsAscii(s[0]) then [s[0]] + AsciiOnly(s[1..])
    else AsciiOnly(s[1..])
  }

  /** `re.sub(r'[^\w\s-]', '', s)` on an ASCII string: keeps exactly the
      word characters, whitespace and `-`, in order. */
  function KeepSlugChars(s: string): (r: string)
    ensures forall k :: 0 <= k < |r| ==> IsWordChar(r[k]) || IsSeparator(r[k])
    ensures (forall k :: 0 <= k < |s| ==> IsWordChar(s[k]) || IsSeparator(s[k])) ==> r == s
  {
    if s == [] then []
    else if IsWordChar(s[0]) || IsSeparator(s[0]) then [s[0]] + KeepSlugChars(s[1..])
    else KeepSlugChars(s[1..])
  }

  /** Dropping non-ASCII characters works character by character: it
      distributes over concatenation (so order is kept) and keeps a single
      character exactly when it is ASCII. */
  lemma {:induction false} AsciiOnlyConcat(a: string, b: string)
    ensures AsciiOnly(a + b) == AsciiOnly(a) + AsciiOnly(b)
  {
    if a == [] {
      assert a + b == b;
    } else {
      assert (a + b)[0] == a[0] && (a + b)[1..] == a[1..] + b;
      AsciiOnlyConcat(a[1..], b);
    }
  }

  lemma AsciiOnlyChar(c: char)
    ensures AsciiOnly([c]) == if IsAscii(c) then [c] else []
  {
    assert [c][1..] == [];
  }

  /** Removing the characters outside `[\w\s-]` works character by
      character, in the same sense. */
  lemma {:induction false} KeepSlugCharsConcat(a: string, b: string)
    ensures KeepSlugChars(a + b) == KeepSlugChars(a) + KeepSlugChars(b)
  {
    if a == [] {
      assert a + b == b;
    } else {
      assert (a + b)[0] == a[0] && (a + b)[1..] == a[1..] + b;
      KeepSlugCharsConcat(a[1..], b);
    }
  }

  lemma KeepSlugCharsChar(c: char)
    ensures KeepSlugChars([c]) == if IsWordChar(c) || IsSeparator(c) then [c] else []
  {
    assert [c][1..] == [];
  }

  function LowerChar(c: char): char {
    if 'A' <= c <= 'Z' then c - 'A' + 'a' else c
  }

  /** `s.lower()` on an ASCII string. */
  function Lower(s: string): (r: string)
    ensures |r| == |s|
  {
    seq(|s|, i requires 0 <= i < |s| => LowerChar(s[i]))
  }

  /** Drops the run of separators at the front of `s`. */
  function SkipSeparators(s: string): (r: string)
    ensures |r| <= |s| && r == s[|s| - |r|..]
    ensures r != [] ==> !IsSeparator(r[0])
    ensures s != [] && IsSeparator(s[0]) ==> |r| < |s|
  {
    if s != [] && IsSeparator(s[0]) then SkipSeparators(s[1..]) else s
  }

  /** `re.sub(r'[-\s]+', '-', s)`: every maximal run of `-` and whitespace
      becomes a single `-`. */
  function CollapseSeparators(s: string): (r: string)
    ensures r == [] <==> s == []
    ensures r != [] ==> (r[0] == '-' <==> IsSeparator(s[0]))
    ensures forall k :: 0 <= k < |r| - 1 ==> !(r[k] == '-' && r[k + 1] == '-')
    decreases |s|
  {
    if s == [] then []
    else if IsSeparator(s[0]) then "-" + CollapseSeparators(SkipSeparators(s))
    else [s[0]] + CollapseSeparators(s[1..])
  }

  predicate NoSeparator(w: string) {
    forall k :: 0 <= k < |w| ==> !IsSeparator(w[k])
  }

  predicate AllSeparators(run: string) {
    forall k :: 0 <= k < |run| ==> IsSeparator(run[k])
  }

  /** A run of separators is skipped as a whole. */
  lemma {:induction false} SkipRun(run: string, t: string)
    requires AllSeparators(run) && (t == [] || !IsSeparator(t[0]))
    ensures SkipSeparators(run + t) == t
  {
    if run == [] {
      assert run + t == t;
    } else {
      assert (run + t)[0] == run[0] && (run + t)[1..] == run[1..] + t;
      SkipRun(run[1..], t);
    }
  }

  /** Characters other than separators pass through collapsing unchanged. */
  lemma {:induction false} CollapsePlain(w: string, t: string)
    requires NoSeparator(w)
    ensures CollapseSeparators(w + t) == w + CollapseSeparators(t)
  {
    if w == [] {
      assert w + t == t;
    } else {
      assert (w + t)[0] == w[0] && (w + t)[1..] == w[1..] + t;
      CollapsePlain(w[1..], t);
    }
  }

  /** A maximal run of separators, whatever its length and mix of `-` and
      whitespace, becomes exactly one `-`. */
  lemma CollapseLeadingRun(run: string, t: string)
    requires run != [] && AllSeparators(run) && (t == [] || !IsSeparator(t[0]))
    ensures CollapseSeparators(run + t) == "-" + CollapseSeparators(t)
  {
    assert (run + t)[0] == run[0];
    SkipRun(run, t);
  }

  /** Collapsing a word, a separator run and the rest: the word is kept,
      the run becomes one `-`, and the rest is collapsed on its own. */
  lemma CollapseRun(w: string, run: string, t: string)
    requires NoSeparator(w) && run != [] && AllSeparators(run) && (t == [] || !IsSeparator(t[0]))
    ensures CollapseSeparators(w + (run + t)) == w + ("-" + CollapseSeparators(t))
  {
    CollapsePlain(w, run + t);
    CollapseLeadingRun(run, t);
  }

  /** Collapsing keeps the other characters: when the input holds only slug
      characters and separators, the output holds only slug characters. */
  lemma {:induction false} CollapseAlphabet(s: string)
    requires forall k :: 0 <= k < |s| ==> IsSlugChar(s[k]) || IsSeparator(s[k])
    ensures forall k :: 0 <= k < |CollapseSeparators(s)| ==> IsSlugChar(CollapseSeparators(s)[k])
    decreases |s|
  {
    if s != [] {
      if IsSeparator(s[0]) {
        var t := SkipSeparators(s);
        assert forall k :: 0 <= k < |t| ==> t[k] == s[|s| - |t| + k];
        CollapseAlphabet(t);
      } else {
        CollapseAlphabet(s[1..]);
      }
    }
  }

  /** The slug of an (NFKD-normalised) article id. */
  function Slug(id: string): (r: string)
    ensures IsSlug(r)
  {
    var kept := KeepSlugChars(AsciiOnly(id));
    var lowered := Lower(Strip(kept));
    LoweredChars(kept);
    CollapseAlphabet(lowered);
    CollapseSeparators(lowered)
  }

  /** After stripping and lowercasing, only slug characters and separators
      are left. */
  lemma LoweredChars(kept: string)
    requires forall k :: 0 <= k < |kept| ==> IsWordChar(kept[k]) || IsSeparator(kept[k])
    ensures var lowered := Lower(Strip(kept));
      forall k :: 0 <= k < |lowered| ==> IsSlugChar(lowered[k]) || IsSeparator(lowered[k])
  {
    var stripped := Strip(kept);
    var i := |kept| - |TrimStart(kept)|;
    StripSlice(kept);
    forall k | 0 <= k < |stripped|
      ensures IsSlugChar(LowerChar(stripped[k])) || IsSeparator(LowerChar(stripped[k]))
    {
      assert stripped[k] == kept[i + k];
      LowerCharClass(kept[i + k]);
    }
  }

  lemma LowerCharClass(c: char)
    requires IsWordChar(c) || IsSeparator(c)
    ensures IsSlugChar(LowerChar(c)) || IsSeparator(LowerChar(c))
  {
    if !IsSeparator(c) {
      assert IsWordChar(c);
    }
  }

  /** A slug goes through every step of the slug pipeline unchanged. */
  lemma SlugOfSlug(s: string)
    requires IsSlug(s)
    ensures Slug(s) == s
  {
    SlugCharsSurvive(s);
    StripNoSpace(s);
    LowerOfSlug(s);
    CollapseNoRuns(s);
  }

  lemma SlugCharsSurvive(s: string)
    requires IsSlug(s)
    ensures NoSpace(s)
    ensures KeepSlugChars(AsciiOnly(s)) == s
  {
    assert forall k :: 0 <= k < |s| ==> IsAscii(s[k]);
    assert AsciiOnly(s) == s;
    assert forall k :: 0 <= k < |s| ==> IsWordChar(s[k]) || IsSeparator(s[k]);
  }

  lemma LowerOfSlug(s: string)
    requires IsSlug(s)
    ensures Lower(s) == s
  {
    assert forall k :: 0 <= k < |s| ==> LowerChar(s[k]) == s[k];
  }

  /** A string without whitespace and without `--` has nothing to collapse. */
  lemma {:induction false} CollapseNoRuns(s: string)
    requires NoSpace(s)
    requires forall k :: 0 <= k < |s| - 1 ==> !(s[k] == '-' && s[k + 1] == '-')
    ensures CollapseSeparators(s) == s
    decreases |s|
  {
    if s != [] {
      if IsSeparator(s[0]) {
        assert s[0] == '-';
        assert SkipSeparators(s) == s[1..] by {
          assert s[1..] == [] || !IsSeparator(s[1..][0]);
        }
      }
      CollapseNoRuns(s[1..]);
    }
  }

  /** Re-applying the slug pipeline to a slug changes nothing. */
  lemma SlugIdempotent(id: string)
    ensures Slug(Slug(id)) == Slug(id)
  {
    SlugOfSlug(Slug(id));
  }

  // ---------------------------------------------------------------------
  // The path

  /** `'T' if trunc else ''`. */
  function Flag(trunc: bool): string {
    if trunc then "T" else ""
  }

  /** The fixed-format parameter part of the file name,
      `{total}W{char}C{int(freq)}F{flag}`. */
  function Suffix(k: ParamKey): string {
    IntToString(k.totalWpm) + ("W" + (IntToString(k.charWpm) + ("C" + (IntToString(k.freq) + ("F" + Flag(k.trunc))))))
  }

  /** `os.path.join('audio', '{slug}_{suffix}.ogg')`. */
  function ArtifactPath(slug: string, k: ParamKey): string {
    AudioFolder + "/" + (slug + ("_" + Suffix(k)) + ".ogg")
  }

  /** `mkpath(article_id, total_wpm, char_wpm, freq, trunc)`: the artifact
      lies in the audio folder. */
  function MkPath(id: string, p: Params): (r: string)
    ensures |r| > 6 && r[..6] == AudioFolder + "/"
  {
    ArtifactPath(Slug(id), KeyOf(p))
  }

  lemma IntToStringChars(i: int)
    ensures '/' !in IntToString(i) && '_' !in IntToString(i)
    ensures 'W' !in IntToString(i) && 'C' !in IntToString(i) && 'F' !in IntToString(i)
  {
    var r := IntToString(i);
    assert forall k :: 0 <= k < |r| ==> r[k] != '/' && r[k] != '_' && r[k] != 'W' && r[k] != 'C' && r[k] != 'F';
  }

  /** The parameter suffix holds neither `/` nor `_`. */
  lemma SuffixChars(k: ParamKey)
    ensures '/' !in Suffix(k) && '_' !in Suffix(k)
  {
    IntToStringChars(k.totalWpm);
    IntToStringChars(k.charWpm);
    IntToStringChars(k.freq);
  }

  /** The artifact lies directly in the audio folder: no `/` follows the
      folder's own. */
  lemma MkPathFlat(id: string, p: Params)
    ensures '/' !in MkPath(id, p)[6..]
  {
    var slug := Slug(id);
    assert '/' !in slug by {
      assert forall k :: 0 <= k < |slug| ==> IsSlugChar(slug[k]);
    }
    ArtifactPathFlat(slug, KeyOf(p));
  }

  lemma ArtifactPathFlat(slug: string, k: ParamKey)
    requires '/' !in slug
    ensures '/' !in ArtifactPath(slug, k)[6..]
  {
    SuffixChars(k);
    assert ArtifactPath(slug, k)[6..] == slug + ("_" + Suffix(k)) + ".ogg";
  }

  /** Reads a path back into its slug and parameters; the inverse of
      `MkPath` (the slug may itself contain `_`, so the name is split at
      its last `_`). */
  function ParsePath(path: string): Option<(string, ParamKey)> {
    if !(|path| >= 10 && path[..6] == AudioFolder + "/" && path[|path| - 4..] == ".ogg") then None
    else
      match SplitLast(path[6..|path| - 4], '_')
      case None => None
      case Some((slug, suffix)) =>
        match ParseSuffix(suffix)
        case None => None
        case Some(k) => Some((slug, k))
  }

  function ParseSuffix(s: string): Option<ParamKey> {
    match SplitFirst(s, 'W')
    case None => None
    case Some((total, r1)) =>
      match SplitFirst(r1, 'C')
      case None => None
      case Some((chars, r2)) =>
        match SplitFirst(r2, 'F')
        case None => None
        case Some((freq, flag)) =>
          if flag != "" && flag != "T" then None
          else
            match (ParseInt(total), ParseInt(chars), ParseInt(freq))
            case (Some(t), Some(c), Some(f)) => Some(ParamKey(t, c, f, flag == "T"))
            case _ => None
  }

  lemma ParseSuffixRoundTrip(k: ParamKey)
    ensures ParseSuffix(Suffix(k)) == Some(k)
  {
    var t, c, f := IntToString(k.totalWpm), IntToString(k.charWpm), IntToString(k.freq);
    IntToStringChars(k.totalWpm);
    IntToStringChars(k.charWpm);
    IntToStringChars(k.freq);
    var r2 := f + ("F" + Flag(k.trunc));
    var r1 := c + ("C" + r2);
    SplitFirstConcat(t, 'W', r1);
    SplitFirstConcat(c, 'C', r2);
    SplitFirstConcat(f, 'F', Flag(k.trunc));
    IntToStringRoundTrip(k.totalWpm);
    IntToStringRoundTrip(k.charWpm);
    IntToStringRoundTrip(k.freq);
    ParseSuffixOf(Suffix(k), t, r1, c, r2, f, k);
  }

  /** The suffix decoder, once the three splits and numbers are known. */
  lemma ParseSuffixOf(s: string, t: string, r1: string, c: string, r2: string, f: string, k: ParamKey)
    requires SplitFirst(s, 'W') == Some((t, r1)) && SplitFirst(r1, 'C') == Some((c, r2))
    requires SplitFirst(r2, 'F') == Some((f, Flag(k.trunc)))
    requires ParseInt(t) == Some(k.totalWpm) && ParseInt(c) == Some(k.charWpm) && ParseInt(f) == Some(k.freq)
    ensures ParseSuffix(s) == Some(k)
  {
  }

  /** Decoding an artifact path gives back the slug and the parameter key. */
  lemma ArtifactPathRoundTrip(slug: string, k: ParamKey)
    ensures ParsePath(ArtifactPath(slug, k)) == Some((slug, k))
  {
    var path := ArtifactPath(slug, k);
    ArtifactPathParts(slug, k);
    SuffixChars(k);
    var stem := path[6..|path| - 4];
    assert stem == slug + (['_'] + Suffix(k));
    SplitLastConcat(slug, '_', Suffix(k));
    assert SplitLast(stem, '_') == Some((slug, Suffix(k)));
    ParseSuffixRoundTrip(k);
  }

  lemma ArtifactPathParts(slug: string, k: ParamKey)
    ensures var path := ArtifactPath(slug, k);
      && |path| >= 10 && path[..6] == AudioFolder + "/" && path[|path| - 4..] == ".ogg"
      && path[6..|path| - 4] == slug + ("_" + Suffix(k))
  {
    var stem := slug + ("_" + Suffix(k));
    var path := ArtifactPath(slug, k);
    assert path == (AudioFolder + "/") + (stem + ".ogg");
    assert path[6..] == stem + ".ogg";
    assert path[6..][..|stem|] == stem;
  }

  /** Decoding a derived path gives back the slug and the parameter key. */
  lemma MkPathRoundTrip(id: string, p: Params)
    ensures ParsePath(MkPath(id, p)) == Some((Slug(id), KeyOf(p)))
  {
    ArtifactPathRoundTrip(Slug(id), KeyOf(p));
  }

  /** Two derivations give the same path only when the slugs and the
      parameter keys agree; in particular, for one article distinct
      `(total, char, int(freq), trunc)` tuples never share an artifact. */
  lemma MkPathInjective(id1: string, p1: Params, id2: string, p2: Params)
    requires MkPath(id1, p1) == MkPath(id2, p2)
    ensures Slug(id1) == Slug(id2) && KeyOf(p1) == KeyOf(p2)
  {
    MkPathRoundTrip(id1, p1);
    MkPathRoundTrip(id2, p2);
  }

  /** The path ends in `FT.ogg` exactly when the truncation flag is set. */
  lemma MkPathTruncFlag(id: string, p: Params)
    ensures EndsWith(MkPath(id, p), "FT.ogg") <==> p.onlyIntro
  {
    ArtifactPathFlag(Slug(id), KeyOf(p));
  }

  lemma ArtifactPathFlag(slug: string, k: ParamKey)
    ensures EndsWith(ArtifactPath(slug, k), "FT.ogg") <==> k.trunc
  {
    var path := ArtifactPath(slug, k);
    ArtifactPathTail(slug, k);
    if k.trunc {
      assert "F" + Flag(k.trunc) + ".ogg" == "FT.ogg";
    } else {
      assert path[|path| - 5..] == "F.ogg";
      assert path[|path| - 5] == 'F';
    }
  }

  lemma ArtifactPathTail(slug: string, k: ParamKey)
    ensures EndsWith(ArtifactPath(slug, k), "F" + Flag(k.trunc) + ".ogg")
  {
    var tail := "F" + Flag(k.trunc);
    var stem := slug + ("_" + Suffix(k));
    SuffixEndsWithFlag(k);
    EndsWithPrepend("_", Suffix(k), tail);
    EndsWithPrepend(slug, "_" + Suffix(k), tail);
    EndsWithAppend(stem, tail, ".ogg");
    EndsWithPrepend(AudioFolder + "/", stem + ".ogg", tail + ".ogg");
  }

  lemma SuffixEndsWithFlag(k: ParamKey)
    ensures EndsWith(Suffix(k), "F" + Flag(k.trunc))
  {
    var tail := "F" + Flag(k.trunc);
    var r2 := IntToString(k.freq) + tail;
    var r1 := IntToString(k.charWpm) + ("C" + r2);
    assert EndsWith(tail, tail);
    EndsWithPrepend(IntToString(k.freq), tail, tail);
    EndsWithPrepend("C", r2, tail);
    EndsWithPrepend(IntToString(k.charWpm), "C" + r2, tail);
    EndsWithPrepend("W", r1, tail);
    EndsWithPrepend(IntToString(k.totalWpm), "W" + r1, tail);
  }
}
