/**
  The pipeline: one pass over the news feed for one parameter tuple, and
  the run that makes two passes and then clears the audio folder of
  everything neither pass referenced.

  A pass retitles the feed and, for every entry in order, replaces the
  content with the selected article text, looks the artifact up in the
  audio folder and renders it on a miss, puts an enclosure link in front
  of the entry's children, and appends the playback length to the summary
  when the probe yields one.

  What the outside world answers for an entry — the top-level blocks of
  its HTML content, the size of the artifact on disk, the text `ogginfo`
  prints for it — is given to a pass as an `EntryIO` per entry. Fetching
  and serialising the feed are outside the model.
 */
module Pipeline {
  import opened Text
  import opened CachePath
  import opened Duration
  import opened Article
  import opened Store

  /** Where the audio folder is published. */
  const ME: string := "http://morsecasts.s3-website.us-east-2.amazonaws.com"

  /** The two passes of a run: 7 and 25 words per minute overall, both at
      25 words per minute per character, a 700 Hz tone, intro only. */
  const SlowPass: Params := Params(7, 25, 700.0, true)
  const FastPass: Params := Params(25, 25, 700.0, true)

  /** A `<link>` element; `length` is left out when the size lookup fails. */
  datatype Link = Link(rel: string, mediaType: string, title: string, href: string, length: Option<nat>)

  /** A feed entry: its id, its content and the content's `type`
      attribute, its summary (absent in some feeds), and the elements put
      in front of its original children, first one first. `id` is the id
      after Unicode NFKD normalisation, which is not part of this model;
      on ASCII ids the two agree. */
  datatype Entry = Entry(id: string, content: string, contentType: string, summary: Option<string>, inserted: seq<Link>)

  /** What the outside world answers for one entry: the top-level blocks
      of its HTML content, `os.path.getsize` of its artifact (None when it
      raises) and the standard output of `ogginfo` on the artifact. */
  datatype EntryIO = EntryIO(blocks: seq<Block>, size: Option<nat>, probe: string)

  class Feed {
    var title: string
    var entries: seq<Entry>

    constructor (title: string, entries: seq<Entry>)
      ensures this.title == title && this.entries == entries
    {
      this.title := title;
      this.entries := entries;
    }
  }

  /** What a pass appends to the feed title. */
  function TitleSuffix(p: Params): string {
    " - Morsecast " + (IntToString(p.totalWpm) + ("/" + (IntToString(p.charWpm) + "WPM")))
  }

  /** The enclosure pointing at an artifact. */
  function Enclosure(path: string, size: Option<nat>): Link {
    Link("enclosure", "audio/ogg", "Morse Code", ME + "/" + path, size)
  }

  /** The summary after a pass: the playback length in parentheses is
      appended when the probe gives one; a failed probe, or an entry
      without a summary, leaves it as it was. */
  function Annotated(summary: Option<string>, probe: string): Option<string> {
    match summary
    case None => None
    case Some(s) =>
      match OggLength(probe)
      case Ok(n) => Some(s + " (" + DurationText(n) + ")")
      case Err(_) => Some(s)
  }

  /** An entry once its article text and artifact path are known: the
      text becomes its content, the enclosure goes in front of its
      children, and the summary is annotated. */
  function Tagged(e: Entry, article: string, path: string, io: EntryIO): Entry {
    e.(content := article,
       contentType := "text",
       inserted := [Enclosure(path, io.size)] + e.inserted,
       summary := Annotated(e.summary, io.probe))
  }

  /** An entry after a pass with parameters `p`. */
  function Enriched(e: Entry, p: Params, io: EntryIO): Entry {
    Tagged(e, ArticleText(io.blocks, p.onlyIntro), MkPath(e.id, p), io)
  }

  /** The artifact paths of a pass, one per entry in entry order. */
  function Paths(entries: seq<Entry>, p: Params): (r: seq<string>)
    ensures |r| == |entries|
  {
    seq(|entries|, k requires 0 <= k < |entries| => MkPath(entries[k].id, p))
  }

  /** The article texts of a pass, one per entry. */
  function Articles(io: seq<EntryIO>, onlyIntro: bool): (r: seq<string>)
    ensures |r| == |io|
  {
    seq(|io|, k requires 0 <= k < |io| => ArticleText(io[k].blocks, onlyIntro))
  }

  /** The entries after a pass, in their original order. */
  function EnrichedAll(entries: seq<Entry>, p: Params, io: seq<EntryIO>): (r: seq<Entry>)
    requires |io| == |entries|
    ensures |r| == |entries|
  {
    seq(|entries|, k requires 0 <= k < |entries| => Enriched(entries[k], p, io[k]))
  }

  /** A derived path names a file directly inside the audio folder. */
  lemma MkPathIsArtifact(id: string, p: Params)
    ensures IsArtifactPath(MkPath(id, p))
  {
    MkPathFlat(id, p);
  }

  /** One pass (`update`): retitles the feed, enriches every entry, renders
      the artifacts that are missing, and returns the paths it used. */
  method Update(feed: Feed, store: AudioStore, p: Params, io: seq<EntryIO>) returns (used: seq<string>)
    requires |io| == |feed.entries| && store.Valid()
    modifies feed, store
    ensures store.Valid()
    ensures feed.title == old(feed.title) + TitleSuffix(p)
    ensures used == Paths(old(feed.entries), p)
    ensures feed.entries == EnrichedAll(old(feed.entries), p, io)
    ensures store.files == old(store.files) + Elements(used)
    ensures store.renders == old(store.renders) + RenderLog(used, Articles(io, p.onlyIntro), old(store.files), |used|)
  {
    ghost var entries0, files0, renders0 := feed.entries, store.files, store.renders;
    used := [];
    feed.title := feed.title + TitleSuffix(p);
    PassStart(feed, store, entries0, io, p);
    var i := 0;
    while i < |feed.entries|
      invariant 0 <= i <= |entries0|
      invariant feed.title == old(feed.title) + TitleSuffix(p)
      invariant PassSoFar(feed, store, used, i, entries0, io, p, files0, renders0)
    {
      used := Step(feed, store, used, i, entries0, io, p, files0, renders0);
      i := i + 1;
    }
    PassEnd(feed, store, used, entries0, io, p, files0, renders0);
  }

  /** Before the first entry, nothing of the pass has happened yet. */
  lemma PassStart(feed: Feed, store: AudioStore, entries0: seq<Entry>, io: seq<EntryIO>, p: Params)
    requires feed.entries == entries0 && |io| == |entries0| && store.Valid()
    ensures PassSoFar(feed, store, [], 0, entries0, io, p, store.files, store.renders)
  {
    assert EnrichedAll(entries0, p, io)[..0] + entries0[0..] == entries0;
  }

  /** After the last entry, the pass has enriched every entry, used every
      path in entry order, and rendered exactly the missing artifacts. */
  lemma PassEnd(feed: Feed, store: AudioStore, used: seq<string>, entries0: seq<Entry>, io: seq<EntryIO>, p: Params,
                files0: set<string>, renders0: seq<(string, string)>)
    requires PassSoFar(feed, store, used, |entries0|, entries0, io, p, files0, renders0)
    ensures used == Paths(entries0, p)
    ensures feed.entries == EnrichedAll(entries0, p, io)
    ensures store.Valid() && store.files == files0 + Elements(used)
    ensures store.renders == renders0 + RenderLog(used, Articles(io, p.onlyIntro), files0, |used|)
  {
    var n := |entries0|;
    assert Paths(entries0, p)[..n] == Paths(entries0, p);
    assert EnrichedAll(entries0, p, io)[..n] + entries0[n..] == EnrichedAll(entries0, p, io);
  }

  /** The state of a pass after its first `i` entries. */
  ghost predicate PassSoFar(feed: Feed, store: AudioStore, used: seq<string>, i: nat, entries0: seq<Entry>,
                            io: seq<EntryIO>, p: Params, files0: set<string>, renders0: seq<(string, string)>)
    reads feed, store
  {
    && i <= |entries0| == |io|
    && used == Paths(entries0, p)[..i]
    && feed.entries == EnrichedAll(entries0, p, io)[..i] + entries0[i..]
    && store.Valid()
    && store.files == files0 + Elements(Paths(entries0, p)[..i])
    && store.renders == renders0 + RenderLog(Paths(entries0, p), Articles(io, p.onlyIntro), files0, i)
  }

  /** One iteration of a pass: the `i`-th entry is processed. */
  method Step(feed: Feed, store: AudioStore, used: seq<string>, i: nat, ghost entries0: seq<Entry>,
              io: seq<EntryIO>, p: Params, ghost files0: set<string>, ghost renders0: seq<(string, string)>)
    returns (used': seq<string>)
    requires PassSoFar(feed, store, used, i, entries0, io, p, files0, renders0) && i < |entries0|
    modifies feed, store
    ensures PassSoFar(feed, store, used', i + 1, entries0, io, p, files0, renders0)
    ensures feed.title == old(feed.title)
  {
    ghost var paths, texts, want := Paths(entries0, p), Articles(io, p.onlyIntro), EnrichedAll(entries0, p, io);
    SpliceAt(feed.entries, want, entries0, i);
    ghost var before, files := store.renders, store.files;
    var enriched, path, article := Process(store, feed.entries[i], p, io[i], entries0, io, i);
    RenderLogExtends(before, store.renders, renders0, paths, texts, i, files, files0);
    ElementsStep(paths, i);
    PrefixSnoc(used, paths, i, path);
    SpliceStep(feed.entries, want, entries0, i, enriched);
    used' := used + [path];
    feed.entries := feed.entries[i := enriched];
  }

  /** One entry of a pass, the `i`-th of `entries`: its article is
      selected, its artifact looked up and rendered on a miss, and its
      metadata rewritten. */
  method Process(store: AudioStore, entry: Entry, p: Params, io: EntryIO,
                 ghost entries: seq<Entry>, ghost allIO: seq<EntryIO>, ghost i: nat)
    returns (enriched: Entry, path: string, article: string)
    requires store.Valid()
    requires i < |entries| == |allIO| && entry == entries[i] && io == allIO[i]
    modifies store
    ensures path == Paths(entries, p)[i] && article == Articles(allIO, p.onlyIntro)[i]
    ensures enriched == EnrichedAll(entries, p, allIO)[i]
    ensures store.Valid() && store.files == old(store.files) + {path}
    ensures store.renders == old(store.renders) + (if path in old(store.files) then [] else [(path, article)])
  {
    var paras := SelectParagraphs(io.blocks, p.onlyIntro);
    article := Join(paras, "\n");
    path := MkPath(entry.id, p);
    MkPathIsArtifact(entry.id, p);
    store.Ensure(path, article);
    enriched := Enrich(entry, article, path, io);
  }

  /** The entry's metadata once its artifact exists: the article as text
      content, the enclosure in front, and the playback length after the
      summary when the probe gives one. */
  method Enrich(entry: Entry, article: string, path: string, io: EntryIO) returns (r: Entry)
    ensures r == Tagged(entry, article, path, io)
  {
    var tag := Enclosure(path, io.size);
    var summary := entry.summary;
    if summary.Some? {
      var length := OggLength(io.probe);
      if length.Ok? {
        summary := Some(summary.value + " (" + DurationText(length.value) + ")");
      }
    }
    r := entry.(content := article, contentType := "text", inserted := [tag] + entry.inserted, summary := summary);
  }

  /** Growing a prefix of `all` by its next element. */
  lemma PrefixSnoc<T>(done: seq<T>, all: seq<T>, i: nat, x: T)
    requires i < |all| && done == all[..i] && x == all[i]
    ensures done + [x] == all[..i + 1]
  {
  }

  /** In a sequence whose first `i` elements are replaced, the element at
      `i` is still the original one. */
  lemma SpliceAt<T>(cur: seq<T>, want: seq<T>, orig: seq<T>, i: nat)
    requires |want| == |orig| && i < |orig| && cur == want[..i] + orig[i..]
    ensures |cur| == |orig| && cur[i] == orig[i]
  {
  }

  /** Replacing element `i` extends the replaced prefix by one. */
  lemma SpliceStep<T>(cur: seq<T>, want: seq<T>, orig: seq<T>, i: nat, x: T)
    requires |want| == |orig| && i < |orig| && cur == want[..i] + orig[i..] && x == want[i]
    ensures cur[i := x] == want[..i + 1] + orig[i + 1..]
  {
  }

  /** A run (`__main__`): the two passes, then the removal of every file
      in the audio folder that neither pass referenced. */
  method Publish(store: AudioStore, slow: Feed, fast: Feed, slowIO: seq<EntryIO>, fastIO: seq<EntryIO>)
    returns (files: seq<string>)
    requires store.Valid() && slow != fast
    requires |slowIO| == |slow.entries| && |fastIO| == |fast.entries|
    modifies store, slow, fast
    ensures slow.title == old(slow.title) + TitleSuffix(SlowPass)
    ensures fast.title == old(fast.title) + TitleSuffix(FastPass)
    ensures files == Paths(old(slow.entries), SlowPass) + Paths(old(fast.entries), FastPass)
    ensures store.Valid() && store.files == Elements(files)
    ensures slow.entries == EnrichedAll(old(slow.entries), SlowPass, slowIO)
    ensures fast.entries == EnrichedAll(old(fast.entries), FastPass, fastIO)
    ensures store.renders == old(store.renders)
      + RenderLog(Paths(old(slow.entries), SlowPass), Articles(slowIO, true), old(store.files), |slowIO|)
      + RenderLog(Paths(old(fast.entries), FastPass), Articles(fastIO, true), old(store.files) + Elements(Paths(old(slow.entries), SlowPass)), |fastIO|)
  {
    files := Update(slow, store, SlowPass, slowIO);
    var more := Update(fast, store, FastPass, fastIO);
    files := files + more;
    store.Reconcile(files);
  }

  // ---------------------------------------------------------------------
  // Properties

  /** The enclosure of an enriched entry comes first, and its `href` is
      the published audio folder followed by the artifact path of this
      entry and pass, a path that decodes to the entry's slug and the
      pass's parameters. Its `length` is the size lookup's answer, absent
      when that failed. */
  lemma EnclosureNamesArtifact(e: Entry, p: Params, io: EntryIO)
    ensures var r := Enriched(e, p, io);
      && |r.inserted| == |e.inserted| + 1 && r.inserted[1..] == e.inserted
      && var l := r.inserted[0];
      && l.rel == "enclosure" && l.mediaType == "audio/ogg" && l.length == io.size
      && l.href == ME + "/" + MkPath(e.id, p)
      && |l.href| > |ME| + 1 && l.href[..|ME| + 1] == ME + "/"
      && ParsePath(l.href[|ME| + 1..]) == Some((Slug(e.id), KeyOf(p)))
  {
    var path := MkPath(e.id, p);
    var href := ME + "/" + path;
    assert href[|ME| + 1..] == path;
    MkPathRoundTrip(e.id, p);
  }

  /** The summary gains the playback length exactly when the probe gives
      one, and the text appended reads back as that many seconds. */
  lemma AnnotatedReadsBack(s: string, probe: string)
    ensures OggLength(probe).Err? ==> Annotated(Some(s), probe) == Some(s)
    ensures OggLength(probe).Ok? ==>
      exists t :: Annotated(Some(s), probe) == Some(s + " (" + t + ")")
        && ParseDurationText(t) == Some(OggLength(probe).value)
  {
    if OggLength(probe).Ok? {
      var n := OggLength(probe).value;
      DurationTextRoundTrip(n);
      assert Annotated(Some(s), probe) == Some(s + " (" + DurationText(n) + ")");
    }
  }

  /** The title suffix names both speeds: passes with different speeds
      give differently titled feeds. */
  lemma TitleSuffixInjective(p: Params, q: Params)
    requires TitleSuffix(p) == TitleSuffix(q)
    ensures p.totalWpm == q.totalWpm && p.charWpm == q.charWpm
  {
    var a, b := IntToString(p.totalWpm), IntToString(p.charWpm);
    var c, d := IntToString(q.totalWpm), IntToString(q.charWpm);
    IntToStringChars(p.totalWpm);
    IntToStringChars(q.totalWpm);
    PrefixCancel(" - Morsecast ", a + ("/" + (b + "WPM")), c + ("/" + (d + "WPM")));
    SeparatedInjective(a, b + "WPM", c, d + "WPM", '/');
    SuffixCancel(b, d, "WPM");
    IntToStringInjective(p.totalWpm, q.totalWpm);
    IntToStringInjective(p.charWpm, q.charWpm);
  }

  /** The two passes of a run never share an artifact. */
  lemma PassesDisjoint(id1: string, id2: string)
    ensures MkPath(id1, SlowPass) != MkPath(id2, FastPass)
  {
    MkPathRoundTrip(id1, SlowPass);
    MkPathRoundTrip(id2, FastPass);
  }

  /** After a run every enclosure of either feed points at a file that is
      in the audio folder: the folder holds every path the passes used. */
  lemma PublishedLinksResolve(entries: seq<Entry>, p: Params, io: seq<EntryIO>, files: set<string>, k: nat)
    requires |io| == |entries| && k < |entries|
    requires Elements(Paths(entries, p)) <= files
    ensures var l := EnrichedAll(entries, p, io)[k].inserted[0];
      |l.href| > |ME| + 1 && l.href[..|ME| + 1] == ME + "/" && l.href[|ME| + 1..] in files
  {
    var path := Paths(entries, p)[k];
    assert path in Elements(Paths(entries, p));
    assert (ME + "/" + path)[|ME| + 1..] == path;
  }
}
