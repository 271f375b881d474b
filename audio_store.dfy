/**
  The audio folder: the artifacts the pipeline renders, cached across
  runs. A render is done only when no file exists at the artifact's path;
  at the end of a run every file the run's feeds do not reference is
  removed.

  The folder is flat: it holds files named directly inside it, and a file
  is identified by its path `audio/<name>`. The bytes of a file (the morse
  code audio the renderer streams into the encoder) are outside the model;
  each render is recorded with the path and the article text it was made
  from.
 */
module Store {
  import opened CachePath

  /** `os.path.join('audio', name)`. */
  function InFolder(name: string): (p: string)
    ensures |p| == |name| + 6 && p[..6] == AudioFolder + "/" && p[6..] == name
  {
    AudioFolder + "/" + name
  }

  /** A path naming a file directly inside the audio folder. */
  predicate IsArtifactPath(p: string) {
    |p| > 6 && p[..6] == AudioFolder + "/" && '/' !in p[6..]
  }

  /** The name `os.listdir` reports for the file at `p`. */
  function FileName(p: string): (name: string)
    requires IsArtifactPath(p)
    ensures InFolder(name) == p && '/' !in name
  {
    assert p == p[..6] + p[6..];
    p[6..]
  }

  /** A path is determined by the name the folder lists for it. */
  lemma FileNameInjective(p: string, q: string)
    requires IsArtifactPath(p) && IsArtifactPath(q) && FileName(p) == FileName(q)
    ensures p == q
  {
  }

  /** The members of a list of paths. */
  function Elements(s: seq<string>): (r: set<string>)
    ensures forall x :: x in r <==> x in s
  {
    set x | x in s
  }

  /** What the removal loop leaves: the files whose paths are referenced. */
  function Reconciled(files: set<string>, referenced: seq<string>): (r: set<string>)
    ensures r <= files
  {
    set p | p in files && p in referenced
  }

  /** No referenced file is removed and every unreferenced one is. */
  lemma ReconciledExact(files: set<string>, referenced: seq<string>, p: string)
    ensures p in Reconciled(files, referenced) <==> p in files && p in referenced
  {
  }

  /** Reconciling twice against the same list removes nothing more. */
  lemma ReconciledIdempotent(files: set<string>, referenced: seq<string>)
    ensures Reconciled(Reconciled(files, referenced), referenced) == Reconciled(files, referenced)
  {
  }

  /** When every referenced file exists, the folder ends up holding exactly
      the referenced files. */
  lemma ReconciledAfterRenders(files: set<string>, referenced: seq<string>)
    requires Elements(referenced) <= files
    ensures Reconciled(files, referenced) == Elements(referenced)
  {
  }

  /** The renders the first `n` of a sequence of cache lookups cause: a
      path is rendered when neither the folder nor an earlier lookup of the
      same run already produced it. */
  function RenderLog(paths: seq<string>, texts: seq<string>, present: set<string>, n: nat): seq<(string, string)>
    requires n <= |paths| == |texts|
  {
    if n == 0 then []
    else
      RenderLog(paths, texts, present, n - 1)
        + (if paths[n - 1] in present || paths[n - 1] in paths[..n - 1] then [] else [(paths[n - 1], texts[n - 1])])
  }

  /** The paths of a render log. */
  function Rendered(log: seq<(string, string)>): set<string> {
    set k | 0 <= k < |log| :: log[k].0
  }

  /** Rendering adds exactly the paths that were missing: each one missing
      from the folder, each one once. */
  lemma {:induction false} RenderLogMisses(paths: seq<string>, texts: seq<string>, present: set<string>, n: nat)
    requires n <= |paths| == |texts|
    ensures var log := RenderLog(paths, texts, present, n);
      && Rendered(log) == Elements(paths[..n]) - present
      && (forall j, k :: 0 <= j < k < |log| ==> log[j].0 != log[k].0)
  {
    if n > 0 {
      RenderLogMisses(paths, texts, present, n - 1);
      var log0 := RenderLog(paths, texts, present, n - 1);
      var log := RenderLog(paths, texts, present, n);
      ElementsStep(paths, n - 1);
      if paths[n - 1] in present || paths[n - 1] in paths[..n - 1] {
        assert log == log0;
      } else {
        assert log == log0 + [(paths[n - 1], texts[n - 1])];
        assert forall k :: 0 <= k < |log0| ==> log[k] == log0[k];
        assert Rendered(log) == Rendered(log0) + {paths[n - 1]} by {
          assert log[|log0|].0 == paths[n - 1];
        }
      }
    }
  }

  /** One more lookup extends the log of a run by the render it causes:
      one exactly when the path is neither in the folder nor among the
      earlier lookups. */
  lemma RenderLogExtends(before: seq<(string, string)>, after: seq<(string, string)>, initial: seq<(string, string)>,
                         paths: seq<string>, texts: seq<string>, i: nat, files: set<string>, present: set<string>)
    requires i < |paths| == |texts|
    requires before == initial + RenderLog(paths, texts, present, i)
    requires files == present + Elements(paths[..i])
    requires after == before + (if paths[i] in files then [] else [(paths[i], texts[i])])
    ensures after == initial + RenderLog(paths, texts, present, i + 1)
  {
  }

  /** The members of one more element of a list. */
  lemma ElementsStep(s: seq<string>, i: nat)
    requires i < |s|
    ensures Elements(s[..i + 1]) == Elements(s[..i]) + {s[i]}
  {
    assert s[..i + 1] == s[..i] + [s[i]];
  }

  /** Looking up paths that are all already there renders nothing. */
  lemma {:induction false} RenderLogHit(paths: seq<string>, texts: seq<string>, present: set<string>, n: nat)
    requires n <= |paths| == |texts| && Elements(paths) <= present
    ensures RenderLog(paths, texts, present, n) == []
  {
    if n > 0 {
      RenderLogHit(paths, texts, present, n - 1);
      assert paths[n - 1] in Elements(paths);
    }
  }

  class AudioStore {
    /** The paths of the files in the audio folder. */
    var files: set<string>
    /** Every render so far: the path written and the article text. */
    ghost var renders: seq<(string, string)>

    ghost predicate Valid()
      reads this
    {
      forall p :: p in files ==> IsArtifactPath(p)
    }

    constructor (existing: set<string>)
      requires forall p :: p in existing ==> IsArtifactPath(p)
      ensures Valid() && files == existing && renders == []
    {
      files := existing;
      renders := [];
    }

    /** `os.path.isfile(path)`. */
    method Contains(path: string) returns (present: bool)
      ensures present <==> path in files
    {
      present := path in files;
    }

    /** A render: the encoder writes the file at `path` from `article`. */
    method Render(path: string, article: string)
      requires Valid() && IsArtifactPath(path)
      modifies this
      ensures Valid()
      ensures files == old(files) + {path}
      ensures renders == old(renders) + [(path, article)]
    {
      files := files + {path};
      renders := renders + [(path, article)];
    }

    /** The cache lookup: the artifact is rendered from `article` only when
        no file exists at `path`. */
    method Ensure(path: string, article: string)
      requires Valid() && IsArtifactPath(path)
      modifies this
      ensures Valid()
      ensures files == old(files) + {path}
      ensures renders == old(renders) + (if path in old(files) then [] else [(path, article)])
    {
      var present := Contains(path);
      if !present {
        Render(path, article);
      }
    }

    /** The names `os.listdir('audio')` reports. */
    function Listing(): (names: set<string>)
      requires Valid()
      reads this
      ensures forall n :: n in names <==> InFolder(n) in files && '/' !in n
    {
      var names := set p | p in files :: FileName(p);
      assert forall n :: InFolder(n) in files && '/' !in n ==> FileName(InFolder(n)) in names;
      names
    }

    /** The removal loop: every listed file whose path is not referenced is
        removed; the referenced ones stay. */
    method Reconcile(referenced: seq<string>)
      requires Valid()
      modifies this
      ensures Valid()
      ensures files == Reconciled(old(files), referenced)
      ensures renders == old(renders)
    {
      var left := Listing();
      ghost var initial := files;
      while left != {}
        invariant files <= initial
        invariant forall p :: p in files ==> IsArtifactPath(p)
        invariant forall n :: n in left ==> InFolder(n) in initial && '/' !in n
        invariant forall p :: p in initial ==>
          (p in files <==> p in referenced || FileName(p) in left)
        invariant renders == old(renders)
        decreases |left|
      {
        var f :| f in left;
        var fullpath := InFolder(f);
        if fullpath !in referenced {
          files := files - {fullpath};
        }
        left := left - {f};
        forall p | p in initial
          ensures p in files <==> p in referenced || FileName(p) in left
        {
          if FileName(p) == f {
            assert p == fullpath;
          }
        }
      }
    }
  }
}
