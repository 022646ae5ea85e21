/** The prompt cache of pkg/agent/context.go: a prompt is served again until the modification
    times of the files it was built from say otherwise. */
module PromptCache {
  import opened Wrappers

  type Path = string

  /** A file, or a skill root with its listing as content. Times are nanoseconds. */
  datatype File = File(mtime: int, content: string)
  type Files = map<Path, File>

  /** What is tracked: single files, and everything below the skill roots. */
  datatype Tree = Tree(sources: seq<Path>, roots: seq<Path>)

  datatype Baseline = Baseline(existed: map<Path, bool>, skillFiles: map<Path, int>, maxMtime: int)

  /** The time used when no tracked file exists: one second after the epoch. */
  const EARLY := 1_000_000_000

  // ------------------------------------------------------------- specifications

  predicate IsUnder(root: Path, p: Path) {
    root + "/" <= p
  }

  predicate IsSkill(tree: Tree, p: Path) {
    exists root <- tree.roots :: IsUnder(root, p)
  }

  predicate IsListed(tree: Tree, p: Path) {
    p in tree.sources || p in tree.roots
  }

  function Later(max: Option<int>, mtime: int): Option<int> {
    if max.None? || mtime > max.value then Some(mtime) else max
  }

  function OrEarly(max: Option<int>): int {
    if max.None? then EARLY else max.value
  }

  predicate Existed(b: Baseline, p: Path) {
    p in b.existed && b.existed[p]
  }

  /** A single path as the check sees it. */
  predicate FileUnchanged(b: Baseline, fs: Files, p: Path) {
    && (Existed(b, p) <==> p in fs)
    && (p in fs ==> fs[p].mtime <= b.maxMtime)
  }

  /** A path below a skill root as the check sees it. */
  predicate SkillUnchanged(b: Baseline, fs: Files, p: Path) {
    && (p in b.skillFiles <==> p in fs)
    && (p in fs && p in b.skillFiles ==> fs[p].mtime == b.skillFiles[p])
  }

  /** Everything the check looks at on account of one path. */
  predicate PathUnchanged(tree: Tree, b: Baseline, fs: Files, p: Path) {
    && (IsListed(tree, p) ==> FileUnchanged(b, fs, p))
    && (IsSkill(tree, p) ==> SkillUnchanged(b, fs, p))
  }

  /** The whole check, with all its looks at one instant. */
  ghost predicate Unchanged(tree: Tree, b: Baseline, fs: Files) {
    forall p: Path :: PathUnchanged(tree, b, fs, p)
  }

  /** A baseline taken at one instant. */
  ghost predicate IsBaseline(tree: Tree, fs: Files, b: Baseline) {
    && (forall p :: p in b.existed <==> IsListed(tree, p))
    && (forall p <- b.existed :: b.existed[p] <==> p in fs)
    && (forall p :: p in b.skillFiles <==> p in fs && IsSkill(tree, p))
    && (forall p <- b.skillFiles :: p in fs ==> b.skillFiles[p] == fs[p].mtime)
    && IsLatest(tree, fs, b.maxMtime)
  }

  predicate IsTracked(tree: Tree, p: Path) {
    IsListed(tree, p) || IsSkill(tree, p)
  }

  /** The greatest time of a tracked file, or `EARLY` when there is none. */
  ghost predicate IsLatest(tree: Tree, fs: Files, max: int) {
    if exists p :: p in fs && IsTracked(tree, p) then
      && (forall p <- fs :: IsTracked(tree, p) ==> fs[p].mtime <= max)
      && exists p :: p in fs && IsTracked(tree, p) && fs[p].mtime == max
    else max == EARLY
  }

  /** The latest time among the paths looked at so far, if any of them exists. */
  ghost predicate IsMax(max: Option<int>, fs: Files, seen: set<Path>) {
    && (forall p <- seen :: p in fs ==> max.Some? && fs[p].mtime <= max.value)
    && (max.Some? ==> exists p :: p in seen && p in fs && fs[p].mtime == max.value)
  }

  lemma OneMoreSeen(max: Option<int>, fs: Files, seen: set<Path>, p: Path)
    requires IsMax(max, fs, seen)
    ensures IsMax(if p in fs then Later(max, fs[p].mtime) else max, fs, seen + {p})
  {
    if p in fs && (max.None? || fs[p].mtime > max.value) {
      assert p in seen + {p};
    } else if max.Some? {
      var q :| q in seen && q in fs && fs[q].mtime == max.value;
      assert q in seen + {p};
    }
  }

  /** When every tracked file that exists was looked at, the maximum so far is the one. */
  lemma MaxOfAllIsLatest(tree: Tree, fs: Files, max: Option<int>, seen: set<Path>)
    requires IsMax(max, fs, seen) && forall p <- seen :: IsTracked(tree, p)
    requires forall p <- fs :: IsTracked(tree, p) ==> p in seen
    ensures IsLatest(tree, fs, OrEarly(max))
  {
  }

  // ------------------------------------------------------------------ the class

  class ContextBuilder {
    const tree: Tree
    var cachedSystemPrompt: string
    var cachedAt: Option<int>
    var existedAtCache: Option<map<Path, bool>>
    var skillFilesAtCache: Option<map<Path, int>>

    constructor (tree: Tree)
      ensures this.tree == tree && cachedSystemPrompt == "" && Snapshot() == None
    {
      this.tree := tree;
      cachedSystemPrompt, cachedAt, existedAtCache, skillFilesAtCache := "", None, None, None;
    }

    /** The baseline of the cached prompt, if there is one. */
    function Snapshot(): Option<Baseline>
      reads this
    {
      if cachedAt.None? || existedAtCache.None? || skillFilesAtCache.None? then None
      else Some(Baseline(existedAtCache.value, skillFilesAtCache.value, cachedAt.value))
    }

    /** The three parts of the baseline come and go together, and speak of tracked paths. */
    ghost predicate Valid()
      reads this
    {
      && (cachedAt.Some? <==> existedAtCache.Some?)
      && (cachedAt.Some? <==> skillFilesAtCache.Some?)
      && (skillFilesAtCache.Some? ==> forall p <- skillFilesAtCache.value :: IsSkill(tree, p))
    }

    /** Whether the cached prompt passes the check. */
    ghost predicate Hit(fs: Files)
      reads this
    {
      cachedSystemPrompt != "" && Snapshot().Some? && Unchanged(tree, Snapshot().value, fs)
    }

    /** The walk below one root: every file there is stamped, and counts for the maximum. */
    method WalkRoot(fs: Files, root: Path, ghost listed: set<Path>, stamped: map<Path, int>, before: Option<int>)
        returns (skillFiles: map<Path, int>, max: Option<int>)
      requires IsMax(before, fs, listed + stamped.Keys)
      ensures forall p :: p in skillFiles <==> p in stamped || (p in fs && IsUnder(root, p))
      ensures forall p <- skillFiles ::
        skillFiles[p] == if p in fs && IsUnder(root, p) then fs[p].mtime else stamped[p]
      ensures IsMax(max, fs, listed + skillFiles.Keys)
    {
      skillFiles, max := stamped, before;
      var todo := set p | p in fs && IsUnder(root, p);
      ghost var below := todo;
      while todo != {}
        invariant todo <= below
        invariant skillFiles.Keys == stamped.Keys + (below - todo)
        invariant forall p <- skillFiles :: skillFiles[p] == if p in below - todo then fs[p].mtime else stamped[p]
        invariant IsMax(max, fs, listed + skillFiles.Keys)
        decreases todo
      {
        var p :| p in todo;
        OneMoreSeen(max, fs, listed + skillFiles.Keys, p);
        todo := todo - {p};
        skillFiles, max := skillFiles[p := fs[p].mtime], Later(max, fs[p].mtime);
        assert listed + skillFiles.Keys == (listed + stamped.Keys + (below - todo - {p})) + {p};
      }
    }

    /** The existence of every listed path, and the greatest time among them. */
    method StatPaths(fs: Files) returns (existed: map<Path, bool>, max: Option<int>)
      ensures forall p :: p in existed <==> IsListed(tree, p)
      ensures forall p <- existed :: existed[p] <==> p in fs
      ensures IsMax(max, fs, existed.Keys)
    {
      var allPaths := tree.sources + tree.roots;
      existed, max := map[], None;
      for i := 0 to |allPaths|
        invariant forall p :: p in existed <==> p in allPaths[..i]
        invariant forall p <- existed :: existed[p] <==> p in fs
        invariant IsMax(max, fs, existed.Keys)
      {
        var p := allPaths[i];
        OneMoreSeen(max, fs, existed.Keys, p);
        existed := existed[p := p in fs];
        if p in fs {
          max := Later(max, fs[p].mtime);
        }
      }
      assert allPaths[..|allPaths|] == allPaths;
    }

    method BuildCacheBaseline(fs: Files) returns (b: Baseline)
      ensures IsBaseline(tree, fs, b)
    {
      var existed, max := StatPaths(fs);
      var skillFiles: map<Path, int> := map[];
      ghost var listed := existed.Keys;
      for i := 0 to |tree.roots|
        invariant IsMax(max, fs, listed + skillFiles.Keys)
        invariant forall p <- skillFiles :: p in fs && IsSkill(tree, p) && skillFiles[p] == fs[p].mtime
        invariant forall p <- fs :: (exists j :: 0 <= j < i && IsUnder(tree.roots[j], p)) ==> p in skillFiles
      {
        skillFiles, max := WalkRoot(fs, tree.roots[i], listed, skillFiles, max);
      }
      MaxOfAllIsLatest(tree, fs, max, listed + skillFiles.Keys);
      b := Baseline(existed, skillFiles, OrEarly(max));
    }

    method FileChangedSince(fs: Files, p: Path) returns (changed: bool)
      ensures existedAtCache.None? ==> changed
      ensures existedAtCache.Some? && cachedAt.Some? ==>
        (changed <==> !FileUnchanged(Baseline(existedAtCache.value, map[], cachedAt.value), fs, p))
      ensures existedAtCache.Some? && cachedAt.None? ==>
        (changed <==> p in fs || (p in existedAtCache.value && existedAtCache.value[p]))
    {
      if existedAtCache.None? {
        return true;
      }
      var existedBefore := p in existedAtCache.value && existedAtCache.value[p];
      var existsNow := p in fs;
      if existedBefore != existsNow {
        return true;
      }
      if !existsNow {
        return false;
      }
      return cachedAt.None? || fs[p].mtime > cachedAt.value;
    }

    method SkillFilesChangedSince(fs: Files, filesAtCache: map<Path, int>) returns (changed: bool)
      ensures changed <==> exists p ::
        || (p in filesAtCache && (p !in fs || fs[p].mtime != filesAtCache[p]))
        || (p in fs && IsSkill(tree, p) && p !in filesAtCache)
    {
      var todo := filesAtCache.Keys;
      while todo != {}
        invariant todo <= filesAtCache.Keys
        invariant forall p <- filesAtCache :: p in todo || (p in fs && fs[p].mtime == filesAtCache[p])
        decreases todo
      {
        var p :| p in todo;
        todo := todo - {p};
        if p !in fs || fs[p].mtime != filesAtCache[p] {
          return true;
        }
      }
      for i := 0 to |tree.roots|
        invariant forall p <- fs :: (exists j :: 0 <= j < i && IsUnder(tree.roots[j], p)) ==> p in filesAtCache
      {
        var unseen := set p | p in fs && IsUnder(tree.roots[i], p);
        while unseen != {}
          invariant forall p <- unseen :: p in fs && IsUnder(tree.roots[i], p)
          invariant forall p <- fs :: IsUnder(tree.roots[i], p) ==> p in unseen || p in filesAtCache
          decreases unseen
        {
          var p :| p in unseen;
          unseen := unseen - {p};
          if p !in filesAtCache {
            assert IsSkill(tree, p);
            return true;
          }
        }
      }
      return false;
    }

    method SourceFilesChangedLocked(fs: Files) returns (changed: bool)
      requires Valid()
      ensures changed <==> Snapshot().None? || !Unchanged(tree, Snapshot().value, fs)
    {
      if cachedAt.None? {
        return true;
      }
      ghost var b := Snapshot().value;
      for i := 0 to |tree.sources|
        invariant forall j :: 0 <= j < i ==> FileUnchanged(b, fs, tree.sources[j])
      {
        changed := FileChangedSince(fs, tree.sources[i]);
        if changed {
          assert !PathUnchanged(tree, b, fs, tree.sources[i]);
          return;
        }
      }
      for i := 0 to |tree.roots|
        invariant forall j :: 0 <= j < i ==> FileUnchanged(b, fs, tree.roots[j])
      {
        changed := FileChangedSince(fs, tree.roots[i]);
        if changed {
          assert !PathUnchanged(tree, b, fs, tree.roots[i]);
          return;
        }
      }
      changed := SkillFilesChangedSince(fs, skillFilesAtCache.value);
      if changed {
        ghost var p :| (p in b.skillFiles && (p !in fs || fs[p].mtime != b.skillFiles[p]))
              || (p in fs && IsSkill(tree, p) && p !in b.skillFiles);
        assert !PathUnchanged(tree, b, fs, p);
      }
    }

    /** `first` and `second` are the files at the two checks, `start` at the baseline, and
        `built` is the prompt a build then gives. It is never empty. */
    method BuildSystemPromptWithCache(first: Files, second: Files, start: Files, built: string)
        returns (prompt: string)
      requires Valid() && built != ""
      modifies this
      ensures Valid()
      ensures old(Hit(first)) || old(Hit(second)) ==>
        && prompt == old(cachedSystemPrompt) == cachedSystemPrompt
        && Snapshot() == old(Snapshot())
      ensures !old(Hit(first)) && !old(Hit(second)) ==>
        && prompt == built == cachedSystemPrompt
        && Snapshot().Some? && IsBaseline(tree, start, Snapshot().value)
    {
      if cachedSystemPrompt != "" {
        var changed := SourceFilesChangedLocked(first);
        if !changed {
          return cachedSystemPrompt;
        }
      }
      if cachedSystemPrompt != "" {
        var changed := SourceFilesChangedLocked(second);
        if !changed {
          return cachedSystemPrompt;
        }
      }
      var baseline := BuildCacheBaseline(start);
      prompt := built;
      cachedSystemPrompt := prompt;
      cachedAt := Some(baseline.maxMtime);
      existedAtCache := Some(baseline.existed);
      skillFilesAtCache := Some(baseline.skillFiles);
    }

    method InvalidateCache()
      modifies this
      ensures Valid() && forall fs :: !Hit(fs)
      ensures cachedSystemPrompt == "" && Snapshot() == None
    {
      cachedSystemPrompt, cachedAt, existedAtCache, skillFilesAtCache := "", None, None, None;
    }
  }

  // ---------------------------------------------------------------------- facts

  /** A baseline passes the check against the files it was taken from, so an untouched
      workspace, even an empty one, is not rebuilt over and over. */
  lemma FreshBaselinePasses(tree: Tree, fs: Files, b: Baseline)
    requires IsBaseline(tree, fs, b)
    ensures Unchanged(tree, b, fs)
  {
    forall p: Path ensures PathUnchanged(tree, b, fs, p) {
      assert p in b.existed <==> IsListed(tree, p);
      assert p in b.skillFiles <==> p in fs && IsSkill(tree, p);
    }
  }

  /** There is one baseline for given files: however it is taken, it comes out the same. */
  lemma BaselineIsUnique(tree: Tree, fs: Files, a: Baseline, b: Baseline)
    requires IsBaseline(tree, fs, a) && IsBaseline(tree, fs, b)
    ensures a == b
  {
    assert a.existed == b.existed && a.skillFiles == b.skillFiles;
  }

  // ------------------------------------------------- the check in terms of the files

  /** Below one of the roots. */
  ghost predicate IsBelow(tree: Tree, p: Path) {
    exists i :: 0 <= i < |tree.roots| && tree.roots[i] + "/" <= p
  }

  /** The time of a file is no later than that of some file that was tracked `before`. */
  ghost predicate NoLater(tree: Tree, before: Files, mtime: int) {
    exists q :: q in before && (q in tree.sources || q in tree.roots || IsBelow(tree, q)) && mtime <= before[q].mtime
  }

  /** What the check finds changed between two instants, path by path. */
  ghost predicate SameToCheck(tree: Tree, before: Files, now: Files, p: Path) {
    && (p in tree.sources || p in tree.roots ==>
          (p in before <==> p in now) && (p in now ==> NoLater(tree, before, now[p].mtime)))
    && (IsBelow(tree, p) ==>
          (p in before <==> p in now) && (p in before && p in now ==> now[p].mtime == before[p].mtime))
  }

  lemma SkillsAreBelow(tree: Tree, p: Path)
    ensures IsSkill(tree, p) <==> IsBelow(tree, p)
  {
    if IsBelow(tree, p) {
      var i :| 0 <= i < |tree.roots| && tree.roots[i] + "/" <= p;
      assert tree.roots[i] in tree.roots && IsUnder(tree.roots[i], p);
    }
  }

  lemma LatestIs(tree: Tree, before: Files, b: Baseline, p: Path, mtime: int)
    requires IsBaseline(tree, before, b) && p in before && IsTracked(tree, p)
    ensures mtime <= b.maxMtime <==> NoLater(tree, before, mtime)
  {
    if mtime <= b.maxMtime {
      var q :| q in before && IsTracked(tree, q) && before[q].mtime == b.maxMtime;
      SkillsAreBelow(tree, q);
    }
    if NoLater(tree, before, mtime) {
      var q :| q in before && (q in tree.sources || q in tree.roots || IsBelow(tree, q)) && mtime <= before[q].mtime;
      SkillsAreBelow(tree, q);
    }
  }

  lemma PathPassesIff(tree: Tree, before: Files, b: Baseline, now: Files, p: Path)
    requires IsBaseline(tree, before, b)
    ensures PathUnchanged(tree, b, now, p) <==> SameToCheck(tree, before, now, p)
  {
    SkillsAreBelow(tree, p);
    assert p in b.existed <==> IsListed(tree, p);
    assert p in b.skillFiles <==> p in before && IsSkill(tree, p);
    if IsListed(tree, p) && p in before && p in now {
      LatestIs(tree, before, b, p, now[p].mtime);
    }
  }

  /** Against a baseline taken at one instant the check passes at another if and only if, path by
      path: everything listed exists now as it did, and is not later than all that was tracked;
      and below the roots the files are the same, with the same times. */
  lemma PassesIff(tree: Tree, before: Files, b: Baseline, now: Files)
    requires IsBaseline(tree, before, b)
    ensures Unchanged(tree, b, now) <==> forall p: Path :: SameToCheck(tree, before, now, p)
  {
    forall p: Path ensures PathUnchanged(tree, b, now, p) <==> SameToCheck(tree, before, now, p) {
      PathPassesIff(tree, before, b, now, p);
    }
  }

  /** With nothing tracked the baseline is one second after the epoch, so that any file that
      appears is later. */
  lemma EmptyBaseline(tree: Tree, fs: Files, b: Baseline)
    requires IsBaseline(tree, fs, b)
    requires forall p <- fs :: p !in tree.sources && p !in tree.roots && !IsBelow(tree, p)
    ensures b.maxMtime == 1_000_000_000
  {
    forall p | p in fs ensures !IsTracked(tree, p) {
      SkillsAreBelow(tree, p);
    }
  }
}
