/** Every interleaving of a cache build with the writes and deletes of others: the baseline is
    taken path by path, then the prompt is built read by read, each read chosen by what the
    earlier ones found, and the files may change between any two looks. */
module PromptCacheRuns {
  import opened PromptCache
  import opened Wrappers
  import Iteration

  /** One read of a build: the path, and the file if it was there. */
  datatype Seen = Seen(path: Path, file: Option<File>)

  /** What a build is told by a read: the path, and the content if there was a file. */
  type Told = (Path, Option<string>)

  /** The next path a build reads, given what it was told so far, or nothing when it is done. */
  type Plan = seq<Told> -> Option<Path>

  /** The prompt a build makes of what it was told. */
  type Render = seq<Told> -> string

  function Heard(r: Seen): Told {
    (r.path, if r.file.Some? then Some(r.file.value.content) else None)
  }

  function Story(reads_: seq<Seen>): (told: seq<Told>)
    ensures |told| == |reads_|
  {
    seq(|reads_|, i requires 0 <= i < |reads_| => Heard(reads_[i]))
  }

  /** The reads of a build that follows `plan` from its first read to its last. */
  ghost predicate Follows(plan: Plan, reads_: seq<Seen>) {
    forall i :: 0 <= i < |reads_| ==> plan(Story(reads_[..i])) == Some(reads_[i].path)
  }

  /** The reads of a whole build made at one instant. */
  ghost predicate IsFreshBuild(plan: Plan, fs: Files, reads_: seq<Seen>) {
    && Follows(plan, reads_) && plan(Story(reads_)) == None
    && forall i :: 0 <= i < |reads_| ==> reads_[i].file == Look(fs, reads_[i].path)
  }

  /** A prompt with the reads it was built from. `since` is the time of the last write before
      the baseline was complete. */
  datatype Cached = Cached(reads_: seq<Seen>, baseline: Baseline, since: int)

  datatype Phase =
    | Idle
    | Stating(begun: int, existed: map<Path, bool>, skillFiles: map<Path, int>, max: Option<int>)
    | Reading(begun: int, partial: Cached)

  /** `last` is the time of the latest write so far. */
  datatype Sys = Sys(files: Files, last: int, phase: Phase, cache: Option<Cached>)

  datatype Event =
    | Write(path: Path, content: string, mtime: int)
    | Delete(path: Path)
    | Begin
    | Stat(path: Path)
    | Walk(path: Path)
    | EndBaseline
    | Read(path: Path)
    | Finish
    | Invalidate

  function Look(fs: Files, p: Path): Option<File> {
    if p in fs then Some(fs[p]) else None
  }

  /** Every listed path was looked at, and the walk met every skill file that was there from
      the start. */
  ghost predicate BaselineComplete(tree: Tree, s: Sys)
    requires s.phase.Stating?
  {
    && (forall p :: IsListed(tree, p) ==> p in s.phase.existed)
    && (forall p <- s.files :: IsSkill(tree, p) && s.files[p].mtime <= s.phase.begun ==> p in s.phase.skillFiles)
  }

  ghost predicate Possible(tree: Tree, plan: Plan, s: Sys, e: Event) {
    match e
    case Write(_, _, mtime) => mtime > s.last
    case Delete(_) => true
    case Begin => s.phase.Idle?
    case Stat(p) => s.phase.Stating? && IsListed(tree, p)
    case Walk(p) => s.phase.Stating? && IsSkill(tree, p) && p in s.files
    case EndBaseline => s.phase.Stating? && BaselineComplete(tree, s)
    case Read(p) => s.phase.Reading? && plan(Story(s.phase.partial.reads_)) == Some(p)
    case Finish => s.phase.Reading? && plan(Story(s.phase.partial.reads_)) == None
    case Invalidate => s.phase.Idle?
  }

  function Note(max: Option<int>, f: Option<File>): Option<int> {
    if f.Some? then Later(max, f.value.mtime) else max
  }

  ghost function After(tree: Tree, plan: Plan, s: Sys, e: Event): Sys
    requires Possible(tree, plan, s, e)
  {
    match e
    case Write(p, content, mtime) => s.(files := s.files[p := File(mtime, content)], last := mtime)
    case Delete(p) => s.(files := s.files - {p})
    case Begin => s.(phase := Stating(s.last, map[], map[], None))
    case Stat(p) =>
      s.(phase := s.phase.(existed := s.phase.existed[p := p in s.files], max := Note(s.phase.max, Look(s.files, p))))
    case Walk(p) =>
      s.(phase := s.phase.(skillFiles := s.phase.skillFiles[p := s.files[p].mtime],
                           max := Note(s.phase.max, Look(s.files, p))))
    case EndBaseline =>
      var b := Baseline(s.phase.existed, s.phase.skillFiles, OrEarly(s.phase.max));
      s.(phase := Reading(s.phase.begun, Cached([], b, s.last)))
    case Read(p) =>
      var c := s.phase.partial;
      s.(phase := s.phase.(partial := c.(reads_ := c.reads_ + [Seen(p, Look(s.files, p))])))
    case Finish => s.(phase := Idle, cache := Some(s.phase.partial))
    case Invalidate => s.(cache := None)
  }

  ghost predicate Next(tree: Tree, plan: Plan, s: Sys, t: Sys) {
    exists e: Event :: Possible(tree, plan, s, e) && t == After(tree, plan, s, e)
  }

  /** Any files, last written no later than `last`, which is past the first second. */
  ghost predicate Initial(s: Sys) {
    s.phase.Idle? && s.cache.None? && s.last >= EARLY && forall p <- s.files :: s.files[p].mtime <= s.last
  }

  // ------------------------------------------------------------------- invariants

  /** A file no newer than the baseline is still what the build read. */
  ghost predicate ReadHolds(fs: Files, since: int, r: Seen) {
    r.path in fs && fs[r.path].mtime <= since ==> r.file == Some(fs[r.path])
  }

  ghost predicate CacheInv(plan: Plan, fs: Files, last: int, c: Cached) {
    && c.since <= last
    && c.baseline.maxMtime <= c.since
    && (forall p <- c.baseline.skillFiles :: c.baseline.skillFiles[p] <= c.since)
    && Follows(plan, c.reads_)
    && forall i :: 0 <= i < |c.reads_| ==> ReadHolds(fs, c.since, c.reads_[i])
  }

  ghost predicate Inv(plan: Plan, s: Sys) {
    && s.last >= EARLY
    && (forall p <- s.files :: s.files[p].mtime <= s.last)
    && (s.cache.Some? ==>
          CacheInv(plan, s.files, s.last, s.cache.value) && plan(Story(s.cache.value.reads_)) == None)
    && match s.phase
       case Idle => true
       case Stating(_, _, skillFiles, max) =>
         (max.Some? ==> max.value <= s.last) && forall p <- skillFiles :: skillFiles[p] <= s.last
       case Reading(_, partial) => CacheInv(plan, s.files, s.last, partial)
  }

  lemma WriteKeepsCache(plan: Plan, fs: Files, last: int, c: Cached, p: Path, f: File)
    requires CacheInv(plan, fs, last, c) && f.mtime > last
    ensures CacheInv(plan, fs[p := f], f.mtime, c)
  {
    forall i | 0 <= i < |c.reads_| ensures ReadHolds(fs[p := f], c.since, c.reads_[i]) {
      assert ReadHolds(fs, c.since, c.reads_[i]);
    }
  }

  lemma DeleteKeepsCache(plan: Plan, fs: Files, last: int, c: Cached, p: Path)
    requires CacheInv(plan, fs, last, c)
    ensures CacheInv(plan, fs - {p}, last, c)
  {
    forall i | 0 <= i < |c.reads_| ensures ReadHolds(fs - {p}, c.since, c.reads_[i]) {
      assert ReadHolds(fs, c.since, c.reads_[i]);
    }
  }

  lemma FollowsOneMore(plan: Plan, reads_: seq<Seen>, r: Seen)
    requires Follows(plan, reads_) && plan(Story(reads_)) == Some(r.path)
    ensures Follows(plan, reads_ + [r])
  {
    assert reads_[..|reads_|] == reads_;
    assert forall i :: 0 <= i <= |reads_| ==> (reads_ + [r])[..i] == reads_[..i];
  }

  lemma StepKeepsInv(tree: Tree, plan: Plan, s: Sys, e: Event)
    requires Inv(plan, s) && Possible(tree, plan, s, e)
    ensures Inv(plan, After(tree, plan, s, e))
  {
    match e
    case Write(p, content, mtime) =>
      if s.cache.Some? {
        WriteKeepsCache(plan, s.files, s.last, s.cache.value, p, File(mtime, content));
      }
      if s.phase.Reading? {
        WriteKeepsCache(plan, s.files, s.last, s.phase.partial, p, File(mtime, content));
      }
    case Delete(p) =>
      if s.cache.Some? {
        DeleteKeepsCache(plan, s.files, s.last, s.cache.value, p);
      }
      if s.phase.Reading? {
        DeleteKeepsCache(plan, s.files, s.last, s.phase.partial, p);
      }
    case Read(p) => FollowsOneMore(plan, s.phase.partial.reads_, Seen(p, Look(s.files, p)));
    case _ =>
  }

  lemma EveryStateInv(tree: Tree, plan: Plan, run: seq<Sys>)
    requires Iteration.IsRun((s, t) => Next(tree, plan, s, t), run) && Initial(run[0])
    ensures forall s <- run :: Inv(plan, s)
  {
    var next, inv := (s, t) => Next(tree, plan, s, t), (s: Sys) => Inv(plan, s);
    forall s: Sys, t: Sys | inv(s) && next(s, t) ensures inv(t) {
      var e :| Possible(tree, plan, s, e) && t == After(tree, plan, s, e);
      StepKeepsInv(tree, plan, s, e);
    }
    Iteration.RunKeeps(next, inv, run);
  }

  // ------------------------------------------------------------------ the theorems

  /** The baseline did not see a path that its own build then read. */
  predicate CameAndWent(tree: Tree, b: Baseline, r: Seen) {
    && r.file.Some?
    && ((IsListed(tree, r.path) && !Existed(b, r.path)) || (IsSkill(tree, r.path) && r.path !in b.skillFiles))
  }

  /** At any moment of any run, when the check lets a path pass, what the cached prompt holds
      of it is what a read would find now, except exactly for a file that appeared between the
      baseline and the read: it can only pass by having gone again. */
  lemma PassedIsCurrent(tree: Tree, plan: Plan, run: seq<Sys>, s: Sys, r: Seen)
    requires Iteration.IsRun((s, t) => Next(tree, plan, s, t), run) && Initial(run[0]) && s in run
    requires s.cache.Some? && r in s.cache.value.reads_ && IsTracked(tree, r.path)
    requires PathUnchanged(tree, s.cache.value.baseline, s.files, r.path)
    ensures r.file == Look(s.files, r.path) <==> !CameAndWent(tree, s.cache.value.baseline, r)
    ensures CameAndWent(tree, s.cache.value.baseline, r) ==> r.path !in s.files
  {
    EveryStateInv(tree, plan, run);
    var i :| 0 <= i < |s.cache.value.reads_| && s.cache.value.reads_[i] == r;
    assert ReadHolds(s.files, s.cache.value.since, s.cache.value.reads_[i]);
  }

  /** Two whole builds at one instant read the same. */
  lemma {:induction false} FreshBuildIsUnique(plan: Plan, fs: Files, a: seq<Seen>, b: seq<Seen>, n: nat)
    requires IsFreshBuild(plan, fs, a) && IsFreshBuild(plan, fs, b) && n <= |a|
    ensures n <= |b| && a[..n] == b[..n]
    ensures n == |a| ==> a == b
    decreases n
  {
    if n > 0 {
      FreshBuildIsUnique(plan, fs, a, b, n - 1);
      assert b[..|b|] == b;
      assert plan(Story(a[..n - 1])) == Some(a[n - 1].path);
      assert n - 1 < |b| && plan(Story(b[..n - 1])) == Some(b[n - 1].path);
      assert a[n - 1] == b[n - 1] && a[..n] == a[..n - 1] + [a[n - 1]] && b[..n] == b[..n - 1] + [b[n - 1]];
    }
    if n == |a| {
      assert a[..n] == a;
      assert b[..n] == a && plan(Story(b[..n])) == None;
      assert forall i :: 0 <= i < |b| ==> plan(Story(b[..i])).Some?;
      assert b[..|b|] == b;
    }
  }

  /** Whether the cached reads are those a build would make now. */
  ghost predicate IsFresh(plan: Plan, s: Sys)
    requires s.cache.Some?
  {
    IsFreshBuild(plan, s.files, s.cache.value.reads_)
  }

  /** At any moment of any run, when the check passes and the build reads only tracked paths,
      the cached prompt was built exactly as a build would be made now, if and only if none of
      its files came and went; and every build made now then gives the same prompt. */
  lemma PassedPromptIsFresh(tree: Tree, plan: Plan, run: seq<Sys>, s: Sys, render: Render)
    requires Iteration.IsRun((s, t) => Next(tree, plan, s, t), run) && Initial(run[0]) && s in run
    requires s.cache.Some? && Unchanged(tree, s.cache.value.baseline, s.files)
    requires forall r <- s.cache.value.reads_ :: IsTracked(tree, r.path)
    ensures IsFresh(plan, s) <==> forall r <- s.cache.value.reads_ :: !CameAndWent(tree, s.cache.value.baseline, r)
    ensures IsFresh(plan, s) ==> forall b :: IsFreshBuild(plan, s.files, b) ==>
              render(Story(b)) == render(Story(s.cache.value.reads_))
  {
    EveryStateInv(tree, plan, run);
    var reads_ := s.cache.value.reads_;
    forall r | r in reads_
      ensures r.file == Look(s.files, r.path) <==> !CameAndWent(tree, s.cache.value.baseline, r)
    {
      PassedIsCurrent(tree, plan, run, s, r);
    }
    assert forall i :: 0 <= i < |reads_| ==> reads_[i] in reads_;
    if IsFresh(plan, s) {
      forall r | r in reads_ ensures r.file == Look(s.files, r.path) {
        var i :| 0 <= i < |reads_| && reads_[i] == r;
      }
      forall b | IsFreshBuild(plan, s.files, b) ensures b == reads_ {
        FreshBuildIsUnique(plan, s.files, reads_, b, |reads_|);
      }
    }
  }

  // ------------------------------------------- runs in which nothing comes and goes

  /** The baseline saw a path. */
  predicate WasThere(tree: Tree, b: Baseline, p: Path) {
    (IsListed(tree, p) ==> Existed(b, p)) && (IsSkill(tree, p) ==> p in b.skillFiles)
  }

  /** No file is deleted that was created after the baseline of the cached prompt, or of the
      one being built. */
  predicate DeletesOnlyOld(tree: Tree, s: Sys, e: Event) {
    e.Delete? ==>
      && (s.cache.Some? ==> WasThere(tree, s.cache.value.baseline, e.path))
      && (s.phase.Reading? ==> WasThere(tree, s.phase.partial.baseline, e.path))
  }

  ghost predicate NextTame(tree: Tree, plan: Plan, s: Sys, t: Sys) {
    exists e: Event :: Possible(tree, plan, s, e) && DeletesOnlyOld(tree, s, e) && t == After(tree, plan, s, e)
  }

  /** A file read but missed by the baseline is still there. */
  ghost predicate NewStays(tree: Tree, fs: Files, c: Cached) {
    forall i :: 0 <= i < |c.reads_| && CameAndWent(tree, c.baseline, c.reads_[i]) ==> c.reads_[i].path in fs
  }

  ghost predicate TameInv(tree: Tree, s: Sys) {
    && (s.cache.Some? ==> NewStays(tree, s.files, s.cache.value))
    && (s.phase.Reading? ==> NewStays(tree, s.files, s.phase.partial))
  }

  lemma TameStep(tree: Tree, plan: Plan, s: Sys, e: Event)
    requires TameInv(tree, s) && Possible(tree, plan, s, e) && DeletesOnlyOld(tree, s, e)
    ensures TameInv(tree, After(tree, plan, s, e))
  {
  }

  /** A build that reads nothing but tracked paths. */
  ghost predicate ReadsTracked(tree: Tree, plan: Plan) {
    forall told: seq<Told> :: plan(told).Some? ==> IsTracked(tree, plan(told).value)
  }

  /** The cache is coherent in every run that deletes no file created after the baseline:
      whenever the check passes, the cached prompt is the one every build made now would give,
      and the cached reads are such a build. */
  lemma TameRunsAreCoherent(tree: Tree, plan: Plan, run: seq<Sys>, s: Sys, render: Render)
    requires Iteration.IsRun((s, t) => NextTame(tree, plan, s, t), run) && Initial(run[0]) && s in run
    requires ReadsTracked(tree, plan)
    requires s.cache.Some? && Unchanged(tree, s.cache.value.baseline, s.files)
    ensures IsFreshBuild(plan, s.files, s.cache.value.reads_)
    ensures forall b :: IsFreshBuild(plan, s.files, b) ==> render(Story(b)) == render(Story(s.cache.value.reads_))
  {
    var next, inv := (s, t) => NextTame(tree, plan, s, t), (s: Sys) => TameInv(tree, s);
    forall s: Sys, t: Sys | inv(s) && next(s, t) ensures inv(t) {
      var e: Event :| Possible(tree, plan, s, e) && DeletesOnlyOld(tree, s, e) && t == After(tree, plan, s, e);
      TameStep(tree, plan, s, e);
    }
    Iteration.RunKeeps(next, inv, run);
    TameIsRun(tree, plan, run);
    EveryStateInv(tree, plan, run);
    var reads_ := s.cache.value.reads_;
    forall r | r in reads_ ensures IsTracked(tree, r.path) && !CameAndWent(tree, s.cache.value.baseline, r) {
      var i :| 0 <= i < |reads_| && reads_[i] == r;
      assert plan(Story(reads_[..i])) == Some(r.path);
      PassedIsCurrent(tree, plan, run, s, r);
    }
    PassedPromptIsFresh(tree, plan, run, s, render);
  }

  lemma TameIsRun(tree: Tree, plan: Plan, run: seq<Sys>)
    requires Iteration.IsRun((s, t) => NextTame(tree, plan, s, t), run)
    ensures Iteration.IsRun((s, t) => Next(tree, plan, s, t), run)
  {
    var tame := (s, t) => NextTame(tree, plan, s, t);
    forall i | 0 <= i < |run| - 1 ensures Next(tree, plan, run[i], run[i + 1]) {
      assert tame(run[i], run[i + 1]);
    }
  }

  // ------------------------------------------------------ the exception happens

  /** A prompt that passes the check although a build made now is told something else. */
  ghost predicate PassesStale(tree: Tree, plan: Plan, s: Sys) {
    && s.cache.Some? && Unchanged(tree, s.cache.value.baseline, s.files)
    && exists b :: IsFreshBuild(plan, s.files, b) && Story(b) != Story(s.cache.value.reads_)
  }

  /** The plan of a build that reads one path. */
  function JustRead(p: Path): Plan {
    (told: seq<Told>) => if told == [] then Some(p) else None
  }

  lemma OneReadIsFresh(fs: Files, p: Path)
    ensures IsFreshBuild(JustRead(p), fs, [Seen(p, Look(fs, p))])
  {
    var b := [Seen(p, Look(fs, p))];
    assert Story(b[..0]) == [];
  }

  lemma OneMore(tree: Tree, plan: Plan, run: seq<Sys>, e: Event) returns (longer: seq<Sys>)
    requires Iteration.IsRun((s, t) => Next(tree, plan, s, t), run) && Possible(tree, plan, run[|run| - 1], e)
    ensures longer == run + [After(tree, plan, run[|run| - 1], e)]
    ensures Iteration.IsRun((s, t) => Next(tree, plan, s, t), longer)
  {
    longer := run + [After(tree, plan, run[|run| - 1], e)];
    assert Next(tree, plan, longer[|run| - 1], longer[|run|]);
  }

  /** The exception happens: in a workspace with one tracked file that does not exist yet, the
      file can be created after the baseline, read, and deleted again, and the check passes a
      prompt that still holds it. */
  lemma CameAndWentHappens(tree: Tree, s: Sys, p: Path, content: string) returns (run: seq<Sys>)
    requires tree == Tree([p], []) && s.phase.Idle? && p !in s.files
    ensures Iteration.IsRun((s, t) => Next(tree, JustRead(p), s, t), run) && run[0] == s
    ensures PassesStale(tree, JustRead(p), run[|run| - 1])
  {
    var plan := JustRead(p);
    run := [s];
    run := OneMore(tree, plan, run, Begin);
    run := OneMore(tree, plan, run, Stat(p));
    assert BaselineComplete(tree, run[2]);
    run := OneMore(tree, plan, run, EndBaseline);
    run := OneMore(tree, plan, run, Write(p, content, s.last + 1));
    run := OneMore(tree, plan, run, Read(p));
    run := OneMore(tree, plan, run, Finish);
    run := OneMore(tree, plan, run, Delete(p));
    OneReadIsFresh(run[7].files, p);
    assert run[7].cache.value.reads_[0] == Seen(p, Some(File(s.last + 1, content)));
    assert Story(run[7].cache.value.reads_)[0] != Story([Seen(p, Look(run[7].files, p))])[0];
  }

  /** So does the other way to go stale: a file that the build reads without its being tracked,
      such as a daily note, may be written at any time and the check passes. */
  lemma UntrackedGoesStale(tree: Tree, s: Sys, p: Path, note: Path, content: string) returns (run: seq<Sys>)
    requires tree == Tree([p], []) && s.phase.Idle? && p != note
    requires note in s.files ==> s.files[note].content != content
    requires forall q <- s.files :: s.files[q].mtime <= s.last
    ensures Iteration.IsRun((s, t) => Next(tree, JustRead(note), s, t), run) && run[0] == s
    ensures PassesStale(tree, JustRead(note), run[|run| - 1])
  {
    var plan := JustRead(note);
    run := [s];
    run := OneMore(tree, plan, run, Begin);
    run := OneMore(tree, plan, run, Stat(p));
    assert BaselineComplete(tree, run[2]);
    run := OneMore(tree, plan, run, EndBaseline);
    run := OneMore(tree, plan, run, Read(note));
    run := OneMore(tree, plan, run, Finish);
    run := OneMore(tree, plan, run, Write(note, content, s.last + 1));
    OneReadIsFresh(run[6].files, note);
    assert run[6].cache.value.reads_[0] == Seen(note, Look(s.files, note));
    assert Story(run[6].cache.value.reads_)[0] != Story([Seen(note, Look(run[6].files, note))])[0];
  }

  // ---------------------------------------------------------------- no false alarms

  ghost predicate NextQuiet(tree: Tree, plan: Plan, s: Sys, t: Sys) {
    exists e: Event ::
      !e.Write? && !e.Delete? && Possible(tree, plan, s, e) && t == After(tree, plan, s, e)
  }

  ghost predicate QuietInv(tree: Tree, s: Sys) {
    && (forall p <- s.files :: s.files[p].mtime <= s.last)
    && (s.cache.Some? ==> IsBaseline(tree, s.files, s.cache.value.baseline))
    && match s.phase
       case Idle => true
       case Stating(begun, existed, skillFiles, max) =>
         && begun == s.last
         && (forall p <- existed :: IsListed(tree, p) && (existed[p] <==> p in s.files))
         && (forall p <- skillFiles :: IsSkill(tree, p) && p in s.files && skillFiles[p] == s.files[p].mtime)
         && IsMax(max, s.files, existed.Keys + skillFiles.Keys)
       case Reading(_, partial) => IsBaseline(tree, s.files, partial.baseline)
  }

  /** Taken step by step while nobody interferes, the baseline is the one
      `BuildCacheBaseline` returns. */
  lemma CompleteBaselineIsOne(tree: Tree, s: Sys)
    requires QuietInv(tree, s) && s.phase.Stating? && BaselineComplete(tree, s)
    ensures IsBaseline(tree, s.files, Baseline(s.phase.existed, s.phase.skillFiles, OrEarly(s.phase.max)))
  {
    MaxOfAllIsLatest(tree, s.files, s.phase.max, s.phase.existed.Keys + s.phase.skillFiles.Keys);
  }

  lemma QuietStep(tree: Tree, plan: Plan, s: Sys, e: Event)
    requires QuietInv(tree, s) && !e.Write? && !e.Delete? && Possible(tree, plan, s, e)
    ensures QuietInv(tree, After(tree, plan, s, e))
  {
    match e
    case EndBaseline => CompleteBaselineIsOne(tree, s);
    case Stat(p) =>
      var seen := s.phase.existed.Keys + s.phase.skillFiles.Keys;
      OneMoreSeen(s.phase.max, s.files, seen, p);
      assert s.phase.existed[p := p in s.files].Keys + s.phase.skillFiles.Keys == seen + {p};
    case Walk(p) =>
      var seen := s.phase.existed.Keys + s.phase.skillFiles.Keys;
      OneMoreSeen(s.phase.max, s.files, seen, p);
      assert s.phase.existed.Keys + s.phase.skillFiles[p := s.files[p].mtime].Keys == seen + {p};
    case _ =>
  }

  /** When nobody touches the files, whatever has been cached passes the check from then on:
      the prompt is built once. */
  lemma QuietIsNeverRebuilt(tree: Tree, plan: Plan, run: seq<Sys>, s: Sys)
    requires Iteration.IsRun((s, t) => NextQuiet(tree, plan, s, t), run) && s in run
    requires run[0].phase.Idle? && run[0].cache.None?
    requires forall p <- run[0].files :: run[0].files[p].mtime <= run[0].last
    ensures s.cache.Some? ==> IsBaseline(tree, s.files, s.cache.value.baseline)
    ensures s.cache.Some? ==> Unchanged(tree, s.cache.value.baseline, s.files)
  {
    var next, inv := (s, t) => NextQuiet(tree, plan, s, t), (s: Sys) => QuietInv(tree, s);
    forall s: Sys, t: Sys | inv(s) && next(s, t) ensures inv(t) {
      var e: Event :|
        !e.Write? && !e.Delete? && Possible(tree, plan, s, e) && t == After(tree, plan, s, e);
      QuietStep(tree, plan, s, e);
    }
    Iteration.RunKeeps(next, inv, run);
    if s.cache.Some? {
      FreshBaselinePasses(tree, s.files, s.cache.value.baseline);
    }
  }
}
