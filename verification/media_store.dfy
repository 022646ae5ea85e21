/** The media index of pkg/media/store.go: three maps kept as one. */
module MediaStore {
  import opened Wrappers

  datatype Meta = Meta(filename: string, contentType: string, source: string)
  datatype Entry = Entry(path: string, meta: Meta, storedAt: int)

  /** What the three maps stand for: each reference with its entry and its scope. */
  datatype Item = Item(entry: Entry, scope: string)
  type Index = map<string, Item>

  function Owned(index: Index, scope: string): set<string> {
    set ref | ref in index && index[ref].scope == scope
  }

  function Older(index: Index, cutoff: int): set<string> {
    set ref | ref in index && index[ref].entry.storedAt < cutoff
  }

  /** `paths` are the paths of exactly the references in `gone`, one each. */
  ghost predicate PathsOf(paths: seq<string>, gone: set<string>, index: Index) {
    exists order: seq<string> :: Lists(order, gone) && gone <= index.Keys && paths == PathList(order, index)
  }

  ghost predicate Lists(order: seq<string>, gone: set<string>) {
    && (forall ref :: ref in order <==> ref in gone)
    && (forall i, j :: 0 <= i < j < |order| ==> order[i] != order[j])
  }

  ghost function PathList(order: seq<string>, index: Index): seq<string>
    requires forall ref <- order :: ref in index
  {
    seq(|order|, i requires 0 <= i < |order| => index[order[i]].entry.path)
  }

  /** `paths` are those of the references that are in `before` and not in `after`, one each. */
  ghost predicate ArePathsOfGone(paths: seq<string>, before: Index, after: Index) {
    exists order: seq<string> ::
      && (forall ref :: ref in order <==> ref in before && ref !in after)
      && (forall i, j :: 0 <= i < j < |order| ==> order[i] != order[j])
      && |paths| == |order| && forall i :: 0 <= i < |order| ==> paths[i] == before[order[i]].entry.path
  }

  lemma PathsAre(paths: seq<string>, gone: set<string>, before: Index)
    requires PathsOf(paths, gone, before)
    ensures ArePathsOfGone(paths, before, before - gone)
  {
    var order: seq<string> :| Lists(order, gone) && gone <= before.Keys && paths == PathList(order, before);
    assert forall i :: 0 <= i < |order| ==> order[i] in gone;
  }

  /** What stays is as it was, and exactly the references that meet `stays` do. */
  ghost predicate Keeps(before: Index, after: Index, stays: Item -> bool) {
    && (forall ref :: ref in after <==> ref in before && stays(before[ref]))
    && forall ref <- after :: after[ref] == before[ref]
  }

  /** Exactly the references of other scopes stay. */
  ghost predicate IsRelease(before: Index, after: Index, scope: string, paths: seq<string>) {
    Keeps(before, after, (x: Item) => x.scope != scope) && ArePathsOfGone(paths, before, after)
  }

  lemma ReleasedIs(paths: seq<string>, before: Index, scope: string, after: Index)
    requires PathsOf(paths, Owned(before, scope), before) && after == before - Owned(before, scope)
    ensures IsRelease(before, after, scope, paths)
  {
    PathsAre(paths, Owned(before, scope), before);
  }

  // ------------------------------------------------------- the two scope maps

  function RefsOf(refToScope: map<string, string>, scope: string): set<string> {
    set ref | ref in refToScope && refToScope[ref] == scope
  }

  /** The inverse of `refToScope`; it has no empty sets. */
  ghost function Inverted(refToScope: map<string, string>): map<string, set<string>> {
    map scope | scope in refToScope.Values :: RefsOf(refToScope, scope)
  }

  lemma InvertedHas(m: map<string, string>, ref: string)
    requires ref in m
    ensures m[ref] in Inverted(m) && ref in Inverted(m)[m[ref]]
    ensures forall scope <- Inverted(m) :: Inverted(m)[scope] == RefsOf(m, scope) && RefsOf(m, scope) != {}
  {
    forall scope | scope in Inverted(m) ensures RefsOf(m, scope) != {} {
      var r :| r in m && m[r] == scope;
      assert r in RefsOf(m, scope);
    }
  }

  lemma InvertedAdd(m: map<string, string>, ref: string, scope: string)
    requires ref !in m
    ensures Inverted(m[ref := scope]) == Inverted(m)[scope := RefsOf(m, scope) + {ref}]
    ensures scope !in Inverted(m) ==> RefsOf(m, scope) == {}
  {
    var n := m[ref := scope];
    assert n.Values == m.Values + {scope} by {
      forall v | v in m.Values + {scope} ensures v in n.Values {
        if v == scope { assert n[ref] == v; } else { var r :| r in m && m[r] == v; assert n[r] == v; }
      }
    }
    forall v | v in n.Values ensures RefsOf(n, v) == (if v == scope then RefsOf(m, v) + {ref} else RefsOf(m, v)) { }
  }

  lemma InvertedDrop(m: map<string, string>, gone: set<string>, scope: string)
    requires gone <= RefsOf(m, scope) && scope in m.Values
    ensures var rest := RefsOf(m, scope) - gone;
            Inverted(m - gone) == if rest == {} then Inverted(m) - {scope} else Inverted(m)[scope := rest]
  {
    var n := m - gone;
    var rest := RefsOf(m, scope) - gone;
    forall v | v != scope ensures RefsOf(n, v) == RefsOf(m, v) { }
    assert RefsOf(n, scope) == rest;
    forall v ensures v in n.Values <==> (if v == scope then rest != {} else v in m.Values) {
      ValuesOf(n, v);
      ValuesOf(m, v);
    }
  }

  lemma ValuesOf(m: map<string, string>, v: string)
    ensures v in m.Values <==> RefsOf(m, v) != {}
  {
    if v in m.Values {
      var r :| r in m && m[r] == v;
      assert r in RefsOf(m, v);
    }
    forall r | r in RefsOf(m, v) ensures v in m.Values {
      assert m[r] == v;
    }
  }

  class FileMediaStore {
    var refs: map<string, Entry>
    var scopeToRefs: map<string, set<string>>
    var refToScope: map<string, string>
    const maxAge: int

    /** The two scope maps are inverse to each other, over the references that have an
        entry. */
    ghost predicate Valid()
      reads this
    {
      refs.Keys == refToScope.Keys && scopeToRefs == Inverted(refToScope)
    }

    ghost function Contents(): Index
      reads this
      requires Valid()
    {
      map ref | ref in refs :: Item(refs[ref], refToScope[ref])
    }

    constructor (maxAge: int)
      ensures Valid() && Contents() == map[] && this.maxAge == maxAge
    {
      this.maxAge := maxAge;
      refs, scopeToRefs, refToScope := map[], map[], map[];
    }

    /** Registers a file that exists. `ref` is the new random identifier. */
    method Store(localPath: string, onDisk: bool, meta: Meta, scope: string, ref: string, now: int)
      returns (r: Result<string>)
      requires Valid() && ref !in refs
      modifies this
      ensures Valid()
      ensures r == if onDisk then Ok(ref) else Err
      ensures Contents() == if onDisk then old(Contents())[ref := Item(Entry(localPath, meta, now), scope)]
                            else old(Contents())
    {
      if !onDisk {
        return Err;
      }
      InvertedAdd(refToScope, ref, scope);
      refs := refs[ref := Entry(localPath, meta, now)];
      if scope !in scopeToRefs {
        scopeToRefs := scopeToRefs[scope := {}];
      }
      scopeToRefs := scopeToRefs[scope := scopeToRefs[scope] + {ref}];
      refToScope := refToScope[ref := scope];
      return Ok(ref);
    }

    method Resolve(ref: string) returns (r: Result<string>)
      requires Valid()
      ensures r == if ref in Contents() then Ok(Contents()[ref].entry.path) else Err
    {
      if ref in refs {
        return Ok(refs[ref].path);
      }
      return Err;
    }

    /** Forgets one scope and returns the files to delete. */
    method ReleaseAll(scope: string) returns (paths: seq<string>)
      requires Valid()
      modifies this
      ensures Valid()
      ensures Contents() == old(Contents()) - Owned(old(Contents()), scope)
      ensures PathsOf(paths, Owned(old(Contents()), scope), old(Contents()))
      ensures IsRelease(old(Contents()), Contents(), scope, paths)
    {
      paths := [];
      ghost var index := Contents();
      ghost var order: seq<string> := [];
      ValuesOf(refToScope, scope);
      ghost var all := RefsOf(refToScope, scope);
      assert all == Owned(index, scope);
      if scope !in scopeToRefs {
        assert Lists(order, {}) && paths == PathList(order, index);
        ReleasedIs(paths, index, scope, index);
        return;
      }
      InvertedDrop(refToScope, all, scope);
      var todo := scopeToRefs[scope];
      while todo != {}
        invariant scopeToRefs == old(scopeToRefs) && todo <= all <= old(refs).Keys
        invariant refs == old(refs) - (all - todo) && refToScope == old(refToScope) - (all - todo)
        invariant Lists(order, all - todo) && paths == PathList(order, index)
        decreases todo
      {
        var ref :| ref in todo;
        todo := todo - {ref};
        if ref in refs {
          paths := paths + [refs[ref].path];
          ListsSnoc(order, all - (todo + {ref}), ref, index);
          order := order + [ref];
        }
        assert all - todo == (all - (todo + {ref})) + {ref};
        refs := refs - {ref};
        refToScope := refToScope - {ref};
      }
      scopeToRefs := scopeToRefs - {scope};
      assert all - {} == all;
      ReleasedIs(paths, index, scope, Contents());
    }

    /** Forgets every entry stored before the cutoff and returns the files to delete. */
    method CleanExpired(now: int) returns (paths: seq<string>)
      requires Valid()
      modifies this
      ensures Valid()
      ensures var gone := if maxAge <= 0 then {} else Older(old(Contents()), now - maxAge);
              Contents() == old(Contents()) - gone && PathsOf(paths, gone, old(Contents()))
      ensures Keeps(old(Contents()), Contents(), (x: Item) => maxAge <= 0 || now <= x.entry.storedAt + maxAge)
      ensures ArePathsOfGone(paths, old(Contents()), Contents())
    {
      paths := [];
      ghost var index := Contents();
      ghost var order: seq<string> := [];
      ghost var gone: set<string> := {};
      if maxAge <= 0 {
        assert Lists(order, {}) && paths == PathList(order, index);
        assert index - {} == index;
        PathsAre(paths, {}, index);
        return;
      }
      var cutoff := now - maxAge;
      var todo := refs.Keys;
      while todo != {}
        invariant Valid() && todo <= refs.Keys && Contents() == index - gone
        invariant gone <= Older(index, cutoff) <= gone + todo && gone !! todo
        invariant Lists(order, gone) && paths == PathList(order, index)
        decreases todo
      {
        var ref :| ref in todo;
        todo := todo - {ref};
        var entry := refs[ref];
        assert Contents()[ref].entry == entry && index[ref].entry == entry;
        if entry.storedAt < cutoff {
          paths := paths + [entry.path];
          ListsSnoc(order, gone, ref, index);
          Drop(ref);
          order, gone := order + [ref], gone + {ref};
        }
      }
      assert gone == Older(index, cutoff);
      PathsAre(paths, gone, index);
    }

    /** Removes one reference from all three maps, and its scope with the last of them. */
    method Drop(ref: string)
      requires Valid() && ref in refs
      modifies this
      ensures Valid() && refs == old(refs) - {ref}
      ensures Contents() == old(Contents()) - {ref}
    {
      InvertedHas(refToScope, ref);
      var scope := refToScope[ref];
      InvertedDrop(refToScope, {ref}, scope);
      var scopeRefs := scopeToRefs[scope] - {ref};
      if |scopeRefs| == 0 {
        scopeToRefs := scopeToRefs - {scope};
      } else {
        scopeToRefs := scopeToRefs[scope := scopeRefs];
      }
      refs := refs - {ref};
      refToScope := refToScope - {ref};
    }
  }

  lemma ListsSnoc(order: seq<string>, gone: set<string>, ref: string, index: Index)
    requires Lists(order, gone) && ref !in gone && ref in index && forall r <- order :: r in index
    ensures Lists(order + [ref], gone + {ref})
    ensures forall r <- order + [ref] :: r in index
    ensures PathList(order + [ref], index) == PathList(order, index) + [index[ref].entry.path]
  {
  }

  // ----------------------------------------------------------------- whole runs

  datatype Op =
    | Put(ref: string, item: Item)
    | Release(scope: string)
    | Clean(cutoff: int)

  /** The index after a sequence of operations, and what was removed, oldest first. */
  datatype Ledger = Ledger(live: Index, removed: seq<Index>)

  function Taken(index: Index, gone: set<string>): Index {
    map ref | ref in index && ref in gone :: index[ref]
  }

  function Remove(l: Ledger, gone: set<string>): Ledger {
    Ledger(l.live - gone, l.removed + [Taken(l.live, gone)])
  }

  function Apply(l: Ledger, op: Op): Ledger {
    match op
    case Put(ref, item) => Ledger(l.live[ref := item], l.removed)
    case Release(scope) => Remove(l, Owned(l.live, scope))
    case Clean(cutoff) => Remove(l, Older(l.live, cutoff))
  }

  function ApplyAll(l: Ledger, ops: seq<Op>): Ledger {
    if ops == [] then l else Apply(ApplyAll(l, ops[..|ops| - 1]), ops[|ops| - 1])
  }

  /** A history from the empty store. */
  function Replay(ops: seq<Op>): Ledger {
    ApplyAll(Ledger(map[], []), ops)
  }

  function Stored(ops: seq<Op>): set<string> {
    set op | op in ops && op.Put? :: op.ref
  }

  /** Every identifier is used once. */
  ghost predicate FreshRefs(ops: seq<Op>) {
    forall i, j :: 0 <= i < j < |ops| && ops[i].Put? && ops[j].Put? ==> ops[i].ref != ops[j].ref
  }

  ghost predicate WasRemoved(removed: seq<Index>, ref: string) {
    exists k :: 0 <= k < |removed| && ref in removed[k]
  }

  /** No reference was removed by two operations. */
  ghost predicate RemovedOnce(removed: seq<Index>) {
    forall k, m, ref :: 0 <= k < m < |removed| && ref in removed[k] ==> ref !in removed[m]
  }

  /** Of the references stored, each is either live or was removed once. */
  ghost predicate Accounts(l: Ledger, stored: set<string>) {
    && (forall ref :: ref in stored <==> ref in l.live || WasRemoved(l.removed, ref))
    && (forall ref <- l.live :: !WasRemoved(l.removed, ref))
    && RemovedOnce(l.removed)
  }

  lemma PutAccounts(l: Ledger, stored: set<string>, ref: string, item: Item)
    requires Accounts(l, stored) && ref !in stored
    ensures Accounts(Ledger(l.live[ref := item], l.removed), stored + {ref})
  {
  }

  lemma OneMoreRemoved(removed: seq<Index>, last: Index, ref: string)
    ensures WasRemoved(removed + [last], ref) <==> WasRemoved(removed, ref) || ref in last
  {
    var longer := removed + [last];
    if k :| 0 <= k < |removed| && ref in removed[k] {
      assert ref in longer[k];
    }
    if ref in last {
      assert ref in longer[|removed|];
    }
  }

  lemma RemoveAccounts(l: Ledger, stored: set<string>, gone: set<string>)
    requires Accounts(l, stored) && gone <= l.live.Keys
    ensures Accounts(Remove(l, gone), stored)
  {
    var last := Taken(l.live, gone);
    forall ref ensures WasRemoved(l.removed + [last], ref) <==> WasRemoved(l.removed, ref) || ref in gone {
      OneMoreRemoved(l.removed, last, ref);
    }
    forall k, ref | 0 <= k < |l.removed| && ref in l.removed[k] ensures ref !in last {
      assert WasRemoved(l.removed, ref);
    }
  }

  /** In every history each stored reference is either live or was removed by exactly one
      operation: no reference is removed twice, none is forgotten. */
  lemma {:induction false} LiveOrRemovedOnce(ops: seq<Op>)
    requires FreshRefs(ops)
    ensures Accounts(Replay(ops), Stored(ops))
    decreases |ops|
  {
    if ops != [] {
      var front, op := ops[..|ops| - 1], ops[|ops| - 1];
      LiveOrRemovedOnce(front);
      assert Stored(ops) == Stored(front) + (if op.Put? then {op.ref} else {}) by {
        assert forall o <- ops :: o in front || o == op;
        assert op in ops;
      }
      match op
      case Put(ref, item) => PutAccounts(Replay(front), Stored(front), ref, item);
      case Release(scope) => RemoveAccounts(Replay(front), Stored(front), Owned(Replay(front).live, scope));
      case Clean(cutoff) => RemoveAccounts(Replay(front), Stored(front), Older(Replay(front).live, cutoff));
    }
  }

  // ---------------------------------------------------------------------- files

  /** Two references that every removal treats alike. `cleans` says whether expired entries are
      removed at all, which a maximal age of 0 or less turns off. */
  predicate Alike(x: Item, y: Item, cleans: bool) {
    x.scope == y.scope && (cleans ==> x.entry.storedAt == y.entry.storedAt)
  }

  /** A stored item next to the live references: those to the same file are like it. */
  ghost predicate Agrees(live: Index, item: Item, cleans: bool) {
    forall ref <- live :: live[ref].entry.path == item.entry.path ==> Alike(live[ref], item, cleans)
  }

  /** Any two live references to one file are alike. */
  ghost predicate Paired(live: Index, cleans: bool) {
    forall ref <- live :: Agrees(live, live[ref], cleans)
  }

  predicate IsRemoval(op: Op, cleans: bool) {
    op.Release? || (cleans && op.Clean?)
  }

  /** No file handed back for deletion since the `n`-th removal belongs to a live reference. */
  ghost predicate Dead(l: Ledger, n: nat) {
    forall k, a, b :: n <= k < |l.removed| && a in l.removed[k] && b in l.live ==>
      l.removed[k][a].entry.path != l.live[b].entry.path
  }

  /** Whatever is removed from now on, in whatever order, no live reference loses its file. */
  ghost predicate SafeFromNow(l: Ledger, cleans: bool) {
    forall ops: seq<Op> :: (forall op <- ops :: IsRemoval(op, cleans)) ==> Dead(ApplyAll(l, ops), |l.removed|)
  }

  /** A removal takes both of two like references or neither. */
  lemma RemovalTakesBoth(l: Ledger, op: Op, cleans: bool, a: string, b: string)
    requires IsRemoval(op, cleans) && a in l.live && b in l.live && Alike(l.live[a], l.live[b], cleans)
    ensures a in Apply(l, op).live <==> b in Apply(l, op).live
  {
  }

  /** What removals do to a paired store: nothing they hand back is in use. */
  lemma {:induction false} PairedIsSafe(l: Ledger, ops: seq<Op>, cleans: bool)
    requires Paired(l.live, cleans) && forall op <- ops :: IsRemoval(op, cleans)
    ensures var l' := ApplyAll(l, ops);
            Paired(l'.live, cleans) && |l.removed| <= |l'.removed| && Dead(l', |l.removed|)
    decreases |ops|
  {
    if ops != [] {
      var front, op := ops[..|ops| - 1], ops[|ops| - 1];
      assert op in ops && forall o <- front :: o in ops;
      PairedIsSafe(l, front, cleans);
      RemovalKeepsPaired(ApplyAll(l, front), op, cleans, |l.removed|);
    }
  }

  lemma RemovalKeepsPaired(l: Ledger, op: Op, cleans: bool, n: nat)
    requires Paired(l.live, cleans) && IsRemoval(op, cleans) && n <= |l.removed| && Dead(l, n)
    ensures var l' := Apply(l, op); Paired(l'.live, cleans) && n <= |l'.removed| && Dead(l', n)
  {
    var l' := Apply(l, op);
    forall k, a, b | n <= k < |l'.removed| && a in l'.removed[k] && b in l'.live
      ensures l'.removed[k][a].entry.path != l'.live[b].entry.path
    {
      if k < |l.removed| {
        assert l'.removed[k] == l.removed[k];
      } else {
        assert Agrees(l.live, l.live[b], cleans);
        if Alike(l.live[a], l.live[b], cleans) {
          RemovalTakesBoth(l, op, cleans, a, b);
        }
      }
    }
    FewerStayPaired(l.live, l'.live, cleans);
  }

  lemma FewerStayPaired(live: Index, rest: Index, cleans: bool)
    requires Paired(live, cleans) && forall ref <- rest :: ref in live && rest[ref] == live[ref]
    ensures Paired(rest, cleans)
  {
    forall b | b in rest ensures Agrees(rest, rest[b], cleans) {
      assert Agrees(live, live[b], cleans);
    }
  }

  /** Two live references to one file that are not alike: some removal takes one of them and
      leaves the other without its file. */
  lemma UnlikeIsUnsafe(l: Ledger, cleans: bool, a: string, b: string)
    requires a in l.live && b in l.live && l.live[a].entry.path == l.live[b].entry.path
    requires !Alike(l.live[a], l.live[b], cleans)
    ensures !SafeFromNow(l, cleans)
  {
    var x, y := l.live[a], l.live[b];
    var older := x.entry.storedAt < y.entry.storedAt;
    var op := if x.scope != y.scope then Release(x.scope)
              else Clean(if older then y.entry.storedAt else x.entry.storedAt);
    var gone := if x.scope != y.scope || older then a else b;
    var kept := if gone == a then b else a;
    assert IsRemoval(op, cleans);
    var l' := Apply(l, op);
    assert [op][..0] == [] && ApplyAll(l, []) == l && ApplyAll(l, [op]) == l';
    assert gone in l'.removed[|l.removed|] && kept in l'.live;
    assert !Dead(l', |l.removed|);
    assert forall o <- [op] :: IsRemoval(o, cleans);
  }

  /** Exactly when a live reference can lose its file: whenever two live references to one file
      differ in scope, or, with cleaning on, in age. */
  lemma SafeIffPaired(l: Ledger, cleans: bool)
    ensures SafeFromNow(l, cleans) <==> Paired(l.live, cleans)
  {
    if Paired(l.live, cleans) {
      forall ops: seq<Op> | forall op <- ops :: IsRemoval(op, cleans) ensures Dead(ApplyAll(l, ops), |l.removed|) {
        PairedIsSafe(l, ops, cleans);
      }
    } else {
      var b :| b in l.live && !Agrees(l.live, l.live[b], cleans);
      var a :| a in l.live && l.live[a].entry.path == l.live[b].entry.path && !Alike(l.live[a], l.live[b], cleans);
      UnlikeIsUnsafe(l, cleans, a, b);
    }
  }

  /** Storing under a new identifier keeps a store paired exactly when the item agrees. */
  lemma PutKeepsPairedIff(live: Index, ref: string, item: Item, cleans: bool)
    requires Paired(live, cleans) && ref !in live
    ensures Paired(live[ref := item], cleans) <==> Agrees(live, item, cleans)
  {
    var live' := live[ref := item];
    if Paired(live', cleans) {
      assert Agrees(live', live'[ref], cleans);
      assert forall r <- live :: live'[r] == live[r];
    }
    if Agrees(live, item, cleans) {
      forall r | r in live' ensures Agrees(live', live'[r], cleans) {
        assert r in live ==> Agrees(live, live[r], cleans);
      }
    }
  }

  /** Every item stored agreed with what was live at that moment. */
  ghost predicate StoresAgree(ops: seq<Op>, cleans: bool) {
    forall i :: 0 <= i < |ops| && ops[i].Put? ==> Agrees(Replay(ops[..i]).live, ops[i].item, cleans)
  }

  ghost predicate SafeThroughout(ops: seq<Op>, cleans: bool) {
    forall k :: 0 <= k <= |ops| ==> SafeFromNow(Replay(ops[..k]), cleans)
  }

  lemma OpKeepsPairedIff(ops: seq<Op>, k: nat, cleans: bool)
    requires FreshRefs(ops) && k < |ops| && Paired(Replay(ops[..k]).live, cleans)
    ensures Paired(Replay(ops[..k + 1]).live, cleans) <==>
            (ops[k].Put? ==> Agrees(Replay(ops[..k]).live, ops[k].item, cleans))
  {
    var l := Replay(ops[..k]);
    assert ops[..k + 1][..k] == ops[..k] && ops[..k + 1][k] == ops[k];
    match ops[k]
    case Put(ref, item) =>
      LiveOrRemovedOnce(ops[..k]);
      assert ref !in Stored(ops[..k]);
      PutKeepsPairedIff(l.live, ref, item, cleans);
    case Release(_) => FewerStayPaired(l.live, Apply(l, ops[k]).live, cleans);
    case Clean(_) => FewerStayPaired(l.live, Apply(l, ops[k]).live, cleans);
  }

  lemma {:induction false} AgreeingStoresArePaired(ops: seq<Op>, cleans: bool, k: nat)
    requires FreshRefs(ops) && StoresAgree(ops, cleans) && k <= |ops|
    ensures Paired(Replay(ops[..k]).live, cleans)
    decreases k
  {
    if k > 0 {
      AgreeingStoresArePaired(ops, cleans, k - 1);
      OpKeepsPairedIff(ops, k - 1, cleans);
    } else {
      assert ops[..0] == [];
    }
  }

  /** A whole history is safe at every moment if and only if every item stored agrees with the
      live ones: a caller can tell before each `Store`. */
  lemma HistoryIsSafeIff(ops: seq<Op>, cleans: bool)
    requires FreshRefs(ops)
    ensures SafeThroughout(ops, cleans) <==> StoresAgree(ops, cleans)
  {
    if StoresAgree(ops, cleans) {
      forall k | 0 <= k <= |ops| ensures SafeFromNow(Replay(ops[..k]), cleans) {
        AgreeingStoresArePaired(ops, cleans, k);
        SafeIffPaired(Replay(ops[..k]), cleans);
      }
    }
    if SafeThroughout(ops, cleans) {
      forall i | 0 <= i < |ops| && ops[i].Put? ensures Agrees(Replay(ops[..i]).live, ops[i].item, cleans) {
        SafeIffPaired(Replay(ops[..i]), cleans);
        SafeIffPaired(Replay(ops[..i + 1]), cleans);
        OpKeepsPairedIff(ops, i, cleans);
      }
    }
  }

  /** In such a history a file handed back for deletion belongs to no live reference at that
      moment. */
  lemma RemovedFilesAreDead(ops: seq<Op>, cleans: bool, i: nat)
    requires FreshRefs(ops) && StoresAgree(ops, cleans) && i < |ops| && IsRemoval(ops[i], cleans)
    ensures Dead(Replay(ops[..i + 1]), |Replay(ops[..i]).removed|)
  {
    AgreeingStoresArePaired(ops, cleans, i);
    RemovalKeepsPaired(Replay(ops[..i]), ops[i], cleans, |Replay(ops[..i]).removed|);
    assert ops[..i + 1][..i] == ops[..i] && ops[..i + 1][i] == ops[i];
  }

  // ------------------------------------------------------- a file for each reference

  ghost predicate WereStored(items: Index, ops: seq<Op>) {
    forall ref <- items :: Put(ref, items[ref]) in ops
  }

  /** Every item that is live or was removed is one that was stored. */
  lemma {:induction false} ItemsWereStored(ops: seq<Op>)
    ensures WereStored(Replay(ops).live, ops)
    ensures forall k :: 0 <= k < |Replay(ops).removed| ==> WereStored(Replay(ops).removed[k], ops)
    decreases |ops|
  {
    if ops != [] {
      var front, op := ops[..|ops| - 1], ops[|ops| - 1];
      ItemsWereStored(front);
      assert op in ops && forall o <- front :: o in ops;
      var l, l' := Replay(front), Replay(ops);
      assert WereStored(l.live, ops);
      forall k | 0 <= k < |l'.removed| ensures WereStored(l'.removed[k], ops) {
        assert k < |l.removed| ==> WereStored(l.removed[k], front);
      }
    }
  }

  /** No two references are stored for one file. */
  ghost predicate FreshPaths(ops: seq<Op>) {
    forall i, j :: 0 <= i < j < |ops| && ops[i].Put? && ops[j].Put? ==>
      ops[i].item.entry.path != ops[j].item.entry.path
  }

  lemma DifferentRefsDifferentFiles(ops: seq<Op>, a: string, x: Item, b: string, y: Item)
    requires FreshPaths(ops) && Put(a, x) in ops && Put(b, y) in ops && a != b
    ensures x.entry.path != y.entry.path
  {
    var i :| 0 <= i < |ops| && ops[i] == Put(a, x);
    var j :| 0 <= j < |ops| && ops[j] == Put(b, y);
  }

  /** Then a file that is handed back for deletion belongs to no reference that is live at the
      end, and none is handed back twice. */
  lemma FreshFilesAreRemovedOnce(ops: seq<Op>, k: nat, a: string)
    requires FreshRefs(ops) && FreshPaths(ops) && k < |Replay(ops).removed| && a in Replay(ops).removed[k]
    ensures var l := Replay(ops);
            && (forall b <- l.live :: l.live[b].entry.path != l.removed[k][a].entry.path)
            && (forall m, b :: 0 <= m < |l.removed| && b in l.removed[m] && (m != k || b != a) ==>
                  l.removed[m][b].entry.path != l.removed[k][a].entry.path)
  {
    var l := Replay(ops);
    LiveOrRemovedOnce(ops);
    ItemsWereStored(ops);
    assert WasRemoved(l.removed, a);
    assert WereStored(l.removed[k], ops);
    forall b | b in l.live ensures l.live[b].entry.path != l.removed[k][a].entry.path {
      DifferentRefsDifferentFiles(ops, b, l.live[b], a, l.removed[k][a]);
    }
    forall m, b | 0 <= m < |l.removed| && b in l.removed[m] && (m != k || b != a)
      ensures l.removed[m][b].entry.path != l.removed[k][a].entry.path
    {
      assert WereStored(l.removed[m], ops);
      DifferentRefsDifferentFiles(ops, b, l.removed[m][b], a, l.removed[k][a]);
    }
  }

  /** A store under no path twice agrees with everything. */
  lemma FreshPathsAgree(ops: seq<Op>, cleans: bool)
    requires FreshPaths(ops)
    ensures StoresAgree(ops, cleans)
  {
    forall i, ref | 0 <= i < |ops| && ops[i].Put? && ref in Replay(ops[..i]).live
      ensures Replay(ops[..i]).live[ref].entry.path != ops[i].item.entry.path
    {
      ItemsWereStored(ops[..i]);
      var j :| 0 <= j < i && ops[..i][j] == Put(ref, Replay(ops[..i]).live[ref]);
      assert ops[j] == ops[..i][j];
    }
  }

  /** Two references to one file in different scopes: releasing one scope hands back the file
      of the other, live one. */
  lemma SharedFileIsLost(a: string, x: Item, b: string, y: Item)
    requires a != b && x.scope != y.scope && x.entry.path == y.entry.path
    ensures var l := Replay([Put(a, x), Put(b, y), Release(x.scope)]);
            && b in l.live && |l.removed| == 1 && a in l.removed[0]
            && l.removed[0][a].entry.path == l.live[b].entry.path
  {
    var ops := [Put(a, x), Put(b, y), Release(x.scope)];
    assert ops[..2] == [Put(a, x), Put(b, y)] && ops[..2][..1] == [Put(a, x)] && ops[..2][..1][..0] == [];
    var none := Ledger(map[], []);
    assert ApplyAll(none, ops[..2][..1]) == Apply(none, Put(a, x));
    assert ApplyAll(none, ops[..2]) == Apply(Apply(none, Put(a, x)), Put(b, y));
    assert Replay(ops) == Apply(ApplyAll(none, ops[..2]), Release(x.scope));
  }
}
