/** Cleanup: list the upload directory, plan, and remove what the plan names. */
module DirOps {
  import opened Types
  import opened Peer
  import opened UploadName
  import opened Listings
  import opened Client
  import opened Transcript
  import Retention

  datatype CleanupResult = CleanupResult(listed: nat, removed: nat, failed: nat, skipped: nat, truncated: bool)

  /** `dir` and `name` with one slash between them. */
  function Joined(dir: string, name: string): string {
    dir + (if dir != [] && dir[|dir| - 1] != '/' then "/" else "") + name
  }

  function JoinPath(dir: string, name: string): Option<string> {
    if MAX_PATH < |Joined(dir, name)| + 1 then None else Some(Joined(dir, name))
  }

  // ----- histories in which files only disappear ------------------------------------------

  ghost predicate OnlyRemoved(before: Fs, after: Fs, paths: set<string>) {
    && (forall x :: x in after.files ==> x in before.files && after.files[x] == before.files[x])
    && (forall x :: x in before.files && x !in paths ==> x in after.files)
  }

  /** At every moment since, the files were those of before less some of `paths`. */
  ghost predicate Pruned(before: seq<Fs>, after: seq<Fs>, honest: bool, paths: set<string>) {
    && before <= after
    && (honest && before != [] ==>
          forall k {:trigger after[k]} :: |before| <= k < |after| ==> OnlyRemoved(before[|before| - 1], after[k], paths))
  }

  lemma PrunedStill(start: seq<Fs>, end: seq<Fs>, honest: bool)
    requires Confined(start, end, honest, {})
    ensures Pruned(start, end, honest, {})
  {
  }

  lemma PrunedThen(start: seq<Fs>, mid: seq<Fs>, end: seq<Fs>, was: bool, honest: bool, paths: set<string>, path: string)
    requires Pruned(start, mid, was, paths) && (honest ==> was) && start != []
    requires end == mid || (end != [] && end[..|end| - 1] == mid)
    requires honest && end != mid ==>
               var before, after := mid[|mid| - 1].files, end[|end| - 1].files; after == before || after == before - {path}
    ensures Pruned(start, end, honest, paths + {path})
  {
    if honest {
      var base := start[|start| - 1];
      forall k | |start| <= k < |end| ensures OnlyRemoved(base, end[k], paths + {path}) {
        if k < |mid| {
          assert end[k] == mid[k];
        } else {
          assert OnlyRemoved(base, mid[|mid| - 1], paths);
        }
      }
    }
  }

  // ----- the pass ---------------------------------------------------------------------------

  /** The entries that the plan names. */
  ghost function Planned(es: seq<Entry>, now: nat, p: Retention.Policy): set<nat> {
    set i: nat | i < |es| && Retention.Doomed(es, now, p, i)
  }

  ghost function PlannedPaths(dir: string, es: seq<Entry>, now: nat, p: Retention.Policy): set<string> {
    set i | i in Planned(es, now, p) :: Joined(dir, es[i].name)
  }

  /** A path that names one of our uploads in `dir`. */
  ghost predicate OursIn(dir: string, path: string) { exists name :: IsUploadName(name) && path == Joined(dir, name) }

  /** Nothing but REMOVEs of these paths was asked. */
  ghost predicate OnlyThese(part: seq<Said>, paths: set<string>) {
    forall k :: 0 <= k < |part| ==> part[k].req.Remove? && part[k].req.path in paths
  }

  /** The peer said that the file is gone. */
  predicate SaysGone(s: Said) {
    s.req.Remove? && (s.heard == Replied(StatusReply(s.req.id, OK)) || s.heard == Replied(StatusReply(s.req.id, NO_SUCH_FILE)))
  }

  ghost function CountGone(part: seq<Said>): nat {
    if part == [] then 0 else CountGone(part[..|part| - 1]) + if SaysGone(part[|part| - 1]) then 1 else 0
  }

  lemma OneMoreGone(part: seq<Said>, s: Said, paths: set<string>)
    requires OnlyThese(part, paths) && s.req.Remove? && s.req.path in paths
    ensures OnlyThese(part + [s], paths) && CountGone(part + [s]) == CountGone(part) + if SaysGone(s) then 1 else 0
  {
    assert (part + [s])[..|part|] == part;
  }

  /** One REMOVE, or none for a path that would not fit. */
  method RemoveOne(c: Client, dir: string, name: string, ghost plan: set<string>, ghost from: seq<Said>, ghost part: seq<Said>)
    returns (ok: bool, ghost path: string, ghost grown: seq<Said>)
    requires c.Valid() && Joined(dir, name) in plan && c.log == from + part && OnlyThese(part, plan)
    modifies c, c.ch
    ensures c.Valid() && c.ch.Onward() && c.initialized == old(c.initialized) && path == Joined(dir, name)
    ensures path == dir + (if dir != [] && dir[|dir| - 1] != '/' then "/" else "") + name
    ensures c.ch.trace == old(c.ch.trace) || c.ch.trace == old(c.ch.trace) + [c.ch.fs]
    ensures c.ch.honest ==> c.ch.fs.handles == old(c.ch.fs.handles)
    ensures c.ch.honest ==> c.ch.fs.files == old(c.ch.fs.files) || c.ch.fs.files == old(c.ch.fs.files) - {path}
    ensures c.ch.honest && ok ==> path !in c.ch.fs.files
    ensures c.initialized && |path| < MAX_PATH && c.ch.Willing() ==> ok
    ensures c.log == from + grown && OnlyThese(grown, plan) && CountGone(grown) == CountGone(part) + if ok then 1 else 0
    ensures |grown| == |part| + if c.initialized && |path| < MAX_PATH then 1 else 0
    ensures part <= grown && forall k :: |part| <= k < |grown| ==> grown[k].req.Remove? && grown[k].req.path == path
  {
    hide OnlyThese, CountGone;
    path, grown := Joined(dir, name), part;
    var target := JoinPath(dir, name);
    if target.None? {
      return false, path, grown;
    }
    var st := c.Remove(target.value);
    ok := st.Ok?;
    if |c.log| != |from + part| {
      OneMoreGone(part, c.log[|c.log| - 1], plan);
      grown := part + [c.log[|c.log| - 1]];
    }
  }

  /** Removes the planned entries one by one. */
  method RemovePlanned(c: Client, dir: string, es: seq<Entry>, remove: seq<nat>, ghost plan: set<string>)
    returns (removed: nat, failed: nat, ghost touched: set<string>)
    requires c.Valid() && Retention.Indices(es, remove)
    requires forall k :: 0 <= k < |es| ==> IsUploadName(es[k].name)
    requires forall k :: 0 <= k < |remove| ==> Joined(dir, es[remove[k]].name) in plan
    modifies c, c.ch
    ensures c.Valid() && c.ch.Onward() && c.initialized == old(c.initialized)
    ensures c.ch.honest ==> c.ch.fs.handles == old(c.ch.fs.handles)
    ensures Pruned(old(c.ch.trace), c.ch.trace, c.ch.honest, touched)
    ensures touched <= plan
    ensures removed + failed == |remove|
    ensures old(c.log) <= c.log && OnlyThese(c.log[|old(c.log)|..], plan) && removed == CountGone(c.log[|old(c.log)|..])
    ensures c.ch.honest && failed == 0 ==> forall k :: 0 <= k < |remove| ==> Joined(dir, es[remove[k]].name) !in c.ch.fs.files
    ensures c.initialized && |dir| + 1 + MAX_NAME < MAX_PATH && c.ch.Willing() ==> failed == 0
  {
    hide IsUploadName, OnlyThese, CountGone;
    removed, failed, touched := 0, 0, {};
    ConfinedStill(c.ch.trace, c.ch.honest, {});
    PrunedStill(c.ch.trace, c.ch.trace, c.ch.honest);
    NoneGone(plan);
    ghost var part: seq<Said> := [];
    hide Pruned;
    for k := 0 to |remove|
      invariant c.Valid() && c.ch.Onward() && c.initialized == old(c.initialized)
      invariant c.ch.honest ==> c.ch.fs.handles == old(c.ch.fs.handles)
      invariant Pruned(old(c.ch.trace), c.ch.trace, c.ch.honest, touched)
      invariant touched <= plan
      invariant removed + failed == k
      invariant c.log == old(c.log) + part && OnlyThese(part, plan) && removed == CountGone(part)
      invariant c.ch.honest && failed == 0 ==> forall j :: 0 <= j < k ==> Joined(dir, es[remove[j]].name) !in c.ch.fs.files
      invariant c.initialized && |dir| + 1 + MAX_NAME < MAX_PATH && c.ch.Willing() ==> failed == 0
    {
      var name := es[remove[k]].name;
      NamesAreShort(name);
      ghost var seen, was := c.ch.trace, c.ch.honest;
      var ok;
      ghost var path;
      ok, path, part := RemoveOne(c, dir, name, plan, old(c.log), part);
      PrunedThen(old(c.ch.trace), seen, c.ch.trace, was, c.ch.honest, touched, path);
      touched := touched + {path};
      if ok {
        removed := removed + 1;
      } else {
        failed := failed + 1;
      }
    }
    assert c.log[|old(c.log)|..] == part;
  }

  lemma NoneGone(paths: set<string>)
    ensures OnlyThese([], paths) && CountGone([]) == 0
  {
  }

  lemma NamesAreShort(name: string)
    requires IsUploadName(name)
    ensures |name| <= MAX_NAME
  {
  }

  /** What a pass over a directory with these entries must report. */
  ghost predicate Reports(r: CleanupResult, entries: seq<Entry>, now: nat, p: Retention.Policy) {
    var l := Scan(entries);
    && r.skipped == l.skipped && r.truncated == l.truncated
    && (l.truncated ==> r.listed == 0 && r.removed == 0 && r.failed == 0)
    && (!l.truncated ==> r.listed == |l.entries| && r.removed + r.failed == |Planned(l.entries, now, p)|)
  }

  /** For any peer: one whole listing, then REMOVEs of exactly our uploads in it that the plan
      names, and a report that counts what the peer acknowledged. */
  ghost predicate CleanupSaid(part: seq<Said>, dir: string, r: CleanupResult, now: nat, p: Retention.Policy) {
    exists l, k :: 0 <= k <= |part| && ListDirSaid(part[..k], dir, l) && PassSaid(part[k..], dir, l, r, now, p)
  }

  ghost predicate PassSaid(part: seq<Said>, dir: string, l: Listing, r: CleanupResult, now: nat, p: Retention.Policy) {
    && r.skipped == l.skipped && r.truncated == l.truncated && r.removed == CountGone(part)
    && OnlyThese(part, PlannedPaths(dir, l.entries, now, p))
    && if l.truncated || l.dirMissing then part == [] && r.listed == 0 && r.failed == 0
       else r.listed == |l.entries| && r.removed + r.failed == |Planned(l.entries, now, p)|
  }

  lemma CleanupHeard(log: seq<Said>, mid: seq<Said>, end: seq<Said>, dir: string, l: Listing, r: CleanupResult,
                     now: nat, p: Retention.Policy)
    requires log <= mid <= end && ListDirSaid(mid[|log|..], dir, l) && PassSaid(end[|mid|..], dir, l, r, now, p)
    ensures CleanupSaid(end[|log|..], dir, r, now, p)
  {
    hide ListDirSaid, PassSaid;
    var part, k := end[|log|..], |mid| - |log|;
    assert part[..k] == mid[|log|..] && part[k..] == end[|mid|..];
  }

  /** What a pass asks to be removed, whoever the peer is: `dir/name`, or `dirname` for a directory
      that ends in a slash, where `name` is an upload name that it has listed and that the plan
      names; and no other request changes anything. */
  lemma CleanupAsks(part: seq<Said>, dir: string, r: CleanupResult, now: nat, p: Retention.Policy, k: nat)
    requires CleanupSaid(part, dir, r, now, p) && k < |part|
    ensures part[k].req.Remove? || OnlyLooks([part[k]])
    ensures part[k].req.Remove? && dir != [] && dir[|dir| - 1] != '/' ==>
      exists n: nat, l, i: nat ::
        n <= |part| && ListDirSaid(part[..n], dir, l) && i < |l.entries| && Retention.Doomed(l.entries, now, p, i)
        && IsUploadName(l.entries[i].name) && part[k].req.path == dir + "/" + l.entries[i].name
    ensures part[k].req.Remove? && dir != [] && dir[|dir| - 1] == '/' ==>
      exists n: nat, l, i: nat ::
        n <= |part| && ListDirSaid(part[..n], dir, l) && i < |l.entries| && Retention.Doomed(l.entries, now, p, i)
        && IsUploadName(l.entries[i].name) && part[k].req.path == dir + l.entries[i].name
  {
    hide IsUploadName, Scan, ListDirSaid, PassSaid, Retention.Doomed;
    var l, n :| 0 <= n <= |part| && ListDirSaid(part[..n], dir, l) && PassSaid(part[n..], dir, l, r, now, p);
    if k < n {
      ListingLooks(part[..n], dir, l, k);
      assert part[..n][k] == part[k];
    } else {
      assert part[n..][k - n] == part[k];
      PassAsks(part[..n], part[n..], dir, l, r, now, p, k - n);
    }
  }

  lemma ListingLooks(part: seq<Said>, dir: string, l: Listing, k: nat)
    requires ListDirSaid(part, dir, l) && k < |part|
    ensures !part[k].req.Remove? && OnlyLooks([part[k]])
  {
    hide Scan, Listed, Paged;
    if !l.dirMissing {
      var seen :| l == Scan(seen) && ListingSaid(part, dir, seen, l.truncated);
      if 0 < k < |part| - 1 {
        PagedAt(part[1..|part| - 1], k - 1);
      }
    }
  }

  lemma PagedAt(part: seq<Said>, k: nat)
    requires k < |part|
    ensures forall handle :: Paged(part, handle) ==> part[k].req.Readdir?
  {
  }

  lemma PassAsks(listing: seq<Said>, part: seq<Said>, dir: string, l: Listing, r: CleanupResult, now: nat, p: Retention.Policy, k: nat)
    requires ListDirSaid(listing, dir, l) && PassSaid(part, dir, l, r, now, p) && k < |part|
    ensures part[k].req.Remove?
    ensures exists i: nat ::
      i < |l.entries| && Retention.Doomed(l.entries, now, p, i) && IsUploadName(l.entries[i].name)
      && part[k].req.path == dir + (if dir != [] && dir[|dir| - 1] != '/' then "/" else "") + l.entries[i].name
  {
    hide IsUploadName, Scan, Retention.Doomed;
    var i :| i in Planned(l.entries, now, p) && part[k].req.path == Joined(dir, l.entries[i].name);
    var seen := ListedNames([], listing, dir, l);
    ScanKeepsOurs(seen);
  }

  method Cleanup(c: Client, dir: string, now: nat, p: Retention.Policy)
    returns (r: Result<CleanupResult>, ghost touched: set<string>)
    requires c.Valid()
    modifies c, c.ch
    ensures c.Valid() && c.ch.Onward() && c.initialized == old(c.initialized)
    ensures c.ch.HandlesKept()
    ensures Pruned(old(c.ch.trace), c.ch.trace, c.ch.honest, touched)
    ensures forall x :: x in touched ==> OursIn(dir, x)
    ensures c.ch.honest && r.Success? ==> touched <= PlannedPaths(dir, Scan(c.ch.script(old(c.ch.tick)).entries).entries, now, p)
    ensures r.Failure? || r.value.truncated ==> touched == {}
    ensures old(c.log) <= c.log && (r.Success? ==> CleanupSaid(c.log[|old(c.log)|..], dir, r.value, now, p))
    ensures r.Failure? ==> OnlyLooks(c.log[|old(c.log)|..])
    ensures c.ch.honest && r.Success? ==>
      || (r.value == CleanupResult(0, 0, 0, 0, false) && touched == {} && !Exists(c.ch.fs, dir))
      || Reports(r.value, c.ch.script(old(c.ch.tick)).entries, now, p)
    ensures c.ch.honest && r.Success? && r.value.failed == 0 && !r.value.truncated && r.value.listed > 0 ==>
      var es := Scan(c.ch.script(old(c.ch.tick)).entries).entries;
      forall i :: i in Planned(es, now, p) ==> Joined(dir, es[i].name) !in c.ch.fs.files
    ensures dir != [] && c.initialized && |dir| + 1 + MAX_NAME < MAX_PATH && c.ch.Willing()
      ==> r.Success? && r.value.failed == 0
  {
    hide IsUploadName, Scan, Retention.Doomed, ListDirSaid, CleanupSaid, OnlyThese, CountGone, OnlyLooks;
    touched := {};
    var listed := c.ListDir(dir);
    PrunedStill(old(c.ch.trace), c.ch.trace, c.ch.honest);
    hide Pruned, Confined;
    if listed.Failure? {
      return Failure(listed.error), {};
    }
    var listing := listed.value;
    ghost var said := c.log;
    if listing.dirMissing || listing.truncated {
      NoneGone(PlannedPaths(dir, listing.entries, now, p));
      r := Success(CleanupResult(0, 0, 0, listing.skipped, listing.truncated));
      assert said[|said|..] == [];
      CleanupHeard(old(c.log), said, said, dir, listing, r.value, now, p);
      return;
    }
    var es := listing.entries;
    ghost var seen := ListedNames(old(c.log), said, dir, listing);
    ScanKeepsOurs(seen);
    var plan := Retention.PlanRetention(listing, now, p);
    CountPlanned(es, now, p, plan.remove);
    ghost var before, was := c.ch.trace, c.ch.honest;
    var removed, failed;
    ghost var paths := PlannedPaths(dir, es, now, p);
    forall k | 0 <= k < |plan.remove| ensures Joined(dir, es[plan.remove[k]].name) in paths {
      assert plan.remove[k] in plan.remove;
    }
    removed, failed, touched := RemovePlanned(c, dir, es, plan.remove, paths);
    PrunedAfter(old(c.ch.trace), before, c.ch.trace, was, c.ch.honest, touched);
    if c.ch.honest && failed == 0 {
      forall i | i in Planned(es, now, p) ensures Joined(dir, es[i].name) !in c.ch.fs.files {
        assert i in plan.remove;
      }
    }
    r := Success(CleanupResult(|es|, removed, failed, listing.skipped, false));
    CleanupHeard(old(c.log), said, c.log, dir, listing, r.value, now, p);
  }

  lemma ListedNames(log: seq<Said>, end: seq<Said>, dir: string, l: Listing) returns (seen: seq<Entry>)
    requires log <= end && ListDirSaid(end[|log|..], dir, l) && !l.dirMissing
    ensures l == Scan(seen)
  {
    hide Scan;
    seen :| l == Scan(seen) && ListingSaid(end[|log|..], dir, seen, l.truncated);
  }

  lemma CountPlanned(es: seq<Entry>, now: nat, p: Retention.Policy, remove: seq<nat>)
    requires Retention.Unique(remove)
    requires forall i: nat :: i in remove <==> i < |es| && Retention.Doomed(es, now, p, i)
    ensures |remove| == |Planned(es, now, p)| && Retention.Indices(es, remove)
  {
    Retention.SizeOfDistinct(remove);
    assert Retention.Elements(remove) == Planned(es, now, p);
    forall k | 0 <= k < |remove| ensures remove[k] < |es| {
      assert remove[k] in remove;
    }
  }

  lemma PrunedAfter(start: seq<Fs>, mid: seq<Fs>, end: seq<Fs>, was: bool, honest: bool, paths: set<string>)
    requires Pruned(start, mid, was, {}) && Pruned(mid, end, honest, paths) && (honest ==> was) && start != []
    ensures Pruned(start, end, honest, paths)
  {
    if honest {
      var base := start[|start| - 1];
      forall k | |start| <= k < |end| ensures OnlyRemoved(base, end[k], paths) {
        assert OnlyRemoved(base, mid[|mid| - 1], {});
        if k < |mid| {
          assert end[k] == mid[k];
        } else {
          assert OnlyRemoved(mid[|mid| - 1], end[k], paths);
        }
      }
    }
  }
}
