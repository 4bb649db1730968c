/** Installing a hook into a settings document and removing it again, on JSON values. */
module HookJson {
  import opened Types

  /** A JSON value. Objects keep no order of their own. */
  datatype Json =
    | Null
    | Bool(b: bool)
    | Num(n: real)
    | Str(s: string)
    | Arr(items: seq<Json>)
    | Obj(members: map<string, Json>)

  const HOOK_MARKER := "picopaste-hook"

  datatype HookEntry = HookEntry(event: string, matcher: string, command: string)

  predicate Contains(s: string, part: string) { exists i :: 0 <= i <= |s| && part <= s[i..] }

  lemma ContainsMeans(s: string, part: string)
    ensures Contains(s, part) <==> exists before, after :: s == before + part + after
  {
    if Contains(s, part) {
      var i :| 0 <= i <= |s| && part <= s[i..];
      assert s == s[..i] + part + s[i + |part|..];
    }
    forall before, after | s == before + part + after ensures Contains(s, part) {
      assert part <= s[|before|..];
    }
  }

  // ----- where the groups of an event live ---------------------------------------------------

  /** The `hooks` object of a document; a document without one has an empty one. */
  function HooksOf(root: map<string, Json>): Option<map<string, Json>> {
    if "hooks" !in root then Some(map[])
    else if root["hooks"].Obj? then Some(root["hooks"].members)
    else None
  }

  function GroupsOf(root: map<string, Json>, event: string): Option<seq<Json>> {
    match HooksOf(root)
    case None => None
    case Some(hooks) =>
      if event !in hooks then Some([])
      else if hooks[event].Arr? then Some(hooks[event].items)
      else None
  }

  function WithGroups(root: map<string, Json>, event: string, groups: seq<Json>): map<string, Json>
    requires HooksOf(root).Some?
  {
    root["hooks" := Obj(HooksOf(root).value[event := Arr(groups)])]
  }

  /** The groups of an event in a document that has room for them: what the document lacks is added
      empty, and a document of another shape gives nothing. */
  method EventGroups(root: map<string, Json>, event: string)
    returns (doc: map<string, Json>, groups: Option<seq<Json>>)
    ensures groups == GroupsOf(root, event)
    ensures groups.Some? ==> doc == WithGroups(root, event, groups.value)
  {
    doc := root;
    if "hooks" !in doc {
      doc := doc["hooks" := Obj(map[])];
    }
    if !doc["hooks"].Obj? {
      return doc, None;
    }
    var hooks := doc["hooks"].members;
    if event !in hooks {
      hooks := hooks[event := Arr([])];
      doc := doc["hooks" := Obj(hooks)];
    }
    if !hooks[event].Arr? {
      return doc, None;
    }
    groups := Some(hooks[event].items);
    assert hooks == hooks[event := Arr(groups.value)];
  }

  // ----- install --------------------------------------------------------------------------------

  function NewGroup(e: HookEntry): Json {
    Obj(map["matcher" := Str(e.matcher),
            "hooks" := Arr([Obj(map["type" := Str("command"), "command" := Str(e.command)])])])
  }

  /** The installed document, or none when the event's groups already mention the marker.
      `mentions` is the search in the serialised text. */
  function Installed(root: map<string, Json>, e: HookEntry, mentions: Json -> bool): Result<Option<map<string, Json>>> {
    match GroupsOf(root, e.event)
    case None => Failure(ConfigParseFailed)
    case Some(groups) =>
      if mentions(Arr(groups)) then Success(None)
      else Success(Some(WithGroups(root, e.event, groups + [NewGroup(e)])))
  }

  method Install(root: map<string, Json>, e: HookEntry, mentions: Json -> bool)
    returns (r: Result<Option<map<string, Json>>>)
    ensures r == Installed(root, e, mentions)
  {
    var doc, groups := EventGroups(root, e.event);
    if groups.None? {
      return Failure(ConfigParseFailed);
    }
    if mentions(Arr(groups.value)) {
      return Success(None);
    }
    var hook := Obj(map["type" := Str("command"), "command" := Str(e.command)]);
    var group := Obj(map["matcher" := Str(e.matcher), "hooks" := Arr([hook])]);
    var hooks := doc["hooks"].members[e.event := Arr(groups.value + [group])];
    doc := doc["hooks" := Obj(hooks)];
    assert doc == WithGroups(root, e.event, groups.value + [NewGroup(e)]) by {
      assert hooks == HooksOf(root).value[e.event := Arr(groups.value + [group])];
    }
    r := Success(Some(doc));
  }

  /** A string somewhere inside the value contains `part`. */
  ghost predicate Holds(v: Json, part: string) {
    match v
    case Str(s) => Contains(s, part)
    case Arr(items) => exists i :: 0 <= i < |items| && Holds(items[i], part)
    case Obj(members) => exists k :: k in members && (Contains(k, part) || Holds(members[k], part))
    case _ => false
  }

  /** The search finds a marker that stands inside any string of the value. The marker has no
      character that serialising would escape. */
  ghost predicate Finds(mentions: Json -> bool, marker: string) {
    forall v :: Holds(v, marker) ==> mentions(v)
  }

  /** Install adds one group at the end of its event and leaves every other member alone. */
  lemma InstallAppendsOneGroup(root: map<string, Json>, e: HookEntry, mentions: Json -> bool)
    requires Installed(root, e, mentions).Success? && Installed(root, e, mentions).value.Some?
    ensures var doc := Installed(root, e, mentions).value.value;
      && GroupsOf(doc, e.event) == Some(GroupsOf(root, e.event).value + [NewGroup(e)])
      && (forall other :: other != e.event ==> GroupsOf(doc, other) == GroupsOf(root, other))
      && doc.Keys == root.Keys + {"hooks"}
      && (forall k :: k in root && k != "hooks" ==> doc[k] == root[k])
      && HooksOf(doc).value.Keys == HooksOf(root).value.Keys + {e.event}
      && (forall k :: k in HooksOf(root).value && k != e.event ==> HooksOf(doc).value[k] == HooksOf(root).value[k])
  {
  }

  /** The same on the document itself: behind the groups of the event stands one with the matcher and a
      single hook, of the command given. */
  lemma InstallAppendsTheHook(root: map<string, Json>, e: HookEntry, mentions: Json -> bool)
    requires Installed(root, e, mentions).Success? && Installed(root, e, mentions).value.Some?
    ensures var doc := Installed(root, e, mentions).value.value;
      var hooks := if "hooks" in root && root["hooks"].Obj? then root["hooks"].members else map[];
      var groups := if e.event in hooks && hooks[e.event].Arr? then hooks[e.event].items else [];
      && "hooks" in doc && doc["hooks"].Obj? && e.event in doc["hooks"].members
      && doc["hooks"].members[e.event] == Arr(groups + [
           Obj(map["matcher" := Str(e.matcher),
                   "hooks" := Arr([Obj(map["type" := Str("command"), "command" := Str(e.command)])])])])
      && !mentions(Arr(groups))
  {
  }

  /** A second install of the same entry changes nothing. */
  lemma InstallTwiceIsNoOp(root: map<string, Json>, e: HookEntry, mentions: Json -> bool)
    requires Contains(e.command, HOOK_MARKER) && Finds(mentions, HOOK_MARKER)
    requires Installed(root, e, mentions).Success? && Installed(root, e, mentions).value.Some?
    ensures Installed(Installed(root, e, mentions).value.value, e, mentions) == Success(None)
  {
    InstallAppendsOneGroup(root, e, mentions);
    var groups := GroupsOf(root, e.event).value + [NewGroup(e)];
    var hook := NewGroup(e).members["hooks"].items[0];
    assert Holds(hook.members["command"], HOOK_MARKER);
    assert Holds(hook, HOOK_MARKER);
    assert Holds(NewGroup(e).members["hooks"], HOOK_MARKER);
    assert Holds(groups[|groups| - 1], HOOK_MARKER);
    assert Holds(Arr(groups), HOOK_MARKER);
  }

  // ----- remove ---------------------------------------------------------------------------------

  /** A hook whose command contains the marker. */
  predicate Ours(h: Json, marker: string) {
    h.Obj? && "command" in h.members && h.members["command"].Str? && Contains(h.members["command"].s, marker)
  }

  function Others(hooks: seq<Json>, marker: string): seq<Json> {
    if hooks == [] then []
    else
      var init, last := hooks[..|hooks| - 1], hooks[|hooks| - 1];
      if Ours(last, marker) then Others(init, marker) else Others(init, marker) + [last]
  }

  predicate HasHooks(group: Json) { group.Obj? && "hooks" in group.members && group.members["hooks"].Arr? }

  /** What is left of a group: nothing when no hook is left in it. */
  function CleanGroup(group: Json, marker: string): seq<Json> {
    if !HasHooks(group) then [group]
    else
      var kept := Others(group.members["hooks"].items, marker);
      if kept == [] then [] else [Obj(group.members["hooks" := Arr(kept)])]
  }

  function CleanGroups(groups: seq<Json>, marker: string): seq<Json> {
    if groups == [] then []
    else CleanGroups(groups[..|groups| - 1], marker) + CleanGroup(groups[|groups| - 1], marker)
  }

  function CleanEvent(v: Json, marker: string): Json { if v.Arr? then Arr(CleanGroups(v.items, marker)) else v }

  function CleanHooks(hooks: map<string, Json>, marker: string): map<string, Json> {
    map k | k in hooks :: CleanEvent(hooks[k], marker)
  }

  /** Some hook in the group is ours. */
  predicate OursInGroup(group: Json, marker: string) {
    HasHooks(group) && exists i :: 0 <= i < |group.members["hooks"].items| && Ours(group.members["hooks"].items[i], marker)
  }

  predicate OursInEvent(v: Json, marker: string) {
    v.Arr? && exists i :: 0 <= i < |v.items| && OursInGroup(v.items[i], marker)
  }

  predicate OursInHooks(hooks: map<string, Json>, marker: string) {
    exists k :: k in hooks && OursInEvent(hooks[k], marker)
  }

  /** The document without the hooks that carry the marker, or none when there were none. */
  function Removed(root: map<string, Json>, marker: string): Result<Option<map<string, Json>>> {
    match HooksOf(root)
    case None => Failure(ConfigParseFailed)
    case Some(hooks) =>
      if OursInHooks(hooks, marker) then Success(Some(root["hooks" := Obj(CleanHooks(hooks, marker))]))
      else Success(None)
  }

  method KeepHooks(hooks: seq<Json>, marker: string) returns (kept: seq<Json>, changed: bool)
    ensures kept == Others(hooks, marker)
    ensures changed <==> exists i :: 0 <= i < |hooks| && Ours(hooks[i], marker)
  {
    kept, changed := [], false;
    for i := 0 to |hooks|
      invariant kept == Others(hooks[..i], marker)
      invariant changed <==> exists j :: 0 <= j < i && Ours(hooks[j], marker)
    {
      assert hooks[..i + 1][..i] == hooks[..i];
      if Ours(hooks[i], marker) {
        changed := true;
      } else {
        kept := kept + [hooks[i]];
      }
    }
    assert hooks[..|hooks|] == hooks;
  }

  method KeepGroups(groups: seq<Json>, marker: string) returns (kept: seq<Json>, changed: bool)
    ensures kept == CleanGroups(groups, marker)
    ensures changed <==> exists i :: 0 <= i < |groups| && OursInGroup(groups[i], marker)
  {
    kept, changed := [], false;
    for i := 0 to |groups|
      invariant kept == CleanGroups(groups[..i], marker)
      invariant changed <==> exists j :: 0 <= j < i && OursInGroup(groups[j], marker)
    {
      assert groups[..i + 1][..i] == groups[..i];
      var group := groups[i];
      if HasHooks(group) {
        var inner, ours := KeepHooks(group.members["hooks"].items, marker);
        changed := changed || ours;
        if inner == [] {
          continue;
        }
        group := Obj(group.members["hooks" := Arr(inner)]);
      }
      kept := kept + [group];
    }
    assert groups[..|groups|] == groups;
  }

  /** Removes our hooks from every event array. */
  method Remove(root: map<string, Json>, marker: string) returns (r: Result<Option<map<string, Json>>>)
    ensures r == Removed(root, marker)
  {
    if "hooks" !in root {
      return Success(None);
    }
    if !root["hooks"].Obj? {
      return Failure(ConfigParseFailed);
    }
    var events := root["hooks"].members;
    var hooks, left, changed := events, events.Keys, false;
    while left != {}
      invariant left <= events.Keys == hooks.Keys
      invariant forall k :: k in events ==> hooks[k] == if k in left then events[k] else CleanEvent(events[k], marker)
      invariant changed <==> exists k :: k in events && k !in left && OursInEvent(events[k], marker)
      decreases |left|
    {
      var k :| k in left;
      left := left - {k};
      if hooks[k].Arr? {
        var kept, ours := KeepGroups(hooks[k].items, marker);
        hooks := hooks[k := Arr(kept)];
        changed := changed || ours;
      }
    }
    if !changed {
      return Success(None);
    }
    assert hooks == CleanHooks(events, marker);
    r := Success(Some(root["hooks" := Obj(hooks)]));
  }

  // ----- what remove promises ---------------------------------------------------------------------

  /** Every hook of the groups, in order. */
  function AllHooks(groups: seq<Json>): seq<Json> {
    if groups == [] then []
    else
      var last := groups[|groups| - 1];
      AllHooks(groups[..|groups| - 1]) + if HasHooks(last) then last.members["hooks"].items else []
  }

  lemma {:induction false} OthersJoin(a: seq<Json>, b: seq<Json>, marker: string)
    ensures Others(a + b, marker) == Others(a, marker) + Others(b, marker)
  {
    if b == [] {
      assert a + b == a;
    } else {
      var init := b[..|b| - 1];
      assert (a + b)[..|a + b| - 1] == a + init;
      OthersJoin(a, init, marker);
    }
  }

  lemma {:induction false} OthersAreOthers(hooks: seq<Json>, marker: string)
    ensures forall i :: 0 <= i < |Others(hooks, marker)| ==> !Ours(Others(hooks, marker)[i], marker)
    ensures |Others(hooks, marker)| <= |hooks|
    ensures Others(hooks, marker) == hooks <==> forall i :: 0 <= i < |hooks| ==> !Ours(hooks[i], marker)
  {
    if hooks != [] {
      var init := hooks[..|hooks| - 1];
      OthersAreOthers(init, marker);
      assert hooks == init + [hooks[|hooks| - 1]];
    }
  }

  /** Which hooks those are: the ones without a command that holds the marker. */
  lemma {:induction false} OthersAre(hooks: seq<Json>, marker: string, h: Json)
    ensures h in Others(hooks, marker) <==>
      && h in hooks
      && !(h.Obj? && "command" in h.members && h.members["command"].Str?
           && exists before, after :: h.members["command"].s == before + marker + after)
  {
    if h.Obj? && "command" in h.members && h.members["command"].Str? {
      ContainsMeans(h.members["command"].s, marker);
    }
    hide Contains;
    if hooks != [] {
      var init := hooks[..|hooks| - 1];
      OthersAre(init, marker, h);
      assert hooks == init + [hooks[|hooks| - 1]];
    }
  }

  /** Remove deletes exactly the hooks that carry the marker and keeps the order of the rest. */
  lemma {:induction false} RemoveIsExact(groups: seq<Json>, marker: string)
    ensures AllHooks(CleanGroups(groups, marker)) == Others(AllHooks(groups), marker)
  {
    if groups != [] {
      var init, last := groups[..|groups| - 1], groups[|groups| - 1];
      RemoveIsExact(init, marker);
      var own := if HasHooks(last) then last.members["hooks"].items else [];
      OthersJoin(AllHooks(init), own, marker);
      var tail, front := CleanGroup(last, marker), CleanGroups(init, marker);
      if tail == [] {
        assert front + tail == front;
      } else {
        assert (front + tail)[..|front|] == front;
        assert AllHooks(front + tail) == AllHooks(front) + Others(own, marker);
      }
    }
  }

  lemma {:induction false} CleanGroupsAreClean(groups: seq<Json>, marker: string)
    ensures forall i :: 0 <= i < |CleanGroups(groups, marker)| ==> !OursInGroup(CleanGroups(groups, marker)[i], marker)
  {
    if groups != [] {
      var init, last := groups[..|groups| - 1], groups[|groups| - 1];
      CleanGroupsAreClean(init, marker);
      if HasHooks(last) {
        OthersAreOthers(last.members["hooks"].items, marker);
      }
    }
  }

  /** The groups that hold no hook list. */
  function PlainGroups(groups: seq<Json>): seq<Json> {
    if groups == [] then []
    else
      var last := groups[|groups| - 1];
      PlainGroups(groups[..|groups| - 1]) + if HasHooks(last) then [] else [last]
  }

  lemma {:induction false} PlainGroupsStay(groups: seq<Json>, marker: string)
    ensures PlainGroups(CleanGroups(groups, marker)) == PlainGroups(groups)
  {
    if groups != [] {
      var init, last := groups[..|groups| - 1], groups[|groups| - 1];
      PlainGroupsStay(init, marker);
      var front, tail := CleanGroups(init, marker), CleanGroup(last, marker);
      if tail == [] {
        assert front + tail == front;
      } else {
        assert (front + tail)[..|front|] == front;
      }
    }
  }

  /** Remove touches nothing but the event arrays, and in each of them nothing but our hooks and
      the groups left without any. */
  lemma RemoveKeepsTheRest(root: map<string, Json>, marker: string, event: string)
    requires Removed(root, marker).Success? && Removed(root, marker).value.Some?
    requires event in HooksOf(root).value
    ensures var doc := Removed(root, marker).value.value;
      var before, after := HooksOf(root).value, HooksOf(doc).value;
      && doc.Keys == root.Keys && (forall k :: k in root && k != "hooks" ==> doc[k] == root[k])
      && after.Keys == before.Keys
      && (!before[event].Arr? ==> after[event] == before[event])
      && (before[event].Arr? ==>
            && after[event].Arr?
            && AllHooks(after[event].items) == Others(AllHooks(before[event].items), marker)
            && PlainGroups(after[event].items) == PlainGroups(before[event].items))
  {
    var before := HooksOf(root).value;
    if before[event].Arr? {
      RemoveIsExact(before[event].items, marker);
      PlainGroupsStay(before[event].items, marker);
    }
  }

  /** A second remove changes nothing. */
  lemma RemoveTwiceIsNoOp(root: map<string, Json>, marker: string)
    requires Removed(root, marker).Success? && Removed(root, marker).value.Some?
    ensures Removed(Removed(root, marker).value.value, marker) == Success(None)
  {
    var hooks := HooksOf(root).value;
    var clean := CleanHooks(hooks, marker);
    forall k | k in clean ensures !OursInEvent(clean[k], marker) {
      if hooks[k].Arr? {
        CleanGroupsAreClean(hooks[k].items, marker);
      }
    }
  }

  /** A group that remove would leave as it is. */
  ghost predicate Settled(group: Json, marker: string) {
    HasHooks(group) ==> group.members["hooks"].items != [] && !OursInGroup(group, marker)
  }

  ghost predicate SettledEvent(v: Json, marker: string) {
    v.Arr? ==> forall i :: 0 <= i < |v.items| ==> Settled(v.items[i], marker)
  }

  lemma CleanGroupOfSettled(group: Json, marker: string)
    ensures CleanGroup(group, marker) == [group] <==> Settled(group, marker)
    ensures |CleanGroup(group, marker)| <= 1
  {
    if HasHooks(group) {
      OthersAreOthers(group.members["hooks"].items, marker);
      var kept := Others(group.members["hooks"].items, marker);
      if kept == group.members["hooks"].items {
        assert group.members["hooks" := Arr(kept)] == group.members;
      } else {
        assert group.members["hooks" := Arr(kept)]["hooks"] != group.members["hooks"];
      }
    }
  }

  lemma {:induction false} CleanGroupsOfSettled(groups: seq<Json>, marker: string)
    ensures CleanGroups(groups, marker) == groups <==> forall i :: 0 <= i < |groups| ==> Settled(groups[i], marker)
    ensures |CleanGroups(groups, marker)| <= |groups|
  {
    if groups != [] {
      var init, last := groups[..|groups| - 1], groups[|groups| - 1];
      CleanGroupsOfSettled(init, marker);
      CleanGroupOfSettled(last, marker);
      var front := CleanGroups(init, marker);
      assert CleanGroups(groups, marker) == front + CleanGroup(last, marker) && groups == init + [last];
      hide CleanGroup, CleanGroups, Settled;
      SameParts(front, CleanGroup(last, marker), init, last);
    }
  }

  lemma SameParts(a: seq<Json>, b: seq<Json>, init: seq<Json>, last: Json)
    requires |a| <= |init| && |b| <= 1
    ensures a + b == init + [last] <==> a == init && b == [last]
  {
    if a + b == init + [last] {
      assert a == (a + b)[..|a|] && |a| == |init|;
      assert b == (a + b)[|a|..];
    }
  }

  lemma CleanGroupsDropsNew(groups: seq<Json>, e: HookEntry, marker: string)
    requires Contains(e.command, marker)
    ensures CleanGroups(groups + [NewGroup(e)], marker) == CleanGroups(groups, marker)
    ensures OursInGroup(NewGroup(e), marker)
  {
    assert (groups + [NewGroup(e)])[..|groups|] == groups;
    var hooks := NewGroup(e).members["hooks"].items;
    assert Ours(hooks[0], marker);
    assert hooks[..0] == [] && Others(hooks[..0], marker) == [];
    assert Others(hooks, marker) == [];
  }

  /** What removing makes of a document that has just been installed: event by event, it is as before
      exactly where every group was settled. */
  lemma RemovedFromInstalled(root: map<string, Json>, e: HookEntry, mentions: Json -> bool, marker: string)
    requires Installed(root, e, mentions).Success? && Installed(root, e, mentions).value.Some?
    requires Contains(e.command, marker)
    ensures var doc := Installed(root, e, mentions).value.value;
      var plain := HooksOf(root).value[e.event := Arr(GroupsOf(root, e.event).value)];
      var clean := CleanHooks(HooksOf(doc).value, marker);
      && WithGroups(root, e.event, GroupsOf(root, e.event).value) == root["hooks" := Obj(plain)]
      && Removed(doc, marker) == Success(Some(root["hooks" := Obj(clean)]))
      && clean.Keys == plain.Keys
      && forall k :: k in plain ==> (clean[k] == plain[k] <==> SettledEvent(plain[k], marker))
  {
    var doc := Installed(root, e, mentions).value.value;
    var before, groups := HooksOf(root).value, GroupsOf(root, e.event).value;
    var after := HooksOf(doc).value;
    CleanGroupsDropsNew(groups, e, marker);
    assert after[e.event].items[|groups|] == NewGroup(e);
    assert OursInEvent(after[e.event], marker);
    var clean, plain := CleanHooks(after, marker), before[e.event := Arr(groups)];
    assert Removed(doc, marker).value.value == root["hooks" := Obj(clean)];
    assert WithGroups(root, e.event, groups) == root["hooks" := Obj(plain)];
    hide CleanGroups, Settled, NewGroup, OursInEvent;
    forall k | k in plain ensures clean[k] == plain[k] <==> SettledEvent(plain[k], marker) {
      if plain[k].Arr? {
        CleanGroupsOfSettled(plain[k].items, marker);
      }
    }
  }

  /** Remove after install gives the document back, with only the `hooks` object and the event
      array created, exactly when no group of any event was one that remove rewrites by itself:
      one with our hooks already, or one with an empty hook list. */
  lemma RemoveAfterInstall(root: map<string, Json>, e: HookEntry, mentions: Json -> bool, marker: string)
    requires Installed(root, e, mentions).Success? && Installed(root, e, mentions).value.Some?
    requires Contains(e.command, marker)
    ensures var doc := Installed(root, e, mentions).value.value;
      && Removed(doc, marker).Success? && Removed(doc, marker).value.Some?
      && (Removed(doc, marker).value.value == WithGroups(root, e.event, GroupsOf(root, e.event).value) <==>
            forall k :: k in HooksOf(root).value ==> SettledEvent(HooksOf(root).value[k], marker))
  {
    var doc := Installed(root, e, mentions).value.value;
    var before, groups := HooksOf(root).value, GroupsOf(root, e.event).value;
    var clean, plain := CleanHooks(HooksOf(doc).value, marker), before[e.event := Arr(groups)];
    RemovedFromInstalled(root, e, mentions, marker);
    hide CleanGroups, Settled, NewGroup, OursInEvent;
    assert root["hooks" := Obj(clean)]["hooks"] == Obj(clean) && root["hooks" := Obj(plain)]["hooks"] == Obj(plain);
    assert e.event !in before ==> groups == [];
    if forall k :: k in before ==> SettledEvent(before[k], marker) {
      assert clean == plain;
    }
    if clean == plain {
      forall k | k in before ensures SettledEvent(before[k], marker) {
        assert plain[k] == before[k];
      }
    }
  }
}
