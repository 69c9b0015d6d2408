/**
 Merging the managed hooks into a user's `hooks.json` and removing them again, as in
 `src/setup.rs`.
 */
module SetupHooks {
  import opened Wrappers

  datatype Json = Null | Bool(b: bool) | Number(n: int) | Str(s: string) | Arr(items: seq<Json>)
                | Obj(fields: map<string, Json>)

  type Object = map<string, Json>

  const MANAGED_ID := "previously-on-v1"

  const HOOK_EVENTS: seq<string> :=
    ["SessionStart", "UserPromptSubmit", "PreToolUse", "PostToolUse", "PreCompact", "Stop"]

  // ---------------------------------------------------------------- hooks and groups

  predicate Contains(s: string, needle: string) {
    exists i :: 0 <= i <= |s| && needle <= s[i..]
  }

  predicate IsManaged(hook: Json) {
    hook.Obj? && "command" in hook.fields && hook.fields["command"].Str?
    && Contains(hook.fields["command"].s, MANAGED_ID)
  }

  function Unmanaged(hooks: seq<Json>): (r: seq<Json>)
    ensures forall h :: h in r ==> h in hooks && !IsManaged(h)
  {
    if hooks == [] then []
    else if IsManaged(hooks[0]) then Unmanaged(hooks[1..])
    else [hooks[0]] + Unmanaged(hooks[1..])
  }

  /** The hooks of a group, when it is an object with an array of them. */
  function HooksOf(group: Json): Option<seq<Json>> {
    if group.Obj? && "hooks" in group.fields && group.fields["hooks"].Arr?
    then Some(group.fields["hooks"].items) else None
  }

  function RemoveManagedFromGroup(group: Json): Json {
    if HooksOf(group).Some? then Obj(group.fields["hooks" := Arr(Unmanaged(HooksOf(group).value))]) else group
  }

  predicate GroupHasHooks(group: Json) {
    HooksOf(group).Some? && HooksOf(group).value != []
  }

  /** One group after cleaning: dropped when no hook is left in it. */
  function CleanOne(group: Json): seq<Json> {
    var cleaned := RemoveManagedFromGroup(group);
    if GroupHasHooks(cleaned) then [cleaned] else []
  }

  function Clean(groups: seq<Json>): seq<Json> {
    if groups == [] then [] else CleanOne(groups[0]) + Clean(groups[1..])
  }

  // ---------------------------------------------------------------- what a user sees

  function UserHooksOf(group: Json): seq<Json> {
    if HooksOf(group).Some? then Unmanaged(HooksOf(group).value) else []
  }

  /** The hooks of an event that are not ours, in order. */
  function UserHooks(groups: seq<Json>): seq<Json> {
    if groups == [] then [] else UserHooksOf(groups[0]) + UserHooks(groups[1..])
  }

  function CountManaged(hooks: seq<Json>): nat {
    if hooks == [] then 0 else (if IsManaged(hooks[0]) then 1 else 0) + CountManaged(hooks[1..])
  }

  function ManagedHooksOf(group: Json): nat {
    if HooksOf(group).Some? then CountManaged(HooksOf(group).value) else 0
  }

  function ManagedHooks(groups: seq<Json>): nat {
    if groups == [] then 0 else ManagedHooksOf(groups[0]) + ManagedHooks(groups[1..])
  }

  lemma {:induction false} UnmanagedIsStable(hooks: seq<Json>)
    ensures Unmanaged(Unmanaged(hooks)) == Unmanaged(hooks)
    ensures CountManaged(Unmanaged(hooks)) == 0
  {
    if hooks != [] {
      UnmanagedIsStable(hooks[1..]);
      if !IsManaged(hooks[0]) {
        assert Unmanaged(hooks)[1..] == Unmanaged(hooks[1..]);
      }
    }
  }

  lemma CleanedGroup(group: Json)
    requires HooksOf(group).Some?
    ensures HooksOf(RemoveManagedFromGroup(group)) == Some(Unmanaged(HooksOf(group).value))
    ensures RemoveManagedFromGroup(RemoveManagedFromGroup(group)) == RemoveManagedFromGroup(group)
  {
    UnmanagedIsStable(HooksOf(group).value);
    var once := RemoveManagedFromGroup(group);
    assert once.fields["hooks" := Arr(Unmanaged(HooksOf(group).value))] == once.fields;
  }

  lemma {:induction false} CleanConcat(a: seq<Json>, b: seq<Json>)
    ensures Clean(a + b) == Clean(a) + Clean(b)
  {
    if a == [] {
      assert a + b == b;
    } else {
      assert (a + b)[1..] == a[1..] + b;
      CleanConcat(a[1..], b);
      assert CleanOne(a[0]) + (Clean(a[1..]) + Clean(b)) == CleanOne(a[0]) + Clean(a[1..]) + Clean(b);
    }
  }

  lemma {:induction false} UserHooksConcat(a: seq<Json>, b: seq<Json>)
    ensures UserHooks(a + b) == UserHooks(a) + UserHooks(b)
    ensures ManagedHooks(a + b) == ManagedHooks(a) + ManagedHooks(b)
  {
    if a == [] {
      assert a + b == b;
    } else {
      assert (a + b)[1..] == a[1..] + b;
      UserHooksConcat(a[1..], b);
      assert UserHooksOf(a[0]) + (UserHooks(a[1..]) + UserHooks(b)) == UserHooksOf(a[0]) + UserHooks(a[1..]) + UserHooks(b);
    }
  }

  lemma OneGroup(group: Json)
    ensures Clean([group]) == CleanOne(group)
    ensures UserHooks([group]) == UserHooksOf(group)
    ensures ManagedHooks([group]) == ManagedHooksOf(group)
  {
    assert [group][1..] == [];
    assert CleanOne(group) + [] == CleanOne(group) && UserHooksOf(group) + [] == UserHooksOf(group);
  }

  lemma CleanOneMeans(group: Json)
    ensures Clean(CleanOne(group)) == CleanOne(group)
    ensures UserHooks(CleanOne(group)) == UserHooksOf(group)
    ensures ManagedHooks(CleanOne(group)) == 0
  {
    if HooksOf(group).Some? {
      CleanedGroup(group);
      UnmanagedIsStable(HooksOf(group).value);
      OneGroup(RemoveManagedFromGroup(group));
    }
  }

  /** Cleaning twice is cleaning once; no user hook moves, no managed hook stays. */
  lemma {:induction false} CleanMeans(groups: seq<Json>)
    ensures Clean(Clean(groups)) == Clean(groups)
    ensures UserHooks(Clean(groups)) == UserHooks(groups)
    ensures ManagedHooks(Clean(groups)) == 0
  {
    if groups != [] {
      CleanMeans(groups[1..]);
      CleanOneMeans(groups[0]);
      CleanConcat(CleanOne(groups[0]), Clean(groups[1..]));
      UserHooksConcat(CleanOne(groups[0]), Clean(groups[1..]));
    }
  }

  // ---------------------------------------------------------------- read off the file

  /** A hook of this tool: its command is a string that contains the managed id. */
  ghost predicate IsOurs(hook: Json) {
    hook.Obj? && "command" in hook.fields && hook.fields["command"].Str?
    && exists before: string, rest: string :: hook.fields["command"].s == before + "previously-on-v1" + rest
  }

  /** The hooks that are somebody else's. */
  ghost function Others(hooks: seq<Json>): seq<Json> {
    if hooks == [] then []
    else
      var last := hooks[|hooks| - 1];
      Others(hooks[..|hooks| - 1]) + if IsOurs(last) then [] else [last]
  }

  function HooksIn(group: Json): seq<Json> {
    if group.Obj? && "hooks" in group.fields && group.fields["hooks"].Arr? then group.fields["hooks"].items else []
  }

  /** All hooks of an event's groups, one after the other. */
  function Listed(groups: seq<Json>): seq<Json> {
    if groups == [] then [] else Listed(groups[..|groups| - 1]) + HooksIn(groups[|groups| - 1])
  }

  /** A group with a hook of somebody else stays as it was but for our hooks; any other is dropped. */
  ghost function OthersGroup(group: Json): seq<Json> {
    var others := Others(HooksIn(group));
    if others == [] then [] else [Obj(group.fields["hooks" := Arr(others)])]
  }

  ghost function OthersGroups(groups: seq<Json>): seq<Json> {
    if groups == [] then [] else OthersGroups(groups[..|groups| - 1]) + OthersGroup(groups[|groups| - 1])
  }

  lemma {:induction false} OthersAppend(hooks: seq<Json>, more: seq<Json>)
    ensures Others(hooks + more) == Others(hooks) + Others(more)
    decreases |more|
  {
    if more == [] {
      assert hooks + more == hooks;
    } else {
      var init, last := more[..|more| - 1], more[|more| - 1];
      assert (hooks + more)[..|hooks + more| - 1] == hooks + init;
      OthersAppend(hooks, init);
    }
  }

  lemma IsOursIffManaged(hook: Json)
    ensures IsOurs(hook) <==> IsManaged(hook)
  {
    if hook.Obj? && "command" in hook.fields && hook.fields["command"].Str? {
      var command := hook.fields["command"].s;
      if i :| 0 <= i <= |command| && MANAGED_ID <= command[i..] {
        assert command == command[..i] + "previously-on-v1" + command[i..][|MANAGED_ID|..];
      }
      if before: string, rest: string :| command == before + "previously-on-v1" + rest {
        assert command[|before|..] == "previously-on-v1" + rest;
      }
    }
  }

  lemma {:induction false} UnmanagedAreOthers(hooks: seq<Json>)
    ensures Unmanaged(hooks) == Others(hooks)
    decreases |hooks|
  {
    if hooks != [] {
      IsOursIffManaged(hooks[0]);
      UnmanagedAreOthers(hooks[1..]);
      OthersAppend([hooks[0]], hooks[1..]);
      assert hooks == [hooks[0]] + hooks[1..];
      assert [hooks[0]][..0] == [];
    }
  }

  /** `kept` are exactly the others' hooks of `hooks`, each at its place: none is lost, repeated or moved. */
  ghost predicate ArePlaces(places: seq<nat>, hooks: seq<Json>, kept: seq<Json>) {
    && |places| == |kept|
    && (forall k :: 0 <= k < |places| ==> places[k] < |hooks| && hooks[places[k]] == kept[k])
    && (forall j, k :: 0 <= j < k < |places| ==> places[j] < places[k])
    && (forall i: nat :: i < |hooks| ==> (i in places <==> !IsOurs(hooks[i])))
  }

  lemma PlacesSkip(places: seq<nat>, init: seq<Json>, last: Json, kept: seq<Json>)
    requires ArePlaces(places, init, kept) && IsOurs(last)
    ensures ArePlaces(places, init + [last], kept)
  {
    assert forall i: nat :: i < |init| ==> (init + [last])[i] == init[i];
  }

  lemma PlacesAdd(places: seq<nat>, init: seq<Json>, last: Json, kept: seq<Json>)
    requires ArePlaces(places, init, kept) && !IsOurs(last)
    ensures ArePlaces(places + [|init|], init + [last], kept + [last])
  {
    var hooks, next := init + [last], places + [|init|];
    assert forall i: nat :: i < |init| ==> hooks[i] == init[i];
    forall i: nat | i < |hooks|
      ensures i in next <==> !IsOurs(hooks[i])
    {
      assert i < |init| ==> (i in next <==> i in places);
    }
  }

  lemma {:induction false} OthersArePlaced(hooks: seq<Json>) returns (places: seq<nat>)
    ensures ArePlaces(places, hooks, Others(hooks))
    decreases |hooks|
  {
    if hooks == [] {
      places := [];
    } else {
      var init, last := hooks[..|hooks| - 1], hooks[|hooks| - 1];
      var earlier := OthersArePlaced(init);
      assert hooks == init + [last];
      if IsOurs(last) {
        PlacesSkip(earlier, init, last, Others(init));
        places := earlier;
      } else {
        PlacesAdd(earlier, init, last, Others(init));
        places := earlier + [|init|];
      }
    }
  }

  lemma {:induction false} OthersAreCounted(hooks: seq<Json>, hook: Json)
    ensures multiset(Others(hooks))[hook] == if IsOurs(hook) then 0 else multiset(hooks)[hook]
    decreases |hooks|
  {
    if hooks != [] {
      var init, last := hooks[..|hooks| - 1], hooks[|hooks| - 1];
      assert hooks == init + [last];
      OthersAreCounted(init, hook);
    }
  }

  lemma OneMoreGroup(groups: seq<Json>, last: Json)
    ensures OthersGroups(groups + [last]) == OthersGroups(groups) + OthersGroup(last)
    ensures Listed(groups + [last]) == Listed(groups) + HooksIn(last)
  {
    assert (groups + [last])[..|groups|] == groups;
  }

  lemma GroupsSnoc(groups: seq<Json>, init: seq<Json>, last: Json, more: seq<Json>)
    requires more != [] && init == more[..|more| - 1] && last == more[|more| - 1]
    ensures init + [last] == more && groups + init + [last] == groups + more
  {
  }

  lemma {:induction false} OthersGroupsAppend(groups: seq<Json>, more: seq<Json>)
    ensures OthersGroups(groups + more) == OthersGroups(groups) + OthersGroups(more)
    decreases |more|
  {
    if more == [] {
      assert groups + more == groups;
    } else {
      var init, last := more[..|more| - 1], more[|more| - 1];
      GroupsSnoc(groups, init, last, more);
      OthersGroupsAppend(groups, init);
      OneMoreGroup(init, last);
      OneMoreGroup(groups + init, last);
      Regrouped(OthersGroups(groups), OthersGroups(init), OthersGroup(last));
    }
  }

  lemma {:induction false} ListedAppend(groups: seq<Json>, more: seq<Json>)
    ensures Listed(groups + more) == Listed(groups) + Listed(more)
    decreases |more|
  {
    if more == [] {
      assert groups + more == groups;
    } else {
      var init, last := more[..|more| - 1], more[|more| - 1];
      GroupsSnoc(groups, init, last, more);
      ListedAppend(groups, init);
      ListedSnoc(groups, init, last);
    }
  }

  lemma ListedSnoc(groups: seq<Json>, init: seq<Json>, last: Json)
    requires Listed(groups + init) == Listed(groups) + Listed(init)
    ensures Listed(groups + init + [last]) == Listed(groups) + Listed(init + [last])
  {
    OneMoreGroup(init, last);
    OneMoreGroup(groups + init, last);
    Regrouped(Listed(groups), Listed(init), HooksIn(last));
  }

  lemma Regrouped(a: seq<Json>, b: seq<Json>, c: seq<Json>)
    ensures a + b + c == a + (b + c)
  {
  }

  lemma SingleGroup(group: Json)
    ensures OthersGroups([group]) == OthersGroup(group)
    ensures Listed([group]) == HooksIn(group)
  {
    assert [group][..0] == [];
  }

  lemma CleanOneKeepsOthers(group: Json)
    ensures CleanOne(group) == OthersGroup(group)
  {
    UnmanagedAreOthers(HooksIn(group));
  }

  lemma {:induction false} CleanKeepsOthersGroups(groups: seq<Json>)
    ensures Clean(groups) == OthersGroups(groups)
    decreases |groups|
  {
    if groups != [] {
      CleanOneKeepsOthers(groups[0]);
      CleanKeepsOthersGroups(groups[1..]);
      OthersGroupsAppend([groups[0]], groups[1..]);
      SingleGroup(groups[0]);
      assert groups == [groups[0]] + groups[1..];
    }
  }

  lemma {:induction false} OthersGroupListsOthers(group: Json)
    ensures Listed(OthersGroup(group)) == Others(HooksIn(group))
  {
    var others := Others(HooksIn(group));
    if others != [] {
      var kept := Obj(group.fields["hooks" := Arr(others)]);
      SingleGroup(kept);
      assert HooksIn(kept) == others;
    }
  }

  lemma {:induction false} OthersGroupsListOthers(groups: seq<Json>)
    ensures Listed(OthersGroups(groups)) == Others(Listed(groups))
    decreases |groups|
  {
    if groups != [] {
      var init, last := groups[..|groups| - 1], groups[|groups| - 1];
      OthersGroupsListOthers(init);
      OthersGroupListsOthers(last);
      OthersAppend(Listed(init), HooksIn(last));
      ListedAppend(OthersGroups(init), OthersGroup(last));
    }
  }

  lemma {:induction false} ManagedAreTheRest(hooks: seq<Json>)
    ensures CountManaged(hooks) + |Unmanaged(hooks)| == |hooks|
  {
    if hooks != [] {
      ManagedAreTheRest(hooks[1..]);
    }
  }

  /** What a user sees are the others' hooks, and what is managed is the rest. */
  lemma {:induction false} UserHooksAreOthers(groups: seq<Json>)
    ensures UserHooks(groups) == Others(Listed(groups))
    ensures ManagedHooks(groups) + |Others(Listed(groups))| == |Listed(groups)|
    decreases |groups|
  {
    if groups != [] {
      var init, last := groups[..|groups| - 1], groups[|groups| - 1];
      assert groups == init + [last];
      UserHooksAreOthers(init);
      UserHooksConcat(init, [last]);
      OneGroup(last);
      UnmanagedAreOthers(HooksIn(last));
      ManagedAreTheRest(HooksIn(last));
      OthersAppend(Listed(init), HooksIn(last));
    }
  }

  // ---------------------------------------------------------------- our own group

  /** `executable` and `dataDir` are already quoted for the shell. */
  datatype Installation = Installation(executable: string, dataDir: string)

  function ManagedCommand(at: Installation, event: string): string {
    "PREVIOUSLY_ON_MANAGED_ID=" + (MANAGED_ID + " PREVIOUSLY_ON_DATA_DIR=" + at.dataDir + " " + at.executable + " hook " + event)
  }

  function ManagedHook(at: Installation, event: string): Json {
    Obj(map["type" := Str("command"), "command" := Str(ManagedCommand(at, event)),
            "timeout" := Number(if event == "Stop" then 30 else 10)])
  }

  function ManagedGroup(at: Installation, event: string): Json {
    var fields: Object := map["hooks" := Arr([ManagedHook(at, event)])];
    Obj(if event == "SessionStart" then fields["matcher" := Str("startup|resume|clear|compact")] else fields)
  }

  lemma OneManagedHook(hook: Json)
    requires IsManaged(hook)
    ensures Unmanaged([hook]) == [] && CountManaged([hook]) == 1
  {
    assert [hook][1..] == [];
  }

  /** Our group is recognized as ours, so cleaning drops it whole. */
  lemma ManagedGroupIsOurs(at: Installation, event: string)
    ensures Clean([ManagedGroup(at, event)]) == []
    ensures UserHooks([ManagedGroup(at, event)]) == []
    ensures ManagedHooks([ManagedGroup(at, event)]) == 1
  {
    var hook := ManagedHook(at, event);
    var command := ManagedCommand(at, event);
    var n := |"PREVIOUSLY_ON_MANAGED_ID="|;
    assert MANAGED_ID <= command[n..];
    assert IsManaged(hook);
    var group := ManagedGroup(at, event);
    assert HooksOf(group) == Some([hook]);
    OneManagedHook(hook);
    CleanedGroup(group);
    OneGroup(group);
  }

  // ---------------------------------------------------------------- merging and removing

  /** The hooks object of a root, empty when absent. */
  function HooksField(root: Object): Option<Object> {
    if "hooks" !in root then Some(map[]) else if root["hooks"].Obj? then Some(root["hooks"].fields) else None
  }

  function GroupsOf(hooks: Object, event: string): Option<seq<Json>> {
    if event !in hooks then Some([]) else if hooks[event].Arr? then Some(hooks[event].items) else None
  }

  predicate Mergeable(root: Object) {
    HooksField(root).Some?
    && forall k :: 0 <= k < |HOOK_EVENTS| ==> GroupsOf(HooksField(root).value, HOOK_EVENTS[k]).Some?
  }

  function Groups(hooks: Object, event: string): seq<Json> {
    if GroupsOf(hooks, event).Some? then GroupsOf(hooks, event).value else []
  }

  function MergedEvent(hooks: Object, at: Installation, event: string): Json {
    Arr(Clean(Groups(hooks, event)) + [ManagedGroup(at, event)])
  }

  /** The hooks object with the first `n` managed events merged. */
  function MergedFields(hooks: Object, at: Installation, events: set<string>): Object {
    map k | k in hooks.Keys + events :: if k in events then MergedEvent(hooks, at, k) else hooks[k]
  }

  function EventSet(n: nat): (r: set<string>)
    requires n <= |HOOK_EVENTS|
    ensures forall e :: e in r <==> e in HOOK_EVENTS[..n]
  {
    set e | e in HOOK_EVENTS[..n]
  }

  function Merge(root: Object, at: Installation): Option<Object> {
    if !Mergeable(root) then None
    else Some(root["hooks" := Obj(MergedFields(HooksField(root).value, at, EventSet(|HOOK_EVENTS|)))])
  }

  function CleanField(field: Json): Json {
    if field.Arr? then Arr(Clean(field.items)) else field
  }

  function CleanFields(hooks: Object): Object {
    map k | k in hooks :: CleanField(hooks[k])
  }

  function Remove(root: Object): Object {
    if "hooks" in root && root["hooks"].Obj? then root["hooks" := Obj(CleanFields(root["hooks"].fields))] else root
  }

  method CleanGroups(groups: seq<Json>) returns (r: seq<Json>)
    ensures r == Clean(groups) && r == OthersGroups(groups)
  {
    r := [];
    for k := 0 to |groups|
      invariant r == Clean(groups[..k])
    {
      assert groups[..k + 1] == groups[..k] + [groups[k]];
      CleanConcat(groups[..k], [groups[k]]);
      OneGroup(groups[k]);
      var group := RemoveManagedFromGroup(groups[k]);
      if GroupHasHooks(group) {
        r := r + [group];
      }
    }
    assert groups[..|groups|] == groups;
    CleanKeepsOthersGroups(groups);
  }

  lemma HookEventsAreDistinct()
    ensures forall i, j :: 0 <= i < j < |HOOK_EVENTS| ==> HOOK_EVENTS[i] != HOOK_EVENTS[j]
  {
    assert HOOK_EVENTS[0][1] == 'e' && HOOK_EVENTS[1][1] == 's' && HOOK_EVENTS[2][1] == 'r' && HOOK_EVENTS[3][1] == 'o';
    assert HOOK_EVENTS[4][1] == 'r' && HOOK_EVENTS[5][1] == 't';
    assert HOOK_EVENTS[2][3] == 'T' && HOOK_EVENTS[4][3] == 'C';
  }

  /** The next managed event is a new one. */
  lemma NextEventIsNew(k: nat)
    requires k < |HOOK_EVENTS|
    ensures HOOK_EVENTS[k] !in EventSet(k)
    ensures EventSet(k + 1) == EventSet(k) + {HOOK_EVENTS[k]}
  {
    HookEventsAreDistinct();
    NextIsNew(HOOK_EVENTS, k);
  }

  lemma NextIsNew(events: seq<string>, k: nat)
    requires k < |events|
    requires forall i, j :: 0 <= i < j < |events| ==> events[i] != events[j]
    ensures events[k] !in events[..k]
    ensures events[..k + 1] == events[..k] + [events[k]]
  {
  }

  /** Merging one more managed event. */
  lemma MergeOneMore(start: Object, hooks: Object, at: Installation, events: set<string>, event: string)
    requires event !in events && hooks == MergedFields(start, at, events)
    ensures GroupsOf(hooks, event) == GroupsOf(start, event)
    ensures hooks[event := MergedEvent(start, at, event)] == MergedFields(start, at, events + {event})
  {
  }

  method MergeHooks(original: Object, at: Installation) returns (r: Option<Object>)
    ensures r == Merge(original, at)
  {
    var start := HooksField(original);
    if start.None? {
      return None;
    }
    var hooks := start.value;
    assert hooks == MergedFields(start.value, at, EventSet(0));
    for k := 0 to |HOOK_EVENTS|
      invariant hooks == MergedFields(start.value, at, EventSet(k))
      invariant forall i :: 0 <= i < k ==> GroupsOf(start.value, HOOK_EVENTS[i]).Some?
    {
      var event := HOOK_EVENTS[k];
      NextEventIsNew(k);
      MergeOneMore(start.value, hooks, at, EventSet(k), event);
      var groups := GroupsOf(hooks, event);
      if groups.None? {
        return None;
      }
      var cleaned := CleanGroups(groups.value);
      hooks := hooks[event := Arr(cleaned + [ManagedGroup(at, event)])];
    }
    r := Some(original["hooks" := Obj(hooks)]);
  }

  method RemoveManagedHooks(original: Object) returns (r: Object)
    ensures r == Remove(original)
  {
    if "hooks" !in original || !original["hooks"].Obj? {
      return original;
    }
    var start := original["hooks"].fields;
    var hooks := start;
    var events := hooks.Keys;
    while events != {}
      invariant events <= start.Keys && hooks.Keys == start.Keys
      invariant forall k :: k in start ==> hooks[k] == if k in events then start[k] else CleanField(start[k])
      decreases events
    {
      var event :| event in events;
      events := events - {event};
      if hooks[event].Arr? {
        var cleaned := CleanGroups(hooks[event].items);
        hooks := hooks[event := Arr(cleaned)];
      }
    }
    assert hooks == CleanFields(start);
    r := original["hooks" := Obj(hooks)];
  }

  // ---------------------------------------------------------------- what they guarantee

  predicate IsHookEvent(event: string) {
    event in EventSet(|HOOK_EVENTS|)
  }

  /** Cleaning a merged event gives back the cleaned original. */
  lemma CleanOfMergedEvent(groups: seq<Json>, at: Installation, event: string)
    ensures Clean(Clean(groups) + [ManagedGroup(at, event)]) == Clean(groups)
    ensures UserHooks(Clean(groups) + [ManagedGroup(at, event)]) == UserHooks(groups)
    ensures ManagedHooks(Clean(groups) + [ManagedGroup(at, event)]) == 1
  {
    CleanConcat(Clean(groups), [ManagedGroup(at, event)]);
    UserHooksConcat(Clean(groups), [ManagedGroup(at, event)]);
    CleanMeans(groups);
    ManagedGroupIsOurs(at, event);
  }

  lemma MergedFieldsAgain(hooks: Object, first: Installation, second: Installation, all: set<string>)
    ensures MergedFields(MergedFields(hooks, first, all), second, all) == MergedFields(hooks, second, all)
  {
    var merged := MergedFields(hooks, first, all);
    forall e | e in all
      ensures MergedEvent(merged, second, e) == MergedEvent(hooks, second, e)
    {
      CleanOfMergedEvent(Groups(hooks, e), first, e);
    }
  }

  lemma MergedIsMergeable(root: Object, at: Installation)
    requires Mergeable(root)
    ensures Mergeable(Merge(root, at).value)
    ensures HooksField(Merge(root, at).value).value == MergedFields(HooksField(root).value, at, EventSet(|HOOK_EVENTS|))
  {
    var merged := MergedFields(HooksField(root).value, at, EventSet(|HOOK_EVENTS|));
    forall k | 0 <= k < |HOOK_EVENTS|
      ensures GroupsOf(merged, HOOK_EVENTS[k]).Some?
    {
      assert HOOK_EVENTS[k] in HOOK_EVENTS[..|HOOK_EVENTS|];
    }
  }

  /** Merging an already merged file, under any installation, replaces our hooks and nothing else. */
  lemma MergeAgainReplaces(root: Object, first: Installation, second: Installation)
    requires Mergeable(root)
    ensures Mergeable(Merge(root, first).value)
    ensures Merge(Merge(root, first).value, second) == Merge(root, second)
  {
    var all := EventSet(|HOOK_EVENTS|);
    var hooks := HooksField(root).value;
    MergedIsMergeable(root, first);
    MergedFieldsAgain(hooks, first, second, all);
    UpdateTwice(root, "hooks", Obj(MergedFields(hooks, first, all)), Obj(MergedFields(hooks, second, all)));
  }

  lemma UpdateTwice(root: Object, key: string, a: Json, b: Json)
    ensures root[key := a][key := b] == root[key := b]
  {
  }

  /** Merging twice is merging once. */
  lemma MergeIsIdempotent(root: Object, at: Installation)
    requires Mergeable(root)
    ensures Merge(Merge(root, at).value, at) == Merge(root, at)
  {
    MergeAgainReplaces(root, at, at);
  }

  /** After a merge every managed event has exactly one managed hook and the user's hooks in their order. */
  lemma MergeKeepsUserHooks(root: Object, at: Installation, event: string)
    requires Mergeable(root)
    ensures var before := HooksField(root).value;
            var after := HooksField(Merge(root, at).value).value;
            && Others(Listed(Groups(after, event))) == Others(Listed(Groups(before, event)))
            && (IsHookEvent(event) ==> |Listed(Groups(after, event))| == |Others(Listed(Groups(before, event)))| + 1)
            && (!IsHookEvent(event) ==> (event in after <==> event in before)
                                        && Groups(after, event) == Groups(before, event))
    ensures forall k :: k != "hooks" ==> (k in Merge(root, at).value <==> k in root)
                                         && (k in root ==> Merge(root, at).value[k] == root[k])
  {
    CleanOfMergedEvent(Groups(HooksField(root).value, event), at, event);
    UserHooksAreOthers(Groups(HooksField(root).value, event));
    UserHooksAreOthers(Groups(HooksField(Merge(root, at).value).value, event));
  }

  /** Removal leaves the user's hooks in their order and no managed hook in any event. */
  lemma RemoveKeepsUserHooks(root: Object, event: string)
    requires HooksField(root).Some?
    ensures HooksField(Remove(root)).Some?
    ensures Listed(Groups(HooksField(Remove(root)).value, event)) == Others(Listed(Groups(HooksField(root).value, event)))
  {
    CleanKeepsOthersGroups(Groups(HooksField(root).value, event));
    OthersGroupsListOthers(Groups(HooksField(root).value, event));
  }

  function Padded(hooks: Object): Object {
    map k | k in hooks.Keys + EventSet(|HOOK_EVENTS|) :: if k in hooks then hooks[k] else Arr([])
  }

  /** The empty lists a merge leaves behind: an entry for each managed event that had none. */
  function WithEmptyLists(root: Object): Object {
    root["hooks" := Obj(Padded(if HooksField(root).Some? then HooksField(root).value else map[]))]
  }

  lemma CleanedMergedField(root: Object, at: Installation, k: string)
    requires Mergeable(root)
    requires k in MergedFields(HooksField(root).value, at, EventSet(|HOOK_EVENTS|))
    ensures var hooks := HooksField(root).value;
            CleanField(MergedFields(hooks, at, EventSet(|HOOK_EVENTS|))[k])
            == if k in hooks then CleanField(hooks[k]) else Arr([])
  {
    var hooks := HooksField(root).value;
    if IsHookEvent(k) {
      CleanOfMergedEvent(Groups(hooks, k), at, k);
      var i :| 0 <= i < |HOOK_EVENTS| && HOOK_EVENTS[i] == k;
      assert GroupsOf(hooks, HOOK_EVENTS[i]).Some?;
    }
  }

  lemma CleanedMerge(root: Object, at: Installation)
    requires Mergeable(root)
    ensures var hooks := HooksField(root).value;
            CleanFields(MergedFields(hooks, at, EventSet(|HOOK_EVENTS|))) == Padded(CleanFields(hooks))
  {
    var hooks := HooksField(root).value;
    var merged := MergedFields(hooks, at, EventSet(|HOOK_EVENTS|));
    forall k | k in merged
      ensures CleanField(merged[k]) == if k in hooks then CleanField(hooks[k]) else Arr([])
    {
      CleanedMergedField(root, at, k);
    }
  }

  /** Removing after a successful merge undoes it, up to those empty lists. */
  lemma RemoveUndoesMerge(root: Object, at: Installation)
    requires Mergeable(root)
    ensures Remove(Merge(root, at).value) == WithEmptyLists(Remove(root))
  {
    var hooks := HooksField(root).value;
    var merged := MergedFields(hooks, at, EventSet(|HOOK_EVENTS|));
    var padded := Padded(CleanFields(hooks));
    CleanedMerge(root, at);
    assert Merge(root, at).value == root["hooks" := Obj(merged)];
    UpdateTwice(root, "hooks", Obj(merged), Obj(padded));
    UpdateTwice(root, "hooks", Obj(CleanFields(hooks)), Obj(padded));
    RemovedHooks(root);
  }

  lemma RemovedHooks(root: Object)
    requires HooksField(root).Some?
    ensures "hooks" in root ==> Remove(root) == root["hooks" := Obj(CleanFields(HooksField(root).value))]
    ensures "hooks" !in root ==> Remove(root) == root && HooksField(root).value == map[]
    ensures HooksField(Remove(root)) == Some(CleanFields(HooksField(root).value))
  {
  }

  // ---------------------------------------------------------------- what stands in the file afterwards

  predicate IsManagedEvent(event: string) {
    event in {"SessionStart", "UserPromptSubmit", "PreToolUse", "PostToolUse", "PreCompact", "Stop"}
  }

  lemma IsHookEventIff(event: string)
    ensures IsHookEvent(event) <==> IsManagedEvent(event)
  {
    assert HOOK_EVENTS[..|HOOK_EVENTS|] == HOOK_EVENTS;
    assert HOOK_EVENTS[0] == "SessionStart" && HOOK_EVENTS[1] == "UserPromptSubmit" && HOOK_EVENTS[2] == "PreToolUse";
    assert HOOK_EVENTS[3] == "PostToolUse" && HOOK_EVENTS[4] == "PreCompact" && HOOK_EVENTS[5] == "Stop";
  }

  /** The hook a merge adds, with its time limit. */
  function AddedHook(at: Installation, event: string): Json {
    Obj(map["type" := Str("command"),
            "command" := Str("PREVIOUSLY_ON_MANAGED_ID=" + "previously-on-v1" + " PREVIOUSLY_ON_DATA_DIR=" + at.dataDir
                             + " " + at.executable + " hook " + event),
            "timeout" := Number(if event == "Stop" then 30 else 10)])
  }

  /** Its group; only the session start has a matcher. */
  function AddedGroup(at: Installation, event: string): Json {
    if event == "SessionStart" then
      Obj(map["hooks" := Arr([AddedHook(at, event)]), "matcher" := Str("startup|resume|clear|compact")])
    else Obj(map["hooks" := Arr([AddedHook(at, event)])])
  }

  lemma Regroup(a: string, b: string, c: string, d: string, e: string, f: string, g: string, h: string)
    ensures a + (b + c + d + e + f + g + h) == a + b + c + d + e + f + g + h
    ensures a + b + c + d + e + f + g + h == a + b + (c + d + e + f + g + h)
  {
  }

  lemma ManagedGroupIsAdded(at: Installation, event: string)
    ensures ManagedGroup(at, event) == AddedGroup(at, event)
    ensures IsOurs(AddedHook(at, event))
  {
    Regroup("PREVIOUSLY_ON_MANAGED_ID=", "previously-on-v1", " PREVIOUSLY_ON_DATA_DIR=", at.dataDir, " ", at.executable,
            " hook ", event);
    assert AddedHook(at, event).fields["command"].s
        == "PREVIOUSLY_ON_MANAGED_ID=" + "previously-on-v1"
           + (" PREVIOUSLY_ON_DATA_DIR=" + at.dataDir + " " + at.executable + " hook " + event);
    assert ManagedHook(at, event) == AddedHook(at, event);
    assert ManagedGroup(at, event).fields == AddedGroup(at, event).fields;
  }

  /** Each hook of somebody else occurs as often as before. */
  ghost predicate OthersAreAsMany(after: seq<Json>, before: seq<Json>) {
    forall hook :: !IsOurs(hook) ==> multiset(after)[hook] == multiset(before)[hook]
  }

  /** A merged event has the groups somebody else has a hook in, as they were but for our hooks, then our one group. */
  lemma MergedEventGroups(root: Object, at: Installation, event: string)
    requires Mergeable(root) && IsManagedEvent(event)
    ensures var after := HooksField(Merge(root, at).value).value;
            event in after
            && after[event] == Arr(OthersGroups(Groups(HooksField(root).value, event)) + [AddedGroup(at, event)])
  {
    IsHookEventIff(event);
    MergedIsMergeable(root, at);
    CleanKeepsOthersGroups(Groups(HooksField(root).value, event));
    ManagedGroupIsAdded(at, event);
  }

  /** So each hook of somebody else is there as often as before and in its place, and ours comes last. */
  lemma MergedEventLists(root: Object, at: Installation, event: string)
    requires Mergeable(root) && IsManagedEvent(event)
    ensures var before := Listed(Groups(HooksField(root).value, event));
            var after := Listed(Groups(HooksField(Merge(root, at).value).value, event));
            after == Others(before) + [AddedHook(at, event)] && OthersAreAsMany(after, before)
  {
    var before := Groups(HooksField(root).value, event);
    MergedEventGroups(root, at, event);
    ManagedGroupIsAdded(at, event);
    AddedComesLast(before, at, event);
    OthersStayAsMany(Listed(before), [AddedHook(at, event)]);
  }

  lemma OthersStayAsMany(hooks: seq<Json>, ours: seq<Json>)
    requires forall hook :: hook in ours ==> IsOurs(hook)
    ensures OthersAreAsMany(Others(hooks) + ours, hooks)
  {
    forall hook | !IsOurs(hook)
      ensures multiset(Others(hooks) + ours)[hook] == multiset(hooks)[hook]
    {
      OthersAreCounted(hooks, hook);
      assert hook !in multiset(ours);
    }
  }

  lemma AddedComesLast(before: seq<Json>, at: Installation, event: string)
    ensures Listed(OthersGroups(before) + [AddedGroup(at, event)]) == Others(Listed(before)) + [AddedHook(at, event)]
  {
    ListedAppend(OthersGroups(before), [AddedGroup(at, event)]);
    OthersGroupsListOthers(before);
    SingleGroup(AddedGroup(at, event));
  }

  /** After a removal each event is left with the others' groups and hooks, as often as before and in their places. */
  lemma RemovedEventLists(root: Object, event: string)
    requires HooksField(root).Some? && event in HooksField(root).value && HooksField(root).value[event].Arr?
    ensures var before := HooksField(root).value[event].items;
            var after := HooksField(Remove(root)).value;
            && event in after && after[event] == Arr(OthersGroups(before))
            && Listed(after[event].items) == Others(Listed(before)) && OthersAreAsMany(Listed(after[event].items), Listed(before))
  {
    var before := HooksField(root).value[event].items;
    RemovedHooks(root);
    CleanKeepsOthersGroups(before);
    OthersGroupsListOthers(before);
    OthersStayAsMany(Listed(before), []);
    assert Others(Listed(before)) + [] == Others(Listed(before));
  }

  /** What is no hook of a list of groups is not touched by a removal. */
  lemma RemovalTouchesNothingElse(root: Object, key: string)
    ensures key in Remove(root) <==> key in root
    ensures key in root && (key != "hooks" || !root[key].Obj?) ==> Remove(root)[key] == root[key]
    ensures "hooks" in root && root["hooks"].Obj? ==>
              Remove(root)["hooks"].Obj?
              && forall event :: (event in Remove(root)["hooks"].fields <==> event in root["hooks"].fields)
                                 && (event in root["hooks"].fields && !root["hooks"].fields[event].Arr? ==>
                                       Remove(root)["hooks"].fields[event] == root["hooks"].fields[event])
  {
  }

  /** A merge is refused exactly when the hooks are no object or one of the six events is there and no list. */
  lemma MergeIsRefusedIff(root: Object, at: Installation)
    ensures Merge(root, at).None? <==>
            "hooks" in root
            && (!root["hooks"].Obj?
                || exists event :: event in root["hooks"].fields && IsManagedEvent(event) && !root["hooks"].fields[event].Arr?)
  {
    if "hooks" in root && root["hooks"].Obj? {
      var hooks := root["hooks"].fields;
      forall event
        ensures IsManagedEvent(event) <==> event in HOOK_EVENTS
      {
        IsHookEventIff(event);
        assert HOOK_EVENTS[..|HOOK_EVENTS|] == HOOK_EVENTS;
      }
      if event :| event in hooks && IsManagedEvent(event) && !hooks[event].Arr? {
        var k :| 0 <= k < |HOOK_EVENTS| && HOOK_EVENTS[k] == event;
        assert GroupsOf(hooks, HOOK_EVENTS[k]).None?;
      }
      if !Mergeable(root) {
        var k :| 0 <= k < |HOOK_EVENTS| && GroupsOf(hooks, HOOK_EVENTS[k]).None?;
        assert HOOK_EVENTS[k] in HOOK_EVENTS;
      }
    }
  }
}
