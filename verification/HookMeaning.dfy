/** What installing and removing hooks does to settings.json, told on the JSON itself. */
module HookMeaning {
  import opened Options
  import opened HookSettings

  /** The hook runs the command: writing both fields once more would change nothing. */
  predicate Runs(hook: Json, command: string) {
    hook.Obj? && hook == Obj(hook.fields["type" := Str("command")]["command" := Str(command)])
  }

  predicate RunsOne(hook: Json, commands: seq<string>) {
    exists i :: 0 <= i < |commands| && Runs(hook, commands[i])
  }

  /** Entry i of the array that the settings hold for event e. */
  predicate EntryIs(root: Json, e: string, i: nat, entry: Json) {
    && root.Obj? && "hooks" in root.fields && root.fields["hooks"].Obj?
    && e in root.fields["hooks"].fields && root.fields["hooks"].fields[e].Arr?
    && i < |root.fields["hooks"].fields[e].items| && root.fields["hooks"].fields[e].items[i] == entry
  }

  /** Hook k of an entry. */
  predicate HookIs(entry: Json, k: nat, hook: Json) {
    && entry.Obj? && "hooks" in entry.fields && entry.fields["hooks"].Arr?
    && k < |entry.fields["hooks"].items| && entry.fields["hooks"].items[k] == hook
  }

  /** The entry is for this matcher; no matcher and null are the same. */
  predicate MatcherIs(entry: Json, m: Option<string>) {
    && entry.Obj?
    && match m
       case None => "matcher" !in entry.fields || entry.fields["matcher"] == Null
       case Some(text) => "matcher" in entry.fields && entry.fields["matcher"] == Str(text)
  }

  /** The entries agree in everything but their hooks. */
  predicate AlikeApart(a: Json, b: Json) {
    a.Obj? && b.Obj? && a.fields - {"hooks"} == b.fields - {"hooks"}
  }

  // --------------------------------------------------------------- bridges to the code

  lemma OursRunsOne(hook: Json, c: Command)
    ensures IsOurs(hook, c) <==> RunsOne(hook, c.variants)
  {
    if IsOurs(hook, c) {
      var i :| 0 <= i < |c.variants| && c.variants[i] == hook.fields["command"].s;
      assert hook.fields["type" := Str("command")]["command" := Str(c.variants[i])] == hook.fields;
      assert Runs(hook, c.variants[i]);
    }
    if RunsOne(hook, c.variants) {
      var i :| 0 <= i < |c.variants| && Runs(hook, c.variants[i]);
      var f := hook.fields["type" := Str("command")]["command" := Str(c.variants[i])];
      assert hook.fields == f && f["type"] == Str("command") && f["command"] == Str(c.variants[i]);
    }
  }

  lemma NotOurs(hook: Json, c: Command)
    requires forall v :: v in c.variants ==> !Runs(hook, v)
    ensures !IsOurs(hook, c)
  {
    OursRunsOne(hook, c);
    assert forall i :: 0 <= i < |c.variants| ==> c.variants[i] in c.variants;
  }

  lemma ListedHook(entry: Json, k: nat, hook: Json)
    ensures HookIs(entry, k, hook) <==> k < |HookList(entry)| && HookList(entry)[k] == hook
  {
  }

  lemma MatcherMeans(entry: Json, m: Option<string>)
    ensures MatcherIs(entry, m) <==> !MatcherBad(entry) && MatcherOf(entry) == m
  {
  }

  lemma ItemsMeans(root: Json, e: string, i: nat, entry: Json)
    ensures EntryIs(root, e, i, entry) <==> i < |ItemsAt(HooksOf(root), e)| && ItemsAt(HooksOf(root), e)[i] == entry
  {
  }

  lemma RunsOneIsOurs(entry: Json, k: nat, hook: Json, v: string, c: Command)
    requires HookIs(entry, k, hook) && v in c.variants && Runs(hook, v)
    ensures HasOurs(HookList(entry), c)
  {
    var x :| 0 <= x < |c.variants| && c.variants[x] == v;
    OursRunsOne(hook, c);
    assert IsOurs(HookList(entry)[k], c);
  }

  lemma OursRuns(entry: Json, c: Command) returns (k: nat, hook: Json, v: string)
    requires HasOurs(HookList(entry), c)
    ensures HookIs(entry, k, hook) && v in c.variants && Runs(hook, v)
  {
    var hooks := HookList(entry);
    k :| 0 <= k < |hooks| && IsOurs(hooks[k], c);
    hook := hooks[k];
    OursRunsOne(hook, c);
    var x :| 0 <= x < |c.variants| && Runs(hook, c.variants[x]);
    v := c.variants[x];
  }

  lemma {:induction false} ForeignHas(hooks: seq<Json>, k: nat, c: Command) returns (k': nat)
    requires k < |hooks| && !IsOurs(hooks[k], c)
    ensures k' < |Foreign(hooks, c)| && Foreign(hooks, c)[k'] == hooks[k]
    decreases |hooks|
  {
    var n := |hooks| - 1;
    if k < n {
      k' := ForeignHas(hooks[..n], k, c);
    } else {
      k' := |Foreign(hooks[..n], c)|;
    }
  }

  lemma {:induction false} JoinHas(pieces: seq<seq<Json>>, i: nat, left: Json) returns (i': nat)
    requires i < |pieces| && pieces[i] == [left]
    ensures i' < |Join(pieces)| && Join(pieces)[i'] == left
    decreases |pieces|
  {
    var n := |pieces| - 1;
    if i < n {
      assert pieces[..n][i] == pieces[i];
      i' := JoinHas(pieces[..n], i, left);
    } else {
      i' := |Join(pieces[..n])|;
    }
  }

  lemma CleanHas(a: seq<Json>, i: nat, c: Command, left: Json) returns (i': nat)
    requires i < |a| && Cleaned(a[i], c) == [left]
    ensures i' < |CleanArray(a, c)| && CleanArray(a, c)[i'] == left
  {
    CleanIsJoin(a, c);
    i' := JoinHas(Pieces(a, c), i, left);
  }

  // ------------------------------------------------------------------------- removal

  lemma RemovedItems(root: Json, c: Command, e: string)
    ensures ItemsAt(HooksOf(RemoveSettings(root, c)), e) == CleanArray(ItemsAt(HooksOf(root), e), c)
  {
    if root.Obj? && "hooks" in root.fields && root.fields["hooks"].Obj? {
      var h := root.fields["hooks"].fields;
      var g := CleanHooks(h, c);
      assert HooksOf(RemoveSettings(root, c)) == g;
      assert ItemsAt(g, e) == CleanArray(ItemsAt(h, e), c);
    }
  }

  /** After removal no hook under any event runs any of the spellings. */
  lemma RemovalTakesEverySpelling(root: Json, c: Command, e: string, i: nat, entry: Json, k: nat, hook: Json, v: string)
    requires EntryIs(RemoveSettings(root, c), e, i, entry) && HookIs(entry, k, hook) && v in c.variants
    ensures !Runs(hook, v)
  {
    RemovedItems(root, c, e);
    ItemsMeans(RemoveSettings(root, c), e, i, entry);
    CleanLeavesNone(ItemsAt(HooksOf(root), e), c);
    if Runs(hook, v) {
      RunsOneIsOurs(entry, k, hook, v, c);
    }
  }

  /** Every other hook survives, in an entry like the one it was in. */
  lemma RemovalKeepsOthers(root: Json, c: Command, e: string, i: nat, entry: Json, k: nat, hook: Json)
    returns (i': nat, entry': Json, k': nat)
    requires EntryIs(root, e, i, entry) && HookIs(entry, k, hook)
    requires forall v :: v in c.variants ==> !Runs(hook, v)
    ensures EntryIs(RemoveSettings(root, c), e, i', entry') && HookIs(entry', k', hook) && AlikeApart(entry, entry')
  {
    NotOurs(hook, c);
    ItemsMeans(root, e, i, entry);
    entry', k' := CleanedKeeps(entry, c, k, hook);
    i' := CleanHas(ItemsAt(HooksOf(root), e), i, c, entry');
    RemovedItems(root, c, e);
    ItemsMeans(RemoveSettings(root, c), e, i', entry');
  }

  lemma CleanedKeeps(entry: Json, c: Command, k: nat, hook: Json) returns (entry': Json, k': nat)
    requires HookIs(entry, k, hook) && !IsOurs(hook, c)
    ensures Cleaned(entry, c) == [entry'] && HookIs(entry', k', hook) && AlikeApart(entry, entry')
  {
    if HasOurs(HookList(entry), c) {
      var rest := Foreign(HookList(entry), c);
      k' := ForeignHas(HookList(entry), k, c);
      entry' := WithHooks(entry, rest);
      assert HookList(entry') == rest;
    } else {
      entry', k' := entry, k;
    }
  }

  /** An entry in which no hook runs any of the spellings survives as it is, whatever it is. */
  lemma RemovalKeepsOtherEntries(root: Json, c: Command, e: string, i: nat, entry: Json) returns (i': nat)
    requires EntryIs(root, e, i, entry)
    requires forall k, hook, v :: HookIs(entry, k, hook) && v in c.variants ==> !Runs(hook, v)
    ensures EntryIs(RemoveSettings(root, c), e, i', entry)
  {
    if HasOurs(HookList(entry), c) {
      var k, hook, v := OursRuns(entry, c);
    }
    ItemsMeans(root, e, i, entry);
    i' := CleanHas(ItemsAt(HooksOf(root), e), i, c, entry);
    RemovedItems(root, c, e);
    ItemsMeans(RemoveSettings(root, c), e, i', entry);
  }

  /** The list of everyone else's hooks, which both passes keep, has one element for each of
      them: an entry's are there in order, each with the entry's matcher. */
  lemma ForeignOfMeans(entry: Json, c: Command, i: nat)
    ensures |ForeignOf(entry, c)| == |Foreign(HookList(entry), c)|
    ensures i < |ForeignOf(entry, c)| ==>
      ForeignOf(entry, c)[i].hook == Foreign(HookList(entry), c)[i] && entry.Obj?
      && (ForeignOf(entry, c)[i].matcher.Some? <==> "matcher" in entry.fields)
      && ("matcher" in entry.fields ==> ForeignOf(entry, c)[i].matcher == Some(entry.fields["matcher"]))
  {
    if i < |ForeignOf(entry, c)| {
      assert entry.Obj?;
      assert ForeignOf(entry, c)[i] == Owned(Get(entry.fields, "matcher"), Foreign(HookList(entry), c)[i]);
    }
  }

  /** How many hooks of the list run none of the spellings. */
  function OthersCount(hooks: seq<Json>, commands: seq<string>): nat {
    if hooks == [] then 0
    else OthersCount(hooks[..|hooks| - 1], commands) + (if RunsOne(hooks[|hooks| - 1], commands) then 0 else 1)
  }

  lemma {:induction false} ForeignCounts(hooks: seq<Json>, c: Command)
    ensures |Foreign(hooks, c)| == OthersCount(hooks, c.variants)
    decreases |hooks|
  {
    if hooks != [] {
      ForeignCounts(hooks[..|hooks| - 1], c);
      OursRunsOne(hooks[|hooks| - 1], c);
    }
  }

  // ------------------------------------------------------------------------ installing

  /** Position by position, the first array is in the second: alike apart from hooks, and
      with the hooks first. */
  ghost predicate Extends(a: seq<Json>, b: seq<Json>) {
    |a| <= |b| && forall i :: 0 <= i < |a| ==>
      a[i] == b[i] || (AlikeApart(a[i], b[i]) && HookList(a[i]) <= HookList(b[i]))
  }

  /** What the second array has beyond the first runs the command at `path`. */
  ghost predicate AddsOnly(a: seq<Json>, b: seq<Json>, path: string) {
    forall i, k, hook :: 0 <= i < |b| && HookIs(b[i], k, hook) ==>
      (i < |a| && HookIs(a[i], k, hook)) || Runs(hook, path)
  }

  lemma VisitedEntry(entry: Json)
    ensures AlikeApart(entry, Normalize(entry)) || entry == Normalize(entry)
    ensures HookList(Normalize(entry)) == HookList(entry)
  {
  }

  lemma OurHookRuns(c: Command)
    ensures Runs(OurHook(c), c.path)
  {
    var f := OurHook(c).fields;
    assert f["type" := Str("command")]["command" := Str(c.path)] == f;
  }

  lemma LongerHooks(entry: Json, c: Command)
    requires entry.Obj?
    ensures var more := WithHooks(entry, HookList(entry) + [OurHook(c)]);
      AlikeApart(entry, more) && HookList(more) == HookList(entry) + [OurHook(c)]
  {
  }

  lemma StepExtends(a: seq<Json>, m: Option<string>, c: Command)
    requires EnsureArray(a, m, c).Done?
    ensures Extends(a, EnsureArray(a, m, c).result)
  {
    var d, t := EnsureArray(a, m, c).result, FirstTarget(a, m, c, 0);
    forall i | 0 <= i < |a|
      ensures a[i] == d[i] || (AlikeApart(a[i], d[i]) && HookList(a[i]) <= HookList(d[i]))
    {
      VisitedEntry(a[i]);
      if a[i].Obj? {
        LongerHooks(a[i], c);
      }
    }
  }

  lemma NewEntryHooks(m: Option<string>, c: Command)
    ensures HookList(NewEntry(m, c)) == [OurHook(c)] && MatcherIs(NewEntry(m, c), m)
  {
  }

  /** The hooks of the second entry beyond those of the first run the path. */
  ghost predicate EntryAddsOnly(before: Json, after: Json, path: string) {
    forall k, hook :: HookIs(after, k, hook) ==> HookIs(before, k, hook) || Runs(hook, path)
  }

  lemma VisitedAddsOnly(entry: Json, path: string)
    ensures EntryAddsOnly(entry, entry, path) && EntryAddsOnly(entry, Normalize(entry), path)
  {
  }

  lemma LongerAddsOnly(entry: Json, c: Command)
    requires entry.Obj?
    ensures EntryAddsOnly(entry, WithHooks(entry, HookList(entry) + [OurHook(c)]), c.path)
  {
    OurHookRuns(c);
    LongerHooks(entry, c);
    var more := WithHooks(entry, HookList(entry) + [OurHook(c)]);
    forall k, hook | HookIs(more, k, hook)
      ensures HookIs(entry, k, hook) || Runs(hook, c.path)
    {
      ListedHook(more, k, hook);
      ListedHook(entry, k, hook);
    }
  }

  lemma StepAddsOnly(a: seq<Json>, m: Option<string>, c: Command)
    requires EnsureArray(a, m, c).Done?
    ensures AddsOnly(a, EnsureArray(a, m, c).result, c.path)
  {
    var d := EnsureArray(a, m, c).result;
    forall i | 0 <= i < |a|
      ensures EntryAddsOnly(a[i], d[i], c.path)
    {
      VisitedAddsOnly(a[i], c.path);
      if a[i].Obj? {
        LongerAddsOnly(a[i], c);
      }
    }
    AddsOnlyByEntry(a, d, m, c);
  }

  lemma AddsOnlyByEntry(a: seq<Json>, d: seq<Json>, m: Option<string>, c: Command)
    requires |d| == |a| || (|d| == |a| + 1 && d[|a|] == NewEntry(m, c))
    requires forall i :: 0 <= i < |a| ==> EntryAddsOnly(a[i], d[i], c.path)
    ensures AddsOnly(a, d, c.path)
  {
    OurHookRuns(c);
    NewEntryHooks(m, c);
    forall i, k, hook | 0 <= i < |d| && HookIs(d[i], k, hook)
      ensures (i < |a| && HookIs(a[i], k, hook)) || Runs(hook, c.path)
    {
      if i == |a| {
        ListedHook(d[i], k, hook);
      }
    }
  }

  /** Nothing changed, unless the entry had no hooks list and got an empty one. */
  predicate SameOrListed(before: Json, after: Json) {
    before == after
    || (before.Obj? && "hooks" !in before.fields && after == Obj(before.fields["hooks" := Arr([])]))
  }

  /** An entry for matcher m that runs any of the spellings makes installing for m add no
      hook: entries stay as they are, except that one without a hooks list may get an
      empty one. */
  lemma InstallAddsNoneBeside(a: seq<Json>, m: Option<string>, c: Command, i: nat, k: nat, hook: Json, v: string)
    requires EnsureArray(a, m, c).Done?
    requires i < |a| && MatcherIs(a[i], m) && HookIs(a[i], k, hook) && v in c.variants && Runs(hook, v)
    ensures var r := EnsureArray(a, m, c);
      !r.changed && |r.result| == |a| && forall j :: 0 <= j < |a| ==> SameOrListed(a[j], r.result[j])
  {
    RunsOneIsOurs(a[i], k, hook, v, c);
    MatcherMeans(a[i], m);
    assert KindOf(a[i], m, c).Installed?;
    var s := StopAt(a, m, c, 0);
    assert s <= i;
  }

  /** Otherwise it adds exactly one, which runs the path. */
  lemma InstallAddsOne(a: seq<Json>, m: Option<string>, c: Command)
    requires EnsureArray(a, m, c).Done?
    requires forall i, k, hook, v :: 0 <= i < |a| && MatcherIs(a[i], m) && HookIs(a[i], k, hook) && v in c.variants ==>
      !Runs(hook, v)
    ensures EnsureArray(a, m, c).changed
    ensures HookCount(EnsureArray(a, m, c).result) == HookCount(a) + 1
  {
    var s := StopAt(a, m, c, 0);
    if s < |a| && KindOf(a[s], m, c).Installed? {
      MatcherMeans(a[s], m);
      var k, hook, v := OursRuns(a[s], c);
    }
    StepCount(a, m, c);
  }

  lemma ExtendsTwice(a: seq<Json>, b: seq<Json>, d: seq<Json>)
    requires Extends(a, b) && Extends(b, d)
    ensures Extends(a, d)
  {
    forall i | 0 <= i < |a|
      ensures a[i] == d[i] || (AlikeApart(a[i], d[i]) && HookList(a[i]) <= HookList(d[i]))
    {
      assert b[i] == d[i] || (AlikeApart(b[i], d[i]) && HookList(b[i]) <= HookList(d[i]));
    }
  }

  lemma {:induction false} AllExtend(specs: seq<HookSpec>, h: map<string, Json>, c: Command, e: string)
    requires EnsureAll(specs, h, c).Done?
    ensures var h' := EnsureAll(specs, h, c).result;
      Extends(ItemsAt(h, e), ItemsAt(h', e)) && AddsOnly(ItemsAt(h, e), ItemsAt(h', e), c.path)
    decreases |specs|
  {
    if specs != [] {
      var init, last := specs[..|specs| - 1], specs[|specs| - 1];
      EnsureAllLast(specs, h, c);
      AllExtend(init, h, c, e);
      var h1 := EnsureAll(init, h, c).result;
      var b := ItemsAt(h1, e);
      if last.event == e {
        StepExtends(b, last.matcher, c);
        StepAddsOnly(b, last.matcher, c);
        ExtendsTwice(ItemsAt(h, e), b, ItemsAt(EnsureAll(specs, h, c).result, e));
      }
    }
  }

  lemma InstalledItems(specs: seq<HookSpec>, root: Json, c: Command, e: string)
    requires EnsureSettings(specs, root, c).Done?
    ensures var r := EnsureSettings(specs, root, c).result;
      EnsureAll(specs, HooksOf(root), c).Done?
      && ItemsAt(HooksOf(r), e) == ItemsAt(EnsureAll(specs, HooksOf(root), c).result, e)
  {
  }

  /** Installing leaves every hook in its place, in an entry like the one it was in. */
  lemma InstallKeepsPlaces(specs: seq<HookSpec>, root: Json, c: Command, e: string, i: nat, entry: Json, k: nat,
                           hook: Json)
    returns (entry': Json)
    requires EnsureSettings(specs, root, c).Done? && EntryIs(root, e, i, entry) && HookIs(entry, k, hook)
    ensures EntryIs(EnsureSettings(specs, root, c).result, e, i, entry')
    ensures HookIs(entry', k, hook) && AlikeApart(entry, entry')
  {
    InstalledItems(specs, root, c, e);
    AllExtend(specs, HooksOf(root), c, e);
    entry' := ItemsAt(HooksOf(EnsureSettings(specs, root, c).result), e)[i];
    ItemsMeans(EnsureSettings(specs, root, c).result, e, i, entry');
    ListedHook(entry, k, hook);
    ListedHook(entry', k, hook);
  }

  /** Whatever hook it adds runs the installed path. */
  lemma InstallAddsOnlyPath(specs: seq<HookSpec>, root: Json, c: Command, e: string, i: nat, entry: Json, k: nat,
                            hook: Json)
    requires EnsureSettings(specs, root, c).Done?
    requires EntryIs(EnsureSettings(specs, root, c).result, e, i, entry) && HookIs(entry, k, hook)
    ensures Runs(hook, c.path) || exists before :: EntryIs(root, e, i, before) && HookIs(before, k, hook)
  {
    InstalledItems(specs, root, c, e);
    AllExtend(specs, HooksOf(root), c, e);
    var a := ItemsAt(HooksOf(root), e);
    if !Runs(hook, c.path) {
      assert i < |a| && HookIs(a[i], k, hook);
      assert EntryIs(root, e, i, a[i]);
    }
  }

  /** Afterwards every spec is served: an entry for its matcher runs one of the spellings. */
  lemma InstallServesSpecs(specs: seq<HookSpec>, root: Json, c: Command, j: nat)
    returns (i: nat, entry: Json, k: nat, hook: Json, v: string)
    requires Proper(c) && EnsureSettings(specs, root, c).Done? && j < |specs|
    ensures EntryIs(EnsureSettings(specs, root, c).result, specs[j].event, i, entry)
    ensures MatcherIs(entry, specs[j].matcher) && HookIs(entry, k, hook) && v in c.variants && Runs(hook, v)
  {
    var r, s := EnsureSettings(specs, root, c).result, specs[j];
    InstalledItems(specs, root, c, s.event);
    AllSettle(specs, HooksOf(root), c);
    assert SettledMap(EnsureAll(specs, HooksOf(root), c).result, s, c);
    var a := ItemsAt(HooksOf(r), s.event);
    i :| 0 <= i < |a| && SettledAt(a, s.matcher, c, i);
    entry := a[i];
    ItemsMeans(r, s.event, i, entry);
    MatcherMeans(entry, s.matcher);
    k, hook, v := OursRuns(entry, c);
  }

  // --------------------------------------------------------------- where, and when not at all

  /** The entry cannot be used when installing for m: it is no object, its matcher is neither
      a text nor null, or it is for m and its hooks are not a list. */
  predicate Malformed(entry: Json, m: Option<string>) {
    || !entry.Obj?
    || ("matcher" in entry.fields && entry.fields["matcher"] != Null && !entry.fields["matcher"].Str?)
    || (MatcherIs(entry, m) && "hooks" in entry.fields && !entry.fields["hooks"].Arr?)
  }

  ghost predicate Serves(entry: Json, m: Option<string>, c: Command) {
    MatcherIs(entry, m) && exists k, hook, v :: HookIs(entry, k, hook) && v in c.variants && Runs(hook, v)
  }

  lemma KindMeans(entry: Json, m: Option<string>, c: Command)
    ensures KindOf(entry, m, c).Bad? <==> Malformed(entry, m)
    ensures !Malformed(entry, m) ==> (KindOf(entry, m, c).Installed? <==> Serves(entry, m, c))
    ensures !Malformed(entry, m) ==> (KindOf(entry, m, c).Skip? <==> !MatcherIs(entry, m))
  {
    MatcherMeans(entry, m);
    if HasOurs(HookList(entry), c) {
      var k, hook, v := OursRuns(entry, c);
    }
    if k, hook, v :| HookIs(entry, k, hook) && v in c.variants && Runs(hook, v) {
      RunsOneIsOurs(entry, k, hook, v, c);
    }
  }

  ghost predicate NoneServesBefore(a: seq<Json>, m: Option<string>, c: Command, i: nat) {
    i <= |a| && forall j :: 0 <= j < i ==> Malformed(a[j], m) || !Serves(a[j], m, c)
  }

  /** Installing for m is refused exactly if a malformed entry comes before every entry that
      serves it already. */
  lemma InstallRefusedExactly(a: seq<Json>, m: Option<string>, c: Command)
    ensures EnsureArray(a, m, c).Rejected? <==>
      exists i :: 0 <= i < |a| && Malformed(a[i], m) && NoneServesBefore(a, m, c, i)
  {
    var s := StopAt(a, m, c, 0);
    forall i | 0 <= i < |a|
      ensures KindOf(a[i], m, c).Bad? <==> Malformed(a[i], m)
      ensures !Malformed(a[i], m) ==> (KindOf(a[i], m, c).Installed? <==> Serves(a[i], m, c))
    {
      KindMeans(a[i], m, c);
    }
  }

  /** A new hook goes to the end of the first entry for m; where there is none, it makes a
      new entry after all others. */
  lemma InstallPlace(a: seq<Json>, m: Option<string>, c: Command, t: nat)
    requires EnsureArray(a, m, c).Done? && EnsureArray(a, m, c).changed
    requires t <= |a| && (t < |a| ==> MatcherIs(a[t], m)) && forall j :: 0 <= j < t ==> !MatcherIs(a[j], m)
    ensures var d := EnsureArray(a, m, c).result;
      if t < |a| then |d| == |a| && HookList(d[t]) == HookList(a[t]) + [OurHook(c)]
      else |d| == |a| + 1 && d[..|a|] == a && MatcherIs(d[|a|], m) && HookList(d[|a|]) == [OurHook(c)]
  {
    forall i | 0 <= i < |a|
      ensures KindOf(a[i], m, c).Target? <==> MatcherIs(a[i], m)
    {
      KindMeans(a[i], m, c);
    }
    assert FirstTarget(a, m, c, 0) == t;
    NewEntryHooks(m, c);
    if t < |a| {
      LongerHooks(a[t], c);
    }
  }

  /** Settings of the wrong shape are refused when installing and left alone when removing. */
  lemma WrongShape(specs: seq<HookSpec>, root: Json, c: Command)
    requires !root.Obj? || ("hooks" in root.fields && !root.fields["hooks"].Obj?)
    ensures EnsureSettings(specs, root, c).Rejected? && RemoveSettings(root, c) == root
  {
  }
}
