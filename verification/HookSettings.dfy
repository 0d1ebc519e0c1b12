/** Installing and removing the agent's hooks in the user's settings.json (hooks.rs).
    serde_json keeps objects as sorted maps, so an object is its map. */
module HookSettings {
  import opened Options
  import opened Sequences

  datatype Json =
    | Null
    | Bool(b: bool)
    | Number(text: string)
    | Str(s: string)
    | Arr(items: seq<Json>)
    | Obj(fields: map<string, Json>)

  datatype HookSpec = HookSpec(event: string, matcher: Option<string>)

  /** The command to install, and every spelling of it that counts as ours. */
  datatype Command = Command(path: string, variants: seq<string>)

  ghost predicate Proper(c: Command) { c.path in c.variants }

  // ------------------------------------------------------------- one hook, one entry

  /** command_hook_matches. */
  predicate IsOurs(hook: Json, c: Command) {
    && hook.Obj? && "type" in hook.fields && hook.fields["type"] == Str("command")
    && "command" in hook.fields && hook.fields["command"].Str? && hook.fields["command"].s in c.variants
  }

  function OurHook(c: Command): Json {
    Obj(map["type" := Str("command"), "command" := Str(c.path)])
  }

  predicate HasOurs(hooks: seq<Json>, c: Command) {
    exists i :: 0 <= i < |hooks| && IsOurs(hooks[i], c)
  }

  /** The hooks that are not ours, in order. */
  function Foreign(hooks: seq<Json>, c: Command): seq<Json> {
    if hooks == [] then []
    else Foreign(hooks[..|hooks| - 1], c) + (if IsOurs(hooks[|hooks| - 1], c) then [] else [hooks[|hooks| - 1]])
  }

  /** The hooks array of a matcher entry, when it has one. */
  function HookList(entry: Json): seq<Json> {
    if entry.Obj? && "hooks" in entry.fields && entry.fields["hooks"].Arr? then entry.fields["hooks"].items else []
  }

  predicate MissingHooks(entry: Json) {
    entry.Obj? && "hooks" !in entry.fields
  }

  function WithHooks(entry: Json, hooks: seq<Json>): Json
    requires entry.Obj?
  {
    Obj(entry.fields["hooks" := Arr(hooks)])
  }

  function Normalize(entry: Json): Json {
    if MissingHooks(entry) then WithHooks(entry, []) else entry
  }

  /** matcher_matches: absent and null both mean no matcher; other types are an error. */
  predicate MatcherBad(entry: Json) {
    !entry.Obj? || ("matcher" in entry.fields && !entry.fields["matcher"].Null? && !entry.fields["matcher"].Str?)
  }

  function MatcherOf(entry: Json): Option<string> {
    if entry.Obj? && "matcher" in entry.fields && entry.fields["matcher"].Str?
    then Some(entry.fields["matcher"].s) else None
  }

  /** What the install loop makes of an entry. Installed: our hook is already there.
      Target: the entry matches and has none of our hooks. */
  datatype Kind = Bad | Skip | Installed | Target

  function KindOf(entry: Json, m: Option<string>, c: Command): Kind {
    if MatcherBad(entry) then Bad
    else if MatcherOf(entry) != m then Skip
    else if MissingHooks(entry) then Target
    else if !entry.fields["hooks"].Arr? then Bad
    else if HasOurs(HookList(entry), c) then Installed else Target
  }

  function NewEntry(m: Option<string>, c: Command): Json {
    match m
    case Some(text) => Obj(map["matcher" := Str(text), "hooks" := Arr([OurHook(c)])])
    case None => Obj(map["hooks" := Arr([OurHook(c)])])
  }

  // ----------------------------------------------------------------- one event array

  /** Where the install loop stops: the first bad or installed entry, or the end. */
  function StopAt(a: seq<Json>, m: Option<string>, c: Command, i: nat): (s: nat)
    requires i <= |a|
    ensures i <= s <= |a|
    ensures forall k :: i <= k < s ==> KindOf(a[k], m, c).Skip? || KindOf(a[k], m, c).Target?
    ensures s < |a| ==> KindOf(a[s], m, c).Bad? || KindOf(a[s], m, c).Installed?
    decreases |a| - i
  {
    if i == |a| || KindOf(a[i], m, c).Bad? || KindOf(a[i], m, c).Installed? then i else StopAt(a, m, c, i + 1)
  }

  function FirstTarget(a: seq<Json>, m: Option<string>, c: Command, i: nat): (t: nat)
    requires i <= |a|
    ensures i <= t <= |a|
    ensures forall k :: i <= k < t ==> !KindOf(a[k], m, c).Target?
    ensures t < |a| ==> KindOf(a[t], m, c).Target?
    decreases |a| - i
  {
    if i == |a| || KindOf(a[i], m, c).Target? then i else FirstTarget(a, m, c, i + 1)
  }

  /** The first n entries visited: matching ones get a hooks array if they have none. */
  function Visited(a: seq<Json>, m: Option<string>, c: Command, n: nat): (r: seq<Json>)
    ensures |r| == |a|
  {
    seq(|a|, i requires 0 <= i < |a| => if i < n && KindOf(a[i], m, c).Target? then Normalize(a[i]) else a[i])
  }

  datatype Ensured<T> = Done(result: T, changed: bool) | Rejected

  /** ensure_hook_entry on the event's array. */
  function EnsureArray(a: seq<Json>, m: Option<string>, c: Command): Ensured<seq<Json>> {
    var s := StopAt(a, m, c, 0);
    if s < |a| && KindOf(a[s], m, c).Bad? then Rejected
    else if s < |a| then Done(Visited(a, m, c, s), false)
    else
      var t, b := FirstTarget(a, m, c, 0), Visited(a, m, c, |a|);
      if t < |a| then Done(b[t := WithHooks(a[t], HookList(a[t]) + [OurHook(c)])], true)
      else Done(a + [NewEntry(m, c)], true)
  }

  /** One entry of the removal pass: our hooks go, and the entry with them if that
      empties it. */
  function Cleaned(entry: Json, c: Command): (r: seq<Json>)
    ensures |r| <= 1
  {
    if !HasOurs(HookList(entry), c) then [entry]
    else
      var rest := Foreign(HookList(entry), c);
      if rest == [] then [] else [WithHooks(entry, rest)]
  }

  function CleanArray(a: seq<Json>, c: Command): seq<Json> {
    if a == [] then [] else CleanArray(a[..|a| - 1], c) + Cleaned(a[|a| - 1], c)
  }

  // -------------------------------------------------------------------- whole settings

  function Get(h: map<string, Json>, e: string): Option<Json> {
    if e in h then Some(h[e]) else None
  }

  function EnsureHookEntry(h: map<string, Json>, spec: HookSpec, c: Command): Ensured<map<string, Json>> {
    if spec.event in h && !h[spec.event].Arr? then Rejected
    else
      match EnsureArray(if spec.event in h then h[spec.event].items else [], spec.matcher, c)
      case Rejected => Rejected
      case Done(a, changed) => Done(h[spec.event := Arr(a)], changed)
  }

  /** The specs in order; changed when any of them was. */
  function EnsureAll(specs: seq<HookSpec>, h: map<string, Json>, c: Command): Ensured<map<string, Json>> {
    if specs == [] then Done(h, false)
    else
      match EnsureAll(specs[..|specs| - 1], h, c)
      case Rejected => Rejected
      case Done(h1, changed1) =>
        match EnsureHookEntry(h1, specs[|specs| - 1], c)
        case Rejected => Rejected
        case Done(h2, changed2) => Done(h2, changed1 || changed2)
  }

  /** ensure_settings_hooks. */
  function EnsureSettings(specs: seq<HookSpec>, root: Json, c: Command): Ensured<Json> {
    if !root.Obj? then Rejected
    else if "hooks" in root.fields && !root.fields["hooks"].Obj? then Rejected
    else
      match EnsureAll(specs, if "hooks" in root.fields then root.fields["hooks"].fields else map[], c)
      case Rejected => Rejected
      case Done(h, changed) => Done(Obj(root.fields["hooks" := Obj(h)]), changed)
  }

  /** What removal leaves of an event's value. */
  function CleanValue(v: Json, c: Command): Option<Json> {
    if !v.Arr? then Some(v)
    else if CleanArray(v.items, c) == [] then None else Some(Arr(CleanArray(v.items, c)))
  }

  function CleanHooks(h: map<string, Json>, c: Command): map<string, Json> {
    map e | e in h && CleanValue(h[e], c).Some? :: CleanValue(h[e], c).value
  }

  /** remove_esp32dash_hook_entries. */
  function RemoveSettings(root: Json, c: Command): Json {
    if !root.Obj? || "hooks" !in root.fields || !root.fields["hooks"].Obj? then root
    else
      var h := CleanHooks(root.fields["hooks"].fields, c);
      if h == map[] then Obj(root.fields - {"hooks"}) else Obj(root.fields["hooks" := Obj(h)])
  }

  // ------------------------------------------------------------------ basic facts

  lemma HasOursSnoc(hooks: seq<Json>, x: Json, c: Command)
    ensures HasOurs(hooks + [x], c) <==> HasOurs(hooks, c) || IsOurs(x, c)
  {
    var all := hooks + [x];
    if HasOurs(hooks, c) {
      var i :| 0 <= i < |hooks| && IsOurs(hooks[i], c);
      assert IsOurs(all[i], c);
    }
    if HasOurs(all, c) {
      var i :| 0 <= i < |all| && IsOurs(all[i], c);
      assert i < |hooks| ==> IsOurs(hooks[i], c);
    }
    assert all[|hooks|] == x;
  }

  lemma ForeignSnoc(hooks: seq<Json>, x: Json, c: Command)
    ensures Foreign(hooks + [x], c) == Foreign(hooks, c) + (if IsOurs(x, c) then [] else [x])
  {
    assert (hooks + [x])[..|hooks|] == hooks;
  }

  lemma {:induction false} ForeignIsForeign(hooks: seq<Json>, c: Command)
    ensures !HasOurs(Foreign(hooks, c), c)
    decreases |hooks|
  {
    if hooks != [] {
      var u, x := hooks[..|hooks| - 1], hooks[|hooks| - 1];
      ForeignIsForeign(u, c);
      HasOursSnoc(Foreign(u, c), x, c);
    }
  }

  lemma {:induction false} ForeignSize(hooks: seq<Json>, c: Command)
    ensures |Foreign(hooks, c)| <= |hooks|
    ensures if HasOurs(hooks, c) then |Foreign(hooks, c)| < |hooks| else Foreign(hooks, c) == hooks
    decreases |hooks|
  {
    if hooks != [] {
      var u, x := hooks[..|hooks| - 1], hooks[|hooks| - 1];
      ForeignSize(u, c);
      assert hooks == u + [x];
      HasOursSnoc(u, x, c);
    }
  }

  lemma ForeignHasNone(hooks: seq<Json>, c: Command)
    ensures !HasOurs(Foreign(hooks, c), c) && |Foreign(hooks, c)| <= |hooks|
    ensures !HasOurs(hooks, c) ==> Foreign(hooks, c) == hooks
    ensures HasOurs(hooks, c) ==> |Foreign(hooks, c)| < |hooks|
  {
    ForeignIsForeign(hooks, c);
    ForeignSize(hooks, c);
  }

  lemma ForeignAppendOurs(hooks: seq<Json>, c: Command)
    requires Proper(c) && !HasOurs(hooks, c)
    ensures IsOurs(OurHook(c), c)
    ensures HasOurs(hooks + [OurHook(c)], c)
    ensures Foreign(hooks + [OurHook(c)], c) == hooks
  {
    ForeignHasNone(hooks, c);
    HasOursSnoc(hooks, OurHook(c), c);
    ForeignSnoc(hooks, OurHook(c), c);
  }

  lemma CleanSnoc(a: seq<Json>, x: Json, c: Command)
    ensures CleanArray(a + [x], c) == CleanArray(a, c) + Cleaned(x, c)
  {
    assert (a + [x])[..|a|] == a;
  }

  lemma {:induction false} CleanAppend(a: seq<Json>, b: seq<Json>, c: Command)
    ensures CleanArray(a + b, c) == CleanArray(a, c) + CleanArray(b, c)
    decreases |b|
  {
    if b == [] {
      assert a + b == a;
    } else {
      var u, x := b[..|b| - 1], b[|b| - 1];
      CleanAppend(a, u, c);
      assert b == u + [x];
      CleanAppendOne(a, u, x, c);
    }
  }

  lemma CleanAppendOne(a: seq<Json>, u: seq<Json>, x: Json, c: Command)
    requires CleanArray(a + u, c) == CleanArray(a, c) + CleanArray(u, c)
    ensures CleanArray(a + (u + [x]), c) == CleanArray(a, c) + CleanArray(u + [x], c)
  {
    Associate(a, u, [x]);
    CleanSnoc(a + u, x, c);
    CleanSnoc(u, x, c);
    Associate(CleanArray(a, c), CleanArray(u, c), Cleaned(x, c));
  }

  /** Without our hooks, the removal pass changes nothing in an array. */
  ghost predicate NoOurs(a: seq<Json>, c: Command) {
    forall i :: 0 <= i < |a| ==> !HasOurs(HookList(a[i]), c)
  }

  lemma CleanLastNoOurs(a: seq<Json>, c: Command)
    requires a != [] && NoOurs(a, c)
    ensures CleanArray(a, c) == CleanArray(a[..|a| - 1], c) + [a[|a| - 1]]
  {
  }

  lemma {:induction false} CleanNoOurs(a: seq<Json>, c: Command)
    requires NoOurs(a, c)
    ensures CleanArray(a, c) == a
    decreases |a|
  {
    if a != [] {
      CleanNoOurs(a[..|a| - 1], c);
      CleanLastNoOurs(a, c);
      assert a == a[..|a| - 1] + [a[|a| - 1]];
    }
  }

  lemma {:induction false} CleanLeavesNone(a: seq<Json>, c: Command)
    ensures NoOurs(CleanArray(a, c), c)
    decreases |a|
  {
    if a != [] {
      var x := a[|a| - 1];
      CleanLeavesNone(a[..|a| - 1], c);
      ForeignHasNone(HookList(x), c);
      if HasOurs(HookList(x), c) && Foreign(HookList(x), c) != [] {
        assert HookList(WithHooks(x, Foreign(HookList(x), c))) == Foreign(HookList(x), c);
      }
    }
  }

  // ------------------------------------------------- what one install step does to an entry

  /** How much of an entry is left to lose: the entry itself, and its missing array. */
  function Weight(a: seq<Json>): nat {
    if a == [] then 0 else Weight(a[..|a| - 1]) + (if MissingHooks(a[|a| - 1]) then 2 else 1)
  }

  /** After removal, entry y in place of x shows either nothing changed or something gone. */
  ghost predicate Same(x: Json, y: Json, c: Command) {
    Cleaned(y, c) == Cleaned(x, c)
  }

  ghost predicate Lighter(x: Json, y: Json, c: Command) {
    Weight(Cleaned(y, c)) < Weight(Cleaned(x, c))
  }

  /** Entry i of `a` cannot survive an install for m followed by a removal. */
  ghost predicate Damaged(a: seq<Json>, m: Option<string>, c: Command, i: nat)
    requires i < |a|
  {
    KindOf(a[i], m, c).Target? && (MissingHooks(a[i]) || (i == FirstTarget(a, m, c, 0) && HookList(a[i]) == []))
  }

  /** What stands at position i after the install step, when no entry was installed. */
  function Stepped(a: seq<Json>, m: Option<string>, c: Command, i: nat): Json
    requires i < |a|
  {
    if !KindOf(a[i], m, c).Target? then a[i]
    else if i == FirstTarget(a, m, c, 0) then WithHooks(a[i], HookList(a[i]) + [OurHook(c)])
    else Normalize(a[i])
  }

  lemma SteppedKeepsMatcher(a: seq<Json>, m: Option<string>, c: Command, i: nat)
    requires i < |a|
    ensures MatcherBad(Stepped(a, m, c, i)) == MatcherBad(a[i]) && MatcherOf(Stepped(a, m, c, i)) == MatcherOf(a[i])
  {
  }

  /** Adding our hook to an entry and removing it again. */
  lemma AddedCleans(x: Json, m: Option<string>, c: Command)
    requires Proper(c) && KindOf(x, m, c).Target?
    ensures var y := WithHooks(x, HookList(x) + [OurHook(c)]);
      Cleaned(y, c) == if HookList(x) == [] then [] else [x]
  {
    var y := WithHooks(x, HookList(x) + [OurHook(c)]);
    ForeignAppendOurs(HookList(x), c);
    assert HookList(y) == HookList(x) + [OurHook(c)];
    if HookList(x) != [] {
      assert WithHooks(y, HookList(x)) == x;
    }
  }

  lemma NormalizedCleans(x: Json, m: Option<string>, c: Command)
    requires KindOf(x, m, c).Target?
    ensures Cleaned(x, c) == [x]
    ensures Cleaned(Normalize(x), c) == [Normalize(x)] && !MissingHooks(Normalize(x))
  {
    if MissingHooks(x) {
      assert HookList(WithHooks(x, [])) == [];
    }
  }

  lemma SteppedCleans(a: seq<Json>, m: Option<string>, c: Command, i: nat)
    requires Proper(c) && i < |a|
    ensures if Damaged(a, m, c, i) then Lighter(a[i], Stepped(a, m, c, i), c) else Same(a[i], Stepped(a, m, c, i), c)
  {
    if KindOf(a[i], m, c).Target? {
      NormalizedCleans(a[i], m, c);
      AddedCleans(a[i], m, c);
      WeightOne(a[i]);
      WeightOne(Normalize(a[i]));
    }
  }

  lemma WeightOne(x: Json)
    ensures Weight([x]) == (if MissingHooks(x) then 2 else 1) && Weight([]) == 0
  {
    assert [x][..0] == [];
  }

  /** With no entry already installed, the step works entry by entry and may append one. */
  lemma StepShape(a: seq<Json>, m: Option<string>, c: Command)
    requires EnsureArray(a, m, c).Done?
    requires forall i :: 0 <= i < |a| ==> !KindOf(a[i], m, c).Installed?
    ensures var r := EnsureArray(a, m, c);
      && r.changed
      && (|r.result| == |a| || r.result == a + [NewEntry(m, c)])
      && forall i :: 0 <= i < |a| ==> r.result[i] == Stepped(a, m, c, i)
  {
    var s, t := StopAt(a, m, c, 0), FirstTarget(a, m, c, 0);
    assert s == |a|;
  }

  lemma NewEntryGoes(m: Option<string>, c: Command)
    requires Proper(c)
    ensures Cleaned(NewEntry(m, c), c) == [] && !MatcherBad(NewEntry(m, c)) && MatcherOf(NewEntry(m, c)) == m
    ensures KindOf(NewEntry(m, c), m, c).Installed?
  {
    assert IsOurs([OurHook(c)][0], c);
    ForeignAppendOurs([], c);
    assert [] + [OurHook(c)] == [OurHook(c)];
  }

  // ------------------------------------------- all matchers of one event, in turn

  function EnsureMany(a: seq<Json>, ms: seq<Option<string>>, c: Command): Ensured<seq<Json>> {
    if ms == [] then Done(a, false)
    else
      match EnsureMany(a, ms[..|ms| - 1], c)
      case Rejected => Rejected
      case Done(b, changed1) =>
        match EnsureArray(b, ms[|ms| - 1], c)
        case Rejected => Rejected
        case Done(d, changed2) => Done(d, changed1 || changed2)
  }

  ghost predicate DamagedBy(a: seq<Json>, ms: seq<Option<string>>, c: Command, i: nat)
    requires i < |a|
  {
    exists m :: m in ms && Damaged(a, m, c, i)
  }

  ghost predicate Matches(entry: Json, m: Option<string>) {
    !MatcherBad(entry) && MatcherOf(entry) == m
  }

  /** b is what the matchers ms made of a: position by position, plus entries that a
      removal takes away again. */
  ghost predicate Tracks(a: seq<Json>, b: seq<Json>, ms: seq<Option<string>>, c: Command) {
    && |a| <= |b| && CleanArray(b[|a|..], c) == []
    && (forall k :: |a| <= k < |b| ==> !MatcherBad(b[k]) && MatcherOf(b[k]) in ms)
    && (forall i :: 0 <= i < |a| ==> MatcherBad(b[i]) == MatcherBad(a[i]) && MatcherOf(b[i]) == MatcherOf(a[i]))
    && (forall i :: 0 <= i < |a| && (MatcherBad(a[i]) || MatcherOf(a[i]) !in ms) ==> b[i] == a[i])
    && (forall i :: 0 <= i < |a| ==> if DamagedBy(a, ms, c, i) then Lighter(a[i], b[i], c) else Same(a[i], b[i], c))
  }

  lemma KindNeedsMatch(entry: Json, m: Option<string>, c: Command)
    ensures KindOf(entry, m, c).Target? || KindOf(entry, m, c).Installed? ==> Matches(entry, m)
    ensures KindOf(entry, m, c).Installed? ==> HasOurs(HookList(entry), c)
  {
  }

  /** For a matcher not yet handled, b looks like a. */
  lemma SameTargets(a: seq<Json>, b: seq<Json>, ms: seq<Option<string>>, m: Option<string>, c: Command)
    requires Tracks(a, b, ms, c) && m !in ms
    ensures forall i :: 0 <= i < |a| ==>
      KindOf(b[i], m, c).Target? == KindOf(a[i], m, c).Target? &&
        KindOf(b[i], m, c).Installed? == KindOf(a[i], m, c).Installed?
    ensures forall k :: |a| <= k < |b| ==> KindOf(b[k], m, c).Skip?
    ensures FirstTarget(b, m, c, 0) == if FirstTarget(a, m, c, 0) < |a| then FirstTarget(a, m, c, 0) else |b|
  {
    forall i | 0 <= i < |a|
      ensures KindOf(b[i], m, c).Target? == KindOf(a[i], m, c).Target? &&
        KindOf(b[i], m, c).Installed? == KindOf(a[i], m, c).Installed?
    {
      KindNeedsMatch(a[i], m, c);
      KindNeedsMatch(b[i], m, c);
    }
  }

  lemma DamagedBySnoc(a: seq<Json>, ms: seq<Option<string>>, m: Option<string>, c: Command, i: nat)
    requires i < |a|
    ensures DamagedBy(a, ms + [m], c, i) <==> DamagedBy(a, ms, c, i) || Damaged(a, m, c, i)
  {
    assert m in ms + [m];
  }

  lemma TracksEntry(a: seq<Json>, b: seq<Json>, ms: seq<Option<string>>, m: Option<string>, c: Command, i: nat)
    requires Proper(c) && Tracks(a, b, ms, c) && m !in ms && i < |a|
    ensures
      if DamagedBy(a, ms + [m], c, i) then Lighter(a[i], Stepped(b, m, c, i), c)
      else Same(a[i], Stepped(b, m, c, i), c)
    ensures MatcherBad(a[i]) || MatcherOf(a[i]) !in ms + [m] ==> Stepped(b, m, c, i) == a[i]
  {
    SameTargets(a, b, ms, m, c);
    DamagedBySnoc(a, ms, m, c, i);
    KindNeedsMatch(a[i], m, c);
    if KindOf(a[i], m, c).Target? {
      assert b[i] == a[i];
      SteppedCleans(b, m, c, i);
      if DamagedBy(a, ms, c, i) {
        var m' :| m' in ms && Damaged(a, m', c, i);
        KindNeedsMatch(a[i], m', c);
      }
    }
  }

  lemma StepHasNoInstalled(a: seq<Json>, b: seq<Json>, ms: seq<Option<string>>, m: Option<string>, c: Command)
    requires NoOurs(a, c) && Tracks(a, b, ms, c) && m !in ms
    ensures forall i :: 0 <= i < |b| ==> !KindOf(b[i], m, c).Installed?
  {
    SameTargets(a, b, ms, m, c);
    forall i | 0 <= i < |b|
      ensures !KindOf(b[i], m, c).Installed?
    {
      if i < |a| {
        KindNeedsMatch(a[i], m, c);
      }
    }
  }

  lemma StepTracksTail(a: seq<Json>, b: seq<Json>, ms: seq<Option<string>>, m: Option<string>, c: Command)
    requires Proper(c) && NoOurs(a, c) && Tracks(a, b, ms, c) && m !in ms && EnsureArray(b, m, c).Done?
    ensures var d := EnsureArray(b, m, c).result;
      && |b| <= |d| && CleanArray(d[|a|..], c) == []
      && forall k :: |a| <= k < |d| ==> !MatcherBad(d[k]) && MatcherOf(d[k]) in ms + [m]
  {
    StepHasNoInstalled(a, b, ms, m, c);
    SameTargets(a, b, ms, m, c);
    StepShape(b, m, c);
    var d := EnsureArray(b, m, c).result;
    assert forall k :: |a| <= k < |b| ==> d[k] == b[k];
    TailGoes(|a|, b, d, ms, m, c);
  }

  lemma TailGoes(n: nat, b: seq<Json>, d: seq<Json>, ms: seq<Option<string>>, m: Option<string>, c: Command)
    requires Proper(c) && n <= |b| && (|d| == |b| || d == b + [NewEntry(m, c)])
    requires CleanArray(b[n..], c) == [] && forall k :: n <= k < |b| ==> d[k] == b[k]
    requires forall k :: n <= k < |b| ==> !MatcherBad(b[k]) && MatcherOf(b[k]) in ms
    ensures CleanArray(d[n..], c) == []
    ensures forall k :: n <= k < |d| ==> !MatcherBad(d[k]) && MatcherOf(d[k]) in ms + [m]
  {
    NewEntryGoes(m, c);
    TailOf(n, b, d, NewEntry(m, c));
    if |d| > |b| {
      CleanSnoc(b[n..], NewEntry(m, c), c);
    }
    forall k | n <= k < |d|
      ensures !MatcherBad(d[k]) && MatcherOf(d[k]) in ms + [m]
    {
      assert k < |b| ==> d[k] == b[k];
    }
  }

  lemma TailOf<T>(n: nat, b: seq<T>, d: seq<T>, x: T)
    requires n <= |b| && (|d| == |b| || d == b + [x]) && forall k :: n <= k < |b| ==> d[k] == b[k]
    ensures d[n..] == if |d| == |b| then b[n..] else b[n..] + [x]
    ensures |d| > |b| ==> d[|b|] == x
  {
  }

  lemma StepTracks(a: seq<Json>, b: seq<Json>, ms: seq<Option<string>>, m: Option<string>, c: Command)
    requires Proper(c) && NoOurs(a, c) && Tracks(a, b, ms, c) && m !in ms && EnsureArray(b, m, c).Done?
    ensures Tracks(a, EnsureArray(b, m, c).result, ms + [m], c)
  {
    StepTracksTail(a, b, ms, m, c);
    StepHasNoInstalled(a, b, ms, m, c);
    StepShape(b, m, c);
    var d := EnsureArray(b, m, c).result;
    forall i | 0 <= i < |a|
      ensures if DamagedBy(a, ms + [m], c, i) then Lighter(a[i], d[i], c) else Same(a[i], d[i], c)
      ensures MatcherBad(d[i]) == MatcherBad(a[i]) && MatcherOf(d[i]) == MatcherOf(a[i])
      ensures MatcherBad(a[i]) || MatcherOf(a[i]) !in ms + [m] ==> d[i] == a[i]
    {
      TracksEntry(a, b, ms, m, c, i);
      SteppedKeepsMatcher(b, m, c, i);
    }
  }

  ghost predicate Distinct<T>(s: seq<T>) {
    forall i, j :: 0 <= i < j < |s| ==> s[i] != s[j]
  }

  lemma TracksNothing(a: seq<Json>, c: Command)
    ensures Tracks(a, a, [], c)
  {
    assert a[|a|..] == [];
  }

  lemma {:induction false} ManyTracks(a: seq<Json>, ms: seq<Option<string>>, c: Command)
    requires Proper(c) && NoOurs(a, c) && Distinct(ms) && EnsureMany(a, ms, c).Done?
    ensures Tracks(a, EnsureMany(a, ms, c).result, ms, c)
    decreases |ms|
  {
    if ms == [] {
      TracksNothing(a, c);
    } else {
      var init, m := ms[..|ms| - 1], ms[|ms| - 1];
      assert ms == init + [m];
      EnsureManySnoc(a, init, m, c);
      ManyTracks(a, init, c);
      assert m !in init;
      StepTracks(a, EnsureMany(a, init, c).result, init, m, c);
    }
  }

  lemma {:induction false} WeightAppend(a: seq<Json>, b: seq<Json>)
    ensures Weight(a + b) == Weight(a) + Weight(b)
    decreases |b|
  {
    if b == [] {
      assert a + b == a;
    } else {
      WeightAppend(a, b[..|b| - 1]);
      assert (a + b)[..|a + b| - 1] == a + b[..|b| - 1];
    }
  }

  /** What removal leaves of each entry, and those pieces joined. */
  function Pieces(a: seq<Json>, c: Command): (pieces: seq<seq<Json>>)
    ensures |pieces| == |a|
  {
    seq(|a|, i requires 0 <= i < |a| => Cleaned(a[i], c))
  }

  function Join(pieces: seq<seq<Json>>): seq<Json> {
    if pieces == [] then [] else Join(pieces[..|pieces| - 1]) + pieces[|pieces| - 1]
  }

  lemma {:induction false} CleanIsJoin(a: seq<Json>, c: Command)
    ensures CleanArray(a, c) == Join(Pieces(a, c))
    decreases |a|
  {
    if a != [] {
      var n := |a| - 1;
      CleanIsJoin(a[..n], c);
      assert Pieces(a, c)[..n] == Pieces(a[..n], c);
    }
  }

  lemma {:induction false} JoinNotHeavier(xs: seq<seq<Json>>, ys: seq<seq<Json>>)
    requires |xs| == |ys| && forall i :: 0 <= i < |xs| ==> Weight(ys[i]) <= Weight(xs[i])
    ensures Weight(Join(ys)) <= Weight(Join(xs))
    decreases |xs|
  {
    if xs != [] {
      var n := |xs| - 1;
      JoinNotHeavier(xs[..n], ys[..n]);
      WeightAppend(Join(xs[..n]), xs[n]);
      WeightAppend(Join(ys[..n]), ys[n]);
    }
  }

  /** One piece lost something: so has the whole. */
  lemma {:induction false} JoinLighter(xs: seq<seq<Json>>, ys: seq<seq<Json>>, k: nat)
    requires |xs| == |ys| && forall i :: 0 <= i < |xs| ==> Weight(ys[i]) <= Weight(xs[i])
    requires k < |xs| && Weight(ys[k]) < Weight(xs[k])
    ensures Weight(Join(ys)) < Weight(Join(xs))
    decreases |xs|
  {
    var n := |xs| - 1;
    JoinNotHeavier(xs[..n], ys[..n]);
    if k < n {
      JoinLighter(xs[..n], ys[..n], k);
    }
    WeightAppend(Join(xs[..n]), xs[n]);
    WeightAppend(Join(ys[..n]), ys[n]);
  }

  /** Position by position, p is a with the positions in `damaged` made lighter. */
  lemma CompareCleaned(a: seq<Json>, p: seq<Json>, damaged: seq<bool>, c: Command)
    requires |a| == |p| == |damaged|
    requires forall i :: 0 <= i < |a| ==> if damaged[i] then Lighter(a[i], p[i], c) else Same(a[i], p[i], c)
    ensures CleanArray(p, c) == CleanArray(a, c) <==> forall i :: 0 <= i < |damaged| ==> !damaged[i]
  {
    var xs, ys := Pieces(a, c), Pieces(p, c);
    CleanIsJoin(a, c);
    CleanIsJoin(p, c);
    forall i | 0 <= i < |xs|
      ensures if damaged[i] then Weight(ys[i]) < Weight(xs[i]) else ys[i] == xs[i]
    {
    }
    if forall i :: 0 <= i < |damaged| ==> !damaged[i] {
      assert xs == ys;
    } else {
      var k :| 0 <= k < |damaged| && damaged[k];
      JoinLighter(xs, ys, k);
    }
  }

  /** One event: removal after installation gives the array back exactly when it had none
      of our hooks and no entry the installation would use up. */
  lemma EventRoundTrip(a: seq<Json>, ms: seq<Option<string>>, c: Command)
    requires Proper(c) && Distinct(ms) && EnsureMany(a, ms, c).Done?
    ensures CleanArray(EnsureMany(a, ms, c).result, c) == a
       <==> NoOurs(a, c) && forall i :: 0 <= i < |a| ==> !DamagedBy(a, ms, c, i)
  {
    var b := EnsureMany(a, ms, c).result;
    if !NoOurs(a, c) {
      CleanLeavesNone(b, c);
    } else {
      ManyTracks(a, ms, c);
      TrackedRoundTrip(a, b, ms, c);
    }
  }

  lemma TrackedRoundTrip(a: seq<Json>, b: seq<Json>, ms: seq<Option<string>>, c: Command)
    requires Tracks(a, b, ms, c) && NoOurs(a, c)
    ensures CleanArray(b, c) == a <==> forall i :: 0 <= i < |a| ==> !DamagedBy(a, ms, c, i)
  {
    CleanFront(b, |a|, c);
    CleanNoOurs(a, c);
    var p := b[..|a|];
    assert forall i :: 0 <= i < |a| ==> p[i] == b[i];
    CompareDamaged(a, p, ms, c);
  }

  lemma CompareDamaged(a: seq<Json>, p: seq<Json>, ms: seq<Option<string>>, c: Command)
    requires |p| == |a|
    requires forall i :: 0 <= i < |a| ==> if DamagedBy(a, ms, c, i) then Lighter(a[i], p[i], c) else Same(a[i], p[i], c)
    ensures CleanArray(p, c) == CleanArray(a, c) <==> forall i :: 0 <= i < |a| ==> !DamagedBy(a, ms, c, i)
  {
    var damaged := seq(|a|, i requires 0 <= i < |a| => DamagedBy(a, ms, c, i));
    CompareCleaned(a, p, damaged, c);
    assert forall i :: 0 <= i < |a| ==> damaged[i] == DamagedBy(a, ms, c, i);
  }

  /** What a removal takes away altogether does not count. */
  lemma CleanFront(b: seq<Json>, n: nat, c: Command)
    requires n <= |b| && CleanArray(b[n..], c) == []
    ensures CleanArray(b, c) == CleanArray(b[..n], c)
  {
    Split(b, n);
    CleanNothing(b[..n], b[n..], c);
  }

  lemma CleanNothing(front: seq<Json>, back: seq<Json>, c: Command)
    requires CleanArray(back, c) == []
    ensures CleanArray(front + back, c) == CleanArray(front, c)
  {
    CleanAppend(front, back, c);
  }

  // ------------------------------------------------------------- the whole settings

  /** The matchers the specs name for an event, in order. */
  function MatchersFor(specs: seq<HookSpec>, e: string): seq<Option<string>> {
    if specs == [] then []
    else
      var last := specs[|specs| - 1];
      MatchersFor(specs[..|specs| - 1], e) + (if last.event == e then [last.matcher] else [])
  }

  function ItemsAt(h: map<string, Json>, e: string): seq<Json> {
    if e in h && h[e].Arr? then h[e].items else []
  }

  /** One spec changes its own event only. */
  lemma EntryAt(h: map<string, Json>, spec: HookSpec, c: Command, e: string)
    requires EnsureHookEntry(h, spec, c).Done?
    ensures var h' := EnsureHookEntry(h, spec, c).result;
      if spec.event != e then Get(h', e) == Get(h, e)
      else
        && (e in h ==> h[e].Arr?) && e in h' && h'[e].Arr?
        && EnsureArray(ItemsAt(h, e), spec.matcher, c).Done?
        && EnsureArray(ItemsAt(h, e), spec.matcher, c).result == h'[e].items
  {
  }

  /** What the matchers ms do at event e. */
  ghost predicate EnsuredAt(h: map<string, Json>, h': map<string, Json>, ms: seq<Option<string>>, c: Command,
                            e: string) {
    if ms == [] then Get(h', e) == Get(h, e)
    else
      && (e in h ==> h[e].Arr?) && e in h' && h'[e].Arr?
      && EnsureMany(ItemsAt(h, e), ms, c).Done? && EnsureMany(ItemsAt(h, e), ms, c).result == h'[e].items
  }

  lemma EnsuredAtOne(h: map<string, Json>, h1: map<string, Json>, ms: seq<Option<string>>, spec: HookSpec, c: Command,
                     e: string)
    requires EnsuredAt(h, h1, ms, c, e) && EnsureHookEntry(h1, spec, c).Done?
    ensures EnsuredAt(h, EnsureHookEntry(h1, spec, c).result, if spec.event == e then ms + [spec.matcher] else ms, c, e)
  {
    EntryAt(h1, spec, c, e);
    if spec.event == e {
      EnsureManySnoc(ItemsAt(h, e), ms, spec.matcher, c);
      assert ItemsAt(h1, e) == if ms == [] then ItemsAt(h, e) else EnsureMany(ItemsAt(h, e), ms, c).result;
    }
  }

  /** Event e sees only its own matchers. */
  lemma {:induction false} EnsureAllAt(specs: seq<HookSpec>, h: map<string, Json>, c: Command, e: string)
    requires EnsureAll(specs, h, c).Done?
    ensures EnsuredAt(h, EnsureAll(specs, h, c).result, MatchersFor(specs, e), c, e)
    decreases |specs|
  {
    if specs != [] {
      var init, last := specs[..|specs| - 1], specs[|specs| - 1];
      EnsureAllAt(init, h, c, e);
      EnsuredAtOne(h, EnsureAll(init, h, c).result, MatchersFor(init, e), last, c, e);
      assert MatchersFor(init, e) + [] == MatchersFor(init, e);
    }
  }

  lemma EnsureManySnoc(a: seq<Json>, ms: seq<Option<string>>, m: Option<string>, c: Command)
    ensures EnsureMany(a, ms + [m], c) ==
      var before := EnsureMany(a, ms, c);
      if before.Rejected? then Rejected
      else
        var step := EnsureArray(before.result, m, c);
        if step.Rejected? then Rejected else Done(step.result, before.changed || step.changed)
    ensures EnsureMany(a, [], c) == Done(a, false)
  {
    assert (ms + [m])[..|ms|] == ms;
  }

  lemma {:induction false} MatchersDistinct(specs: seq<HookSpec>, e: string)
    requires Distinct(specs)
    ensures Distinct(MatchersFor(specs, e))
    ensures forall m :: m in MatchersFor(specs, e) ==> HookSpec(e, m) in specs
    decreases |specs|
  {
    if specs != [] {
      var init, last := specs[..|specs| - 1], specs[|specs| - 1];
      MatchersDistinct(init, e);
      var ms0 := MatchersFor(init, e);
      if last.event == e {
        assert forall k :: 0 <= k < |init| ==> init[k] == specs[k] != last;
        assert last !in init && last == HookSpec(e, last.matcher);
        assert last.matcher !in ms0;
      }
    }
  }

  /** What a caller can check of one event before installing: the array is not empty, has
      none of our hooks, every entry that matches one of our matchers has a hooks array,
      and the first such entry of each matcher has a hook in it. */
  ghost predicate CleanEvent(specs: seq<HookSpec>, e: string, v: Json, c: Command) {
    v.Arr? ==>
      && v.items != [] && NoOurs(v.items, c)
      && forall i :: 0 <= i < |v.items| ==> !DamagedBy(v.items, MatchersFor(specs, e), c, i)
  }

  lemma EventRestored(specs: seq<HookSpec>, h: map<string, Json>, c: Command, e: string)
    requires Proper(c) && Distinct(specs) && EnsureAll(specs, h, c).Done?
    ensures var h' := EnsureAll(specs, h, c).result;
      Get(CleanHooks(h', c), e) == Get(h, e) <==> (e in h ==> CleanEvent(specs, e, h[e], c))
  {
    var h', ms := EnsureAll(specs, h, c).result, MatchersFor(specs, e);
    EnsureAllAt(specs, h, c, e);
    if ms == [] {
      if e in h && h[e].Arr? {
        assert EnsureMany(h[e].items, ms, c) == Done(h[e].items, false);
        EventRoundTrip(h[e].items, ms, c);
      }
    } else {
      MatchersDistinct(specs, e);
      EventRoundTrip(ItemsAt(h, e), ms, c);
    }
  }

  /** The settings come back exactly as they were if and only if this holds. */
  ghost predicate CleanSettings(specs: seq<HookSpec>, root: Json, c: Command) {
    root.Obj? && ("hooks" in root.fields ==>
      && root.fields["hooks"].Obj? && root.fields["hooks"].fields != map[]
      && forall e :: e in root.fields["hooks"].fields ==> CleanEvent(specs, e, root.fields["hooks"].fields[e], c))
  }

  lemma MapsEqualAt(g: map<string, Json>, h: map<string, Json>)
    ensures g == h <==> forall e :: Get(g, e) == Get(h, e)
  {
    if forall e :: Get(g, e) == Get(h, e) {
      assert forall e :: e in g <==> e in h by {
        forall e
          ensures e in g <==> e in h
        {
          assert Get(g, e) == Get(h, e);
        }
      }
      forall e | e in g
        ensures g[e] == h[e]
      {
        assert Get(g, e) == Get(h, e);
      }
    }
  }

  lemma HooksRestored(specs: seq<HookSpec>, h: map<string, Json>, c: Command)
    requires Proper(c) && Distinct(specs) && EnsureAll(specs, h, c).Done?
    ensures CleanHooks(EnsureAll(specs, h, c).result, c) == h <==> forall e :: e in h ==> CleanEvent(specs, e, h[e], c)
  {
    var g := CleanHooks(EnsureAll(specs, h, c).result, c);
    MapsEqualAt(g, h);
    forall e
      ensures Get(g, e) == Get(h, e) <==> (e in h ==> CleanEvent(specs, e, h[e], c))
    {
      EventRestored(specs, h, c, e);
    }
    if forall e :: e in h ==> CleanEvent(specs, e, h[e], c) {
      forall e
        ensures Get(g, e) == Get(h, e)
      {
        EventRestored(specs, h, c, e);
      }
    }
  }

  lemma RemoveAtRoot(fields: map<string, Json>, installed: map<string, Json>, c: Command)
    ensures var g := CleanHooks(installed, c);
      var removed := RemoveSettings(Obj(fields["hooks" := Obj(installed)]), c);
      if "hooks" !in fields then removed == Obj(fields) <==> g == map[]
      else removed == Obj(fields) <==> g != map[] && fields["hooks"] == Obj(g)
  {
    var g := CleanHooks(installed, c);
    var root := Obj(fields["hooks" := Obj(installed)]);
    var removed := RemoveSettings(root, c);
    if g == map[] {
      assert removed == Obj(root.fields - {"hooks"});
      assert "hooks" !in removed.fields;
      if "hooks" !in fields {
        assert root.fields - {"hooks"} == fields;
      }
    } else {
      assert removed == Obj(root.fields["hooks" := Obj(g)]);
      assert removed.fields["hooks"] == Obj(g);
      if "hooks" in fields && fields["hooks"] == Obj(g) {
        assert root.fields["hooks" := Obj(g)] == fields;
      }
    }
  }

  /** Uninstall undoes install, for settings the installer accepts, exactly when the
      settings are clean. */
  lemma UninstallUndoesInstall(specs: seq<HookSpec>, root: Json, c: Command)
    requires Proper(c) && Distinct(specs) && EnsureSettings(specs, root, c).Done?
    ensures RemoveSettings(EnsureSettings(specs, root, c).result, c) == root <==> CleanSettings(specs, root, c)
  {
    var h: map<string, Json> := if "hooks" in root.fields then root.fields["hooks"].fields else map[];
    var installed := EnsureAll(specs, h, c).result;
    HooksRestored(specs, h, c);
    RemoveAtRoot(root.fields, installed, c);
  }

  // ------------------------------------------------------------------- idempotence

  /** Installing for m again would find our hook and change nothing. */
  ghost predicate Settled(a: seq<Json>, m: Option<string>, c: Command) {
    exists f :: 0 <= f < |a| && SettledAt(a, m, c, f)
  }

  ghost predicate SettledAt(a: seq<Json>, m: Option<string>, c: Command, f: nat)
    requires f < |a|
  {
    && KindOf(a[f], m, c).Installed?
    && forall i :: 0 <= i < f ==> KindOf(a[i], m, c).Skip? || (KindOf(a[i], m, c).Target? && !MissingHooks(a[i]))
  }

  lemma SettledIsStill(a: seq<Json>, m: Option<string>, c: Command)
    requires Settled(a, m, c)
    ensures EnsureArray(a, m, c) == Done(a, false)
  {
    var f :| 0 <= f < |a| && SettledAt(a, m, c, f);
    var s := StopAt(a, m, c, 0);
    assert s == f;
    assert Visited(a, m, c, f) == a;
  }

  /** What the step leaves at position i, whichever way it ended. */
  lemma StepEntry(a: seq<Json>, m: Option<string>, c: Command, i: nat)
    requires Proper(c) && EnsureArray(a, m, c).Done? && i < |a|
    ensures var d := EnsureArray(a, m, c).result;
      && |a| <= |d|
      && MatcherBad(d[i]) == MatcherBad(a[i]) && MatcherOf(d[i]) == MatcherOf(a[i])
      && (!Matches(a[i], m) ==> d[i] == a[i])
      && (MissingHooks(d[i]) ==> MissingHooks(a[i]))
      && (i < StopAt(a, m, c, 0) && KindOf(a[i], m, c).Target? ==> !MissingHooks(d[i]))
  {
    KindNeedsMatch(a[i], m, c);
  }

  /** Where our hook stands after the step. */
  function LandsAt(a: seq<Json>, m: Option<string>, c: Command): nat {
    var s, t := StopAt(a, m, c, 0), FirstTarget(a, m, c, 0);
    if s < |a| then s else if t < |a| then t else |a|
  }

  lemma LandedKind(a: seq<Json>, m: Option<string>, c: Command)
    requires Proper(c) && EnsureArray(a, m, c).Done?
    ensures var d := EnsureArray(a, m, c).result;
      LandsAt(a, m, c) < |d| && KindOf(d[LandsAt(a, m, c)], m, c).Installed?
  {
    var s, t := StopAt(a, m, c, 0), FirstTarget(a, m, c, 0);
    NewEntryGoes(m, c);
    if s == |a| && t < |a| {
      var hooks := HookList(a[t]) + [OurHook(c)];
      ForeignAppendOurs(HookList(a[t]), c);
      assert HookList(WithHooks(a[t], hooks)) == hooks;
    }
  }

  lemma BeforeLanded(a: seq<Json>, m: Option<string>, c: Command, i: nat)
    requires Proper(c) && EnsureArray(a, m, c).Done? && i < LandsAt(a, m, c)
    ensures var d := EnsureArray(a, m, c).result;
      i < |d| && (KindOf(d[i], m, c).Skip? || (KindOf(d[i], m, c).Target? && !MissingHooks(d[i])))
  {
    StepEntry(a, m, c, i);
  }

  lemma StepSettles(a: seq<Json>, m: Option<string>, c: Command)
    requires Proper(c) && EnsureArray(a, m, c).Done?
    ensures Settled(EnsureArray(a, m, c).result, m, c)
  {
    var d, f := EnsureArray(a, m, c).result, LandsAt(a, m, c);
    LandedKind(a, m, c);
    forall i | 0 <= i < f
      ensures KindOf(d[i], m, c).Skip? || (KindOf(d[i], m, c).Target? && !MissingHooks(d[i]))
    {
      BeforeLanded(a, m, c, i);
    }
    assert SettledAt(d, m, c, f);
  }

  lemma StepKeepsSettled(a: seq<Json>, m: Option<string>, m': Option<string>, c: Command)
    requires Proper(c) && EnsureArray(a, m, c).Done? && Settled(a, m', c) && m != m'
    ensures Settled(EnsureArray(a, m, c).result, m', c)
  {
    var d := EnsureArray(a, m, c).result;
    var f :| 0 <= f < |a| && SettledAt(a, m', c, f);
    forall i | 0 <= i <= f
      ensures KindOf(d[i], m', c) == KindOf(a[i], m', c) && (MissingHooks(d[i]) ==> MissingHooks(a[i]))
    {
      StepEntry(a, m, c, i);
    }
    assert SettledAt(d, m', c, f);
  }

  ghost predicate SettledMap(h: map<string, Json>, spec: HookSpec, c: Command) {
    spec.event in h && h[spec.event].Arr? && Settled(h[spec.event].items, spec.matcher, c)
  }

  lemma EntrySettles(h: map<string, Json>, spec: HookSpec, other: HookSpec, c: Command)
    requires Proper(c) && EnsureHookEntry(h, spec, c).Done?
    ensures SettledMap(EnsureHookEntry(h, spec, c).result, spec, c)
    ensures SettledMap(h, other, c) ==> SettledMap(EnsureHookEntry(h, spec, c).result, other, c)
  {
    var a := if spec.event in h then h[spec.event].items else [];
    StepSettles(a, spec.matcher, c);
    if SettledMap(h, other, c) && other.event == spec.event && other.matcher != spec.matcher {
      StepKeepsSettled(a, spec.matcher, other.matcher, c);
    }
  }

  lemma EnsureAllLast(specs: seq<HookSpec>, h: map<string, Json>, c: Command)
    requires specs != [] && EnsureAll(specs, h, c).Done?
    ensures var before := EnsureAll(specs[..|specs| - 1], h, c);
      && before.Done?
      && var step := EnsureHookEntry(before.result, specs[|specs| - 1], c);
         step.Done? && EnsureAll(specs, h, c).result == step.result
  {
  }

  ghost predicate AllSettled(h: map<string, Json>, specs: seq<HookSpec>, c: Command) {
    forall k :: 0 <= k < |specs| ==> SettledMap(h, specs[k], c)
  }

  lemma AllStaySettled(h: map<string, Json>, specs: seq<HookSpec>, c: Command)
    requires specs != [] && Proper(c) && EnsureHookEntry(h, specs[|specs| - 1], c).Done?
    requires AllSettled(h, specs[..|specs| - 1], c)
    ensures AllSettled(EnsureHookEntry(h, specs[|specs| - 1], c).result, specs, c)
  {
    var init, last := specs[..|specs| - 1], specs[|specs| - 1];
    forall k | 0 <= k < |specs|
      ensures SettledMap(EnsureHookEntry(h, last, c).result, specs[k], c)
    {
      assert k < |init| ==> specs[k] == init[k];
      EntrySettles(h, last, specs[k], c);
    }
  }

  lemma {:induction false} AllSettle(specs: seq<HookSpec>, h: map<string, Json>, c: Command)
    requires Proper(c) && EnsureAll(specs, h, c).Done?
    ensures AllSettled(EnsureAll(specs, h, c).result, specs, c)
    decreases |specs|
  {
    if specs != [] {
      var init := specs[..|specs| - 1];
      EnsureAllLast(specs, h, c);
      AllSettle(init, h, c);
      AllStaySettled(EnsureAll(init, h, c).result, specs, c);
    }
  }

  lemma {:induction false} SettledAllStill(specs: seq<HookSpec>, h: map<string, Json>, c: Command)
    requires forall k :: 0 <= k < |specs| ==> SettledMap(h, specs[k], c)
    ensures EnsureAll(specs, h, c) == Done(h, false)
    decreases |specs|
  {
    if specs != [] {
      var init, last := specs[..|specs| - 1], specs[|specs| - 1];
      assert forall k :: 0 <= k < |init| ==> init[k] == specs[k];
      SettledAllStill(init, h, c);
      assert SettledMap(h, last, c);
      SettledIsStill(h[last.event].items, last.matcher, c);
      assert h[last.event := Arr(h[last.event].items)] == h;
    }
  }

  /** Installing twice is installing once, and the second time reports no change. */
  lemma InstallIsIdempotent(specs: seq<HookSpec>, root: Json, c: Command)
    requires Proper(c) && EnsureSettings(specs, root, c).Done?
    ensures var once := EnsureSettings(specs, root, c).result;
      EnsureSettings(specs, once, c) == Done(once, false)
  {
    var h: map<string, Json> := if "hooks" in root.fields then root.fields["hooks"].fields else map[];
    var installed := EnsureAll(specs, h, c).result;
    var once := EnsureSettings(specs, root, c).result;
    AllSettle(specs, h, c);
    SettledAllStill(specs, installed, c);
    assert once.fields["hooks" := Obj(installed)] == once.fields;
  }

  // -------------------------------------------------- everyone else's hooks survive

  /** A hook that is not ours, with the matcher it stands under. */
  datatype Owned = Owned(matcher: Option<Json>, hook: Json)

  function ForeignOf(entry: Json, c: Command): seq<Owned> {
    if !entry.Obj? then []
    else
      var f := Foreign(HookList(entry), c);
      seq(|f|, i requires 0 <= i < |f| => Owned(Get(entry.fields, "matcher"), f[i]))
  }

  function ForeignIn(a: seq<Json>, c: Command): seq<Owned> {
    if a == [] then [] else ForeignIn(a[..|a| - 1], c) + ForeignOf(a[|a| - 1], c)
  }

  lemma {:induction false} ForeignInPointwise(a: seq<Json>, b: seq<Json>, c: Command)
    requires |a| == |b| && forall i :: 0 <= i < |a| ==> ForeignOf(a[i], c) == ForeignOf(b[i], c)
    ensures ForeignIn(a, c) == ForeignIn(b, c)
    decreases |a|
  {
    if a != [] {
      ForeignInPointwise(a[..|a| - 1], b[..|b| - 1], c);
    }
  }

  lemma ForeignInSnoc(a: seq<Json>, x: Json, c: Command)
    ensures ForeignIn(a + [x], c) == ForeignIn(a, c) + ForeignOf(x, c)
  {
    assert (a + [x])[..|a|] == a;
  }

  lemma WithHooksForeign(entry: Json, hooks: seq<Json>, c: Command)
    requires entry.Obj? && Foreign(hooks, c) == Foreign(HookList(entry), c)
    ensures ForeignOf(WithHooks(entry, hooks), c) == ForeignOf(entry, c)
  {
    var x := WithHooks(entry, hooks);
    assert HookList(x) == hooks;
    assert |"matcher"| != |"hooks"|;
    assert Get(x.fields, "matcher") == Get(entry.fields, "matcher");
  }

  /** Whatever the step does at position i, the foreign hooks there stay. */
  lemma StepEntryForeign(a: seq<Json>, m: Option<string>, c: Command, i: nat)
    requires Proper(c) && EnsureArray(a, m, c).Done? && i < |a|
    ensures |a| <= |EnsureArray(a, m, c).result|
    ensures ForeignOf(EnsureArray(a, m, c).result[i], c) == ForeignOf(a[i], c)
  {
    StepOutcomes(a, m, c, i);
    if KindOf(a[i], m, c).Target? {
      TargetForeign(a[i], m, c);
    }
  }

  /** The three things the step can make of an entry. */
  lemma StepOutcomes(a: seq<Json>, m: Option<string>, c: Command, i: nat)
    requires EnsureArray(a, m, c).Done? && i < |a|
    ensures |a| <= |EnsureArray(a, m, c).result|
    ensures var x := EnsureArray(a, m, c).result[i];
      || x == a[i]
      || (KindOf(a[i], m, c).Target? && (x == Normalize(a[i]) || x == WithHooks(a[i], HookList(a[i]) + [OurHook(c)])))
  {
  }

  lemma TargetForeign(entry: Json, m: Option<string>, c: Command)
    requires Proper(c) && KindOf(entry, m, c).Target?
    ensures ForeignOf(Normalize(entry), c) == ForeignOf(entry, c)
    ensures ForeignOf(WithHooks(entry, HookList(entry) + [OurHook(c)]), c) == ForeignOf(entry, c)
  {
    var hooks := HookList(entry);
    ForeignAppendOurs(hooks, c);
    ForeignSize(hooks, c);
    if MissingHooks(entry) {
      WithHooksForeign(entry, hooks, c);
    }
    WithHooksForeign(entry, hooks + [OurHook(c)], c);
  }

  lemma NewEntryHasNoForeign(m: Option<string>, c: Command)
    requires Proper(c)
    ensures ForeignOf(NewEntry(m, c), c) == []
  {
    assert HookList(NewEntry(m, c)) == [] + [OurHook(c)];
    ForeignAppendOurs([], c);
  }

  lemma StepFrontForeign(a: seq<Json>, m: Option<string>, c: Command)
    requires Proper(c) && EnsureArray(a, m, c).Done?
    ensures var d := EnsureArray(a, m, c).result; |a| <= |d| && ForeignIn(d[..|a|], c) == ForeignIn(a, c)
  {
    var d := EnsureArray(a, m, c).result;
    forall i | 0 <= i < |a|
      ensures |a| <= |d| && ForeignOf(d[i], c) == ForeignOf(a[i], c)
    {
      StepEntryForeign(a, m, c, i);
    }
    ForeignInPointwise(a, d[..|a|], c);
  }

  lemma StepKeepsForeign(a: seq<Json>, m: Option<string>, c: Command)
    requires Proper(c) && EnsureArray(a, m, c).Done?
    ensures ForeignIn(EnsureArray(a, m, c).result, c) == ForeignIn(a, c)
  {
    var d := EnsureArray(a, m, c).result;
    StepFrontForeign(a, m, c);
    if |d| > |a| {
      assert d == a + [NewEntry(m, c)];
      ForeignInSnoc(a, NewEntry(m, c), c);
      NewEntryHasNoForeign(m, c);
    } else {
      assert d[..|a|] == d;
    }
  }

  lemma {:induction false} CleanKeepsForeign(a: seq<Json>, c: Command)
    ensures ForeignIn(CleanArray(a, c), c) == ForeignIn(a, c)
    decreases |a|
  {
    if a != [] {
      var u, x := a[..|a| - 1], a[|a| - 1];
      CleanKeepsForeign(u, c);
      var rest := Foreign(HookList(x), c);
      if Cleaned(x, c) != [] {
        ForeignInSnoc(CleanArray(u, c), Cleaned(x, c)[0], c);
        assert CleanArray(a, c) == CleanArray(u, c) + [Cleaned(x, c)[0]];
        if HasOurs(HookList(x), c) {
          ForeignHasNone(HookList(x), c);
          ForeignHasNone(rest, c);
          WithHooksForeign(x, rest, c);
        }
      } else {
        assert CleanArray(a, c) == CleanArray(u, c);
        assert ForeignOf(x, c) == [];
      }
    }
  }

  lemma {:induction false} AllKeepForeign(specs: seq<HookSpec>, h: map<string, Json>, c: Command, e: string)
    requires Proper(c) && EnsureAll(specs, h, c).Done?
    ensures ForeignIn(ItemsAt(EnsureAll(specs, h, c).result, e), c) == ForeignIn(ItemsAt(h, e), c)
    decreases |specs|
  {
    if specs != [] {
      var init, last := specs[..|specs| - 1], specs[|specs| - 1];
      AllKeepForeign(init, h, c, e);
      if last.event == e {
        StepKeepsForeign(ItemsAt(EnsureAll(init, h, c).result, e), last.matcher, c);
      }
    }
  }

  /** The hooks object of a settings file, empty when there is none. */
  function HooksOf(root: Json): map<string, Json> {
    if root.Obj? && "hooks" in root.fields && root.fields["hooks"].Obj? then root.fields["hooks"].fields else map[]
  }

  /** At every event the same foreign hooks, in the same order and under the same matchers. */
  ghost predicate SameForeign(a: Json, b: Json, c: Command) {
    forall e :: ForeignIn(ItemsAt(HooksOf(a), e), c) == ForeignIn(ItemsAt(HooksOf(b), e), c)
  }

  lemma InstallKeepsForeign(specs: seq<HookSpec>, root: Json, c: Command)
    requires Proper(c) && EnsureSettings(specs, root, c).Done?
    ensures SameForeign(EnsureSettings(specs, root, c).result, root, c)
    ensures EnsureSettings(specs, root, c).result.fields - {"hooks"} == root.fields - {"hooks"}
  {
    var h := HooksOf(root);
    forall e
      ensures ForeignIn(ItemsAt(HooksOf(EnsureSettings(specs, root, c).result), e), c) == ForeignIn(ItemsAt(h, e), c)
    {
      AllKeepForeign(specs, h, c, e);
    }
  }

  /** Both passes keep every foreign hook of every event, in its order and under its
      matcher, and every other setting. */
  lemma ForeignHooksSurvive(specs: seq<HookSpec>, root: Json, c: Command)
    requires Proper(c) && EnsureSettings(specs, root, c).Done?
    ensures SameForeign(EnsureSettings(specs, root, c).result, root, c)
    ensures SameForeign(RemoveSettings(root, c), root, c)
    ensures EnsureSettings(specs, root, c).result.fields - {"hooks"} == root.fields - {"hooks"}
    ensures RemoveSettings(root, c).Obj? && RemoveSettings(root, c).fields - {"hooks"} == root.fields - {"hooks"}
  {
    InstallKeepsForeign(specs, root, c);
    RemovalKeepsForeign(root, c);
  }

  lemma RemovalKeepsForeign(root: Json, c: Command)
    requires root.Obj?
    ensures SameForeign(RemoveSettings(root, c), root, c)
    ensures RemoveSettings(root, c).Obj? && RemoveSettings(root, c).fields - {"hooks"} == root.fields - {"hooks"}
  {
    var h := HooksOf(root);
    if "hooks" in root.fields && root.fields["hooks"].Obj? {
      var g := CleanHooks(h, c);
      assert HooksOf(RemoveSettings(root, c)) == g;
      forall e
        ensures ForeignIn(ItemsAt(g, e), c) == ForeignIn(ItemsAt(h, e), c)
      {
        CleanKeepsForeign(ItemsAt(h, e), c);
        assert ItemsAt(g, e) == CleanArray(ItemsAt(h, e), c);
      }
    }
  }

  // ----------------------------------------------- what the installer's change flag says

  /** The scan for matcher m ends at an entry that has our hook. */
  predicate InstalledFirst(a: seq<Json>, m: Option<string>, c: Command) {
    var s := StopAt(a, m, c, 0);
    s < |a| && KindOf(a[s], m, c).Installed?
  }

  /** Before it ends it passes a matching entry that has no hooks list. */
  predicate Unlisted(a: seq<Json>, m: Option<string>, c: Command) {
    exists k :: 0 <= k < StopAt(a, m, c, 0) && KindOf(a[k], m, c).Target? && MissingHooks(a[k])
  }

  /** Hooks in all the lists of an event. */
  function HookCount(a: seq<Json>): nat {
    if a == [] then 0 else HookCount(a[..|a| - 1]) + |HookList(a[|a| - 1])|
  }

  lemma {:induction false} CountPointwise(a: seq<Json>, b: seq<Json>)
    requires |a| == |b| && forall i :: 0 <= i < |a| ==> |HookList(a[i])| == |HookList(b[i])|
    ensures HookCount(a) == HookCount(b)
    decreases |a|
  {
    if a != [] {
      CountPointwise(a[..|a| - 1], b[..|b| - 1]);
    }
  }

  lemma {:induction false} CountUpdate(a: seq<Json>, t: nat, x: Json)
    requires t < |a|
    ensures HookCount(a[t := x]) == HookCount(a) - |HookList(a[t])| + |HookList(x)|
    decreases |a|
  {
    var n := |a| - 1;
    if t < n {
      CountUpdate(a[..n], t, x);
      assert a[t := x][..n] == a[..n][t := x];
    } else {
      assert a[t := x][..n] == a[..n];
    }
  }

  lemma CountSnoc(a: seq<Json>, x: Json)
    ensures HookCount(a + [x]) == HookCount(a) + |HookList(x)|
  {
    assert (a + [x])[..|a|] == a;
  }

  lemma VisitedCount(a: seq<Json>, m: Option<string>, c: Command, n: nat)
    ensures HookCount(Visited(a, m, c, n)) == HookCount(a)
  {
    CountPointwise(a, Visited(a, m, c, n));
  }

  /** The flag counts the hooks that one matcher's step adds. */
  lemma StepCount(a: seq<Json>, m: Option<string>, c: Command)
    requires EnsureArray(a, m, c).Done?
    ensures HookCount(EnsureArray(a, m, c).result) == HookCount(a) + (if EnsureArray(a, m, c).changed then 1 else 0)
  {
    var s, t := StopAt(a, m, c, 0), FirstTarget(a, m, c, 0);
    if s < |a| {
      VisitedCount(a, m, c, s);
    } else if t < |a| {
      var b := Visited(a, m, c, |a|);
      var hooks := HookList(b[t]) + [OurHook(c)];
      VisitedCount(a, m, c, |a|);
      InsertedAt(a, m, c, t);
      CountUpdate(b, t, WithHooks(b[t], hooks));
      assert HookList(WithHooks(b[t], hooks)) == hooks;
    } else {
      CountSnoc(a, NewEntry(m, c));
      assert HookList(NewEntry(m, c)) == [OurHook(c)];
    }
  }

  lemma {:induction false} ManyCount(a: seq<Json>, ms: seq<Option<string>>, c: Command)
    requires EnsureMany(a, ms, c).Done?
    ensures HookCount(EnsureMany(a, ms, c).result) >= HookCount(a) + (if EnsureMany(a, ms, c).changed then 1 else 0)
    decreases |ms|
  {
    if ms != [] {
      var init := ms[..|ms| - 1];
      assert ms == init + [ms[|ms| - 1]];
      EnsureManySnoc(a, init, ms[|ms| - 1], c);
      ManyCount(a, init, c);
      StepCount(EnsureMany(a, init, c).result, ms[|ms| - 1], c);
    }
  }

  /** b is what silent steps for the matchers ms made of a. */
  ghost predicate Silent(a: seq<Json>, b: seq<Json>, ms: seq<Option<string>>) {
    |a| == |b| && forall i :: 0 <= i < |a| ==>
      b[i] == a[i] || (!MatcherBad(a[i]) && MatcherOf(a[i]) in ms && MissingHooks(a[i]) && b[i] == Normalize(a[i]))
  }

  lemma SilentKinds(a: seq<Json>, b: seq<Json>, ms: seq<Option<string>>, m: Option<string>, c: Command)
    requires Silent(a, b, ms) && m !in ms
    ensures forall i :: 0 <= i < |a| ==> KindOf(b[i], m, c) == KindOf(a[i], m, c)
    ensures forall i :: 0 <= i < |a| && KindOf(a[i], m, c).Target? ==> b[i] == a[i]
  {
    forall i | 0 <= i < |a|
      ensures KindOf(b[i], m, c) == KindOf(a[i], m, c)
      ensures KindOf(a[i], m, c).Target? ==> b[i] == a[i]
    {
      NormalizeKeepsMatcher(a[i]);
    }
  }

  lemma NormalizeKeepsMatcher(x: Json)
    ensures MatcherBad(Normalize(x)) == MatcherBad(x) && MatcherOf(Normalize(x)) == MatcherOf(x)
  {
    assert |"matcher"| != |"hooks"|;
  }

  lemma {:induction false} SameStop(a: seq<Json>, b: seq<Json>, m: Option<string>, c: Command, i: nat)
    requires |a| == |b| && i <= |a| && forall k :: 0 <= k < |a| ==> KindOf(b[k], m, c) == KindOf(a[k], m, c)
    ensures StopAt(a, m, c, i) == StopAt(b, m, c, i)
    decreases |a| - i
  {
    if i < |a| {
      SameStop(a, b, m, c, i + 1);
    }
  }

  /** After silent steps for other matchers, the step for m sees what it would have seen. */
  lemma SilentSees(a: seq<Json>, b: seq<Json>, ms: seq<Option<string>>, m: Option<string>, c: Command)
    requires Silent(a, b, ms) && m !in ms
    ensures InstalledFirst(b, m, c) == InstalledFirst(a, m, c)
  {
    SilentKinds(a, b, ms, m, c);
    SameStop(a, b, m, c, 0);
  }

  lemma StepFlag(a: seq<Json>, m: Option<string>, c: Command)
    requires EnsureArray(a, m, c).Done?
    ensures EnsureArray(a, m, c).changed <==> !InstalledFirst(a, m, c)
    ensures InstalledFirst(a, m, c) ==> EnsureArray(a, m, c).result == Visited(a, m, c, StopAt(a, m, c, 0))
  {
  }

  lemma SilentEntries(a: seq<Json>, b: seq<Json>, d: seq<Json>, ms: seq<Option<string>>, m: Option<string>, c: Command,
                      s: nat)
    requires Silent(a, b, ms) && s <= |b| && d == Visited(b, m, c, s)
    requires forall i :: 0 <= i < |a| ==> KindOf(b[i], m, c) == KindOf(a[i], m, c)
    requires forall i :: 0 <= i < |a| && KindOf(a[i], m, c).Target? ==> b[i] == a[i]
    ensures forall i :: 0 <= i < |a| ==>
      d[i] == if i < s && KindOf(a[i], m, c).Target? then Normalize(a[i]) else b[i]
    ensures Silent(a, d, ms + [m])
  {
    assert m in ms + [m];
  }

  /** One more silent step, and what it shows. */
  lemma SilentStep(a: seq<Json>, b: seq<Json>, ms: seq<Option<string>>, m: Option<string>, c: Command)
    requires Silent(a, b, ms) && m !in ms && InstalledFirst(b, m, c)
    ensures var d := Visited(b, m, c, StopAt(b, m, c, 0));
      Silent(a, d, ms + [m]) && (d != a <==> b != a || Unlisted(a, m, c))
  {
    var s := StopAt(b, m, c, 0);
    var d := Visited(b, m, c, s);
    SilentKinds(a, b, ms, m, c);
    SameStop(a, b, m, c, 0);
    SilentEntries(a, b, d, ms, m, c, s);
    if Unlisted(a, m, c) {
      var k :| 0 <= k < s && KindOf(a[k], m, c).Target? && MissingHooks(a[k]);
      NormalizeDiffers(a[k]);
      assert d[k] != a[k];
    } else {
      assert forall i :: 0 <= i < |a| ==> d[i] == b[i];
    }
    if b != a && Unlisted(a, m, c) {
    } else if b != a {
      assert d == b;
    }
  }

  lemma NormalizeDiffers(x: Json)
    requires MissingHooks(x)
    ensures Normalize(x) != x
  {
    assert "hooks" in Normalize(x).fields;
  }

  /** Without the flag every matcher was installed, and the array differs exactly when a
      matching entry without a hooks list came before that. */
  ghost predicate FlagRight(a: seq<Json>, r: Ensured<seq<Json>>, ms: seq<Option<string>>, c: Command)
    requires r.Done?
  {
    && (r.changed <==> exists m :: m in ms && !InstalledFirst(a, m, c))
    && (!r.changed ==> Silent(a, r.result, ms) && (r.result != a <==> exists m :: m in ms && Unlisted(a, m, c)))
  }

  lemma FlagRightSnoc(a: seq<Json>, before: Ensured<seq<Json>>, ms: seq<Option<string>>, m: Option<string>, c: Command)
    requires before.Done? && FlagRight(a, before, ms, c) && m !in ms && EnsureArray(before.result, m, c).Done?
    ensures var step := EnsureArray(before.result, m, c);
      FlagRight(a, Done(step.result, before.changed || step.changed), ms + [m], c)
  {
    StepFlag(before.result, m, c);
    MoreMatchers(a, ms, m, c);
    if !before.changed {
      SilentSees(a, before.result, ms, m, c);
      if InstalledFirst(a, m, c) {
        SilentStep(a, before.result, ms, m, c);
      }
    }
  }

  lemma MoreMatchers(a: seq<Json>, ms: seq<Option<string>>, m: Option<string>, c: Command)
    ensures (exists x :: x in ms + [m] && !InstalledFirst(a, x, c)) <==>
      (exists x :: x in ms && !InstalledFirst(a, x, c)) || !InstalledFirst(a, m, c)
    ensures (exists x :: x in ms + [m] && Unlisted(a, x, c)) <==>
      (exists x :: x in ms && Unlisted(a, x, c)) || Unlisted(a, m, c)
  {
    assert m in ms + [m] && forall x :: x in ms ==> x in ms + [m];
  }

  lemma {:induction false} ManyFlag(a: seq<Json>, ms: seq<Option<string>>, c: Command)
    requires Distinct(ms) && EnsureMany(a, ms, c).Done?
    ensures FlagRight(a, EnsureMany(a, ms, c), ms, c)
    decreases |ms|
  {
    if ms != [] {
      var init, m := ms[..|ms| - 1], ms[|ms| - 1];
      assert ms == init + [m];
      assert m !in init;
      EnsureManySnoc(a, init, m, c);
      ManyFlag(a, init, c);
      FlagRightSnoc(a, EnsureMany(a, init, c), init, m, c);
    }
  }

  /** The whole installation raises its flag when some event does. */
  lemma {:induction false} AllFlag(specs: seq<HookSpec>, h: map<string, Json>, c: Command)
    requires EnsureAll(specs, h, c).Done?
    ensures forall e :: EnsureMany(ItemsAt(h, e), MatchersFor(specs, e), c).Done?
    ensures EnsureAll(specs, h, c).changed <==> exists e :: FlagAt(specs, h, c, e)
    decreases |specs|
  {
    if specs != [] {
      var init, last := specs[..|specs| - 1], specs[|specs| - 1];
      AllFlag(init, h, c);
      var h1 := EnsureAll(init, h, c).result;
      forall e
        ensures EnsureMany(ItemsAt(h, e), MatchersFor(specs, e), c).Done?
        ensures FlagAt(specs, h, c, e) <==>
          FlagAt(init, h, c, e) || (e == last.event && EnsureHookEntry(h1, last, c).changed)
      {
        FlagAtOne(specs, h, c, e);
      }
      assert EnsureAll(specs, h, c).changed == (EnsureAll(init, h, c).changed || EnsureHookEntry(h1, last, c).changed);
      if EnsureHookEntry(h1, last, c).changed {
        assert FlagAt(specs, h, c, last.event);
      }
      if EnsureAll(init, h, c).changed {
        var e :| FlagAt(init, h, c, e);
        assert FlagAt(specs, h, c, e);
      }
    }
  }

  ghost predicate FlagAt(specs: seq<HookSpec>, h: map<string, Json>, c: Command, e: string) {
    var many := EnsureMany(ItemsAt(h, e), MatchersFor(specs, e), c);
    many.Done? && many.changed
  }

  lemma FlagAtOne(specs: seq<HookSpec>, h: map<string, Json>, c: Command, e: string)
    requires specs != [] && EnsureAll(specs, h, c).Done?
    requires EnsureMany(ItemsAt(h, e), MatchersFor(specs[..|specs| - 1], e), c).Done?
    ensures EnsureMany(ItemsAt(h, e), MatchersFor(specs, e), c).Done?
    ensures var init, last := specs[..|specs| - 1], specs[|specs| - 1];
      FlagAt(specs, h, c, e) <==>
        FlagAt(init, h, c, e) || (e == last.event && EnsureHookEntry(EnsureAll(init, h, c).result, last, c).changed)
  {
    if specs[|specs| - 1].event == e {
      FlagAtOwn(specs, h, c, e);
    } else {
      assert MatchersFor(specs, e) == MatchersFor(specs[..|specs| - 1], e);
    }
  }

  lemma FlagAtOwn(specs: seq<HookSpec>, h: map<string, Json>, c: Command, e: string)
    requires specs != [] && EnsureAll(specs, h, c).Done? && specs[|specs| - 1].event == e
    requires EnsureMany(ItemsAt(h, e), MatchersFor(specs[..|specs| - 1], e), c).Done?
    ensures EnsureMany(ItemsAt(h, e), MatchersFor(specs, e), c).Done?
    ensures var init, last := specs[..|specs| - 1], specs[|specs| - 1];
      FlagAt(specs, h, c, e) <==>
        FlagAt(init, h, c, e) || EnsureHookEntry(EnsureAll(init, h, c).result, last, c).changed
  {
    var init, last := specs[..|specs| - 1], specs[|specs| - 1];
    var h1, ms := EnsureAll(init, h, c).result, MatchersFor(init, e);
    EnsureAllLast(specs, h, c);
    EnsureAllAt(init, h, c, e);
    EntryAt(h1, last, c, e);
    EnsureManySnoc(ItemsAt(h, e), ms, last.matcher, c);
    assert MatchersFor(specs, e) == ms + [last.matcher];
    assert ItemsAt(h1, e) == EnsureMany(ItemsAt(h, e), ms, c).result;
  }

  /** Every spec is installed already. */
  predicate AllInstalled(specs: seq<HookSpec>, h: map<string, Json>, c: Command) {
    forall k :: 0 <= k < |specs| ==> InstalledFirst(ItemsAt(h, specs[k].event), specs[k].matcher, c)
  }

  /** Some spec's scan passes a matching entry without a hooks list. */
  predicate SomeUnlisted(specs: seq<HookSpec>, h: map<string, Json>, c: Command) {
    exists k :: 0 <= k < |specs| && Unlisted(ItemsAt(h, specs[k].event), specs[k].matcher, c)
  }

  lemma {:induction false} MatchersListed(specs: seq<HookSpec>, e: string, m: Option<string>)
    ensures m in MatchersFor(specs, e) <==> HookSpec(e, m) in specs
    decreases |specs|
  {
    if specs != [] {
      var init, last := specs[..|specs| - 1], specs[|specs| - 1];
      assert specs == init + [last];
      MatchersListed(init, e, m);
    }
  }

  lemma FlagMeansNotInstalled(specs: seq<HookSpec>, h: map<string, Json>, c: Command)
    requires Distinct(specs) && EnsureAll(specs, h, c).Done?
    ensures EnsureAll(specs, h, c).changed <==> !AllInstalled(specs, h, c)
  {
    AllFlag(specs, h, c);
    if EnsureAll(specs, h, c).changed {
      var e :| FlagAt(specs, h, c, e);
      MatchersDistinct(specs, e);
      ManyFlag(ItemsAt(h, e), MatchersFor(specs, e), c);
      var m :| m in MatchersFor(specs, e) && !InstalledFirst(ItemsAt(h, e), m, c);
      var k :| 0 <= k < |specs| && specs[k] == HookSpec(e, m);
    }
    if k :| 0 <= k < |specs| && !InstalledFirst(ItemsAt(h, specs[k].event), specs[k].matcher, c) {
      var e, m := specs[k].event, specs[k].matcher;
      assert HookSpec(e, m) == specs[k];
      MatchersListed(specs, e, m);
      MatchersDistinct(specs, e);
      ManyFlag(ItemsAt(h, e), MatchersFor(specs, e), c);
      assert FlagAt(specs, h, c, e);
    }
  }

  /** With the flag, some event differs. */
  lemma FlagMeansDifferent(specs: seq<HookSpec>, h: map<string, Json>, c: Command)
    requires EnsureAll(specs, h, c).Done? && EnsureAll(specs, h, c).changed
    ensures EnsureAll(specs, h, c).result != h
  {
    AllFlag(specs, h, c);
    var e :| FlagAt(specs, h, c, e);
    EnsureAllAt(specs, h, c, e);
    ManyCount(ItemsAt(h, e), MatchersFor(specs, e), c);
  }

  /** Without it, the hooks object differs exactly when some spec's scan passed an entry
      without a hooks list. */
  lemma SilentChange(specs: seq<HookSpec>, h: map<string, Json>, c: Command)
    requires Distinct(specs) && EnsureAll(specs, h, c).Done? && !EnsureAll(specs, h, c).changed
    ensures EnsureAll(specs, h, c).result != h <==> SomeUnlisted(specs, h, c)
  {
    var h' := EnsureAll(specs, h, c).result;
    AllFlag(specs, h, c);
    forall e
      ensures Get(h', e) != Get(h, e) <==> exists m :: m in MatchersFor(specs, e) && Unlisted(ItemsAt(h, e), m, c)
    {
      SilentAt(specs, h, c, e);
    }
    MapsEqualAt(h', h);
    if h' != h {
      var e :| Get(h', e) != Get(h, e);
      var m :| m in MatchersFor(specs, e) && Unlisted(ItemsAt(h, e), m, c);
      MatchersListed(specs, e, m);
      var k :| 0 <= k < |specs| && specs[k] == HookSpec(e, m);
    }
    if k :| 0 <= k < |specs| && Unlisted(ItemsAt(h, specs[k].event), specs[k].matcher, c) {
      var e, m := specs[k].event, specs[k].matcher;
      assert HookSpec(e, m) == specs[k];
      MatchersListed(specs, e, m);
      assert Get(h', e) != Get(h, e);
    }
  }

  lemma SilentAt(specs: seq<HookSpec>, h: map<string, Json>, c: Command, e: string)
    requires Distinct(specs) && EnsureAll(specs, h, c).Done?
    requires EnsureMany(ItemsAt(h, e), MatchersFor(specs, e), c).Done? && !FlagAt(specs, h, c, e)
    ensures Get(EnsureAll(specs, h, c).result, e) != Get(h, e) <==>
      exists m :: m in MatchersFor(specs, e) && Unlisted(ItemsAt(h, e), m, c)
  {
    var ms := MatchersFor(specs, e);
    EnsureAllAt(specs, h, c, e);
    MatchersDistinct(specs, e);
    ManyFlag(ItemsAt(h, e), ms, c);
    if ms != [] {
      assert ms[0] in ms && InstalledFirst(ItemsAt(h, e), ms[0], c);
    }
  }

  /** The installer rewrites the settings file when its flag is true. The flag is true
      exactly when some spec is not installed, and it says whether the settings changed
      except in one case: everything is installed, and on the way an entry without a hooks
      list was given one, or a missing hooks object was added for no spec at all. */
  lemma InstallFlagExact(specs: seq<HookSpec>, root: Json, c: Command)
    requires Distinct(specs) && EnsureSettings(specs, root, c).Done?
    ensures var r := EnsureSettings(specs, root, c);
      && (r.changed <==> !AllInstalled(specs, HooksOf(root), c))
      && ((r.changed <==> r.result != root) <==>
            !(AllInstalled(specs, HooksOf(root), c)
              && (SomeUnlisted(specs, HooksOf(root), c) || "hooks" !in root.fields)))
  {
    var h := HooksOf(root);
    var all := EnsureAll(specs, h, c);
    FlagMeansNotInstalled(specs, h, c);
    if all.changed {
      FlagMeansDifferent(specs, h, c);
    } else {
      SilentChange(specs, h, c);
    }
    HooksReplaced(root, all.result);
  }

  lemma HooksReplaced(root: Json, h: map<string, Json>)
    requires root.Obj? && ("hooks" in root.fields ==> root.fields["hooks"].Obj?)
    ensures Obj(root.fields["hooks" := Obj(h)]) == root <==> "hooks" in root.fields && HooksOf(root) == h
  {
    var r := Obj(root.fields["hooks" := Obj(h)]);
    assert r.fields["hooks"] == Obj(h);
    if "hooks" in root.fields && HooksOf(root) == h {
      assert r.fields == root.fields;
    }
  }

  /** Such a silent change: an empty entry before the installed one. */
  lemma SilentChangeHappens(c: Command)
    requires Proper(c)
    ensures var a := [Obj(map[]), NewEntry(None, c)];
      EnsureArray(a, None, c) == Done([Obj(map["hooks" := Arr([])]), NewEntry(None, c)], false)
    ensures Obj(map["hooks" := Arr([])]) != Obj(map[])
  {
    var a := [Obj(map[]), NewEntry(None, c)];
    NewEntryGoes(None, c);
    assert KindOf(a[0], None, c).Target? && KindOf(a[1], None, c).Installed?;
    assert StopAt(a, None, c, 1) == 1;
    assert Visited(a, None, c, 1) == [Normalize(a[0]), a[1]];
    assert Normalize(a[0]) == Obj(map["hooks" := Arr([])]);
    assert "hooks" in Normalize(a[0]).fields;
  }

  // -------------------------------------------------------- the code, in its own form

  const HOOK_SPECS: seq<HookSpec> := [
    HookSpec("SessionStart", None),
    HookSpec("SessionEnd", None),
    HookSpec("Notification", None),
    HookSpec("UserPromptSubmit", None),
    HookSpec("PreToolUse", Some("*")),
    HookSpec("PostToolUse", Some("*")),
    HookSpec("PostToolUseFailure", Some("*")),
    HookSpec("PermissionDenied", Some("*")),
    HookSpec("Elicitation", Some("*")),
    HookSpec("ElicitationResult", Some("*")),
    HookSpec("Stop", None),
    HookSpec("StopFailure", None),
    HookSpec("SubagentStart", None),
    HookSpec("SubagentStop", None),
    HookSpec("PreCompact", Some("auto")),
    HookSpec("PreCompact", Some("manual")),
    HookSpec("PostCompact", Some("auto")),
    HookSpec("PostCompact", Some("manual")),
    HookSpec("PermissionRequest", Some("*"))
  ]

  /** Apart from the two matchers of each compaction event, the events differ in their
      length or in their first or last letter. */
  lemma HookSpecsDistinct()
    ensures Distinct(HOOK_SPECS)
  {
    forall i, j | 0 <= i < j < |HOOK_SPECS|
      ensures HOOK_SPECS[i] != HOOK_SPECS[j]
    {
      var x, y := HOOK_SPECS[i].event, HOOK_SPECS[j].event;
      assert |x| == |y| && x[0] == y[0] && x[|x| - 1] == y[|y| - 1] ==> i + 1 == j && (i == 14 || i == 16);
    }
  }

  /** The installed specs, for any settings and any list of spellings that has the
      installed one. */
  lemma AgentUninstallUndoesInstall(root: Json, c: Command)
    requires Proper(c) && EnsureSettings(HOOK_SPECS, root, c).Done?
    ensures RemoveSettings(EnsureSettings(HOOK_SPECS, root, c).result, c) == root <==>
      CleanSettings(HOOK_SPECS, root, c)
  {
    HookSpecsDistinct();
    UninstallUndoesInstall(HOOK_SPECS, root, c);
  }

  lemma VisitedSnoc(a: seq<Json>, m: Option<string>, c: Command, i: nat)
    requires i < |a|
    ensures Visited(a, m, c, i)[i] == a[i]
    ensures Visited(a, m, c, i + 1) ==
      Visited(a, m, c, i)[i := if KindOf(a[i], m, c).Target? then Normalize(a[i]) else a[i]]
  {
  }

  /** One turn of the install loop: a matching entry gets its hooks array. */
  method VisitEntry(entry: Json, m: Option<string>, c: Command) returns (kind: Kind, visited: Json)
    ensures kind == KindOf(entry, m, c)
    ensures visited == if kind.Target? then Normalize(entry) else entry
  {
    visited := entry;
    if MatcherBad(entry) {
      return Bad, entry;
    }
    if MatcherOf(entry) != m {
      return Skip, entry;
    }
    if "hooks" !in entry.fields {
      visited := WithHooks(entry, []);
    }
    if !visited.fields["hooks"].Arr? {
      return Bad, entry;
    }
    var hooks := visited.fields["hooks"].items;
    kind := if exists k :: 0 <= k < |hooks| && IsOurs(hooks[k], c) then Installed else Target;
  }

  lemma InsertedAt(a: seq<Json>, m: Option<string>, c: Command, t: nat)
    requires StopAt(a, m, c, 0) == |a| && FirstTarget(a, m, c, 0) == t < |a|
    ensures var b := Visited(a, m, c, |a|);
      && b[t].Obj? && HookList(b[t]) == HookList(a[t])
      && EnsureArray(a, m, c) == Done(b[t := WithHooks(b[t], HookList(b[t]) + [OurHook(c)])], true)
  {
    var hooks := HookList(a[t]) + [OurHook(c)];
    assert HookList(WithHooks(a[t], [])) == [];
    assert WithHooks(Normalize(a[t]), hooks) == WithHooks(a[t], hooks);
  }

  /** ensure_hook_entry on the event array, edited in place entry by entry. */
  method EnsureEventArray(a: seq<Json>, m: Option<string>, c: Command) returns (r: Ensured<seq<Json>>)
    ensures r == EnsureArray(a, m, c)
  {
    var entries := a;
    var insertion: Option<nat> := None;
    var i: nat := 0;
    while i < |a|
      invariant i <= |a| && entries == Visited(a, m, c, i)
      invariant StopAt(a, m, c, 0) == StopAt(a, m, c, i)
      invariant FirstTarget(a, m, c, 0) == if insertion.Some? then insertion.value else FirstTarget(a, m, c, i)
      invariant insertion.Some? ==> insertion.value < i
    {
      VisitedSnoc(a, m, c, i);
      var kind, visited := VisitEntry(entries[i], m, c);
      if kind.Bad? {
        return Rejected;
      }
      entries := entries[i := visited];
      if kind.Installed? {
        assert entries == Visited(a, m, c, i);
        return Done(entries, false);
      }
      if kind.Target? && insertion.None? {
        insertion := Some(i);
      }
      i := i + 1;
    }
    if insertion.Some? {
      var at := insertion.value;
      InsertedAt(a, m, c, at);
      return Done(entries[at := WithHooks(entries[at], HookList(entries[at]) + [OurHook(c)])], true);
    }
    assert entries == a;
    return Done(entries + [NewEntry(m, c)], true);
  }

  /** ensure_settings_hooks: the specs one after the other on the hooks object. */
  method InstallHooks(specs: seq<HookSpec>, root: Json, c: Command) returns (r: Ensured<Json>)
    ensures r == EnsureSettings(specs, root, c)
  {
    if !root.Obj? {
      return Rejected;
    }
    var hooks: map<string, Json> := map[];
    if "hooks" in root.fields {
      if !root.fields["hooks"].Obj? {
        return Rejected;
      }
      hooks := root.fields["hooks"].fields;
    }
    var ensured := EnsureSpecs(specs, hooks, c);
    r :=
      if ensured.Rejected? then Rejected
      else Done(Obj(root.fields["hooks" := Obj(ensured.result)]), ensured.changed);
  }

  method EnsureSpecs(specs: seq<HookSpec>, h: map<string, Json>, c: Command) returns (r: Ensured<map<string, Json>>)
    ensures r == EnsureAll(specs, h, c)
  {
    var hooks, updated := h, false;
    for k := 0 to |specs|
      invariant EnsureAll(specs[..k], h, c) == Done(hooks, updated)
    {
      assert specs[..k + 1][..k] == specs[..k];
      var entered := EnsureOne(hooks, specs[k], c);
      if entered.Rejected? {
        RejectedStays(specs, k + 1, h, c);
        return Rejected;
      }
      hooks, updated := entered.result, updated || entered.changed;
    }
    assert specs[..|specs|] == specs;
    r := Done(hooks, updated);
  }

  method EnsureOne(hooks: map<string, Json>, spec: HookSpec, c: Command) returns (r: Ensured<map<string, Json>>)
    ensures r == EnsureHookEntry(hooks, spec, c)
  {
    var a := [];
    if spec.event in hooks {
      if !hooks[spec.event].Arr? {
        return Rejected;
      }
      a := hooks[spec.event].items;
    }
    var e := EnsureEventArray(a, spec.matcher, c);
    r := if e.Rejected? then Rejected else Done(hooks[spec.event := Arr(e.result)], e.changed);
  }

  lemma {:induction false} RejectedStays(specs: seq<HookSpec>, k: nat, h: map<string, Json>, c: Command)
    requires k <= |specs| && EnsureAll(specs[..k], h, c).Rejected?
    ensures EnsureAll(specs, h, c).Rejected?
    decreases |specs| - k
  {
    if k < |specs| {
      assert specs[..k + 1][..k] == specs[..k];
      RejectedStays(specs, k + 1, h, c);
    } else {
      assert specs[..k] == specs;
    }
  }

  /** Vec::retain over one hooks list. */
  method RetainForeign(hooks: seq<Json>, c: Command) returns (kept: seq<Json>)
    ensures kept == Foreign(hooks, c)
  {
    kept := [];
    for i := 0 to |hooks|
      invariant kept == Foreign(hooks[..i], c)
    {
      assert hooks[..i + 1] == hooks[..i] + [hooks[i]];
      ForeignSnoc(hooks[..i], hooks[i], c);
      if !IsOurs(hooks[i], c) {
        kept := kept + [hooks[i]];
      }
    }
    assert hooks[..|hooks|] == hooks;
  }

  method CleanEntry(entry: Json, c: Command) returns (kept: seq<Json>, removed: bool)
    ensures kept == Cleaned(entry, c) && (removed <==> HasOurs(HookList(entry), c))
  {
    var hooks := HookList(entry);
    var rest := RetainForeign(hooks, c);
    ForeignHasNone(hooks, c);
    removed := |rest| != |hooks|;
    kept := if !removed then [entry] else if rest != [] then [WithHooks(entry, rest)] else [];
  }

  /** The removal pass over one event array: clean every entry, then drop the entries
      this emptied. */
  method CleanEventArray(a: seq<Json>, c: Command) returns (r: seq<Json>, changed: bool)
    ensures r == CleanArray(a, c) && (changed <==> r != a)
  {
    r, changed := [], false;
    for i := 0 to |a|
      invariant r == CleanArray(a[..i], c)
      invariant changed <==> !NoOurs(a[..i], c)
    {
      assert a[..i + 1] == a[..i] + [a[i]];
      CleanSnoc(a[..i], a[i], c);
      NoOursSnoc(a[..i], a[i], c);
      var kept, removed := CleanEntry(a[i], c);
      changed := changed || removed;
      r := r + kept;
    }
    assert a[..|a|] == a;
    CleanLeavesNone(a, c);
    if !changed {
      CleanNoOurs(a, c);
    }
  }

  lemma NoOursSnoc(a: seq<Json>, x: Json, c: Command)
    ensures NoOurs(a + [x], c) <==> NoOurs(a, c) && !HasOurs(HookList(x), c)
  {
    var b := a + [x];
    assert b[|a|] == x;
    assert forall i :: 0 <= i < |a| ==> b[i] == a[i];
  }

  /** remove_esp32dash_hook_entries; `changed` decides whether the file is rewritten, and
      it is exactly when the settings differ. */
  method RemoveHooks(root: Json, c: Command) returns (r: Json, changed: bool)
    ensures r == RemoveSettings(root, c)
    ensures changed <==> r != root
  {
    if !root.Obj? || "hooks" !in root.fields || !root.fields["hooks"].Obj? {
      return root, false;
    }
    var hooks := root.fields["hooks"].fields;
    var left: map<string, Json>;
    left, changed := CleanAllArrays(hooks, c);
    if left == map[] {
      r := Obj(root.fields - {"hooks"});
      assert "hooks" !in r.fields;
      changed := true;
    } else {
      r := Obj(root.fields["hooks" := Obj(left)]);
      assert left == hooks ==> r == root;
      assert r.fields["hooks"] == Obj(left);
    }
  }

  /** The pass over one event's value. */
  method CleanEventValue(v: Json, c: Command) returns (left: Option<Json>, changed: bool)
    ensures left == CleanValue(v, c)
    ensures changed <==> left != Some(v)
  {
    if !v.Arr? {
      return Some(v), false;
    }
    var a, touched := CleanEventArray(v.items, c);
    left := if a == [] then None else Some(Arr(a));
    changed := touched || a == [];
  }

  /** The pass over all event arrays. */
  method CleanAllArrays(hooks: map<string, Json>, c: Command) returns (left: map<string, Json>, changed: bool)
    ensures left == CleanHooks(hooks, c)
    ensures changed <==> left != hooks
  {
    left := map[];
    var keys := hooks.Keys;
    changed := false;
    while keys != {}
      invariant keys <= hooks.Keys
      invariant forall e :: e in hooks && e !in keys ==> Get(left, e) == CleanValue(hooks[e], c)
      invariant forall e :: e in left ==> e in hooks && e !in keys
      invariant changed <==> exists e :: e in hooks && e !in keys && CleanValue(hooks[e], c) != Some(hooks[e])
      decreases |keys|
    {
      var e :| e in keys;
      keys := keys - {e};
      var v, touched := CleanEventValue(hooks[e], c);
      changed := changed || touched;
      if v.Some? {
        left := left[e := v.value];
      }
    }
    LeftIsClean(hooks, left, c);
    UnchangedIff(hooks, c);
  }

  lemma LeftIsClean(hooks: map<string, Json>, left: map<string, Json>, c: Command)
    requires forall e :: e in hooks ==> Get(left, e) == CleanValue(hooks[e], c)
    requires forall e :: e in left ==> e in hooks
    ensures left == CleanHooks(hooks, c)
  {
    forall e
      ensures Get(left, e) == Get(CleanHooks(hooks, c), e)
    {
    }
    var g := CleanHooks(hooks, c);
    assert forall e :: e in left <==> Get(left, e).Some?;
    assert forall e :: e in g <==> Get(g, e).Some?;
    assert forall e :: e in g ==> Get(g, e) == Some(g[e]);
  }

  lemma UnchangedIff(h: map<string, Json>, c: Command)
    ensures CleanHooks(h, c) != h <==> exists e :: e in h && CleanValue(h[e], c) != Some(h[e])
  {
    var g := CleanHooks(h, c);
    if forall e :: e in h ==> CleanValue(h[e], c) == Some(h[e]) {
      assert g == h;
    } else {
      var e :| e in h && CleanValue(h[e], c) != Some(h[e]);
      assert Get(g, e) == CleanValue(h[e], c);
      assert Get(h, e) == Some(h[e]);
    }
  }
}
