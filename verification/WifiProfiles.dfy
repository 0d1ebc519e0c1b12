/** The stored Wi-Fi profiles (net_manager.c): the table that add and remove edit in
    place, and its copy in key-value storage. */
module WifiProfiles {
  import opened Options
  import opened WifiCandidates

  const PROFILE_MAX: nat := 5
  const SSID_MAX: nat := 33
  const PASSWORD_MAX: nat := 65
  const EMPTY: Profile := Profile("", "", false)

  datatype Status = Ok | InvalidArg | NoMem | NotFound

  /** The table and the index of the profile in use, or -1. */
  datatype Table = Table(profiles: seq<Profile>, current: int)

  datatype Op =
    | Add(ssid: string, password: Option<string>, hidden: bool)
    | Remove(ssid: string)
    | Connect(index: nat)  // start_connection_to_profile

  ghost predicate Fits(p: Profile) {
    p.ssid != "" && |p.ssid| < SSID_MAX && |p.password| < PASSWORD_MAX
  }

  ghost predicate Sound(t: Table) {
    && |t.profiles| <= PROFILE_MAX
    && (forall i :: 0 <= i < |t.profiles| ==> Fits(t.profiles[i]))
    && (forall i, j :: 0 <= i < j < |t.profiles| ==> t.profiles[i].ssid != t.profiles[j].ssid)
    && -1 <= t.current < |t.profiles|
  }

  // ------------------------------------------------------------ what edits mean

  function FindFrom(profiles: seq<Profile>, ssid: string, i: nat): (r: int)
    requires i <= |profiles|
    ensures r == -1 || (i <= r < |profiles| && profiles[r].ssid == ssid)
    ensures r == -1 ==> forall k :: i <= k < |profiles| ==> profiles[k].ssid != ssid
    ensures r >= 0 ==> forall k :: i <= k < r ==> profiles[k].ssid != ssid
    decreases |profiles| - i
  {
    if i == |profiles| then -1 else if profiles[i].ssid == ssid then i else FindFrom(profiles, ssid, i + 1)
  }

  function Find(profiles: seq<Profile>, ssid: string): (r: int)
    ensures -1 <= r < |profiles|
    ensures r >= 0 ==> profiles[r].ssid == ssid
  {
    if ssid == "" then -1 else FindFrom(profiles, ssid, 0)
  }

  function AddSpec(t: Table, ssid: string, password: Option<string>, hidden: bool): (Status, Table) {
    var i := Find(t.profiles, ssid);
    if ssid == "" || |ssid| >= SSID_MAX || (password.Some? && |password.value| >= PASSWORD_MAX) then (InvalidArg, t)
    else if i >= 0 then
      var pw := if password.Some? then password.value else t.profiles[i].password;
      (Ok, t.(profiles := t.profiles[i := Profile(t.profiles[i].ssid, pw, hidden)]))
    else if password.None? then (InvalidArg, t)
    else if |t.profiles| >= PROFILE_MAX then (NoMem, t)
    else (Ok, t.(profiles := t.profiles + [Profile(ssid, password.value, hidden)]))
  }

  function RemoveSpec(t: Table, ssid: string): (Status, Table) {
    var i := Find(t.profiles, ssid);
    if ssid == "" then (InvalidArg, t)
    else if i < 0 then (NotFound, t)
    else
      (Ok, Table(t.profiles[..i] + t.profiles[i + 1..],
                 if t.current == i then -1 else if t.current > i then t.current - 1 else t.current))
  }

  function ApplyOp(t: Table, op: Op): Table {
    match op
    case Add(ssid, password, hidden) => AddSpec(t, ssid, password, hidden).1
    case Remove(ssid) => RemoveSpec(t, ssid).1
    case Connect(i) => if i < |t.profiles| then t.(current := i) else t
  }

  function Run(t: Table, ops: seq<Op>): Table {
    if ops == [] then t else ApplyOp(Run(t, ops[..|ops| - 1]), ops[|ops| - 1])
  }

  function CurrentName(t: Table): Option<string> {
    if 0 <= t.current < |t.profiles| then Some(t.profiles[t.current].ssid) else None
  }

  function Names(profiles: seq<Profile>): (names: seq<string>)
    ensures |names| == |profiles|
  {
    seq(|profiles|, i requires 0 <= i < |profiles| => profiles[i].ssid)
  }

  /** Adding or updating keeps the table sound, the names in order, every other profile
      as it was and the current network's name. */
  lemma AddSafe(t: Table, ssid: string, password: Option<string>, hidden: bool)
    requires Sound(t)
    ensures var (status, after) := AddSpec(t, ssid, password, hidden);
      && Sound(after)
      && Names(t.profiles) <= Names(after.profiles)
      && after.current == t.current && CurrentName(after) == CurrentName(t)
      && (forall i :: 0 <= i < |t.profiles| && t.profiles[i].ssid != ssid ==> after.profiles[i] == t.profiles[i])
      && (status == Ok ==> Find(after.profiles, ssid) >= 0)
  {
    var (status, after) := AddSpec(t, ssid, password, hidden);
    var names, names' := Names(t.profiles), Names(after.profiles);
    if status == Ok {
      var i := Find(t.profiles, ssid);
      assert after.profiles[if i >= 0 then i else |t.profiles|].ssid == ssid;
    }
    assert forall k :: 0 <= k < |names| ==> names[k] == names'[k];
  }

  /** The profiles with another name, in their order. */
  function Others(profiles: seq<Profile>, ssid: string): seq<Profile> {
    if profiles == [] then []
    else
      var last := profiles[|profiles| - 1];
      Others(profiles[..|profiles| - 1], ssid) + (if last.ssid == ssid then [] else [last])
  }

  lemma {:induction false} OthersAll(profiles: seq<Profile>, ssid: string)
    requires forall k :: 0 <= k < |profiles| ==> profiles[k].ssid != ssid
    ensures Others(profiles, ssid) == profiles
    decreases |profiles|
  {
    if profiles != [] {
      OthersAll(profiles[..|profiles| - 1], ssid);
    }
  }

  lemma {:induction false} OthersWithout(profiles: seq<Profile>, ssid: string, i: nat)
    requires i < |profiles| && profiles[i].ssid == ssid
    requires forall k :: 0 <= k < |profiles| && k != i ==> profiles[k].ssid != ssid
    ensures Others(profiles, ssid) == profiles[..i] + profiles[i + 1..]
    decreases |profiles|
  {
    var n := |profiles| - 1;
    if i < n {
      OthersWithout(profiles[..n], ssid, i);
      assert profiles[..n][..i] == profiles[..i];
      assert profiles[i + 1..] == profiles[..n][i + 1..] + [profiles[n]];
    } else {
      OthersAll(profiles[..n], ssid);
      assert profiles[i + 1..] == [];
    }
  }

  lemma RemoveLeavesOthers(t: Table, ssid: string)
    requires Sound(t)
    ensures RemoveSpec(t, ssid).1.profiles == Others(t.profiles, ssid)
  {
    var i := Find(t.profiles, ssid);
    if i >= 0 {
      OthersWithout(t.profiles, ssid, i);
    } else {
      assert forall k :: 0 <= k < |t.profiles| ==> Fits(t.profiles[k]);
      OthersAll(t.profiles, ssid);
    }
  }

  /** The table without profile i. */
  lemma WithoutAt(t: Table, i: nat)
    requires Sound(t) && i < |t.profiles|
    ensures var rest := t.profiles[..i] + t.profiles[i + 1..];
      var current := if t.current == i then -1 else if t.current > i then t.current - 1 else t.current;
      && Sound(Table(rest, current))
      && CurrentName(Table(rest, current)) == (if t.current == i then None else CurrentName(t))
      && (forall k :: 0 <= k < |rest| ==> rest[k].ssid != t.profiles[i].ssid)
  {
    var rest := t.profiles[..i] + t.profiles[i + 1..];
    assert forall k :: 0 <= k < |rest| ==> rest[k] == t.profiles[if k < i then k else k + 1];
  }

  lemma RemoveFound(t: Table, ssid: string)
    requires Sound(t) && Find(t.profiles, ssid) >= 0
    ensures var (status, after) := RemoveSpec(t, ssid);
      && Sound(after)
      && CurrentName(after) == (if CurrentName(t) == Some(ssid) then None else CurrentName(t))
      && (forall k :: 0 <= k < |after.profiles| ==> after.profiles[k].ssid != ssid)
      && status == Ok && ssid in Names(t.profiles)
  {
    var i := Find(t.profiles, ssid);
    WithoutAt(t, i);
    assert Names(t.profiles)[i] == ssid;
  }

  lemma RemoveMissing(t: Table, ssid: string)
    requires Sound(t) && Find(t.profiles, ssid) < 0
    ensures var (status, after) := RemoveSpec(t, ssid);
      && after == t && status != Ok && ssid !in Names(t.profiles)
      && (forall k :: 0 <= k < |t.profiles| ==> t.profiles[k].ssid != ssid)
  {
    assert forall k :: 0 <= k < |t.profiles| ==> Fits(t.profiles[k]);
  }

  /** Removing keeps the table sound and leaves exactly the other profiles in their order;
      the current network keeps its name, or becomes none exactly when it was removed. */
  lemma RemoveSafe(t: Table, ssid: string)
    requires Sound(t)
    ensures var (status, after) := RemoveSpec(t, ssid);
      && Sound(after) && after.profiles == Others(t.profiles, ssid)
      && CurrentName(after) == (if CurrentName(t) == Some(ssid) then None else CurrentName(t))
      && (forall k :: 0 <= k < |after.profiles| ==> after.profiles[k].ssid != ssid)
      && (status == Ok <==> ssid in Names(t.profiles))
  {
    RemoveLeavesOthers(t, ssid);
    if Find(t.profiles, ssid) >= 0 {
      RemoveFound(t, ssid);
    } else {
      RemoveMissing(t, ssid);
    }
  }

  lemma EditSafe(t: Table, op: Op)
    requires Sound(t)
    ensures Sound(ApplyOp(t, op))
  {
    match op
    case Add(ssid, password, hidden) => AddSafe(t, ssid, password, hidden);
    case Remove(ssid) => RemoveSafe(t, ssid);
    case Connect(_) =>
  }

  /** SSIDs stay unique, non-empty and within their buffers over any sequence of edits. */
  lemma {:induction false} RunSound(t: Table, ops: seq<Op>)
    requires Sound(t)
    ensures Sound(Run(t, ops))
    decreases |ops|
  {
    if ops != [] {
      RunSound(t, ops[..|ops| - 1]);
      EditSafe(Run(t, ops[..|ops| - 1]), ops[|ops| - 1]);
    }
  }

  // ----------------------------------------------------------- the table in place

  lemma GapClosed(after: seq<Profile>, before: seq<Profile>, index: nat, count: nat)
    requires |after| == |before| && index < count <= |before|
    requires forall k :: 0 <= k < index ==> after[k] == before[k]
    requires forall k :: index <= k < count - 1 ==> after[k] == before[k + 1]
    ensures after[..count - 1] == before[..index] + before[index + 1..count]
  {
  }

  class ProfileTable {
    const slots: array<Profile>
    var count: nat
    var current: int

    ghost predicate Valid()
      reads this, slots
    {
      && slots.Length == PROFILE_MAX && count <= PROFILE_MAX
      && Sound(Abstract())
      && (forall i :: count <= i < PROFILE_MAX ==> slots[i] == EMPTY)
    }

    ghost function Abstract(): Table
      requires count <= slots.Length
      reads this, slots
    {
      Table(slots[..count], current)
    }

    constructor ()
      ensures Valid() && fresh(slots) && Abstract() == Table([], -1)
    {
      slots := new Profile[PROFILE_MAX](_ => EMPTY);
      count, current := 0, -1;
    }

    /** find_profile_index_locked. */
    method FindIndex(ssid: string) returns (index: int)
      requires Valid()
      ensures index == Find(slots[..count], ssid)
    {
      if ssid == "" {
        return -1;
      }
      var i := 0;
      while i < count
        invariant i <= count
        invariant FindFrom(slots[..count], ssid, i) == FindFrom(slots[..count], ssid, 0)
      {
        if slots[i].ssid == ssid {
          return i;
        }
        i := i + 1;
      }
      return -1;
    }

    /** net_manager_add_or_update_profile, up to persisting. `reconnect` is set when the
        password of the profile in use changed. */
    method AddOrUpdate(ssid: string, password: Option<string>, hidden: bool) returns (status: Status, reconnect: bool)
      requires Valid()
      modifies this, slots
      ensures Valid()
      ensures (status, Abstract()) == AddSpec(old(Abstract()), ssid, password, hidden)
      ensures reconnect <==> (status == Ok && CurrentName(old(Abstract())) == Some(ssid)
        && old(Abstract()).profiles[old(current)].password != Abstract().profiles[current].password)
    {
      ghost var before := Abstract();
      AddSafe(before, ssid, password, hidden);
      reconnect := false;
      if ssid == "" || |ssid| >= SSID_MAX {
        return InvalidArg, false;
      }
      if password.Some? && |password.value| >= PASSWORD_MAX {
        return InvalidArg, false;
      }
      var i := FindIndex(ssid);
      if i >= 0 {
        var passwordChanged := UpdateAt(i, password, hidden);
        reconnect := passwordChanged && current == i;
      } else {
        if password.None? {
          return InvalidArg, false;
        }
        if count >= PROFILE_MAX {
          return NoMem, false;
        }
        slots[count] := Profile(ssid, password.value, hidden);
        count := count + 1;
        assert slots[..count] == before.profiles + [Profile(ssid, password.value, hidden)];
      }
      status := Ok;
    }

    method UpdateAt(i: nat, password: Option<string>, hidden: bool) returns (passwordChanged: bool)
      requires i < count <= slots.Length
      modifies slots
      ensures slots[..count] == old(slots[..count])[i := slots[i]]
      ensures slots[i] ==
        Profile(old(slots[i].ssid), if password.Some? then password.value else old(slots[i].password), hidden)
      ensures forall k :: count <= k < slots.Length ==> slots[k] == old(slots[k])
      ensures passwordChanged <==> slots[i].password != old(slots[i].password)
    {
      passwordChanged := false;
      if password.Some? {
        passwordChanged := slots[i].password != password.value;
        slots[i] := slots[i].(password := password.value);
      }
      slots[i] := slots[i].(hidden := hidden);
    }

    /** net_manager_remove_profile, up to persisting. */
    method RemoveProfile(ssid: string) returns (status: Status)
      requires Valid()
      modifies this, slots
      ensures Valid()
      ensures (status, Abstract()) == RemoveSpec(old(Abstract()), ssid)
    {
      ghost var before := Abstract();
      EditSafe(before, Remove(ssid));
      if ssid == "" {
        return InvalidArg;
      }
      var index := FindIndex(ssid);
      if index < 0 {
        return NotFound;
      }
      ghost var rest := before.profiles[..index] + before.profiles[index + 1..];
      RemoveAt(index);
      assert slots[..count] == rest;
      assert Abstract() == ApplyOp(before, Remove(ssid));
      status := Ok;
    }

    /** The tail moves down one slot, the last slot is cleared, the current index follows. */
    method RemoveAt(index: nat)
      requires slots.Length == PROFILE_MAX && index < count <= PROFILE_MAX
      requires forall i :: count <= i < PROFILE_MAX ==> slots[i] == EMPTY
      modifies this, slots
      ensures count == old(count) - 1
      ensures slots[..count] == old(slots[..index]) + old(slots[index + 1..count])
      ensures forall i :: count <= i < PROFILE_MAX ==> slots[i] == EMPTY
      ensures current ==
        if old(current) == index then -1 else if old(current) > index then old(current) - 1 else old(current)
    {
      var removedCurrent := current == index;
      ShiftDown(index);
      slots[count - 1] := EMPTY;
      count := count - 1;
      if removedCurrent {
        current := -1;
      } else if current > index {
        current := current - 1;
      }
    }

    /** The loop that closes the gap at `index`. */
    method ShiftDown(index: nat)
      requires slots.Length == PROFILE_MAX && index < count <= PROFILE_MAX
      modifies slots
      ensures slots[..][..count - 1] == old(slots[..])[..index] + old(slots[..])[index + 1..count]
      ensures forall k :: count <= k < PROFILE_MAX ==> slots[k] == old(slots[k])
    {
      var i := index;
      while i + 1 < count
        invariant index <= i < count
        invariant forall k :: 0 <= k < index ==> slots[k] == old(slots[k])
        invariant forall k :: index <= k < i ==> slots[k] == old(slots[k + 1])
        invariant forall k :: i < k < PROFILE_MAX ==> slots[k] == old(slots[k])
      {
        slots[i] := slots[i + 1];
        i := i + 1;
      }
      GapClosed(slots[..], old(slots[..]), index, count);
    }
  }

  // ---------------------------------------------------------------- storage

  /** The keys of the "wifi" namespace; the index is part of the key's text. */
  datatype Key = CountKey | LegacySsid | LegacyPassword | SsidKey(i: nat) | PassKey(i: nat) | HiddenKey(i: nat)
  datatype Value = Num(n: nat) | Text(s: string)
  type Store = map<Key, Value>

  datatype Read = Got(s: string) | Failed
  datatype Loaded = Loaded(profiles: seq<Profile>, migrated: bool) | LoadFailed

  /** read_nvs_string: a missing key reads as empty; a text that does not fit fails. */
  function ReadString(store: Store, key: Key, size: nat): Read {
    if key !in store then Got("")
    else if store[key].Text? && |store[key].s| < size then Got(store[key].s) else Failed
  }

  function ReadHidden(store: Store, i: nat): bool {
    HiddenKey(i) in store && store[HiddenKey(i)].Num? && store[HiddenKey(i)].n != 0
  }

  /** Slots i up to n, skipping those without a name. */
  function LoadSlots(store: Store, i: nat, n: nat): Loaded
    requires i <= n
    decreases n - i
  {
    if i == n then Loaded([], false)
    else
      var ssid := ReadString(store, SsidKey(i), SSID_MAX);
      if ssid.Failed? then LoadFailed
      else if ssid.s == "" then LoadSlots(store, i + 1, n)
      else
        var pass := ReadString(store, PassKey(i), PASSWORD_MAX);
        if pass.Failed? then LoadFailed
        else
          var rest := LoadSlots(store, i + 1, n);
          if rest.LoadFailed? then LoadFailed
          else Loaded([Profile(ssid.s, pass.s, ReadHidden(store, i))] + rest.profiles, false)
  }

  function LoadLegacy(store: Store): Loaded {
    var ssid := ReadString(store, LegacySsid, SSID_MAX);
    var pass := ReadString(store, LegacyPassword, PASSWORD_MAX);
    if ssid.Got? && pass.Got? && ssid.s != "" then Loaded([Profile(ssid.s, pass.s, false)], true) else Loaded([], false)
  }

  function Load(store: Store): Loaded {
    if CountKey !in store then LoadLegacy(store)
    else if store[CountKey].Text? then LoadFailed
    else LoadSlots(store, 0, if store[CountKey].n > PROFILE_MAX then PROFILE_MAX else store[CountKey].n)
  }

  /** The store holds exactly this table: its slots, no stale slot, no legacy key. */
  ghost predicate Holds(store: Store, profiles: seq<Profile>) {
    && |profiles| <= PROFILE_MAX
    && CountKey in store && store[CountKey] == Num(|profiles|)
    && LegacySsid !in store && LegacyPassword !in store
    && (forall i: nat :: i < |profiles| ==> SlotIs(store, i, profiles[i]))
    && (forall i: nat :: |profiles| <= i < PROFILE_MAX ==> SlotFree(store, i))
  }

  ghost predicate SlotIs(store: Store, i: nat, p: Profile) {
    && SsidKey(i) in store && store[SsidKey(i)] == Text(p.ssid)
    && PassKey(i) in store && store[PassKey(i)] == Text(p.password)
    && HiddenKey(i) in store && store[HiddenKey(i)] == Num(if p.hidden then 1 else 0)
  }

  ghost predicate SlotFree(store: Store, i: nat) {
    SsidKey(i) !in store && PassKey(i) !in store && HiddenKey(i) !in store
  }

  /** The three erasures of one slot. */
  method EraseSlot(store0: Store, i: nat) returns (store: Store)
    ensures SlotFree(store, i)
    ensures forall k :: k in store <==> k in store0 && k !in {SsidKey(i), PassKey(i), HiddenKey(i)}
    ensures forall k :: k in store ==> store[k] == store0[k]
  {
    store := Erase(store0, SsidKey(i));
    store := Erase(store, PassKey(i));
    store := Erase(store, HiddenKey(i));
  }

  /** persist_profiles_to_nvs, all writes succeeding, over whatever was stored before. */
  method Persist(profiles: seq<Profile>, store0: Store) returns (store: Store)
    requires |profiles| <= PROFILE_MAX
    ensures Holds(store, profiles)
  {
    store := store0[CountKey := Num(|profiles|)];
    var i: nat := 0;
    while i < |profiles|
      invariant i <= |profiles|
      invariant CountKey in store && store[CountKey] == Num(|profiles|)
      invariant forall k: nat :: k < i ==> SlotIs(store, k, profiles[k])
    {
      store := store[SsidKey(i) := Text(profiles[i].ssid)];
      store := store[PassKey(i) := Text(profiles[i].password)];
      store := store[HiddenKey(i) := Num(if profiles[i].hidden then 1 else 0)];
      i := i + 1;
    }
    while i < PROFILE_MAX
      invariant |profiles| <= i <= PROFILE_MAX
      invariant CountKey in store && store[CountKey] == Num(|profiles|)
      invariant forall k: nat :: k < |profiles| ==> SlotIs(store, k, profiles[k])
      invariant forall k: nat :: |profiles| <= k < i ==> SlotFree(store, k)
    {
      ghost var before := store;
      store := EraseSlot(store, i);
      forall k: nat | |profiles| <= k < i + 1
        ensures SlotFree(store, k)
      {
        assert k < i ==> SlotFree(before, k);
      }
      forall k: nat | k < |profiles|
        ensures SlotIs(store, k, profiles[k])
      {
        assert SlotIs(before, k, profiles[k]);
      }
      i := i + 1;
    }
    ghost var slotted := store;
    store := Erase(store, LegacySsid);
    store := Erase(store, LegacyPassword);
    forall k: nat | |profiles| <= k < PROFILE_MAX
      ensures SlotFree(store, k)
    {
      assert SlotFree(slotted, k);
    }
  }

  /** erase_key_if_present. */
  function Erase(store: Store, key: Key): (r: Store)
    ensures forall k :: k in r <==> k in store && k != key
    ensures forall k :: k in r ==> r[k] == store[k]
  {
    map k | k in store && k != key :: store[k]
  }

  lemma {:induction false} LoadSlotsBack(store: Store, profiles: seq<Profile>, i: nat)
    requires Holds(store, profiles) && i <= |profiles|
    requires forall k :: 0 <= k < |profiles| ==> Fits(profiles[k])
    ensures LoadSlots(store, i, |profiles|) == Loaded(profiles[i..], false)
    decreases |profiles| - i
  {
    if i < |profiles| {
      LoadSlotsBack(store, profiles, i + 1);
      assert SlotIs(store, i, profiles[i]) && Fits(profiles[i]);
      assert profiles[i..] == [profiles[i]] + profiles[i + 1..];
    }
  }

  /** Whatever stale keys the store had, loading what was persisted gives the table back. */
  lemma LoadAfterPersist(store: Store, profiles: seq<Profile>)
    requires Holds(store, profiles)
    requires forall k :: 0 <= k < |profiles| ==> Fits(profiles[k])
    ensures Load(store) == Loaded(profiles, false)
  {
    LoadSlotsBack(store, profiles, 0);
  }

  /** Anything loadable fits its buffers and the table. */
  lemma {:induction false} LoadedFits(store: Store, i: nat, n: nat)
    requires i <= n
    ensures var l := LoadSlots(store, i, n);
      l.Loaded? ==> |l.profiles| <= n - i && !l.migrated && forall k :: 0 <= k < |l.profiles| ==> Fits(l.profiles[k])
    decreases n - i
  {
    if i < n {
      LoadedFits(store, i + 1, n);
    }
  }

  lemma LoadFits(store: Store)
    requires Load(store).Loaded?
    ensures |Load(store).profiles| <= PROFILE_MAX
    ensures forall k :: 0 <= k < |Load(store).profiles| ==> Fits(Load(store).profiles[k])
    ensures Load(store).migrated ==> CountKey !in store && |Load(store).profiles| == 1
  {
    if CountKey in store {
      LoadedFits(store, 0, if store[CountKey].n > PROFILE_MAX then PROFILE_MAX else store[CountKey].n);
    }
  }

  /** Without a count: the legacy credential becomes the only profile and is persisted. */
  method MigrateLegacy(store0: Store) returns (loaded: Loaded, store: Store)
    requires CountKey !in store0
    ensures loaded == Load(store0) && loaded.Loaded?
    ensures if loaded.migrated then Holds(store, loaded.profiles) else store == store0
    ensures Load(store) == Loaded(loaded.profiles, false)
  {
    store := store0;
    var ssid := ReadString(store, LegacySsid, SSID_MAX);
    var pass := ReadString(store, LegacyPassword, PASSWORD_MAX);
    loaded := Loaded([], false);
    if ssid.Got? && pass.Got? && ssid.s != "" {
      loaded := Loaded([Profile(ssid.s, pass.s, false)], true);
      store := Persist(loaded.profiles, store);
      LoadFits(store0);
      LoadAfterPersist(store, loaded.profiles);
    }
  }

  /** What reading went well so far and the slots from i on give together. */
  function Joined(profiles: seq<Profile>, rest: Loaded): Loaded {
    if rest.LoadFailed? then LoadFailed else Loaded(profiles + rest.profiles, false)
  }

  lemma JoinedNone(rest: Loaded)
    requires rest.Loaded? ==> !rest.migrated
    ensures Joined([], rest) == rest
  {
    if rest.Loaded? {
      assert [] + rest.profiles == rest.profiles;
    }
  }

  lemma JoinedOne(profiles: seq<Profile>, p: Profile, rest: Loaded)
    ensures Joined(profiles, Joined([p], rest)) == Joined(profiles + [p], rest)
  {
    if rest.Loaded? {
      assert profiles + ([p] + rest.profiles) == (profiles + [p]) + rest.profiles;
    }
  }

  /** The loop over the stored slots. */
  method ReadSlots(store: Store, n: nat) returns (loaded: Loaded)
    ensures loaded == LoadSlots(store, 0, n)
  {
    var profiles: seq<Profile> := [];
    var i: nat := 0;
    LoadedFits(store, 0, n);
    JoinedNone(LoadSlots(store, 0, n));
    while i < n
      invariant i <= n && LoadSlots(store, 0, n) == Joined(profiles, LoadSlots(store, i, n))
    {
      var ssid := ReadString(store, SsidKey(i), SSID_MAX);
      if ssid.Failed? {
        return LoadFailed;
      }
      if ssid.s != "" {
        var pass := ReadString(store, PassKey(i), PASSWORD_MAX);
        if pass.Failed? {
          return LoadFailed;
        }
        var p := Profile(ssid.s, pass.s, ReadHidden(store, i));
        JoinedOne(profiles, p, LoadSlots(store, i + 1, n));
        profiles := profiles + [p];
      }
      i := i + 1;
    }
    loaded := Loaded(profiles, false);
  }

  /** load_profiles_from_nvs. Whatever it loads, migrated or not, a reload gives the same
      table and migrates nothing. */
  method LoadProfiles(store0: Store) returns (loaded: Loaded, store: Store)
    ensures loaded == Load(store0)
    ensures loaded.Loaded? && loaded.migrated ==> Holds(store, loaded.profiles)
    ensures loaded.LoadFailed? || !loaded.migrated ==> store == store0
    ensures loaded.Loaded? ==> Load(store) == Loaded(loaded.profiles, false)
  {
    if CountKey !in store0 {
      loaded, store := MigrateLegacy(store0);
    } else if store0[CountKey].Text? {
      loaded, store := LoadFailed, store0;
    } else {
      store := store0;
      var n := if store[CountKey].n > PROFILE_MAX then PROFILE_MAX else store[CountKey].n;
      LoadedFits(store, 0, n);
      loaded := ReadSlots(store, n);
    }
  }

  // ------------------------------------------------------- edits and loading, told plainly

  lemma FindNames(profiles: seq<Profile>, ssid: string)
    requires ssid != ""
    ensures Find(profiles, ssid) >= 0 <==> ssid in Names(profiles)
  {
    var i := Find(profiles, ssid);
    if i >= 0 {
      assert Names(profiles)[i] == ssid;
    }
    if ssid in Names(profiles) {
      var k :| 0 <= k < |profiles| && Names(profiles)[k] == ssid;
      assert profiles[k].ssid == ssid;
    }
  }

  /** When each status is returned: a name that is empty or too long, a password that is too
      long or missing for a new name, and a full table. Only Ok changes the table. */
  lemma AddStatus(t: Table, ssid: string, password: Option<string>, hidden: bool)
    ensures var (status, after) := AddSpec(t, ssid, password, hidden);
      var bad := ssid == "" || |ssid| > 32 || (password.Some? && |password.value| > 64)
                 || (password.None? && ssid !in Names(t.profiles));
      && (status == InvalidArg <==> bad)
      && (status == NoMem <==> !bad && ssid !in Names(t.profiles) && |t.profiles| >= 5)
      && status != NotFound
      && (status != Ok ==> after == t)
  {
    if ssid != "" {
      FindNames(t.profiles, ssid);
    }
  }

  /** After Ok the network has the password given, or keeps its own if none is, and the
      hidden flag given; a new one comes last, and no other profile changes. */
  lemma AddStores(t: Table, ssid: string, password: Option<string>, hidden: bool) returns (i: nat)
    requires AddSpec(t, ssid, password, hidden).0 == Ok
    ensures var after := AddSpec(t, ssid, password, hidden).1.profiles;
      && i < |after| && after[i].ssid == ssid && after[i].hidden == hidden
      && (password.Some? ==> after[i].password == password.value)
      && (password.None? ==> i < |t.profiles| && after[i].password == t.profiles[i].password)
      && (if ssid in Names(t.profiles) then |after| == |t.profiles|
          else i == |t.profiles| && |after| == i + 1)
      && forall k :: 0 <= k < |t.profiles| && k != i ==> after[k] == t.profiles[k]
  {
    FindNames(t.profiles, ssid);
    i := if Find(t.profiles, ssid) >= 0 then Find(t.profiles, ssid) else |t.profiles|;
  }

  /** The store has something other than a text of the right size under the key. */
  predicate BadText(store: Store, key: Key, size: nat) {
    key in store && !(store[key].Text? && |store[key].s| < size)
  }

  /** The text under the key, empty if there is none. */
  function TextAt(store: Store, key: Key): string {
    if key in store && store[key].Text? then store[key].s else ""
  }

  predicate SlotBad(store: Store, k: nat) {
    BadText(store, SsidKey(k), 33) || (TextAt(store, SsidKey(k)) != "" && BadText(store, PassKey(k), 65))
  }

  /** What slot k says: a name, a password, which may be missing, and a flag not zero. */
  ghost predicate SlotSays(store: Store, k: nat, p: Profile) {
    && p.ssid != "" && p.ssid == TextAt(store, SsidKey(k)) && p.password == TextAt(store, PassKey(k))
    && (p.hidden <==> HiddenKey(k) in store && store[HiddenKey(k)].Num? && store[HiddenKey(k)] != Num(0))
  }

  ghost predicate Named(store: Store, k: nat, profiles: seq<Profile>) {
    exists j :: 0 <= j < |profiles| && SlotSays(store, k, profiles[j])
  }

  lemma SlotRead(store: Store, k: nat)
    ensures var ssid, pass := ReadString(store, SsidKey(k), SSID_MAX), ReadString(store, PassKey(k), PASSWORD_MAX);
      && (SlotBad(store, k) <==> ssid.Failed? || (ssid.s != "" && pass.Failed?))
      && (!SlotBad(store, k) && ssid.s != "" ==>
            SlotSays(store, k, Profile(ssid.s, pass.s, ReadHidden(store, k))))
      && (!SlotBad(store, k) ==> ssid.s == TextAt(store, SsidKey(k)))
  {
  }

  ghost predicate FromSlot(store: Store, i: nat, n: nat, p: Profile) {
    exists k :: i <= k < n && SlotSays(store, k, p)
  }

  /** The profiles are what the slots from i up to n with a name say. */
  ghost predicate SlotsSay(store: Store, i: nat, n: nat, profiles: seq<Profile>) {
    && (forall k :: i <= k < n && TextAt(store, SsidKey(k)) != "" ==> Named(store, k, profiles))
    && (forall j :: 0 <= j < |profiles| ==> FromSlot(store, i, n, profiles[j]))
  }

  lemma NamedLater(store: Store, k: nat, p: Profile, rest: seq<Profile>)
    requires Named(store, k, rest)
    ensures Named(store, k, [p] + rest)
  {
    var j :| 0 <= j < |rest| && SlotSays(store, k, rest[j]);
    assert ([p] + rest)[j + 1] == rest[j];
  }

  lemma FromLater(store: Store, i: nat, n: nat, p: Profile)
    requires FromSlot(store, i + 1, n, p)
    ensures FromSlot(store, i, n, p)
  {
    var k :| i + 1 <= k < n && SlotSays(store, k, p);
    assert i <= k;
  }

  lemma SlotBefore(store: Store, i: nat, n: nat, p: Profile, rest: seq<Profile>)
    requires i < n && SlotSays(store, i, p) && SlotsSay(store, i + 1, n, rest)
    ensures SlotsSay(store, i, n, [p] + rest)
  {
    var all := [p] + rest;
    assert all[0] == p;
    forall k | i <= k < n && TextAt(store, SsidKey(k)) != ""
      ensures Named(store, k, all)
    {
      if k > i {
        NamedLater(store, k, p, rest);
      }
    }
    forall j | 0 <= j < |all|
      ensures FromSlot(store, i, n, all[j])
    {
      if j > 0 {
        FromLater(store, i, n, rest[j - 1]);
      }
    }
  }

  lemma SlotSkipped(store: Store, i: nat, n: nat, rest: seq<Profile>)
    requires i < n && TextAt(store, SsidKey(i)) == "" && SlotsSay(store, i + 1, n, rest)
    ensures SlotsSay(store, i, n, rest)
  {
    forall j | 0 <= j < |rest|
      ensures FromSlot(store, i, n, rest[j])
    {
      FromLater(store, i, n, rest[j]);
    }
  }

  /** The slots from i up to n fail to load exactly if one of them is bad; otherwise what
      loads is what the slots with a name say. */
  lemma {:induction false} LoadSlotsExactly(store: Store, i: nat, n: nat)
    requires i <= n
    ensures LoadSlots(store, i, n).LoadFailed? <==> exists k :: i <= k < n && SlotBad(store, k)
    ensures var r := LoadSlots(store, i, n); r.Loaded? ==> !r.migrated && SlotsSay(store, i, n, r.profiles)
    decreases n - i
  {
    if i < n {
      SlotRead(store, i);
      LoadSlotsExactly(store, i + 1, n);
      var rest := LoadSlots(store, i + 1, n);
      if rest.Loaded? && !SlotBad(store, i) && TextAt(store, SsidKey(i)) != "" {
        var pass := ReadString(store, PassKey(i), PASSWORD_MAX);
        var p := Profile(TextAt(store, SsidKey(i)), pass.s, ReadHidden(store, i));
        SlotBefore(store, i, n, p, rest.profiles);
        assert LoadSlots(store, i, n) == Loaded([p] + rest.profiles, false);
      } else if rest.Loaded? && !SlotBad(store, i) {
        SlotSkipped(store, i, n, rest.profiles);
      }
    }
  }

  /** Which slots a stored table is read from, and what becomes of the one network an older
      firmware stored: it is taken over with its password, not hidden, unless something
      about it does not fit. */
  lemma LoadMeaning(store: Store)
    ensures CountKey in store && store[CountKey].Num? ==>
      Load(store) == LoadSlots(store, 0, if store[CountKey].n < 5 then store[CountKey].n else 5)
    ensures CountKey in store && store[CountKey].Text? ==> Load(store) == LoadFailed
    ensures CountKey !in store ==>
      var fits := !BadText(store, LegacySsid, 33) && !BadText(store, LegacyPassword, 65);
      if TextAt(store, LegacySsid) != "" && fits
      then Load(store) == Loaded([Profile(TextAt(store, LegacySsid), TextAt(store, LegacyPassword), false)], true)
      else Load(store) == Loaded([], false)
  {
  }
}
