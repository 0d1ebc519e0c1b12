/** The order in which stored Wi-Fi profiles are tried (net_manager.c,
    rebuild_candidate_list). */
module WifiCandidates {
  type Rssi = r: int | -128 <= r <= 127
  const RSSI_MIN: Rssi := -128

  datatype Profile = Profile(ssid: string, password: string, hidden: bool)
  datatype AccessPoint = AccessPoint(ssid: string, rssi: Rssi)
  datatype Candidate = Candidate(profile: nat, rssi: Rssi)

  // ------------------------------------------------------------- the order wanted

  ghost predicate Visible(p: Profile, scan: seq<AccessPoint>) {
    exists j :: 0 <= j < |scan| && scan[j].ssid == p.ssid
  }

  /** r is the strongest signal the scan saw for p. */
  ghost predicate BestRssi(p: Profile, scan: seq<AccessPoint>, r: Rssi) {
    && (exists j :: 0 <= j < |scan| && scan[j].ssid == p.ssid && scan[j].rssi == r)
    && (forall j :: 0 <= j < |scan| && scan[j].ssid == p.ssid ==> scan[j].rssi <= r)
  }

  /** 0: seen in the scan, 1: hidden and not seen, 2: the rest. */
  ghost function Tier(p: Profile, scan: seq<AccessPoint>): nat {
    if Visible(p, scan) then 0 else if p.hidden then 1 else 2
  }

  /** Candidate a comes before b: by tier, in the first tier by falling signal, and in
      stored order when nothing else decides. */
  ghost predicate Before(profiles: seq<Profile>, scan: seq<AccessPoint>, a: Candidate, b: Candidate)
    requires a.profile < |profiles| && b.profile < |profiles|
  {
    var ta, tb := Tier(profiles[a.profile], scan), Tier(profiles[b.profile], scan);
    ta < tb || (ta == tb && (a.rssi > b.rssi || (a.rssi == b.rssi && a.profile < b.profile)))
  }

  /** The signal a candidate carries. */
  ghost predicate Labelled(profiles: seq<Profile>, scan: seq<AccessPoint>, c: Candidate) {
    && c.profile < |profiles|
    && (if Visible(profiles[c.profile], scan) then BestRssi(profiles[c.profile], scan, c.rssi) else c.rssi == RSSI_MIN)
  }

  ghost predicate Listed(list: seq<Candidate>, i: nat) {
    exists k :: 0 <= k < |list| && list[k].profile == i
  }

  ghost predicate Ordered(profiles: seq<Profile>, scan: seq<AccessPoint>, list: seq<Candidate>) {
    && (forall k :: 0 <= k < |list| ==> Labelled(profiles, scan, list[k]))
    && (forall k, l :: 0 <= k < l < |list| ==> Before(profiles, scan, list[k], list[l]))
  }

  /** Every profile once, in the wanted order. */
  ghost predicate RightOrder(profiles: seq<Profile>, scan: seq<AccessPoint>, list: seq<Candidate>) {
    && |list| == |profiles|
    && Ordered(profiles, scan, list)
    && (forall i :: 0 <= i < |profiles| ==> Listed(list, i))
  }

  lemma OrderedIsDistinct(profiles: seq<Profile>, scan: seq<AccessPoint>, list: seq<Candidate>)
    requires Ordered(profiles, scan, list)
    ensures forall k, l :: 0 <= k < l < |list| ==> list[k].profile != list[l].profile
  {
    forall k, l | 0 <= k < l < |list|
      ensures list[k].profile != list[l].profile
    {
      assert Before(profiles, scan, list[k], list[l]);
      if list[k].profile == list[l].profile {
        LabelUnique(profiles, scan, list[k], list[l]);
      }
    }
  }

  lemma LabelUnique(profiles: seq<Profile>, scan: seq<AccessPoint>, a: Candidate, b: Candidate)
    requires Labelled(profiles, scan, a) && Labelled(profiles, scan, b) && a.profile == b.profile
    ensures a == b
  {
  }

  lemma ListedLast(list: seq<Candidate>, i: nat)
    requires list != []
    ensures Listed(list, i) <==> Listed(list[..|list| - 1], i) || i == list[|list| - 1].profile
  {
    var m := |list| - 1;
    if Listed(list, i) {
      var k :| 0 <= k < |list| && list[k].profile == i;
      if k < m {
        assert list[..m][k].profile == i;
      }
    }
    if Listed(list[..m], i) {
      var k :| 0 <= k < m && list[..m][k].profile == i;
      assert list[k].profile == i;
    }
  }

  /** Distinct profile indexes below n number at most n. */
  lemma {:induction false} DistinctBounded(list: seq<Candidate>, n: nat) returns (s: set<nat>)
    requires forall k :: 0 <= k < |list| ==> list[k].profile < n
    requires forall k, l :: 0 <= k < l < |list| ==> list[k].profile != list[l].profile
    ensures |s| == |list| <= n
    ensures forall i :: i in s <==> Listed(list, i)
    decreases |list|
  {
    if list == [] {
      s := {};
    } else {
      var m := |list| - 1;
      var t := DistinctBounded(list[..m], n);
      s := t + {list[m].profile};
      forall i: nat
        ensures Listed(list, i) <==> Listed(list[..m], i) || i == list[m].profile
      {
        ListedLast(list, i);
      }
      SubsetOfRange(s, n);
    }
  }

  lemma {:induction false} SubsetOfRange(s: set<nat>, n: nat)
    requires forall i :: i in s ==> i < n
    ensures |s| <= n
  {
    if n > 0 {
      SubsetOfRange(s - {n - 1}, n - 1);
    } else {
      assert s == {};
    }
  }

  /** There is only one right order. */
  lemma {:induction false} RightOrderUnique(profiles: seq<Profile>, scan: seq<AccessPoint>, a: seq<Candidate>,
                                            b: seq<Candidate>)
    requires RightOrder(profiles, scan, a) && RightOrder(profiles, scan, b)
    ensures a == b
  {
    forall k | 0 <= k < |a|
      ensures a[k] == b[k]
    {
      SamePosition(profiles, scan, a, b, k);
    }
  }

  /** A candidate that is not among the equal prefix stands at or after k in the other list. */
  lemma StandsLater(profiles: seq<Profile>, scan: seq<AccessPoint>, a: seq<Candidate>, b: seq<Candidate>, k: nat)
    returns (p: nat)
    requires RightOrder(profiles, scan, a) && RightOrder(profiles, scan, b) && k < |a|
    requires forall j :: 0 <= j < k ==> j < |b| && a[j] == b[j]
    ensures k <= p < |b| && b[p] == a[k]
  {
    OrderedIsDistinct(profiles, scan, a);
    assert Listed(b, a[k].profile);
    p :| 0 <= p < |b| && b[p].profile == a[k].profile;
    LabelUnique(profiles, scan, a[k], b[p]);
  }

  lemma {:induction false} SamePosition(profiles: seq<Profile>, scan: seq<AccessPoint>, a: seq<Candidate>,
                                        b: seq<Candidate>, k: nat)
    requires RightOrder(profiles, scan, a) && RightOrder(profiles, scan, b) && k < |a|
    ensures a[k] == b[k]
    decreases k
  {
    forall j | 0 <= j < k
      ensures a[j] == b[j]
    {
      SamePosition(profiles, scan, a, b, j);
    }
    var p := StandsLater(profiles, scan, a, b, k);
    var q := StandsLater(profiles, scan, b, a, k);
  }

  // --------------------------------------------------------------- the passes

  /** First pass: the strongest signal per profile. */
  method MatchScan(profiles: seq<Profile>, scan: seq<AccessPoint>) returns (matched: array<bool>, rssi: array<Rssi>)
    ensures fresh(matched) && fresh(rssi) && matched.Length == rssi.Length == |profiles|
    ensures forall i :: 0 <= i < |profiles| ==> (matched[i] <==> Visible(profiles[i], scan))
    ensures forall i :: 0 <= i < |profiles| && matched[i] ==> BestRssi(profiles[i], scan, rssi[i])
  {
    matched := new bool[|profiles|](_ => false);
    rssi := new Rssi[|profiles|](_ => 0);
    for i := 0 to |profiles|
      invariant forall k :: 0 <= k < i ==> (matched[k] <==> Visible(profiles[k], scan))
      invariant forall k :: 0 <= k < i && matched[k] ==> BestRssi(profiles[k], scan, rssi[k])
      invariant forall k :: i <= k < |profiles| ==> !matched[k]
    {
      for j := 0 to |scan|
        invariant forall k :: 0 <= k < i ==> (matched[k] <==> Visible(profiles[k], scan))
        invariant forall k :: 0 <= k < i && matched[k] ==> BestRssi(profiles[k], scan, rssi[k])
        invariant forall k :: i < k < |profiles| ==> !matched[k]
        invariant matched[i] <==> exists l :: 0 <= l < j && scan[l].ssid == profiles[i].ssid
        invariant matched[i] ==> exists l :: 0 <= l < j && scan[l].ssid == profiles[i].ssid && scan[l].rssi == rssi[i]
        invariant matched[i] ==> forall l :: 0 <= l < j && scan[l].ssid == profiles[i].ssid ==> scan[l].rssi <= rssi[i]
      {
        if profiles[i].ssid != scan[j].ssid {
          continue;
        }
        if !matched[i] || scan[j].rssi > rssi[i] {
          matched[i] := true;
          rssi[i] := scan[j].rssi;
        }
      }
    }
  }

  /** The list so far and the profiles still to be placed. */
  ghost predicate Progress(profiles: seq<Profile>, scan: seq<AccessPoint>, list: seq<Candidate>, included: seq<bool>) {
    && |included| == |profiles|
    && Ordered(profiles, scan, list)
    && (forall i :: 0 <= i < |profiles| ==> (included[i] <==> Listed(list, i)))
  }

  lemma Append(profiles: seq<Profile>, scan: seq<AccessPoint>, list: seq<Candidate>, included: seq<bool>, c: Candidate)
    requires Progress(profiles, scan, list, included)
    requires Labelled(profiles, scan, c)
    requires forall k :: 0 <= k < |list| ==> Before(profiles, scan, list[k], c)
    ensures Progress(profiles, scan, list + [c], included[c.profile := true])
  {
    var list' := list + [c];
    forall i | 0 <= i < |profiles|
      ensures Listed(list', i) <==> Listed(list, i) || i == c.profile
    {
      if Listed(list, i) {
        var k :| 0 <= k < |list| && list[k].profile == i;
        assert list'[k].profile == i;
      }
      assert list'[|list|].profile == c.profile;
    }
  }

  /** Second pass: repeatedly the strongest profile not yet placed. */
  method PlaceVisible(profiles: seq<Profile>, scan: seq<AccessPoint>, matched: array<bool>, rssi: array<Rssi>,
                      included: array<bool>)
    returns (list: seq<Candidate>)
    requires matched.Length == rssi.Length == included.Length == |profiles| && included != matched
    requires forall i :: 0 <= i < |profiles| ==> (matched[i] <==> Visible(profiles[i], scan)) && !included[i]
    requires forall i :: 0 <= i < |profiles| && matched[i] ==> BestRssi(profiles[i], scan, rssi[i])
    modifies included
    ensures Progress(profiles, scan, list, included[..])
    ensures forall i :: 0 <= i < |profiles| ==> (included[i] <==> Visible(profiles[i], scan))
  {
    list := [];
    var more := true;
    while more
      invariant Progress(profiles, scan, list, included[..])
      invariant forall i :: 0 <= i < |profiles| && included[i] ==> matched[i]
      invariant forall i, k :: 0 <= i < |profiles| && matched[i] && !included[i] && 0 <= k < |list| ==>
        Before(profiles, scan, list[k], Candidate(i, rssi[i]))
      invariant |list| <= |profiles|
      invariant !more ==> forall i :: 0 <= i < |profiles| && matched[i] ==> included[i]
      decreases |profiles| - |list|, more
    {
      var best := -1;
      for i := 0 to |profiles|
        invariant -1 <= best < i
        invariant best >= 0 ==> matched[best] && !included[best]
        invariant forall k :: 0 <= k < i && matched[k] && !included[k] ==> best >= 0
        invariant forall k :: 0 <= k < i && matched[k] && !included[k] && k != best ==>
          rssi[best] > rssi[k] || (rssi[best] == rssi[k] && best < k)
      {
        if !matched[i] || included[i] {
          continue;
        }
        if best < 0 || rssi[i] > rssi[best] {
          best := i;
        }
      }
      if best < 0 {
        more := false;
      } else {
        var c := Candidate(best, rssi[best]);
        Append(profiles, scan, list, included[..], c);
        list := list + [c];
        included[best] := true;
        OrderedIsDistinct(profiles, scan, list);
        ghost var s := DistinctBounded(list, |profiles|);
      }
    }
  }

  /** Third and fourth pass: the rest of one tier, in stored order. */
  method PlaceTier(profiles: seq<Profile>, scan: seq<AccessPoint>, list0: seq<Candidate>, included: array<bool>,
                   hiddenOnly: bool)
    returns (list: seq<Candidate>)
    requires included.Length == |profiles| && Progress(profiles, scan, list0, included[..])
    requires forall i :: 0 <= i < |profiles| ==>
      (included[i] <==> Visible(profiles[i], scan) || (!hiddenOnly && profiles[i].hidden))
    modifies included
    ensures Progress(profiles, scan, list, included[..])
    ensures forall i :: 0 <= i < |profiles| ==>
      (included[i] <==> Visible(profiles[i], scan) || profiles[i].hidden || !hiddenOnly)
  {
    list := list0;
    for i := 0 to |profiles|
      invariant Progress(profiles, scan, list, included[..])
      invariant forall k :: 0 <= k < i ==>
        (included[k] <==> Visible(profiles[k], scan) || profiles[k].hidden || !hiddenOnly)
      invariant forall k :: i <= k < |profiles| ==>
        (included[k] <==> Visible(profiles[k], scan) || (!hiddenOnly && profiles[k].hidden))
      invariant forall k :: 0 <= k < |list| && list[k].profile >= i ==>
        Tier(profiles[list[k].profile], scan) < (if hiddenOnly then 1 else 2)
      invariant forall k :: 0 <= k < |list| ==> Tier(profiles[list[k].profile], scan) <= (if hiddenOnly then 1 else 2)
    {
      if !included[i] && (!hiddenOnly || profiles[i].hidden) {
        var c := Candidate(i, RSSI_MIN);
        forall k | 0 <= k < |list|
          ensures Before(profiles, scan, list[k], c)
        {
          assert Listed(list, list[k].profile);
        }
        Append(profiles, scan, list, included[..], c);
        list := list + [c];
        included[i] := true;
      }
    }
  }

  /** rebuild_candidate_list: None stands for no profile; a failed scan counts as empty. */
  method Rebuild(profiles: seq<Profile>, scanOk: bool, results: seq<AccessPoint>)
    returns (list: seq<Candidate>, found: bool)
    ensures found <==> |profiles| > 0
    ensures RightOrder(profiles, if scanOk then results else [], list)
  {
    if |profiles| == 0 {
      return [], false;
    }
    var scan := if scanOk then results else [];
    var matched, rssi := MatchScan(profiles, scan);
    var included := new bool[|profiles|](_ => false);
    list := PlaceVisible(profiles, scan, matched, rssi, included);
    list := PlaceTier(profiles, scan, list, included, true);
    list := PlaceTier(profiles, scan, list, included, false);
    found := |list| > 0;
    OrderedIsDistinct(profiles, scan, list);
    ghost var s := DistinctBounded(list, |profiles|);
    assert forall i :: 0 <= i < |profiles| ==> i in s;
    AllOfRange(s, |profiles|);
  }

  lemma {:induction false} AllOfRange(s: set<nat>, n: nat)
    requires forall i :: 0 <= i < n ==> i in s
    ensures |s| >= n
  {
    if n > 0 {
      AllOfRange(s - {n - 1}, n - 1);
    }
  }

  /** The right order, told on profiles and signals: networks in sight come first, the
      stronger before the weaker; then hidden ones, then the rest; and in stored order
      where this does not decide. */
  lemma OrderMeaning(profiles: seq<Profile>, scan: seq<AccessPoint>, list: seq<Candidate>, k: nat, l: nat)
    requires RightOrder(profiles, scan, list) && k < l < |list|
    ensures list[k].profile < |profiles| && list[l].profile < |profiles| && list[k].profile != list[l].profile
    ensures var p, q := profiles[list[k].profile], profiles[list[l].profile];
      var pSeen := exists j :: 0 <= j < |scan| && scan[j].ssid == p.ssid;
      var qSeen := exists j :: 0 <= j < |scan| && scan[j].ssid == q.ssid;
      && (qSeen ==> pSeen)
      && (!pSeen && q.hidden ==> p.hidden)
      && (!pSeen && p.hidden == q.hidden ==> list[k].profile < list[l].profile)
      && (qSeen ==> list[k].rssi > list[l].rssi || (list[k].rssi == list[l].rssi && list[k].profile < list[l].profile))
  {
    assert Before(profiles, scan, list[k], list[l]);
    assert Labelled(profiles, scan, list[k]) && Labelled(profiles, scan, list[l]);
  }

  /** The signal a candidate in sight carries is the strongest the scan saw for it. */
  lemma SignalMeaning(profiles: seq<Profile>, scan: seq<AccessPoint>, list: seq<Candidate>, k: nat, j: nat)
    requires RightOrder(profiles, scan, list) && k < |list| && j < |scan|
    requires scan[j].ssid == profiles[list[k].profile].ssid
    ensures scan[j].rssi <= list[k].rssi
    ensures exists b :: 0 <= b < |scan| && scan[b] == AccessPoint(profiles[list[k].profile].ssid, list[k].rssi)
  {
    assert Labelled(profiles, scan, list[k]);
    var b :| 0 <= b < |scan| && scan[b].ssid == profiles[list[k].profile].ssid && scan[b].rssi == list[k].rssi;
    assert scan[b] == AccessPoint(profiles[list[k].profile].ssid, list[k].rssi);
  }
}
