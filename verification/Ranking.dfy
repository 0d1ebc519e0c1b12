/** Strict orders on ranked keys: what sorting a BTreeMap's values by a rank, stably, and
    searching them for the best one come down to. */
module Ranking {
  datatype Rank = Rank(first: nat, second: nat, third: nat)
  type Ranks = map<string, Rank>

  datatype Direction = Up | Down

  predicate RankLess(a: Rank, b: Rank) {
    a.first < b.first || (a.first == b.first && (a.second < b.second || (a.second == b.second && a.third < b.third)))
  }

  /** Lexicographic by code point, which is also the byte order of UTF-8. */
  predicate StrLess(a: string, b: string) {
    b != [] && (a == [] || a[0] < b[0] || (a[0] == b[0] && StrLess(a[1..], b[1..])))
  }

  /** By rank; equal ranks in key order. */
  predicate Less(r: Ranks, j: string, k: string)
    requires j in r && k in r
  {
    RankLess(r[j], r[k]) || (r[j] == r[k] && StrLess(j, k))
  }

  predicate Before(d: Direction, r: Ranks, j: string, k: string)
    requires j in r && k in r
  {
    if d.Up? then Less(r, j, k) else Less(r, k, j)
  }

  lemma {:induction false} StrTotal(a: string, b: string)
    ensures a != b ==> (StrLess(a, b) <==> !StrLess(b, a))
    ensures !StrLess(a, a)
  {
    if a != [] {
      StrTotal(a[1..], if b == [] then b else b[1..]);
      if b != [] && a[0] == b[0] {
        assert a == [a[0]] + a[1..] && b == [b[0]] + b[1..];
      }
    }
  }

  lemma {:induction false} StrTransitive(a: string, b: string, c: string)
    requires StrLess(a, b) && StrLess(b, c)
    ensures StrLess(a, c)
  {
    if a != [] && a[0] == b[0] && b[0] == c[0] {
      StrTransitive(a[1..], b[1..], c[1..]);
    }
  }

  lemma BeforeTotal(d: Direction, r: Ranks, j: string, k: string)
    requires j in r && k in r
    ensures j != k ==> (Before(d, r, j, k) <==> !Before(d, r, k, j))
    ensures !Before(d, r, j, j)
  {
    StrTotal(j, k);
  }

  lemma BeforeTransitive(d: Direction, r: Ranks, i: string, j: string, k: string)
    requires i in r && j in r && k in r && Before(d, r, i, j) && Before(d, r, j, k)
    ensures Before(d, r, i, k)
  {
    var x, y := if d.Up? then i else k, if d.Up? then k else i;
    if StrLess(x, j) && StrLess(j, y) {
      StrTransitive(x, j, y);
    }
  }

  predicate IsFirst(d: Direction, r: Ranks, k: string) {
    k in r && forall j :: j in r && j != k ==> Before(d, r, k, j)
  }

  lemma {:induction false} FirstExists(d: Direction, r: Ranks)
    requires |r| > 0
    ensures exists k :: IsFirst(d, r, k)
    decreases |r|
  {
    var k :| k in r;
    var rest := r - {k};
    assert forall j :: j in r && j != k ==> j in rest;
    if rest == map[] {
      assert IsFirst(d, r, k);
    } else {
      FirstExists(d, rest);
      var f :| IsFirst(d, rest, f);
      BeforeTotal(d, r, k, f);
      if Before(d, r, f, k) {
        assert IsFirst(d, r, f);
      } else {
        forall j | j in r && j != k
          ensures Before(d, r, k, j)
        {
          if j != f {
            BeforeTransitive(d, r, k, f, j);
          }
        }
        assert IsFirst(d, r, k);
      }
    }
  }

  ghost function First(d: Direction, r: Ranks): (k: string)
    requires |r| > 0
    ensures IsFirst(d, r, k)
  {
    FirstExists(d, r);
    var k :| IsFirst(d, r, k); k
  }

  lemma FirstUnique(d: Direction, r: Ranks, j: string, k: string)
    requires IsFirst(d, r, j) && IsFirst(d, r, k)
    ensures j == k
  {
    if j != k {
      BeforeTotal(d, r, j, k);
    }
  }

  predicate Ascending(r: Ranks, c: seq<string>) {
    && (forall k :: k in c ==> k in r)
    && (forall i, j :: 0 <= i < j < |c| ==> c[i] in r && c[j] in r && Before(Up, r, c[i], c[j]))
  }

  method FindFirst(d: Direction, r: Ranks) returns (first: string)
    requires |r| > 0
    ensures IsFirst(d, r, first)
  {
    first :| first in r;
    var todo := r.Keys - {first};
    while todo != {}
      invariant first in r && todo <= r.Keys && first !in todo
      invariant forall j :: j in r && j !in todo && j != first ==> Before(d, r, first, j)
      decreases |todo|
    {
      var k :| k in todo;
      todo := todo - {k};
      BeforeTotal(d, r, k, first);
      if Before(d, r, k, first) {
        forall j | j in r && j !in todo && j != k && j != first
          ensures Before(d, r, k, j)
        {
          BeforeTransitive(d, r, k, first, j);
        }
        first := k;
      }
    }
  }

  predicate AllBefore(r: Ranks, c: seq<string>, rest: set<string>) {
    forall j, k :: j in c && k in rest ==> j in r && k in r && Before(Up, r, j, k)
  }

  lemma AscendingSnoc(r: Ranks, c: seq<string>, rest: set<string>, f: string)
    requires Ascending(r, c) && AllBefore(r, c, rest) && f in rest && f in r
    ensures Ascending(r, c + [f])
  {
  }

  lemma AllBeforeSnoc(r: Ranks, c: seq<string>, rest: set<string>, f: string)
    requires AllBefore(r, c, rest) && f in rest && rest <= r.Keys
    requires forall k :: k in rest && k != f ==> Before(Up, r, f, k)
    ensures AllBefore(r, c + [f], rest - {f})
  {
  }

  /** The keys in ascending order, as a stable sort of the values yields them. */
  method SortedKeys(r: Ranks) returns (c: seq<string>)
    ensures |c| == |r| && forall k :: k in c <==> k in r
    ensures Ascending(r, c)
  {
    c := [];
    var rest := r;
    while |rest| > 0
      invariant rest.Keys <= r.Keys && forall k :: k in rest ==> rest[k] == r[k]
      invariant forall k :: k in c <==> k in r && k !in rest
      invariant |c| + |rest| == |r|
      invariant Ascending(r, c) && AllBefore(r, c, rest.Keys)
      decreases |rest|
    {
      var f := FindFirst(Up, rest);
      assert forall k :: k in rest.Keys && k != f ==> Before(Up, rest, f, k) && Before(Up, r, f, k);
      AscendingSnoc(r, c, rest.Keys, f);
      AllBeforeSnoc(r, c, rest.Keys, f);
      assert rest.Keys == (rest - {f}).Keys + {f} && rest.Keys - {f} == (rest - {f}).Keys;
      rest := rest - {f};
      c := c + [f];
    }
    assert rest == map[];
  }

  // ------------------------------------------------------------- keeping the best n keys

  /** As many keys as fit, and none left out ranks above one kept. */
  ghost predicate IsTop(r: Ranks, kept: set<string>, cap: nat) {
    && kept <= r.Keys
    && |kept| == (if |r| <= cap then |r| else cap)
    && (forall j, k :: j in r && j !in kept && k in kept ==> Before(Up, r, j, k))
  }

  lemma {:induction false} TopExists(r: Ranks, cap: nat)
    ensures exists kept :: IsTop(r, kept, cap)
    decreases |r|
  {
    if |r| <= cap {
      assert |r.Keys| == |r|;
      assert IsTop(r, r.Keys, cap);
    } else {
      var f := First(Up, r);
      var rest := r - {f};
      assert r.Keys == rest.Keys + {f};
      TopExists(rest, cap);
      var kept :| IsTop(rest, kept, cap);
      assert IsTop(r, kept, cap);
    }
  }

  /** The keys that stay when only `cap` may. */
  ghost function Top(r: Ranks, cap: nat): (kept: set<string>)
    ensures IsTop(r, kept, cap)
  {
    TopExists(r, cap);
    var kept :| IsTop(r, kept, cap); kept
  }

  /** There is only one such set. */
  lemma TopUnique(r: Ranks, a: set<string>, b: set<string>, cap: nat)
    requires IsTop(r, a, cap) && IsTop(r, b, cap)
    ensures a == b
  {
    if a != b {
      SameSize(a, b);
      var j :| j in a && j !in b;
      var k :| k in b && k !in a;
      BeforeTotal(Up, r, j, k);
    }
  }

  lemma SameSize(a: set<string>, b: set<string>)
    requires |a| == |b| && a != b
    ensures (exists j :: j in a && j !in b) && (exists k :: k in b && k !in a)
  {
    Outside(a, b);
    Outside(b, a);
  }

  lemma Outside(a: set<string>, b: set<string>)
    requires |a| == |b| && a != b
    ensures exists j :: j in a && j !in b
  {
    if forall j :: j in a ==> j in b {
      var x :| x in b && x !in a;
      assert b == a + (b - a) && x in b - a;
    }
  }

  lemma LaterListed(c: seq<string>, n: nat)
    requires n <= |c|
    ensures forall a :: n <= a < |c| ==> c[a] in c[n..]
  {
    forall a | n <= a < |c|
      ensures c[a] in c[n..]
    {
      assert c[n..][a - n] == c[a];
    }
  }

  /** Dropping the low end of the sorted keys leaves the top. */
  lemma SortedTop(r: Ranks, c: seq<string>, kept: set<string>, n: nat)
    requires |c| == |r| && (forall k :: k in c <==> k in r) && Ascending(r, c)
    requires n <= |c| && (forall k :: k in kept <==> k in c[n..]) && |kept| == |c| - n
    ensures IsTop(r, kept, |c| - n)
  {
    LaterListed(c, n);
    forall j, k | j in r && j !in kept && k in kept
      ensures Before(Up, r, j, k)
    {
      assert j in c;
      var a :| 0 <= a < |c| && c[a] == j;
      var b :| n <= b < |c| && c[b] == k;
    }
    forall k | k in kept
      ensures k in r
    {
      assert k in c[n..];
    }
  }

  /** No key occurs twice. */
  lemma AscendingDistinct(r: Ranks, c: seq<string>, i: nat, j: nat)
    requires Ascending(r, c) && i < j < |c|
    ensures c[i] != c[j]
  {
    assert Before(Up, r, c[i], c[j]);
    BeforeTotal(Up, r, c[i], c[i]);
  }

  lemma AscendingLater(r: Ranks, c: seq<string>, i: nat)
    requires Ascending(r, c) && i < |c|
    ensures c[i] !in c[i + 1..]
  {
    forall j | i < j < |c|
      ensures c[j] != c[i]
    {
      AscendingDistinct(r, c, i, j);
    }
  }
}
