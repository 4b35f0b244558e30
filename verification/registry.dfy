/**
 * Registry bookkeeping in main.py: allocating a profile id for a new managed
 * profile (`_get_next_available_profile_id`) and relabelling a profile's mods
 * after one is removed (`remove_managed_mod`).
 */
module Registry {
  import opened Wrappers

  // ------------------------------------------------------- profile id allocation

  /** The profiles of one category of the game, by their recorded ids (`None`
      where a profile has no `profile_id` entry). */
  datatype CategoryProfiles = CategoryProfiles(name: string, ids: seq<Option<int>>)

  const DirectManagement := "direct_management"

  /** A category's ids are counted unless the game's data has no (or an empty)
      entry for it, or marks it as directly managed. */
  predicate Counted(categories: map<string, map<string, string>>, name: string) {
    && name in categories
    && |categories[name]| > 0
    && !("type" in categories[name] && categories[name]["type"] == DirectManagement)
  }

  /** A profile without an id counts as 0. */
  function IdsOf(ids: seq<Option<int>>): (r: set<int>)
    ensures forall x :: x in r <==> exists j :: 0 <= j < |ids| && ids[j].GetOr(0) == x
  {
    set j | 0 <= j < |ids| :: ids[j].GetOr(0)
  }

  /** The ids in use across the counted categories. */
  function UsedIds(categories: map<string, map<string, string>>, profiles: seq<CategoryProfiles>): set<int> {
    if |profiles| == 0 then {}
    else
      var here := if Counted(categories, profiles[0].name) then IdsOf(profiles[0].ids) else {};
      here + UsedIds(categories, profiles[1..])
  }

  /** Profile `j` of category `k` is counted and records `x`. */
  predicate Records(categories: map<string, map<string, string>>, profiles: seq<CategoryProfiles>, k: int, j: int, x: int) {
    0 <= k < |profiles| && Counted(categories, profiles[k].name)
    && 0 <= j < |profiles[k].ids| && profiles[k].ids[j].GetOr(0) == x
  }

  /** An id is in use exactly when some profile of a counted category records it. */
  lemma {:induction false} UsedIdsIff(categories: map<string, map<string, string>>, profiles: seq<CategoryProfiles>, x: int)
    ensures x in UsedIds(categories, profiles) <==> exists k, j :: Records(categories, profiles, k, j, x)
  {
    if |profiles| > 0 {
      UsedIdsIff(categories, profiles[1..], x);
      if x in UsedIds(categories, profiles[1..]) {
        var k, j :| Records(categories, profiles[1..], k, j, x);
        assert profiles[k + 1] == profiles[1..][k];
        assert Records(categories, profiles, k + 1, j, x);
      }
      if exists k, j :: Records(categories, profiles, k, j, x) {
        var k, j :| Records(categories, profiles, k, j, x);
        if k > 0 {
          assert profiles[1..][k - 1] == profiles[k];
          assert Records(categories, profiles[1..], k - 1, j, x);
        } else {
          assert x in IdsOf(profiles[0].ids);
        }
      }
      if Counted(categories, profiles[0].name) && x in IdsOf(profiles[0].ids) {
        var j :| 0 <= j < |profiles[0].ids| && profiles[0].ids[j].GetOr(0) == x;
        assert Records(categories, profiles, 0, j, x);
      }
    }
  }

  /** The positive integers below `n`. */
  function Below(n: nat): (r: set<int>)
    ensures forall x :: x in r <==> 1 <= x < n
  {
    if n <= 1 then {} else Below(n - 1) + {n - 1}
  }

  lemma {:induction false} BelowSize(n: nat)
    requires n >= 1
    ensures |Below(n)| == n - 1
  {
    if n > 1 {
      BelowSize(n - 1);
    }
  }

  /** `_get_next_available_profile_id`: count up from 1 past every id in use. */
  method NextProfileId(categories: map<string, map<string, string>>, profiles: seq<CategoryProfiles>) returns (id: int)
    ensures id >= 1 && id !in UsedIds(categories, profiles)
    ensures forall j :: 1 <= j < id ==> j in UsedIds(categories, profiles)
  {
    var used := UsedIds(categories, profiles);
    id := 1;
    while id in used
      invariant 1 <= id <= |used| + 1
      invariant forall j :: 1 <= j < id ==> j in used
      decreases |used| + 1 - id
    {
      BelowSize(id + 1);
      assert Below(id + 1) <= used;
      assert |Below(id + 1)| <= |used| by {
        SubsetSize(Below(id + 1), used);
      }
      id := id + 1;
    }
  }

  lemma {:induction false} SubsetSize<T>(a: set<T>, b: set<T>)
    requires a <= b
    ensures |a| <= |b|
  {
    assert b == a + (b - a);
  }

  // --------------------------------------------------------------- renumbering

  /** A managed mod, by its folder path and its slot (`None` when unrecorded). */
  datatype Mod = Mod(path: string, slot: Option<int>)

  /** The sort key: a mod without a slot sorts as slot 999. */
  function SortKey(m: Mod): int {
    m.slot.GetOr(999)
  }

  /** The mods other than the removed one, in their old order. */
  function Without(mods: seq<Mod>, path: string): (r: seq<Mod>)
    ensures |r| <= |mods|
    ensures forall i :: 0 <= i < |r| ==> r[i].path != path
    ensures forall m :: m in mods && m.path != path ==> m in r
    ensures multiset(r) <= multiset(mods)
  {
    if |mods| == 0 then []
    else
      assert mods == [mods[0]] + mods[1..];
      if mods[0].path == path then Without(mods[1..], path)
      else [mods[0]] + Without(mods[1..], path)
  }

  predicate SortedByKey(ms: seq<Mod>) {
    forall i, j :: 0 <= i < j < |ms| ==> SortKey(ms[i]) <= SortKey(ms[j])
  }

  /** The mods with key `k`, in order. */
  function WithKey(ms: seq<Mod>, k: int): seq<Mod> {
    if |ms| == 0 then []
    else (if SortKey(ms[0]) == k then [ms[0]] else []) + WithKey(ms[1..], k)
  }

  /** Put `m` in front of the first mod whose key is not smaller. */
  function Insert(m: Mod, ms: seq<Mod>): (r: seq<Mod>)
    ensures multiset(r) == multiset(ms) + multiset{m}
    ensures |r| == |ms| + 1
  {
    if |ms| == 0 || SortKey(m) <= SortKey(ms[0]) then [m] + ms
    else
      assert ms == [ms[0]] + ms[1..];
      [ms[0]] + Insert(m, ms[1..])
  }

  /** Python's stable `sort(key=...)`, as an insertion sort. */
  function SortStable(ms: seq<Mod>): (r: seq<Mod>)
    ensures multiset(r) == multiset(ms)
    ensures |r| == |ms|
  {
    if |ms| == 0 then []
    else
      assert ms == [ms[0]] + ms[1..];
      Insert(ms[0], SortStable(ms[1..]))
  }

  lemma {:induction false} InsertSorted(m: Mod, ms: seq<Mod>)
    requires SortedByKey(ms)
    ensures SortedByKey(Insert(m, ms))
  {
    if |ms| > 0 && SortKey(m) > SortKey(ms[0]) {
      InsertSorted(m, ms[1..]);
      var t := Insert(m, ms[1..]);
      forall i | 0 <= i < |t|
        ensures SortKey(ms[0]) <= SortKey(t[i])
      {
        assert t[i] in multiset(t);
        assert t[i] in multiset(ms[1..]) + multiset{m};
        if t[i] != m {
          assert t[i] in ms[1..];
        }
      }
    }
  }

  lemma {:induction false} WithKeyConcat(a: seq<Mod>, b: seq<Mod>, k: int)
    ensures WithKey(a + b, k) == WithKey(a, k) + WithKey(b, k)
  {
    if |a| > 0 {
      assert (a + b)[1..] == a[1..] + b;
      WithKeyConcat(a[1..], b, k);
    } else {
      assert a + b == b;
    }
  }

  /** Inserting `m` keeps every group of equal keys in order, with `m` first in its group. */
  lemma {:induction false} InsertWithKey(m: Mod, ms: seq<Mod>, k: int)
    requires SortedByKey(ms)
    ensures WithKey(Insert(m, ms), k) == WithKey([m] + ms, k)
  {
    if |ms| > 0 && SortKey(m) > SortKey(ms[0]) {
      InsertWithKey(m, ms[1..], k);
      WithKeyConcat([ms[0]], Insert(m, ms[1..]), k);
      WithKeyConcat([m], ms[1..], k);
      WithKeyConcat([m], ms, k);
      WithKeyConcat([ms[0]], ms[1..], k);
      assert ms == [ms[0]] + ms[1..];
      if SortKey(ms[0]) == k {
        assert SortKey(m) != k;
      }
    }
  }

  /** The sort orders by key and keeps mods with equal keys in their old order. */
  lemma {:induction false} SortStableSpec(ms: seq<Mod>)
    ensures SortedByKey(SortStable(ms))
    ensures forall k :: WithKey(SortStable(ms), k) == WithKey(ms, k)
  {
    if |ms| > 0 {
      SortStableSpec(ms[1..]);
      InsertSorted(ms[0], SortStable(ms[1..]));
      forall k
        ensures WithKey(SortStable(ms), k) == WithKey(ms, k)
      {
        InsertWithKey(ms[0], SortStable(ms[1..]), k);
        WithKeyConcat([ms[0]], SortStable(ms[1..]), k);
        WithKeyConcat([ms[0]], ms[1..], k);
        assert ms == [ms[0]] + ms[1..];
      }
    }
  }

  /** Give the mods slots 1, 2, … in order. */
  function Relabel(ms: seq<Mod>): (r: seq<Mod>)
    ensures |r| == |ms|
    ensures forall i :: 0 <= i < |ms| ==> r[i] == Mod(ms[i].path, Some(i + 1))
  {
    seq(|ms|, i requires 0 <= i < |ms| => Mod(ms[i].path, Some(i + 1)))
  }

  /** `remove_managed_mod`'s relabelling: drop the removed mod, sort the rest by
      their old slots, number them from 1. */
  function Renumber(mods: seq<Mod>, removed: string): seq<Mod> {
    Relabel(SortStable(Without(mods, removed)))
  }

  /** After a removal the survivors hold slots 1..n, the removed path is gone,
      every other mod keeps its place in the registry under a new slot, and
      the new order follows the old slots, ties kept in registry order. */
  lemma {:induction false} RenumberSpec(mods: seq<Mod>, removed: string)
    ensures var r := Renumber(mods, removed);
      var s := SortStable(Without(mods, removed));
      && |r| == |Without(mods, removed)|
      && (forall i :: 0 <= i < |r| ==> r[i].slot == Some(i + 1) && r[i].path == s[i].path && r[i].path != removed)
      && (forall m :: m in mods && m.path != removed ==> exists i :: 0 <= i < |r| && r[i].path == m.path)
      && SortedByKey(s)
      && (forall k :: WithKey(s, k) == WithKey(Without(mods, removed), k))
  {
    var w := Without(mods, removed);
    SortStableSpec(w);
    RelabelKeeps(w, SortStable(w), removed);
  }

  /** Relabelling a permutation of mods that avoid a path keeps every one of
      them and brings back none with that path. */
  lemma {:induction false} RelabelKeeps(w: seq<Mod>, s: seq<Mod>, removed: string)
    requires multiset(s) == multiset(w)
    requires forall i :: 0 <= i < |w| ==> w[i].path != removed
    ensures forall i :: 0 <= i < |s| ==> Relabel(s)[i].path != removed
    ensures forall m :: m in w ==> exists i :: 0 <= i < |s| && Relabel(s)[i].path == m.path
  {
    var r := Relabel(s);
    forall i | 0 <= i < |s|
      ensures r[i].path != removed
    {
      assert s[i] in multiset(w);
      assert s[i] in w;
    }
    forall m | m in w
      ensures exists i :: 0 <= i < |s| && r[i].path == m.path
    {
      assert m in multiset(s);
      var i :| 0 <= i < |s| && s[i] == m;
      assert r[i].path == m.path;
    }
  }
}
