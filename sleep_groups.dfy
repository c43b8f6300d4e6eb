/**
 * The `_sleep_groups` table of main.py: a Python dict from group id to a flag
 * meaning "only admins are listened to in this group". A Python dict remembers
 * insertion order, and the list command reports groups in that order, so the
 * table keeps its keys as a sequence next to the map of flags.
 */
module SleepGroups {

  /** `keys`: the dict's keys in insertion order; `flags`: its entries. */
  datatype Dict = Dict(keys: seq<string>, flags: map<string, bool>)

  ghost predicate NoDuplicates(s: seq<string>) {
    forall i, j :: 0 <= i < j < |s| ==> s[i] != s[j]
  }

  /** Every key is listed once, and the listed keys are exactly the entries. */
  ghost predicate WellFormed(d: Dict) {
    && NoDuplicates(d.keys)
    && forall k :: k in d.flags <==> k in d.keys
  }

  type Table = d: Dict | WellFormed(d) witness Dict([], map[])

  /** `{}`: no group is restricted. */
  function Empty(): (t: Table)
    ensures forall g :: !IsSleepGroup(t, g)
    ensures t.keys == []
  {
    Dict([], map[])
  }

  /** `_is_sleep_group`, i.e. `self._sleep_groups.get(group_id, False)`. */
  function IsSleepGroup(t: Table, g: string): (on: bool)
    ensures on ==> g in t.keys
    ensures g in t.flags ==> on == t.flags[g]
  {
    if g in t.flags then t.flags[g] else false
  }

  /**
   * `t[g] = v` on a dict: the flag of g becomes v, every other entry stays,
   * an existing key keeps its place and a new key goes last.
   */
  function Put(t: Table, g: string, v: bool): (r: Table)
    ensures g in r.flags && r.flags[g] == v
    ensures IsSleepGroup(r, g) == v
    ensures forall k :: k != g ==> (k in r.flags <==> k in t.flags)
    ensures forall k :: k != g && k in t.flags ==> r.flags[k] == t.flags[k]
    ensures forall k :: k != g ==> IsSleepGroup(r, k) == IsSleepGroup(t, k)
    ensures r.keys == t.keys || (g !in t.keys && r.keys == t.keys + [g])
  {
    if g in t.flags then
      Dict(t.keys, t.flags[g := v])
    else
      assert g !in t.keys;
      Dict(t.keys + [g], t.flags[g := v])
  }

  /** The flag of `g` in `flags`, absent meaning false. */
  predicate On(flags: map<string, bool>, g: string) {
    g in flags && flags[g]
  }

  /**
   * The comprehension `[gid for gid, status in d.items() if status]`, taken
   * over the keys `ks` in order.
   */
  function OnKeys(ks: seq<string>, flags: map<string, bool>): (ids: seq<string>)
    ensures |ids| <= |ks|
    ensures forall x :: x in ids ==> x in ks && On(flags, x)
  {
    if ks == [] then []
    else
      var last := ks[|ks| - 1];
      OnKeys(ks[..|ks| - 1], flags) + (if On(flags, last) then [last] else [])
  }

  /** The restricted groups of `t`, in the table's order. */
  function SleepGroupIds(t: Table): (ids: seq<string>)
    ensures |ids| <= |t.keys|
    ensures forall g :: g in ids ==> IsSleepGroup(t, g)
  {
    OnKeys(t.keys, t.flags)
  }

  lemma {:induction false} OnKeysComplete(ks: seq<string>, flags: map<string, bool>, x: string)
    requires x in ks && On(flags, x)
    ensures x in OnKeys(ks, flags)
  {
    var n := |ks| - 1;
    if ks[n] != x {
      assert x in ks[..n] by {
        var i :| 0 <= i < |ks| && ks[i] == x;
        assert ks[..n][i] == x;
      }
      OnKeysComplete(ks[..n], flags, x);
    }
  }

  lemma {:induction false} OnKeysNoDuplicates(ks: seq<string>, flags: map<string, bool>)
    requires NoDuplicates(ks)
    ensures NoDuplicates(OnKeys(ks, flags))
  {
    if ks != [] {
      var n := |ks| - 1;
      var front := ks[..n];
      assert NoDuplicates(front) by {
        forall i, j | 0 <= i < j < |front| ensures front[i] != front[j] {
          assert front[i] == ks[i] && front[j] == ks[j];
        }
      }
      OnKeysNoDuplicates(front, flags);
      assert ks[n] !in front by {
        forall i | 0 <= i < |front| ensures front[i] != ks[n] {
          assert front[i] == ks[i];
        }
      }
    }
  }

  /** Filtering a concatenation: the groups of earlier keys come first. */
  lemma {:induction false} OnKeysAppend(a: seq<string>, b: seq<string>, flags: map<string, bool>)
    ensures OnKeys(a + b, flags) == OnKeys(a, flags) + OnKeys(b, flags)
  {
    if b == [] {
      assert a + b == a;
    } else {
      var n := |b| - 1;
      assert (a + b)[..|a + b| - 1] == a + b[..n];
      OnKeysAppend(a, b[..n], flags);
    }
  }

  /** Flags that agree on the keys give the same listing. */
  lemma {:induction false} OnKeysAgree(ks: seq<string>, f1: map<string, bool>, f2: map<string, bool>)
    requires forall k :: k in ks ==> On(f1, k) == On(f2, k)
    ensures OnKeys(ks, f1) == OnKeys(ks, f2)
  {
    if ks != [] {
      var n := |ks| - 1;
      forall k | k in ks[..n] ensures On(f1, k) == On(f2, k) {
        var i :| 0 <= i < n && ks[..n][i] == k;
        assert ks[i] == k;
      }
      OnKeysAgree(ks[..n], f1, f2);
    }
  }

  /**
   * The listing holds exactly the restricted groups, each once, and is empty
   * exactly when no group is restricted.
   */
  lemma SleepGroupIdsExactly(t: Table)
    ensures forall g :: g in SleepGroupIds(t) <==> IsSleepGroup(t, g)
    ensures NoDuplicates(SleepGroupIds(t))
    ensures SleepGroupIds(t) == [] <==> forall g :: !IsSleepGroup(t, g)
  {
    forall g | IsSleepGroup(t, g) ensures g in SleepGroupIds(t) {
      OnKeysComplete(t.keys, t.flags, g);
    }
    OnKeysNoDuplicates(t.keys, t.flags);
    if SleepGroupIds(t) != [] {
      assert SleepGroupIds(t)[0] in SleepGroupIds(t);
    }
  }

  /** Restricting a group the table has never held appends it to the listing. */
  lemma PutNewGroupAppends(t: Table, g: string)
    requires g !in t.keys
    ensures SleepGroupIds(Put(t, g, true)) == SleepGroupIds(t) + [g]
  {
    var r := Put(t, g, true);
    OnKeysAppend(t.keys, [g], r.flags);
    OnKeysAgree(t.keys, r.flags, t.flags);
    assert OnKeys([g], r.flags) == [g] by {
      assert [g][..0] == [];
    }
  }

  /** Setting a flag on a group already in the table leaves the order of the others alone. */
  lemma PutExistingGroupKeepsOthers(t: Table, g: string, v: bool)
    requires g in t.keys
    ensures forall k :: k != g ==> (k in SleepGroupIds(Put(t, g, v)) <==> k in SleepGroupIds(t))
    ensures Put(t, g, v).keys == t.keys
  {
    SleepGroupIdsExactly(t);
    SleepGroupIdsExactly(Put(t, g, v));
  }

  /** The listing of keys split around one key g. */
  lemma OnKeysAround(before: seq<string>, g: string, after: seq<string>, flags: map<string, bool>)
    ensures OnKeys(before + [g] + after, flags) ==
      OnKeys(before, flags) + (if On(flags, g) then [g] else []) + OnKeys(after, flags)
  {
    OnKeysAppend(before, [g], flags);
    OnKeysAppend(before + [g], after, flags);
    assert [g][..0] == [];
  }

  /**
   * Setting the flag of a key already present changes only that key's slot in
   * the listing: with the keys split around g, the groups before and after g
   * are listed as before, and g is listed in its own place exactly when v is
   * true. For `v == false` this is the old listing with g taken out.
   */
  lemma PutExistingGroupInPlace(t: Table, g: string, v: bool, before: seq<string>, after: seq<string>)
    requires t.keys == before + [g] + after
    ensures SleepGroupIds(t) ==
      OnKeys(before, t.flags) + (if IsSleepGroup(t, g) then [g] else []) + OnKeys(after, t.flags)
    ensures SleepGroupIds(Put(t, g, v)) ==
      OnKeys(before, t.flags) + (if v then [g] else []) + OnKeys(after, t.flags)
  {
    var r := Put(t, g, v);
    assert r.keys == t.keys;
    assert g !in before && g !in after by {
      forall k | k in before || k in after ensures k != g {
        var i :| (0 <= i < |before| && before[i] == k) || (0 <= i < |after| && after[i] == k);
        if 0 <= i < |before| && before[i] == k {
          assert t.keys[i] == k;
        } else {
          assert t.keys[|before| + 1 + i] == k;
        }
        assert t.keys[|before|] == g;
      }
    }
    OnKeysAround(before, g, after, t.flags);
    OnKeysAround(before, g, after, r.flags);
    OnKeysAgree(before, r.flags, t.flags);
    OnKeysAgree(after, r.flags, t.flags);
  }
}
