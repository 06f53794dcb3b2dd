/** Options, and maps that a loop turns from one table into another, key by key. */
module Maps {
  datatype Option<+T> = None | Some(value: T)

  /** The target, except that the keys still to be visited have their old values. */
  function Overlay<K, V>(base: map<K, V>, rest: set<K>, target: map<K, V>): map<K, V> {
    map k | k in target :: if k in rest && k in base then base[k] else target[k]
  }

  lemma OverlayAll<K, V>(base: map<K, V>, target: map<K, V>)
    requires base.Keys == target.Keys
    ensures Overlay(base, base.Keys, target) == base
    ensures Overlay(base, {}, target) == target
  {
    assert Overlay(base, base.Keys, target).Keys == base.Keys;
  }

  lemma OverlayStep<K, V>(base: map<K, V>, rest: set<K>, target: map<K, V>, k: K)
    requires k in rest && k in base && k in target
    ensures Overlay(base, rest, target)[k] == base[k]
    ensures Overlay(base, rest - {k}, target) == Overlay(base, rest, target)[k := target[k]]
  {
  }

  /** The table filed under names; of entries with one name, some one is kept. */
  ghost predicate IsFiled<V>(names: map<string, string>, m: map<string, V>, out: map<string, V>) {
    && (forall t | t in m :: t in names && names[t] in out)
    && (forall n | n in out :: exists t :: t in m && t in names && names[t] == n && out[n] == m[t])
  }

  /** The table filed under different names. */
  ghost predicate IsRenamed<V>(names: map<string, string>, m: map<string, V>, out: map<string, V>) {
    && (forall t | t in m :: t in names && names[t] in out && out[names[t]] == m[t])
    && (forall n | n in out :: exists t :: t in m && t in names && names[t] == n)
  }

  ghost predicate InjectiveNames(names: map<string, string>) {
    forall t, u | t in names && u in names :: names[t] == names[u] ==> t == u
  }

  lemma FiledStep<V>(names: map<string, string>, m: map<string, V>, rest: set<string>, t: string, out: map<string, V>)
    requires IsFiled(names, m - rest, out) && t in rest && t in m && t in names
    ensures IsFiled(names, m - (rest - {t}), out[names[t] := m[t]])
  {
    var m', out' := m - (rest - {t}), out[names[t] := m[t]];
    forall u | u in m' ensures u in names && names[u] in out' {
      if u != t {
        assert u in m - rest;
      }
    }
    forall n | n in out' ensures exists u :: u in m' && u in names && names[u] == n && out'[n] == m'[u] {
      if n == names[t] {
        assert t in m' && out'[n] == m'[t];
      } else {
        var u :| u in m - rest && u in names && names[u] == n && out[n] == (m - rest)[u];
        assert u in m' && m'[u] == m[u];
      }
    }
  }

  lemma FiledSize<V>(names: map<string, string>, m: map<string, V>, out: map<string, V>)
    requires IsFiled(names, m - {}, out)
    ensures IsFiled(names, m, out) && (|out| < 1 <==> m == map[])
  {
    assert m - {} == m;
    if t :| t in m {
      assert names[t] in out;
    }
  }

  /** Filed under names that are those of another table, all different. */
  lemma FiledRenamed<V>(
    names: map<string, string>, others: map<string, string>, m: map<string, V>, out: map<string, V>)
    requires InjectiveNames(others) && forall t | t in m :: t in names && t in others && names[t] == others[t]
    ensures IsFiled(names, m, out) <==> IsRenamed(others, m, out)
  {
    if IsFiled(names, m, out) {
      forall t | t in m ensures out[names[t]] == m[t] {
        var u :| u in m && u in names && names[u] == names[t] && out[names[t]] == m[u];
        assert others[u] == others[t];
      }
    }
    if IsRenamed(others, m, out) {
      forall n | n in out ensures exists t :: t in m && t in names && names[t] == n && out[n] == m[t] {
        var t :| t in m && t in others && others[t] == n;
        assert names[t] == n && out[n] == m[t];
      }
    }
  }

  lemma SameMaps<K, V>(m: map<K, V>, n: map<K, V>)
    requires forall k | k in m :: k in n && m[k] == n[k]
    requires forall k | k in n :: k in m
    ensures m == n
  {
  }
}
