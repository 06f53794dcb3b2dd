/** bm_connection_need_secrets: asking the settings in priority order (libbm-util/bm-connection.c). */
module NeedSecrets {
  import opened Maps
  import opened GValues
  import opened Settings
  import opened SettingObjects
  import opened ConnectionObjects

  /** setting_priority_compare is not positive. */
  predicate NotAfter(s: Setting, t: Setting) {
    s.cls.priority <= t.cls.priority
  }

  /** g_slist_insert_sorted: before the first entry that the new one does not come after. */
  function InsertSorted(list: seq<Setting>, s: Setting): seq<Setting> {
    if list == [] || NotAfter(s, list[0]) then [s] + list else [list[0]] + InsertSorted(list[1..], s)
  }

  ghost predicate Sorted(list: seq<Setting>) {
    forall i, j | 0 <= i < j < |list| :: NotAfter(list[i], list[j])
  }

  lemma {:induction false} InsertKeepsElements(list: seq<Setting>, s: Setting)
    ensures multiset(InsertSorted(list, s)) == multiset(list) + multiset{s}
  {
    if list != [] && !NotAfter(s, list[0]) {
      assert list == [list[0]] + list[1..];
      InsertKeepsElements(list[1..], s);
    }
  }

  lemma {:induction false} InsertKeepsSorted(list: seq<Setting>, s: Setting)
    requires Sorted(list)
    ensures Sorted(InsertSorted(list, s))
  {
    if list != [] && !NotAfter(s, list[0]) {
      InsertKeepsSorted(list[1..], s);
      InsertKeepsElements(list[1..], s);
      var tail := InsertSorted(list[1..], s);
      forall i | 0 <= i < |tail| ensures NotAfter(list[0], tail[i]) {
        assert tail[i] in multiset(tail);
        if tail[i] != s {
          assert tail[i] in multiset(list[1..]);
          var j :| 0 <= j < |list| - 1 && list[1..][j] == tail[i];
        }
      }
    }
  }

  /** The list holds each setting of the connection whose type is not in rest once, and no others. */
  ghost predicate Lists(conn: Connection, rest: set<string>, list: seq<Setting>)
    reads conn
  {
    && (forall t | t in conn.settings :: multiset(list)[conn.settings[t]] == if t in rest then 0 else 1)
    && (forall i | 0 <= i < |list| :: exists t :: t in conn.settings && conn.settings[t] == list[i])
  }

  lemma ListsStep(conn: Connection, rest: set<string>, list: seq<Setting>, t: string)
    requires Lists(conn, rest, list) && t in rest && t in conn.settings
    requires forall u | u in conn.settings && u != t :: conn.settings[u] != conn.settings[t]
    ensures Lists(conn, rest - {t}, InsertSorted(list, conn.settings[t]))
  {
    var more := InsertSorted(list, conn.settings[t]);
    InsertKeepsElements(list, conn.settings[t]);
    forall i | 0 <= i < |more| ensures exists u :: u in conn.settings && conn.settings[u] == more[i] {
      assert more[i] in multiset(more);
      if more[i] != conn.settings[t] {
        assert more[i] in multiset(list);
        var j :| 0 <= j < |list| && list[j] == more[i];
      }
    }
  }

  /** add_setting_to_list for every setting, in any order. */
  method SettingsByPriority(reg: Registry, conn: Connection) returns (list: seq<Setting>)
    requires conn.Valid(reg)
    ensures Sorted(list) && Lists(conn, {}, list)
  {
    list := [];
    var rest := conn.settings.Keys;
    while rest != {}
      invariant rest <= conn.settings.Keys && Sorted(list) && Lists(conn, rest, list)
      decreases rest
    {
      var t :| t in rest;
      InsertKeepsSorted(list, conn.settings[t]);
      assert forall u | u in conn.settings && u != t :: conn.settings[u].cls.typeName != t;
      ListsStep(conn, rest, list, t);
      rest := rest - {t};
      list := InsertSorted(list, conn.settings[t]);
    }
  }

  /** The type needs the hinted secrets, and no type with a lower priority number needs any. */
  ghost predicate FirstInNeed(reg: Registry, c: ConnVal, t: string, hints: seq<string>) {
    && t in c && t in reg.classes && NAME in c[t] && reg.classes[t].needSecrets(c[t]) == Some(hints)
    && forall u | u in c && u in reg.classes && reg.classes[u].needSecrets(c[u]).Some? ::
         reg.classes[t].priority <= reg.classes[u].priority
  }

  /** The loop over the list, up to the first setting that asks for secrets. */
  method FirstAsking(list: seq<Setting>) returns (i: nat, hints: seq<string>)
    ensures i <= |list| && forall j | 0 <= j < i :: list[j].cls.needSecrets(list[j].values).None?
    ensures i < |list| ==> list[i].cls.needSecrets(list[i].values) == Some(hints)
  {
    i, hints := 0, [];
    while i < |list|
      invariant 0 <= i <= |list|
      invariant forall j | 0 <= j < i :: list[j].cls.needSecrets(list[j].values).None?
    {
      var secrets := list[i].cls.needSecrets(list[i].values);
      if secrets.Some? {
        hints := secrets.value;
        return;
      }
      i := i + 1;
    }
  }

  /** bm_connection_need_secrets */
  method Ask(reg: Registry, conn: Connection) returns (name: Option<string>, hints: seq<string>)
    requires conn.Valid(reg)
    ensures name.None? ==> forall t | t in conn.val && t in reg.classes :: reg.classes[t].needSecrets(conn.val[t]).None?
    ensures name.Some? ==>
              exists t :: FirstInNeed(reg, conn.val, t, hints) && conn.val[t][NAME] == Str(name.value)
  {
    var list := SettingsByPriority(reg, conn);
    var i;
    i, hints := FirstAsking(list);
    if i < |list| {
      FoundFirst(reg, conn, list, i, hints);
      name := Some(list[i].Name());
    } else {
      NoneInNeed(reg, conn, list);
      name := None;
    }
  }

  lemma NoneInNeed(reg: Registry, conn: Connection, list: seq<Setting>)
    requires conn.Valid(reg) && Lists(conn, {}, list)
    requires forall j | 0 <= j < |list| :: list[j].cls.needSecrets(list[j].values).None?
    ensures forall t | t in conn.val && t in reg.classes :: reg.classes[t].needSecrets(conn.val[t]).None?
  {
    forall t | t in conn.val ensures reg.classes[t].needSecrets(conn.val[t]).None? {
      assert conn.settings[t] in multiset(list);
    }
  }

  lemma FoundFirst(reg: Registry, conn: Connection, list: seq<Setting>, i: nat, hints: seq<string>)
    requires conn.Valid(reg) && i < |list| && Sorted(list)
    requires Lists(conn, {}, list)
    requires forall j | 0 <= j < i :: list[j].cls.needSecrets(list[j].values).None?
    requires list[i].cls.needSecrets(list[i].values) == Some(hints)
    ensures HasName(list[i].values)
    ensures exists t :: FirstInNeed(reg, conn.val, t, hints) && conn.val[t][NAME] == list[i].values[NAME]
  {
    var t :| t in conn.settings && conn.settings[t] == list[i];
    assert HasNameAt(conn.val, t);
    forall u | u in conn.val && reg.classes[u].needSecrets(conn.val[u]).Some?
      ensures reg.classes[t].priority <= reg.classes[u].priority
    {
      assert conn.settings[u] in multiset(list);
      var j :| 0 <= j < |list| && list[j] == conn.settings[u];
      assert i == j || NotAfter(list[i], list[j]);
    }
    assert FirstInNeed(reg, conn.val, t, hints);
  }

  /** With distinct priorities the answer does not depend on the order of the table. */
  lemma OneAnswer(reg: Registry, c: ConnVal, t: string, hints: seq<string>, u: string, other: seq<string>)
    requires forall v, w | v in reg.classes && w in reg.classes && v != w ::
               reg.classes[v].priority != reg.classes[w].priority
    requires FirstInNeed(reg, c, t, hints) && FirstInNeed(reg, c, u, other)
    ensures t == u && hints == other
  {
    assert reg.classes[t].priority == reg.classes[u].priority;
  }
}
