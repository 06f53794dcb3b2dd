/**
 The client's table of permissions, and the applet's mirror of it that follows change signals
 (libbm-glib/bm-client.c and the applet's src/applet.c).
 */
module Permissions {
  import opened Maps

  // BMClientPermission
  const NONE := 0
  const ENABLE_DISABLE_NETWORK := 1
  const ENABLE_DISABLE_WIFI := 2
  const ENABLE_DISABLE_WWAN := 3
  const USE_USER_CONNECTIONS := 4
  const LAST := USE_USER_CONNECTIONS

  // BMClientPermissionResult
  const UNKNOWN := 0
  const YES := 1
  const AUTH := 2
  const NO := 3

  const NETWORK_NAME := "org.freedesktop.BarcodeManager.enable-disable-network"
  const USER_CONNECTIONS_NAME := "org.freedesktop.BarcodeManager.use-user-connections"

  type Table = map<nat, nat>

  datatype Signal = Changed(permission: nat, result: nat)

  /** bm_permission_to_client */
  function ToPermission(name: string): nat {
    if name == NETWORK_NAME then ENABLE_DISABLE_NETWORK
    else if name == USER_CONNECTIONS_NAME then USE_USER_CONNECTIONS
    else NONE
  }

  /** bm_permission_result_to_client */
  function ToResult(name: string): nat {
    if name == "yes" then YES else if name == "no" then NO else if name == "auth" then AUTH else UNKNOWN
  }

  /** bm_client_get_permission_result */
  function Lookup(t: Table, p: nat): nat {
    if p in t then t[p] else UNKNOWN
  }

  /** What the daemon's answer says about the permissions that the client knows by name. */
  ghost predicate IsReceived(answer: map<string, string>, t: Table) {
    && (forall p :: p in t <==> p != NONE && exists name :: name in answer && ToPermission(name) == p)
    && (forall name | name in answer && ToPermission(name) != NONE :: t[ToPermission(name)] == ToResult(answer[name]))
  }

  /** No answer, or an error instead of one, leaves an empty table. */
  ghost predicate IsTableOf(answer: Option<map<string, string>>, t: Table) {
    if answer.None? then t == map[] else IsReceived(answer.value, t)
  }

  /** What the table says of a permission if the answer has its name. */
  ghost predicate Reads(answer: map<string, string>, t: Table, name: string, p: nat) {
    && (p in t <==> name in answer)
    && (name in answer ==>
          && (answer[name] == "yes" ==> t[p] == 1) && (answer[name] == "auth" ==> t[p] == 2)
          && (answer[name] == "no" ==> t[p] == 3)
          && (answer[name] != "yes" && answer[name] != "auth" && answer[name] != "no" ==> t[p] == 0))
  }

  ghost predicate ReadsBoth(answer: map<string, string>, t: Table) {
    && Reads(answer, t, "org.freedesktop.BarcodeManager.enable-disable-network", 1)
    && Reads(answer, t, "org.freedesktop.BarcodeManager.use-user-connections", 4)
    && t.Keys <= {1, 4}
  }

  /** The answer's two names are permissions 1 and 4, its words are results 1, 2 and 3, and others are unknown. */
  lemma ReceivedReads(answer: map<string, string>, t: Table)
    requires IsReceived(answer, t)
    ensures ReadsBoth(answer, t)
  {
    assert |NETWORK_NAME| != |USER_CONNECTIONS_NAME|;
    assert ToPermission(NETWORK_NAME) == 1 && ToPermission(USER_CONNECTIONS_NAME) == 4;
    assert |"yes"| == 3 && |"auth"| == 4 && |"no"| == 2;
  }

  // ---------- Mirrors ----------

  /** foo_manager_permission_changed, for one signal after another. */
  function Applied(mirror: seq<nat>, signals: seq<Signal>): (r: seq<nat>)
    ensures |r| == |mirror|
  {
    if signals == [] then mirror
    else
      var before, last := Applied(mirror, signals[..|signals| - 1]), signals[|signals| - 1];
      if last.permission < |before| then before[last.permission := last.result] else before
  }

  /** The mirror has an entry for each permission, and the table's result for all but the none value. */
  ghost predicate Agrees(mirror: seq<nat>, t: Table) {
    |mirror| == LAST + 1 && forall p | NONE < p <= LAST :: mirror[p] == Lookup(t, p)
  }

  /** Every signal tells what the table says. */
  ghost predicate Truthful(signals: seq<Signal>, t: Table) {
    forall s | s in signals :: s.result == Lookup(t, s.permission)
  }

  ghost predicate Signalled(signals: seq<Signal>, p: nat) {
    exists s :: s in signals && s.permission == p
  }

  lemma {:induction false} AppliedAt(mirror: seq<nat>, signals: seq<Signal>, t: Table, p: nat)
    requires Truthful(signals, t) && p < |mirror|
    ensures Applied(mirror, signals)[p] == if Signalled(signals, p) then Lookup(t, p) else mirror[p]
  {
    if signals != [] {
      var n := |signals| - 1;
      AppliedAt(mirror, signals[..n], t, p);
      assert signals[n] in signals;
      if Signalled(signals[..n], p) {
        var s :| s in signals[..n] && s.permission == p;
        assert s in signals;
      } else if Signalled(signals, p) {
        var s :| s in signals && s.permission == p;
        assert s == signals[n];
      }
    }
  }

  /** Truthful signals bring a mirror up to date iff there is one for every permission whose result has changed. */
  lemma MirrorIff(mirror: seq<nat>, before: Table, after: Table, signals: seq<Signal>)
    requires Agrees(mirror, before) && Truthful(signals, after)
    ensures Agrees(Applied(mirror, signals), after) <==>
            forall p | NONE < p <= LAST && Lookup(before, p) != Lookup(after, p) :: Signalled(signals, p)
  {
    forall p | NONE < p <= LAST
      ensures Applied(mirror, signals)[p] == if Signalled(signals, p) then Lookup(after, p) else mirror[p]
    {
      AppliedAt(mirror, signals, after, p);
    }
  }

  /** One signal for each permission of either table, in any order. */
  ghost predicate IsChange(before: Table, after: Table, signals: seq<Signal>) {
    && Truthful(signals, after)
    && (forall p :: Signalled(signals, p) <==> p in before || p in after)
    && (forall i, j | 0 <= i < j < |signals| :: signals[i].permission != signals[j].permission)
  }

  /** A mirror that follows the signals of every update agrees with the table after every update. */
  lemma {:induction false} RunAgrees(mirror: seq<nat>, tables: seq<Table>, batches: seq<seq<Signal>>, n: nat)
    requires |tables| == |batches| + 1 && n <= |batches|
    requires Agrees(mirror, tables[0])
    requires forall i | 0 <= i < |batches| :: IsChange(tables[i], tables[i + 1], batches[i])
    ensures Agrees(AppliedAll(mirror, batches[..n]), tables[n])
  {
    if n > 0 {
      RunAgrees(mirror, tables, batches, n - 1);
      var so := AppliedAll(mirror, batches[..n - 1]);
      assert batches[..n][..n - 1] == batches[..n - 1];
      MirrorIff(so, tables[n - 1], tables[n], batches[n - 1]);
    }
  }

  function AppliedAll(mirror: seq<nat>, batches: seq<seq<Signal>>): seq<nat>
    decreases |batches|
  {
    if batches == [] then mirror else Applied(AppliedAll(mirror, batches[..|batches| - 1]), batches[|batches| - 1])
  }

  // ---------- The code ----------

  class Applet {
    const permissions: array<nat>

    /** A new applet's memory is zero. */
    constructor ()
      ensures fresh(permissions) && permissions[..] == [UNKNOWN, UNKNOWN, UNKNOWN, UNKNOWN, UNKNOWN]
    {
      permissions := new nat[LAST + 1](i => UNKNOWN);
    }

    /** foo_manager_permission_changed */
    method OnPermissionChanged(permission: nat, result: nat)
      requires permissions.Length == LAST + 1
      modifies permissions
      ensures permissions[..] == Applied(old(permissions[..]), [Changed(permission, result)])
    {
      assert [Changed(permission, result)][..0] == [];
      assert Applied(permissions[..], []) == permissions[..];
      if permission <= LAST {
        permissions[permission] := result;
      }
    }
  }

  lemma {:induction false} AppliedMore(mirror: seq<nat>, signals: seq<Signal>, more: seq<Signal>)
    ensures Applied(mirror, signals + more) == Applied(Applied(mirror, signals), more)
  {
    if more == [] {
      assert signals + more == signals;
    } else {
      AppliedMore(mirror, signals, more[..|more| - 1]);
      assert (signals + more)[..|signals + more| - 1] == signals + more[..|more| - 1];
    }
  }

  class Client {
    var permissions: Table
    var applet: Applet?

    /** A client has no handlers when its constructor fetches the permissions. */
    constructor (answer: Option<map<string, string>>)
      ensures applet == null && IsTableOf(answer, permissions)
    {
      permissions, applet := map[], null;
      new;
      var signals := UpdatePermissions(answer);
    }

    method GetPermissionResult(permission: nat) returns (result: nat)
      ensures result == Lookup(permissions, permission)
    {
      result := if permission in permissions then permissions[permission] else UNKNOWN;
    }

    /** The loop over the daemon's answer: `keys` loses the permissions that are still known. */
    method Process(answer: map<string, string>, keys0: set<nat>) returns (keys: set<nat>)
      requires permissions == map[]
      modifies this`permissions
      ensures IsReceived(answer, permissions) && keys == keys0 - permissions.Keys
    {
      keys := keys0;
      var rest := answer.Keys;
      while rest != {}
        invariant rest <= answer.Keys && keys == keys0 - permissions.Keys
        invariant IsReceived(answer - rest, permissions)
        decreases rest
      {
        var name :| name in rest;
        var perm, result := ToPermission(name), ToResult(answer[name]);
        ReceivedStep(answer, rest, name, permissions);
        rest := rest - {name};
        if perm != NONE {
          permissions := permissions[perm := result];
          keys := keys - {perm};
        }
      }
      assert answer - {} == answer;
    }

    /** g_signal_emit, with the applet as the only handler. */
    method EmitChanged(permission: nat, result: nat, emitted0: seq<Signal>, ghost mirror: seq<nat>)
      returns (emitted: seq<Signal>)
      requires applet != null ==>
                 applet.permissions.Length == LAST + 1 && applet.permissions[..] == Applied(mirror, emitted0)
      modifies if applet == null then {} else {applet.permissions}
      ensures emitted == emitted0 + [Changed(permission, result)]
      ensures applet != null ==> applet.permissions[..] == Applied(mirror, emitted)
    {
      emitted := emitted0 + [Changed(permission, result)];
      AppliedMore(mirror, emitted0, [Changed(permission, result)]);
      if applet != null {
        applet.OnPermissionChanged(permission, result);
      }
    }

    /** Signals for a set of permissions, in any order. */
    method EmitAll(perms: set<nat>, emitted0: seq<Signal>, ghost mirror: seq<nat>) returns (emitted: seq<Signal>)
      requires applet != null ==>
                 applet.permissions.Length == LAST + 1 && applet.permissions[..] == Applied(mirror, emitted0)
      requires Emitted(emitted0, permissions) && forall p | p in perms :: !Signalled(emitted0, p)
      modifies if applet == null then {} else {applet.permissions}
      ensures Emitted(emitted, permissions)
      ensures forall p :: Signalled(emitted, p) <==> Signalled(emitted0, p) || p in perms
      ensures applet != null ==> applet.permissions[..] == Applied(mirror, emitted)
    {
      emitted := emitted0;
      var rest := perms;
      while rest != {}
        invariant rest <= perms && Emitted(emitted, permissions)
        invariant forall p :: Signalled(emitted, p) <==> Signalled(emitted0, p) || p in perms - rest
        invariant applet != null ==> applet.permissions[..] == Applied(mirror, emitted)
        decreases rest
      {
        var p :| p in rest;
        rest := rest - {p};
        var result := GetPermissionResult(p);
        EmittedMore(emitted, permissions, p);
        emitted := EmitChanged(p, result, emitted, mirror);
      }
    }

    /**
     update_permissions: first the permissions in the new table are signalled, then those that
     have gone, whose result is unknown.
     */
    method UpdatePermissions(answer: Option<map<string, string>>) returns (ghost emitted: seq<Signal>)
      requires applet != null ==> applet.permissions.Length == LAST + 1
      modifies this`permissions, if applet == null then {} else {applet.permissions}
      ensures IsTableOf(answer, permissions)
      ensures if answer.Some? then ReadsBoth(answer.value, permissions) else permissions == map[]
      ensures IsChange(old(permissions), permissions, emitted)
      ensures forall s | s in emitted ::
                s.result == if s.permission in permissions then permissions[s.permission] else 0
      ensures applet != null ==> applet.permissions[..] == Applied(old(applet.permissions[..]), emitted)
      ensures applet != null && Agrees(old(applet.permissions[..]), old(permissions)) ==>
                Agrees(applet.permissions[..], permissions)
    {
      ghost var before := permissions;
      ghost var mirror := if applet == null then [] else applet.permissions[..];
      var keys := permissions.Keys;
      permissions := map[];
      if answer.Some? {
        keys := Process(answer.value, keys);
        ReceivedReads(answer.value, permissions);
      }
      var signals := EmitAll(permissions.Keys, [], mirror);
      signals := EmitAll(keys, signals, mirror);
      emitted := signals;
      if applet != null && Agrees(mirror, before) {
        MirrorIff(mirror, before, permissions, emitted);
      }
    }

    /** foo_client_setup: the applet's handler is connected, and the results so far are copied. */
    method Setup(a: Applet)
      requires a.permissions.Length == LAST + 1
      modifies this`applet, a.permissions
      ensures applet == a && Agrees(a.permissions[..], permissions)
    {
      applet := a;
      var network := GetPermissionResult(ENABLE_DISABLE_NETWORK);
      a.permissions[ENABLE_DISABLE_NETWORK] := network;
      var wifi := GetPermissionResult(ENABLE_DISABLE_WIFI);
      a.permissions[ENABLE_DISABLE_WIFI] := wifi;
      var wwan := GetPermissionResult(ENABLE_DISABLE_WWAN);
      a.permissions[ENABLE_DISABLE_WWAN] := wwan;
      var user := GetPermissionResult(USE_USER_CONNECTIONS);
      a.permissions[USE_USER_CONNECTIONS] := user;
    }
  }

  lemma ReceivedStep(answer: map<string, string>, rest: set<string>, name: string, t: Table)
    requires name in rest && name in answer && IsReceived(answer - rest, t)
    ensures IsReceived(answer - (rest - {name}),
                       if ToPermission(name) == NONE then t else t[ToPermission(name) := ToResult(answer[name])])
  {
    var so, more := answer - rest, answer - (rest - {name});
    assert more.Keys == so.Keys + {name};
    var t' := if ToPermission(name) == NONE then t else t[ToPermission(name) := ToResult(answer[name])];
    forall p ensures p in t' <==> p != NONE && exists n :: n in more && ToPermission(n) == p {
      if p in t' && p in t {
        var n :| n in so && ToPermission(n) == p;
        assert n in more;
      } else if p in t' {
        assert name in more;
      }
    }
  }

  /** Signals emitted so far: truthful, and no two for one permission. */
  ghost predicate Emitted(signals: seq<Signal>, t: Table) {
    && Truthful(signals, t)
    && forall i, j | 0 <= i < j < |signals| :: signals[i].permission != signals[j].permission
  }

  lemma EmittedMore(signals: seq<Signal>, t: Table, p: nat)
    requires Emitted(signals, t) && !Signalled(signals, p)
    ensures var more := signals + [Changed(p, Lookup(t, p))];
            Emitted(more, t) && forall q :: Signalled(more, q) <==> Signalled(signals, q) || q == p
  {
    var s := Changed(p, Lookup(t, p));
    var more := signals + [s];
    assert more[|signals|] == s;
    forall q ensures Signalled(more, q) <==> Signalled(signals, q) || q == p {
      if Signalled(signals, q) {
        var r :| r in signals && r.permission == q;
        assert r in more;
      }
    }
  }

  /** From the construction of the client on, through any updates after the applet has been set up. */
  method Run(first: Option<map<string, string>>, updates: seq<Option<map<string, string>>>)
    returns (client: Client, applet: Applet)
    ensures client.applet == applet && Agrees(applet.permissions[..], client.permissions)
    ensures IsTableOf(if updates == [] then first else updates[|updates| - 1], client.permissions)
  {
    client := new Client(first);
    applet := new Applet();
    client.Setup(applet);
    var i := 0;
    while i < |updates|
      invariant 0 <= i <= |updates| && client.applet == applet
      invariant fresh(client) && fresh(applet) && fresh(applet.permissions)
      invariant Agrees(applet.permissions[..], client.permissions)
      invariant IsTableOf(if i == 0 then first else updates[i - 1], client.permissions)
    {
      var emitted := client.UpdatePermissions(updates[i]);
      i := i + 1;
    }
  }
}
