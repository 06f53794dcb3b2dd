/** BMConnection objects: a table of settings changed in place (libbm-util/bm-connection.c). */
module ConnectionObjects {
  import opened Maps
  import opened Diffs
  import opened GValues
  import opened Settings
  import opened SettingsProofs
  import opened SettingObjects

  class Connection {
    var settings: map<string, Setting>
    var scope: nat
    var path: Option<string>
    ghost var val: ConnVal
    ghost var Repr: set<Setting>

    /**
     Settings are filed under their own type's name, so no two entries share an object. They hold
     what properties may hold, and no name is NULL.
     */
    ghost predicate Valid(reg: Registry)
      reads this, Repr
    {
      && settings.Keys == val.Keys && ValidConn(reg, val) && HasNames(val)
      && forall t | t in settings ::
           && settings[t] in Repr && settings[t].cls == reg.classes[t]
           && settings[t].cls.typeName == t && settings[t].values == val[t]
    }

    /** bm_connection_new */
    constructor ()
      ensures settings == map[] && scope == 0 && path == None && val == map[] && Repr == {}
    {
      settings, scope, path := map[], 0, None;
      val, Repr := map[], {};
    }

    /** A connection with the given settings, whose values are the given ones. */
    constructor With(
      reg: Registry, settings: map<string, Setting>, ghost val: ConnVal, scope: nat, path: Option<string>)
      requires settings.Keys == val.Keys && ValidConn(reg, val) && HasNames(val)
      requires forall t | t in settings ::
                 && settings[t].cls == reg.classes[t] && settings[t].cls.typeName == t
                 && settings[t].values == val[t]
      ensures this.settings == settings && this.val == val && this.scope == scope && this.path == path
      ensures Repr == set t | t in settings :: settings[t]
      ensures Valid(reg)
    {
      this.settings, this.val, this.scope, this.path := settings, val, scope, path;
      Repr := set t | t in settings :: settings[t];
    }

    /** bm_connection_add_setting */
    method AddSetting(reg: Registry, setting: Setting)
      requires Valid(reg) && ValidValues(setting.cls, setting.values) && HasName(setting.values)
      requires var t := setting.cls.typeName; t in reg.classes && reg.classes[t] == setting.cls
      modifies this`settings, this`val, this`Repr
      ensures settings == old(settings)[setting.cls.typeName := setting]
      ensures Valid(reg)
      ensures val == old(val)[setting.cls.typeName := setting.values] && Repr == old(Repr) + {setting}
    {
      ghost var more := val[setting.cls.typeName := setting.values];
      SoundMore(reg, val, setting.cls.typeName, setting.values);
      settings := settings[setting.cls.typeName := setting];
      val := more;
      Repr := Repr + {setting};
    }

    /** bm_connection_to_hash: no table at all rather than an empty one. */
    method ToHash(reg: Registry) returns (hash: Option<ConnHash>)
      requires Valid(reg)
      ensures hash.None? <==> SerializedTypes(reg, val) == map[]
      ensures hash.Some? ==> IsSerialized(reg, val, hash.value)
    {
      var table: ConnHash := map[];
      ghost var target := SerializedTypes(reg, val);
      var rest := settings.Keys;
      while rest != {}
        invariant rest <= settings.Keys
        invariant IsFiled(NamesOf(val), target - rest, table)
        decreases rest
      {
        var t :| t in rest;
        assert HasNameAt(val, t);
        var h := settings[t].ToHash();
        FiledStep(NamesOf(val), target, rest, t, table);
        rest := rest - {t};
        table := table[settings[t].Name() := h];
      }
      FiledSize(NamesOf(val), target, table);
      hash := if |table| < 1 then None else Some(table);
    }

    /** parse_one_setting: sections with an unregistered name are skipped. */
    method ParseOne(reg: Registry, n: string, section: Values)
      requires ValidRegistry(reg) && KnownNames(reg) && Valid(reg)
      modifies this`settings, this`val, this`Repr
      ensures Valid(reg) && fresh(Repr - old(Repr))
      ensures val == if n !in reg.registered then old(val)
                     else old(val)[reg.registered[n] := Parsed(reg, reg.classes[reg.registered[n]], section)]
    {
      if n in reg.registered && reg.registered[n] in reg.classes {
        var setting := Setting.NewFromHash(reg, reg.classes[reg.registered[n]], section);
        ParsedSound(reg, reg.registered[n], section);
        AddSetting(reg, setting);
      }
    }

    /** bm_connection_new_from_hash up to the verification. */
    static method Parse(reg: Registry, hash: ConnHash) returns (conn: Connection)
      requires ValidRegistry(reg) && KnownNames(reg)
      ensures fresh(conn) && fresh(conn.Repr) && conn.Valid(reg)
      ensures conn.val == ParsedConn(reg, hash)
    {
      conn := new Connection();
      ParseStart(reg, hash);
      var rest := hash.Keys;
      while rest != {}
        invariant rest <= hash.Keys
        invariant fresh(conn) && fresh(conn.Repr) && conn.Valid(reg)
        invariant conn.val == ParsedConn(reg, hash) - TypesNamed(reg, rest)
        decreases rest
      {
        var n :| n in rest;
        ParseStep(reg, hash, rest, n);
        rest := rest - {n};
        conn.ParseOne(reg, n, hash[n]);
      }
    }

    /** The names of all settings, as given to each setting's verify. */
    method NamesOfAll(reg: Registry) returns (names: set<string>)
      requires Valid(reg)
      ensures names == SettingNames(val)
    {
      names := {};
      var rest := settings.Keys;
      while rest != {}
        invariant rest <= settings.Keys
        invariant names == SettingNames(val - rest)
        decreases rest
      {
        var t :| t in rest;
        assert HasNameAt(val, t);
        NamesStep(val, rest, t);
        rest := rest - {t};
        names := names + {settings[t].Name()};
      }
      assert val - {} == val;
    }

    /** bm_connection_verify: the first failure met, in an unspecified order, is reported. */
    method Verify(reg: Registry) returns (err: Option<VerifyError>)
      requires Valid(reg)
      ensures err.None? <==> Verified(reg, val)
      ensures err.Some? ==>
                if reg.connection !in val then err.value == ConnectionSettingNotFound
                else exists t | t in val && t in reg.classes ::
                       reg.classes[t].verify(val[t], SettingNames(val)) == err
    {
      if reg.connection !in settings {
        return Some(ConnectionSettingNotFound);
      }
      var names := NamesOfAll(reg);
      err := None;
      var rest := settings.Keys;
      while rest != {} && err.None?
        invariant rest <= settings.Keys
        invariant err.None? ==> forall t | t in settings.Keys - rest :: reg.classes[t].verify(val[t], names).None?
        invariant err.Some? ==> exists t | t in val && t in reg.classes :: reg.classes[t].verify(val[t], names) == err
        decreases rest
      {
        var t :| t in rest;
        rest := rest - {t};
        err := settings[t].cls.verify(settings[t].values, names);
        assert reg.classes[t].verify(val[t], names) == err;
      }
    }

    /** bm_connection_new_from_hash */
    static method NewFromHash(reg: Registry, hash: ConnHash) returns (conn: Connection?, err: Option<VerifyError>)
      requires ValidRegistry(reg) && KnownNames(reg)
      ensures conn != null <==> Verified(reg, ParsedConn(reg, hash))
      ensures conn != null ==> fresh(conn) && conn.Valid(reg) && conn.val == ParsedConn(reg, hash)
      ensures conn == null <==> err.Some?
    {
      conn := Parse(reg, hash);
      err := conn.Verify(reg);
      if err.Some? {
        conn := null;
      }
    }

    /** compare_one_setting for every setting; a failure ends the comparing. */
    method CompareOne(reg: Registry, other: Connection, flags: CompareFlags) returns (failed: bool)
      requires Valid(reg) && other.Valid(reg)
      ensures !failed <==> Includes(reg, val, other.val, flags)
    {
      failed := false;
      var rest := settings.Keys;
      while rest != {}
        invariant rest <= settings.Keys
        invariant !failed <==> Includes(reg, val - rest, other.val, flags)
        decreases rest
      {
        var t :| t in rest;
        IncludesStep(reg, val, other.val, flags, rest, t);
        rest := rest - {t};
        if !failed {
          if t in other.settings {
            var same := settings[t].Compare(other.settings[t], flags);
            failed := !same;
          } else {
            failed := true;
          }
        }
      }
      assert val - {} == val;
    }

    /** bm_connection_compare: a against b, then b against a. */
    static method Compare(reg: Registry, a: Connection?, b: Connection?, flags: CompareFlags) returns (same: bool)
      requires (a != null ==> a.Valid(reg)) && (b != null ==> b.Valid(reg))
      ensures same <==> if a == null || b == null then a == b else SameConn(reg, a.val, b.val, flags)
    {
      if a == null && b == null {
        return true;
      }
      if a == null || b == null {
        return false;
      }
      var failed := a.CompareOne(reg, b, flags);
      if !failed {
        failed := b.CompareOne(reg, a, flags);
      }
      return !failed;
    }

    /** For diff_one_connection: one setting's results are added to what the table has for its name. */
    method DiffSetting(reg: Registry, b: Connection?, flags: CompareFlags, invert: bool, t: string, diffs0: ConnDiff)
      returns (diffs: ConnDiff)
      requires Valid(reg) && (b != null ==> b.Valid(reg)) && t in settings
      requires NoEmptyEntry(diffs0)
      ensures HasName(val[t])
      ensures diffs == Filed(diffs0, val[t][NAME].s,
                             TypePass(reg, val, if b == null then map[] else b.val, flags, invert, t))
    {
      assert HasNameAt(val, t);
      var n := settings[t].Name();
      var other := if b != null && t in b.settings then b.settings[t] else null;
      FiledAt(diffs0, n, TypePass(reg, val, if b == null then map[] else b.val, flags, invert, t));
      var results0 := if n in diffs0 then Some(diffs0[n]) else None;
      var same, results := settings[t].Diff(other, flags, invert, results0);
      diffs := if same then diffs0 else diffs0[n := results.value];
    }

    /** diff_one_connection */
    method DiffOne(reg: Registry, b: Connection?, flags: CompareFlags, invert: bool, diffs0: ConnDiff)
      returns (diffs: ConnDiff)
      requires Valid(reg) && (b != null ==> b.Valid(reg)) && NoEmptyEntry(diffs0)
      ensures PassMade(reg, val, if b == null then map[] else b.val, flags, invert, diffs0, {}, diffs)
    {
      diffs := diffs0;
      ghost var other := if b == null then map[] else b.val;
      PassMadeStart(reg, val, other, flags, invert, diffs0);
      var rest := settings.Keys;
      while rest != {}
        invariant rest <= settings.Keys && PassMade(reg, val, other, flags, invert, diffs0, rest, diffs)
        decreases rest
      {
        var t :| t in rest;
        assert HasNameAt(val, t);
        PassMadeStep(reg, val, other, flags, invert, diffs0, rest, t, diffs);
        rest := rest - {t};
        diffs := DiffSetting(reg, b, flags, invert, t, diffs);
      }
    }

    /** bm_connection_diff: a against b, then b against a with the meaning of the bits inverted. */
    static method Diff(reg: Registry, a: Connection, b: Connection?, flags: CompareFlags)
      returns (same: bool, outSettings: Option<ConnDiff>)
      requires ValidRegistry(reg) && a.Valid(reg) && (b != null ==> b.Valid(reg))
      ensures same == outSettings.None? && outSettings != Some(map[])
      ensures var other, diffs := if b == null then map[] else b.val, if same then map[] else outSettings.value;
              && (same <==> NothingToReport(reg, a.val, other, flags))
              && (Named(reg, a.val) && Named(reg, other) ==> IsDiff(reg, a.val, other, flags, diffs))
    {
      ghost var other := if b == null then map[] else b.val;
      if a == b {
        SelfDiff(reg, a.val, flags);
        return true, None;
      }
      var diffs := a.DiffOne(reg, b, flags, false, map[]);
      ghost var first := diffs;
      if b != null {
        diffs := b.DiffOne(reg, a, flags, true, diffs);
      } else {
        PassMadeStart(reg, other, a.val, flags, true, first);
      }
      TwoPassesMade(reg, a.val, other, flags, first, diffs);
      outSettings := if |diffs| == 0 then None else Some(diffs);
      same := outSettings.None?;
    }

    /** duplicate_cb for every setting: copies that no one else holds. */
    method DuplicateSettings(reg: Registry) returns (copies: map<string, Setting>)
      requires Valid(reg)
      ensures copies.Keys == settings.Keys
      ensures forall t | t in copies ::
                && fresh(copies[t]) && copies[t].cls == reg.classes[t] && copies[t].cls.typeName == t
                && copies[t].Valid() && copies[t].values == Duplicated(reg, reg.classes[t], val[t])
    {
      copies := map[];
      var rest := settings.Keys;
      while rest != {}
        invariant rest <= settings.Keys && copies.Keys == settings.Keys - rest
        invariant forall t | t in copies ::
                    && fresh(copies[t]) && copies[t].cls == reg.classes[t] && copies[t].cls.typeName == t
                    && copies[t].Valid() && copies[t].values == Duplicated(reg, reg.classes[t], val[t])
        decreases rest
      {
        var t :| t in rest;
        rest := rest - {t};
        var copy := settings[t].Duplicate(reg);
        copies := copies[t := copy];
      }
    }

    /** bm_connection_duplicate */
    method Duplicate(reg: Registry) returns (dup: Connection)
      requires ValidRegistry(reg) && KnownNames(reg) && Valid(reg)
      ensures fresh(dup) && fresh(dup.Repr) && dup.Valid(reg)
      ensures dup.scope == scope && dup.path == path && dup.val == DuplicatedConn(reg, val)
    {
      var copies := DuplicateSettings(reg);
      DuplicatedValid(reg, val);
      dup := new Connection.With(reg, copies, DuplicatedConn(reg, val), scope, path);
    }

    /** After the object of one type has been given new values. */
    ghost method Record(reg: Registry, t: string, vals: Values)
      requires settings.Keys == val.Keys && ValidConn(reg, val) && HasNames(val)
      requires t in settings && ValidValues(reg.classes[t], vals) && HasName(vals)
      requires forall u | u in settings ::
                 && settings[u] in Repr && settings[u].cls == reg.classes[u] && settings[u].cls.typeName == u
                 && settings[u].values == if u == t then vals else val[u]
      modifies this`val
      ensures Valid(reg) && val == old(val)[t := vals]
    {
      SoundMore(reg, val, t, vals);
      ghost var more := val[t := vals];
      assert forall u | u in settings :: settings[u].values == more[u];
      val := more;
    }

    /** clear_setting_secrets; every other setting is a different object. */
    method ClearOne(reg: Registry, t: string)
      requires KnownNames(reg) && Valid(reg)
      requires t in settings
      modifies this`val, settings[t]
      ensures Valid(reg) && val == old(val)[t := Cleared(reg, reg.classes[t], old(val)[t])]
    {
      assert HasNameAt(val, t);
      ClearedSound(reg, t, val[t]);
      settings[t].ClearSecrets(reg);
      Record(reg, t, settings[t].values);
    }

    /** bm_connection_clear_secrets */
    method ClearSecrets(reg: Registry)
      requires KnownNames(reg) && Valid(reg)
      modifies this`val, Repr
      ensures Valid(reg) && val == ClearedConn(reg, old(val))
    {
      ghost var base := val;
      OverlayAll(base, ClearedConn(reg, base));
      var rest := settings.Keys;
      while rest != {}
        invariant rest <= settings.Keys && Valid(reg)
        invariant val == Overlay(base, rest, ClearedConn(reg, base))
        decreases rest
      {
        var t :| t in rest;
        OverlayStep(base, rest, ClearedConn(reg, base), t);
        rest := rest - {t};
        ClearOne(reg, t);
      }
    }

    /** Substituting the tracked timestamp for the connection's own. */
    method SetTimestamp(reg: Registry, ts: nat)
      requires KnownNames(reg) && Valid(reg) && reg.connection in settings
      requires reg.timestamp in reg.classes[reg.connection].props
      modifies this`val, settings[reg.connection]
      ensures Valid(reg) && val == StampedConn(reg, old(val), Some(ts))
    {
      var sCon := settings[reg.connection];
      assert HasNameAt(val, reg.connection);
      StampedSound(reg, reg.connection, val[reg.connection], Stamp(ts));
      sCon.SetProperty(reg, reg.timestamp, Stamp(ts));
      Record(reg, reg.connection, sCon.values);
    }

    /** The timestamp is substituted only if one is tracked. */
    method SubstituteTimestamp(reg: Registry, timestamp: Option<nat>)
      requires KnownNames(reg) && Valid(reg)
      requires timestamp.Some? ==> reg.connection in settings && reg.timestamp in reg.classes[reg.connection].props
      modifies this`val, Repr
      ensures Valid(reg) && val == StampedConn(reg, old(val), timestamp)
    {
      if timestamp.Some? {
        SetTimestamp(reg, timestamp.value);
      }
    }

    method DuplicateCleared(reg: Registry) returns (dup: Connection)
      requires ValidRegistry(reg) && KnownNames(reg) && Valid(reg)
      ensures fresh(dup) && fresh(dup.Repr) && dup.Valid(reg) && dup.settings.Keys == settings.Keys
      ensures dup.val == ClearedConn(reg, DuplicatedConn(reg, val))
    {
      dup := Duplicate(reg);
      dup.ClearSecrets(reg);
    }

    method Prepare(reg: Registry, timestamp: Option<nat>) returns (noSecrets: Connection)
      requires ValidRegistry(reg) && KnownNames(reg) && Valid(reg) && (timestamp.Some? ==> CanStamp(reg, val))
      ensures noSecrets.Valid(reg) && noSecrets.val == Prepared(reg, val, timestamp)
    {
      noSecrets := DuplicateCleared(reg);
      noSecrets.SubstituteTimestamp(reg, timestamp);
    }

    /**
     real_get_settings: a duplicate is cleared, stamped and serialized. As in the source, there is
     a setting to serialize, and a connection setting if a timestamp is tracked.
     */
    method GetSettings(reg: Registry, timestamp: Option<nat>) returns (hash: ConnHash)
      requires ValidRegistry(reg) && KnownNames(reg) && Valid(reg)
      requires settings != map[] && ValidStamp(reg, timestamp) && (timestamp.Some? ==> CanStamp(reg, val))
      ensures IsSerialized(reg, Prepared(reg, val, timestamp), hash)
      ensures IsFiled(NamesOf(val), PublicTypes(reg, val, timestamp), hash)
      ensures InRangeConn(reg, val, timestamp) ==> IsFiled(NamesOf(val), RedactedTypes(reg, val, timestamp), hash)
    {
      var noSecrets := Prepare(reg, timestamp);
      PreparedKeys(reg, val, timestamp);
      var table := noSecrets.ToHash(reg);
      hash := table.value;
      NamesStay(reg, val, timestamp);
      PublicIs(reg, val, timestamp);
      PublicIff(reg, val, timestamp);
    }
  }
}
