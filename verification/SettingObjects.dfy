/** BMSetting objects: property records changed in place (libbm-util/bm-setting.c). */
module SettingObjects {
  import opened Maps
  import opened Diffs
  import opened GValues
  import opened Settings

  class Setting {
    const cls: SettingClass
    var values: Values

    ghost predicate Valid()
      reads this
    {
      values.Keys == cls.props.Keys
    }

    /** bm_setting_get_name */
    function Name(): string
      requires NAME in values && values[NAME].Str?
      reads this
    {
      values[NAME].s
    }

    /** g_object_new: defaults, and the name given by the class's init. */
    constructor (cls: SettingClass)
      ensures this.cls == cls && values == Initial(cls) && Valid()
    {
      this.cls := cls;
      this.values := Initial(cls);
    }

    /** g_object_newv up to the setting of the given parameters. */
    constructor Given(cls: SettingClass, given: set<string>)
      ensures this.cls == cls && values == Started(cls, given) && Valid()
    {
      this.cls := cls;
      this.values := Started(cls, given);
    }

    /** g_object_set_property: a value that the property does not take is ignored with a warning. */
    method SetProperty(reg: Registry, name: string, value: GValue)
      requires Valid() && name in cls.props
      modifies this
      ensures Valid()
      ensures values == old(values)[name := AcceptedOr(reg, cls.props[name], value, old(values)[name])]
    {
      if cls.props[name].writable {
        var converted := reg.transform(value, cls.props[name].ptype);
        if converted.Some? && cls.props[name].valid(converted.value) {
          values := values[name := converted.value];
        }
      }
    }

    /** bm_setting_to_hash */
    method ToHash() returns (hash: Values)
      requires Valid()
      ensures hash == Serialized(cls, values)
    {
      hash := map[];
      var rest := cls.props.Keys;
      while rest != {}
        invariant rest <= cls.props.Keys
        invariant forall k :: k in hash <==> k in Serialized(cls, values) && k !in rest
        invariant forall k | k in hash :: hash[k] == values[k]
        decreases rest
      {
        var k :| k in rest;
        rest := rest - {k};
        var p := cls.props[k];
        if p.serialize {
          if !p.same(values[k], p.default) {
            hash := hash[k := values[k]];
          }
        }
      }
    }

    /** one_property_cb for every key: copy the values of known serialized properties. */
    static method CollectParams(cls: SettingClass, hash: Values) returns (params: Values)
      ensures params == Params(cls, hash)
    {
      params := map[];
      var keys := hash.Keys;
      while keys != {}
        invariant keys <= hash.Keys
        invariant params == Params(cls, hash - keys)
        decreases keys
      {
        var k :| k in keys;
        assert hash - (keys - {k}) == (hash - keys)[k := hash[k]];
        keys := keys - {k};
        if k in cls.props && cls.props[k].serialize {
          params := params[k := hash[k]];
        }
      }
      assert hash - {} == hash;
    }

    /** bm_setting_new_from_hash: collect the usable parameters, then set them on a new object. */
    static method NewFromHash(reg: Registry, cls: SettingClass, hash: Values) returns (setting: Setting)
      ensures fresh(setting) && setting.cls == cls && setting.Valid()
      ensures setting.values == Parsed(reg, cls, hash)
    {
      var params := CollectParams(cls, hash);
      setting := new Setting.Given(cls, params.Keys);
      ghost var base := setting.values;
      ParamsOverlay(reg, cls, hash);
      var rest := params.Keys;
      while rest != {}
        invariant rest <= params.Keys && fresh(setting) && setting.cls == cls && setting.Valid()
        invariant setting.values == Overlay(base, rest, Parsed(reg, cls, hash))
        decreases rest
      {
        var k :| k in rest;
        OverlayStep(base, rest, Parsed(reg, cls, hash), k);
        rest := rest - {k};
        setting.SetProperty(reg, k, params[k]);
      }
    }

    /** duplicate_setting */
    method CopyProperty(reg: Registry, name: string, dup: Setting)
      requires Valid() && dup.Valid() && dup != this && dup.cls == cls && name in cls.props
      modifies dup
      ensures dup.Valid()
      ensures dup.values ==
              old(dup.values)[name := AcceptedOr(reg, cls.props[name], values[name], old(dup.values)[name])]
    {
      if cls.props[name].writable {
        dup.SetProperty(reg, name, values[name]);
      }
    }

    /** bm_setting_duplicate: every writable property is set on a new object. */
    method Duplicate(reg: Registry) returns (dup: Setting)
      requires Valid()
      ensures fresh(dup) && dup.cls == cls && dup.Valid() && dup.values == Duplicated(reg, cls, values)
    {
      dup := new Setting(cls);
      ghost var base, target := dup.values, Duplicated(reg, cls, values);
      OverlayAll(base, target);
      var rest := cls.props.Keys;
      while rest != {}
        invariant rest <= cls.props.Keys && fresh(dup) && dup.cls == cls && dup.Valid()
        invariant dup.values == Overlay(base, rest, target)
        decreases rest
      {
        var k :| k in rest;
        OverlayStep(base, rest, target, k);
        rest := rest - {k};
        CopyProperty(reg, k, dup);
      }
    }

    /** bm_setting_clear_secrets */
    method ClearSecrets(reg: Registry)
      requires Valid()
      modifies this
      ensures Valid() && values == Cleared(reg, cls, old(values))
    {
      ghost var base := values;
      OverlayAll(base, Cleared(reg, cls, base));
      var rest := cls.props.Keys;
      while rest != {}
        invariant rest <= cls.props.Keys && Valid()
        invariant values == Overlay(base, rest, Cleared(reg, cls, base))
        decreases rest
      {
        var k :| k in rest;
        OverlayStep(base, rest, Cleared(reg, cls, base), k);
        rest := rest - {k};
        if cls.props[k].secret {
          SetProperty(reg, k, cls.props[k].default);
        }
      }
    }

    /** bm_setting_compare */
    method Compare(b: Setting, flags: CompareFlags) returns (same: bool)
      requires Valid() && b.Valid() && (cls.typeName == b.cls.typeName ==> cls == b.cls)
      ensures same <==> cls.typeName == b.cls.typeName && SameValues(cls, values, b.values, flags)
    {
      if cls.typeName != b.cls.typeName {
        return false;
      }
      var different := false;
      var rest := cls.props.Keys;
      while rest != {} && !different
        invariant rest <= cls.props.Keys
        invariant !different ==> forall k | k in cls.props.Keys - rest :: SameProp(cls, values, b.values, flags, k)
        invariant different ==> exists k | k in cls.props :: !SameProp(cls, values, b.values, flags, k)
        decreases rest
      {
        var k :| k in rest;
        rest := rest - {k};
        if ShouldCompare(cls, k, flags) {
          different := !cls.props[k].same(values[k], b.values[k]);
        }
        assert different <==> !SameProp(cls, values, b.values, flags, k);
      }
      return !different;
    }

    /** The bits for one property; b is absent when only this side has the setting. */
    method DiffProp(b: Setting?, k: string, invert: bool) returns (r: Option<DiffResult>)
      requires Valid() && (b != null ==> b.Valid() && b.cls == cls) && k in cls.props
      ensures r == PropDiff(cls.props[k], values[k], if b == null then None else Some(b.values[k]), invert)
    {
      var aResult, bResult := IN_A, IN_B;
      if invert {
        aResult, bResult := IN_B, IN_A;
      }
      if b == null {
        return Some(aResult);
      }
      var p := cls.props[k];
      var different := !p.same(values[k], b.values[k]);
      if !different {
        return None;
      }
      var bits := NEITHER;
      if !p.same(values[k], p.default) {
        bits := bits.Or(aResult);
      }
      if !p.same(b.values[k], p.default) {
        bits := bits.Or(bResult);
      }
      return Some(bits);
    }

    /** bm_setting_diff: adds to the given results, and returns no table rather than a new empty one. */
    method Diff(b: Setting?, flags: CompareFlags, invert: bool, results0: Option<SettingDiff>)
      returns (same: bool, results: Option<SettingDiff>)
      requires Valid() && (b != null ==> b.Valid() && b.cls == cls)
      ensures var before := if results0.Some? then results0.value else map[];
              var other := if b == null then None else Some(b.values);
              var after := Merged(before, OnePass(cls, values, other, flags, invert));
              results == (if results0.None? && after == map[] then None else Some(after))
      ensures same == results.None?
    {
      var table := if results0.Some? then results0.value else map[];
      ghost var before := table;
      ghost var pass := OnePass(cls, values, if b == null then None else Some(b.values), flags, invert);
      MergedEnds(before, pass, cls.props.Keys);
      var rest := cls.props.Keys;
      while rest != {}
        invariant rest <= cls.props.Keys
        invariant table == Merged(before, pass - rest)
        decreases rest
      {
        var k :| k in rest;
        MergedStep(before, pass, rest, k);
        rest := rest - {k};
        if Diffed(cls, k, flags) {
          var r := DiffProp(b, k, invert);
          if r.Some? {
            var tmp := if k in table then table[k] else NEITHER;
            table := table[k := tmp.Or(r.value)];
          }
        }
      }
      results := if results0.None? && table == map[] then None else Some(table);
      same := results.None?;
    }
  }

  /** A key that has no parameter keeps its initial value. */
  lemma ParamsOverlay(reg: Registry, cls: SettingClass, hash: Values)
    ensures var base := Started(cls, Params(cls, hash).Keys);
            && Overlay(base, Params(cls, hash).Keys, Parsed(reg, cls, hash)) == base
            && Overlay(base, {}, Parsed(reg, cls, hash)) == Parsed(reg, cls, hash)
  {
  }
}
