/** What serializing, parsing, redacting, comparing and diffing connections amount to. */
module SettingsProofs {
  import opened Maps
  import opened Diffs
  import opened GValues
  import opened Settings

  // ---------- Well-behaved schemas and values ----------

  /** Defaults are valid, and a serialized or secret property can be written. */
  ghost predicate ValidProp(p: PropSpec) {
    && p.valid(p.default) && p.valid(p.initial)
    && (p.serialize ==> p.initial == p.default)
    && (p.serialize || p.secret ==> p.writable)
  }

  ghost predicate ValidClass(cls: SettingClass) {
    forall k | k in cls.props :: ValidProp(cls.props[k])
  }

  /** What a property may hold: a valid value, or what parsing an invalid one leaves. */
  ghost predicate Holds(p: PropSpec, v: GValue) {
    p.valid(v) || (p.serialize && v == p.unset)
  }

  /** Setting a property to a value it may hold stores that value, if it is valid. */
  ghost predicate Stores(reg: Registry, p: PropSpec) {
    forall v | Holds(p, v) :: Accepted(reg, p, v) == if p.valid(v) then Some(v) else None
  }

  ghost predicate StoresValid(reg: Registry, cls: SettingClass) {
    forall k | k in cls.props && cls.props[k].writable :: Stores(reg, cls.props[k])
  }

  /** On values that it may hold the comparison of a property is equality. */
  ghost predicate ExactClass(cls: SettingClass) {
    forall k, v, w | k in cls.props && Holds(cls.props[k], v) && Holds(cls.props[k], w) ::
      cls.props[k].same(v, w) <==> v == w
  }

  ghost predicate ValidRegistry(reg: Registry) {
    && TypeNames(reg)
    && ValidNames(reg)
    && forall t | t in reg.classes ::
         ValidClass(reg.classes[t]) && StoresValid(reg, reg.classes[t]) && ExactClass(reg.classes[t])
  }

  ghost predicate ValidValues(cls: SettingClass, vals: Values) {
    && vals.Keys == cls.props.Keys
    && forall k | k in cls.props :: Holds(cls.props[k], vals[k])
  }

  ghost predicate ValidConn(reg: Registry, c: ConnVal) {
    forall t | t in c :: t in reg.classes && ValidValues(reg.classes[t], c[t])
  }

  // ---------- What every operation keeps ----------

  lemma SoundMore(reg: Registry, c: ConnVal, t: string, vals: Values)
    requires ValidConn(reg, c) && HasNames(c)
    requires t in reg.classes && ValidValues(reg.classes[t], vals) && HasName(vals)
    ensures ValidConn(reg, c[t := vals]) && HasNames(c[t := vals])
  {
    var more := c[t := vals];
    forall u ensures HasNameAt(more, u) {
      assert HasNameAt(c, u);
    }
  }

  lemma AcceptedHolds(reg: Registry, p: PropSpec, v: GValue, otherwise: GValue)
    requires Holds(p, otherwise)
    ensures Holds(p, AcceptedOr(reg, p, v, otherwise))
  {
  }

  lemma ParsedHolds(reg: Registry, cls: SettingClass, hash: Values)
    requires ValidClass(cls)
    ensures ValidValues(cls, Parsed(reg, cls, hash))
  {
    forall k | k in cls.props ensures Holds(cls.props[k], ParsedProp(reg, cls, hash, k)) {
      assert ValidProp(cls.props[k]);
    }
  }

  /** Whatever the hash, a parsed setting is valid and has its class's name. */
  lemma ParsedSound(reg: Registry, t: string, hash: Values)
    requires ValidRegistry(reg) && KnownNames(reg) && t in reg.classes
    ensures ValidValues(reg.classes[t], Parsed(reg, reg.classes[t], hash))
    ensures HasName(Parsed(reg, reg.classes[t], hash)) && NamedAs(reg, t, Parsed(reg, reg.classes[t], hash))
  {
    NamedParsed(reg, t, hash);
    ParsedHolds(reg, reg.classes[t], hash);
  }

  /** A parsed value is what the given one converts to, if the property takes that. */
  lemma ParsedConverts(reg: Registry, cls: SettingClass, section: Values, k: string)
    requires ValidClass(cls) && k in cls.props
    ensures var p, v := cls.props[k], Parsed(reg, cls, section)[k];
            && (p.serialize && k in section ==>
                  match reg.transform(section[k], p.ptype)
                  case None => v == p.unset
                  case Some(w) => v == if p.valid(w) then w else p.unset)
            && (!(p.serialize && k in section) ==> v == p.initial)
  {
    assert ValidProp(cls.props[k]);
  }

  lemma ParsedValid(reg: Registry, hash: ConnHash)
    requires ValidRegistry(reg) && KnownNames(reg)
    ensures var c := ParsedConn(reg, hash); ValidConn(reg, c) && HasNames(c) && Named(reg, c)
  {
    var c := ParsedConn(reg, hash);
    forall t | t in c ensures ValidValues(reg.classes[t], c[t]) && HasName(c[t]) && NamedAs(reg, t, c[t]) {
      ParsedSound(reg, t, hash[reg.classes[t].settingName]);
    }
    assert forall t :: HasNameAt(c, t);
    assert forall t :: NamedAt(reg, c, t);
  }

  lemma DuplicatedSound(reg: Registry, t: string, vals: Values)
    requires ValidRegistry(reg) && KnownNames(reg) && t in reg.classes && HasName(vals)
    ensures ValidValues(reg.classes[t], Duplicated(reg, reg.classes[t], vals))
    ensures HasName(Duplicated(reg, reg.classes[t], vals))
  {
    var cls := reg.classes[t];
    NameKept(reg, t, vals);
    forall k | k in cls.props ensures Holds(cls.props[k], DuplicatedProp(reg, cls, vals, k)) {
      assert ValidProp(cls.props[k]);
    }
  }

  lemma DuplicatedValid(reg: Registry, c: ConnVal)
    requires ValidRegistry(reg) && KnownNames(reg) && ValidConn(reg, c) && HasNames(c)
    ensures ValidConn(reg, DuplicatedConn(reg, c)) && HasNames(DuplicatedConn(reg, c))
  {
    var d := DuplicatedConn(reg, c);
    forall t | t in d ensures ValidValues(reg.classes[t], d[t]) && HasName(d[t]) {
      assert HasNameAt(c, t);
      DuplicatedSound(reg, t, c[t]);
    }
    assert forall t :: HasNameAt(d, t);
  }

  lemma ClearedSound(reg: Registry, t: string, vals: Values)
    requires KnownNames(reg) && t in reg.classes && ValidValues(reg.classes[t], vals) && HasName(vals)
    ensures ValidValues(reg.classes[t], Cleared(reg, reg.classes[t], vals))
    ensures HasName(Cleared(reg, reg.classes[t], vals))
  {
    var cls := reg.classes[t];
    NameKept(reg, t, vals);
    forall k | k in cls.props ensures Holds(cls.props[k], ClearedProp(reg, cls, vals, k)) {
      AcceptedHolds(reg, cls.props[k], cls.props[k].default, vals[k]);
    }
  }

  lemma StampedSound(reg: Registry, t: string, vals: Values, v: GValue)
    requires KnownNames(reg) && t in reg.classes && ValidValues(reg.classes[t], vals) && HasName(vals)
    requires reg.timestamp in reg.classes[t].props
    ensures var p := reg.classes[t].props[reg.timestamp];
            var stamped := vals[reg.timestamp := AcceptedOr(reg, p, v, vals[reg.timestamp])];
            ValidValues(reg.classes[t], stamped) && HasName(stamped)
  {
    AcceptedHolds(reg, reg.classes[t].props[reg.timestamp], v, vals[reg.timestamp]);
  }

  // ---------- Redaction ----------

  /** The connection setting has a serialized, public timestamp that is zero by default. */
  ghost predicate HasTimestamp(reg: Registry) {
    && reg.connection in reg.classes && reg.timestamp in reg.classes[reg.connection].props
    && var p := reg.classes[reg.connection].props[reg.timestamp];
       p.serialize && !p.secret && p.default == Stamp(0)
  }

  /** A setting's serialization without its secret keys. */
  function Redacted(cls: SettingClass, hash: Values): Values {
    map k | k in hash && !(k in cls.props && cls.props[k].secret) :: hash[k]
  }

  /** A serialization with its timestamp replaced, or left out if the tracked one is zero. */
  function Restamped(reg: Registry, hash: Values, ts: nat): Values {
    if ts == 0 then hash - {reg.timestamp} else hash[reg.timestamp := Stamp(ts)]
  }

  /** The entries whose value can be set on a duplicate. */
  function InRangeOnly(cls: SettingClass, hash: Values): Values {
    map k | k in hash && k in cls.props && cls.props[k].valid(hash[k]) :: hash[k]
  }

  /** A setting's own serialization, redacted, and restamped if it is the connection setting. */
  function RedactedType(reg: Registry, c: ConnVal, ts: Option<nat>, t: string): Values
    requires t in c && t in reg.classes
  {
    var hash := Redacted(reg.classes[t], Serialized(reg.classes[t], c[t]));
    if t == reg.connection && ts.Some? then Restamped(reg, hash, ts.value) else hash
  }

  function RedactedTypes(reg: Registry, c: ConnVal, ts: Option<nat>): map<string, Values> {
    map t | t in c && t in reg.classes :: RedactedType(reg, c, ts, t)
  }

  /** What a caller is shown: the same, without the values that a duplicate does not take. */
  function PublicType(reg: Registry, c: ConnVal, ts: Option<nat>, t: string): Values
    requires t in c && t in reg.classes
  {
    var cls := reg.classes[t];
    var hash := InRangeOnly(cls, Redacted(cls, Serialized(cls, c[t])));
    if t == reg.connection && ts.Some? then Restamped(reg, hash, ts.value) else hash
  }

  function PublicTypes(reg: Registry, c: ConnVal, ts: Option<nat>): map<string, Values> {
    map t | t in c && t in reg.classes :: PublicType(reg, c, ts, t)
  }

  lemma ClearedDuplicate(reg: Registry, cls: SettingClass, vals: Values, k: string)
    requires ValidClass(cls) && StoresValid(reg, cls) && ValidValues(cls, vals) && k in cls.props
    ensures Cleared(reg, cls, Duplicated(reg, cls, vals))[k] ==
            if cls.props[k].secret then cls.props[k].default
            else if cls.props[k].writable && cls.props[k].valid(vals[k]) then vals[k]
            else cls.props[k].initial
  {
    var p := cls.props[k];
    assert ValidProp(p) && Holds(p, vals[k]) && Holds(p, p.default);
    assert p.writable ==> Stores(reg, p);
  }

  /** Clearing the secrets of a duplicate and then serializing it drops secret keys and values out of range. */
  lemma {:induction false} ShownIs(reg: Registry, cls: SettingClass, vals: Values)
    requires ValidClass(cls) && StoresValid(reg, cls) && ExactClass(cls) && ValidValues(cls, vals)
    ensures Serialized(cls, Cleared(reg, cls, Duplicated(reg, cls, vals))) ==
            InRangeOnly(cls, Redacted(cls, Serialized(cls, vals)))
  {
    var m := Serialized(cls, Cleared(reg, cls, Duplicated(reg, cls, vals)));
    var n := InRangeOnly(cls, Redacted(cls, Serialized(cls, vals)));
    forall k | k in cls.props ensures k in m <==> k in n ensures k in m && k in n ==> m[k] == n[k] {
      ClearedDuplicate(reg, cls, vals, k);
      assert Holds(cls.props[k], vals[k]) && Holds(cls.props[k], cls.props[k].default);
    }
    SameMaps(m, n);
  }

  /** A serialized property that is not secret has a value in its range. */
  ghost predicate InRange(cls: SettingClass, vals: Values, except: set<string>) {
    forall k | k in cls.props && k in vals && cls.props[k].serialize && !cls.props[k].secret && k !in except ::
      cls.props[k].valid(vals[k])
  }

  lemma OutOfRange(cls: SettingClass, vals: Values, k: string)
    requires ValidClass(cls) && ExactClass(cls) && ValidValues(cls, vals) && k in cls.props
    requires cls.props[k].serialize && !cls.props[k].secret && !cls.props[k].valid(vals[k])
    ensures k in Redacted(cls, Serialized(cls, vals)) && k !in InRangeOnly(cls, Redacted(cls, Serialized(cls, vals)))
  {
    assert ValidProp(cls.props[k]);
    assert Holds(cls.props[k], vals[k]) && Holds(cls.props[k], cls.props[k].default);
  }

  /** So it drops exactly the secret keys iff no value that it would show is out of range. */
  lemma RedactedIff(reg: Registry, cls: SettingClass, vals: Values)
    requires ValidClass(cls) && StoresValid(reg, cls) && ExactClass(cls) && ValidValues(cls, vals)
    ensures Serialized(cls, Cleared(reg, cls, Duplicated(reg, cls, vals))) == Redacted(cls, Serialized(cls, vals)) <==>
            InRange(cls, vals, {})
  {
    ShownIs(reg, cls, vals);
    if InRange(cls, vals, {}) {
      SameMaps(InRangeOnly(cls, Redacted(cls, Serialized(cls, vals))), Redacted(cls, Serialized(cls, vals)));
    } else {
      var k :| k in cls.props && k in vals && cls.props[k].serialize && !cls.props[k].secret
               && !cls.props[k].valid(vals[k]);
      OutOfRange(cls, vals, k);
    }
  }

  /** A value that parsing refuses, leaving one out of range, is serialized but not shown. */
  lemma RefusedNotShown(reg: Registry, cls: SettingClass, section: Values, k: string)
    requires ValidClass(cls) && StoresValid(reg, cls) && ExactClass(cls)
    requires k in cls.props && cls.props[k].serialize && !cls.props[k].secret && !cls.props[k].valid(cls.props[k].unset)
    requires k in section && Accepted(reg, cls.props[k], section[k]).None?
    ensures var vals := Parsed(reg, cls, section);
            && k in vals && vals[k] == cls.props[k].unset
            && k in Redacted(cls, Serialized(cls, vals))
            && k !in Serialized(cls, Cleared(reg, cls, Duplicated(reg, cls, vals)))
  {
    var vals := Parsed(reg, cls, section);
    ParsedHolds(reg, cls, section);
    OutOfRange(cls, vals, k);
    ShownIs(reg, cls, vals);
  }

  lemma RestampedIs(reg: Registry, vals: Values, ts: nat)
    requires HasTimestamp(reg) && reg.timestamp in vals
    requires var cls := reg.classes[reg.connection];
             ValidClass(cls) && ExactClass(cls) && cls.props[reg.timestamp].valid(Stamp(ts))
    ensures var cls := reg.classes[reg.connection];
            Serialized(cls, vals[reg.timestamp := Stamp(ts)]) == Restamped(reg, Serialized(cls, vals), ts)
  {
  }

  /** The tracked timestamp is one the connection setting can hold. */
  ghost predicate ValidStamp(reg: Registry, ts: Option<nat>) {
    ts.Some? ==> HasTimestamp(reg) && reg.classes[reg.connection].props[reg.timestamp].valid(Stamp(ts.value))
  }

  lemma PreparedAt(reg: Registry, c: ConnVal, ts: Option<nat>, t: string)
    requires t in c && t in reg.classes && c[t].Keys == reg.classes[t].props.Keys && (ts.Some? ==> CanStamp(reg, c))
    ensures t in Prepared(reg, c, ts)
    ensures var vals := Cleared(reg, reg.classes[t], Duplicated(reg, reg.classes[t], c[t]));
            Prepared(reg, c, ts)[t] ==
              if t != reg.connection || ts.None? then vals
              else
                var p := reg.classes[t].props[reg.timestamp];
                vals[reg.timestamp := AcceptedOr(reg, p, Stamp(ts.value), vals[reg.timestamp])]
  {
  }

  lemma PublicTypeIs(reg: Registry, c: ConnVal, ts: Option<nat>, t: string)
    requires t in c && t in reg.classes && ValidStamp(reg, ts) && (ts.Some? ==> CanStamp(reg, c))
    requires var cls := reg.classes[t];
             ValidClass(cls) && StoresValid(reg, cls) && ExactClass(cls) && ValidValues(cls, c[t])
    ensures t in Prepared(reg, c, ts)
    ensures Serialized(reg.classes[t], Prepared(reg, c, ts)[t]) == PublicType(reg, c, ts, t)
  {
    var cls := reg.classes[t];
    PreparedAt(reg, c, ts, t);
    ShownIs(reg, cls, c[t]);
    if t == reg.connection && ts.Some? {
      assert Accepted(reg, cls.props[reg.timestamp], Stamp(ts.value)) == Some(Stamp(ts.value));
      RestampedIs(reg, Cleared(reg, cls, Duplicated(reg, cls, c[t])), ts.value);
    }
  }

  /** The public settings are the connection's own serialization, redacted, restamped and in range. */
  lemma PublicIs(reg: Registry, c: ConnVal, ts: Option<nat>)
    requires ValidRegistry(reg) && ValidConn(reg, c) && ValidStamp(reg, ts)
    requires ts.Some? ==> CanStamp(reg, c)
    ensures SerializedTypes(reg, Prepared(reg, c, ts)) == PublicTypes(reg, c, ts)
  {
    var prepared := Prepared(reg, c, ts);
    forall t | t in c ensures t in prepared && Serialized(reg.classes[t], prepared[t]) == PublicType(reg, c, ts, t) {
      PublicTypeIs(reg, c, ts, t);
    }
    PreparedKeys(reg, c, ts);
    SameMaps(SerializedTypes(reg, prepared), PublicTypes(reg, c, ts));
  }

  /** The timestamp is replaced anyway if one is tracked. */
  function Exempt(reg: Registry, ts: Option<nat>, t: string): set<string> {
    if t == reg.connection && ts.Some? then {reg.timestamp} else {}
  }

  ghost predicate InRangeConn(reg: Registry, c: ConnVal, ts: Option<nat>) {
    forall t | t in c && t in reg.classes :: InRange(reg.classes[t], c[t], Exempt(reg, ts, t))
  }

  lemma PublicTypeIff(reg: Registry, c: ConnVal, ts: Option<nat>, t: string)
    requires t in c && t in reg.classes && (ts.Some? ==> HasTimestamp(reg))
    requires var cls := reg.classes[t]; ValidClass(cls) && ExactClass(cls) && ValidValues(cls, c[t])
    ensures PublicType(reg, c, ts, t) == RedactedType(reg, c, ts, t) <==>
            InRange(reg.classes[t], c[t], Exempt(reg, ts, t))
  {
    var cls := reg.classes[t];
    if InRange(cls, c[t], Exempt(reg, ts, t)) {
      SameMaps(PublicType(reg, c, ts, t), RedactedType(reg, c, ts, t));
    } else {
      var k :| k in cls.props && k in c[t] && cls.props[k].serialize && !cls.props[k].secret
               && k !in Exempt(reg, ts, t) && !cls.props[k].valid(c[t][k]);
      OutOfRange(cls, c[t], k);
      assert k in RedactedType(reg, c, ts, t) && k !in PublicType(reg, c, ts, t);
    }
  }

  /** They are no more than redacted and restamped iff no value that they would show is out of range. */
  lemma PublicIff(reg: Registry, c: ConnVal, ts: Option<nat>)
    requires ValidRegistry(reg) && ValidConn(reg, c) && ValidStamp(reg, ts)
    requires ts.Some? ==> CanStamp(reg, c)
    ensures SerializedTypes(reg, Prepared(reg, c, ts)) == RedactedTypes(reg, c, ts) <==> InRangeConn(reg, c, ts)
  {
    PublicIs(reg, c, ts);
    forall t | t in c
      ensures PublicTypes(reg, c, ts)[t] == RedactedTypes(reg, c, ts)[t] <==>
              InRange(reg.classes[t], c[t], Exempt(reg, ts, t))
    {
      PublicTypeIff(reg, c, ts, t);
    }
    if InRangeConn(reg, c, ts) {
      SameMaps(PublicTypes(reg, c, ts), RedactedTypes(reg, c, ts));
    }
  }

  lemma PreparedKeys(reg: Registry, c: ConnVal, ts: Option<nat>)
    requires CompleteConn(reg, c)
    ensures SerializedTypes(reg, Prepared(reg, c, ts)).Keys == c.Keys
  {
    assert Prepared(reg, c, ts).Keys == c.Keys;
  }

  // ---------- Diff ----------

  /** Where each differing property of a shared setting has a value other than its default. */
  function SharedDiff(cls: SettingClass, a: Values, b: Values, flags: CompareFlags): SettingDiff {
    map k | k in cls.props && Diffed(cls, k, flags) && k in a && k in b && a[k] != b[k] ::
      DiffResult(a[k] != cls.props[k].default, b[k] != cls.props[k].default)
  }

  function OneSidedDiff(cls: SettingClass, flags: CompareFlags, side: DiffResult): SettingDiff {
    map k | k in cls.props && Diffed(cls, k, flags) :: side
  }

  /** What a diff has to say about one type of setting. */
  function TypeDiff(reg: Registry, a: ConnVal, b: ConnVal, flags: CompareFlags, t: string): SettingDiff
    requires t in reg.classes
  {
    if t in a && t in b then SharedDiff(reg.classes[t], a[t], b[t], flags)
    else if t in a then OneSidedDiff(reg.classes[t], flags, IN_A)
    else if t in b then OneSidedDiff(reg.classes[t], flags, IN_B)
    else map[]
  }

  /** The diff of two connections: what there is to report on each type, and no empty entry. */
  ghost predicate IsDiff(reg: Registry, a: ConnVal, b: ConnVal, flags: CompareFlags, diffs: ConnDiff) {
    && NoEmptyEntry(diffs) && diffs.Keys <= AllNames(reg)
    && forall t | t in reg.classes :: At(diffs, reg.classes[t].settingName) == TypeDiff(reg, a, b, flags, t)
  }

  /** A diff of a against b, then of b against a with the meaning of the bits inverted. */
  ghost predicate TwoPasses(reg: Registry, a: ConnVal, b: ConnVal, flags: CompareFlags, diffs: ConnDiff) {
    exists first ::
      PassDone(reg, a, b, flags, false, map[], {}, first) && PassDone(reg, b, a, flags, true, first, {}, diffs)
  }

  lemma OneSidedPass(cls: SettingClass, a: Values, flags: CompareFlags)
    requires ValidValues(cls, a)
    ensures OnePass(cls, a, None, flags, false) == OneSidedDiff(cls, flags, IN_A)
    ensures OnePass(cls, a, None, flags, true) == OneSidedDiff(cls, flags, IN_B)
  {
  }

  lemma SharedProp(p: PropSpec, a: GValue, b: GValue)
    requires forall v, w | Holds(p, v) && Holds(p, w) :: p.same(v, w) <==> v == w
    requires Holds(p, p.default) && Holds(p, a) && Holds(p, b)
    ensures PropDiff(p, a, Some(b), false) == PropDiff(p, b, Some(a), true)
    ensures PropDiff(p, a, Some(b), false) ==
            if a == b then None else Some(DiffResult(a != p.default, b != p.default))
  {
  }

  lemma SharedAt(cls: SettingClass, a: Values, b: Values, flags: CompareFlags, k: string)
    requires ValidClass(cls) && ExactClass(cls) && ValidValues(cls, a) && ValidValues(cls, b) && k in cls.props
    ensures PropDiffAt(cls, a, Some(b), flags, false, k) == PropDiffAt(cls, b, Some(a), flags, true, k)
    ensures PropDiffAt(cls, a, Some(b), flags, false, k) ==
            if !Diffed(cls, k, flags) || a[k] == b[k] then None
            else Some(DiffResult(a[k] != cls.props[k].default, b[k] != cls.props[k].default))
  {
    assert ValidProp(cls.props[k]);
    SharedProp(cls.props[k], a[k], b[k]);
  }

  lemma PassIs(cls: SettingClass, a: Values, b: Values, flags: CompareFlags, invert: bool, d: SettingDiff)
    requires d.Keys <= cls.props.Keys
    requires forall k | k in cls.props ::
               PropDiffAt(cls, a, Some(b), flags, invert, k) == if k in d then Some(d[k]) else None
    ensures OnePass(cls, a, Some(b), flags, invert) == d
  {
  }

  /** The two directions of a diff agree on a shared setting. */
  lemma SharedPass(cls: SettingClass, a: Values, b: Values, flags: CompareFlags)
    requires ValidClass(cls) && ExactClass(cls) && ValidValues(cls, a) && ValidValues(cls, b)
    ensures OnePass(cls, a, Some(b), flags, false) == SharedDiff(cls, a, b, flags)
    ensures OnePass(cls, b, Some(a), flags, true) == SharedDiff(cls, a, b, flags)
  {
    var d := SharedDiff(cls, a, b, flags);
    forall k | k in cls.props
      ensures PropDiffAt(cls, a, Some(b), flags, false, k) == if k in d then Some(d[k]) else None
      ensures PropDiffAt(cls, b, Some(a), flags, true, k) == if k in d then Some(d[k]) else None
    {
      SharedAt(cls, a, b, flags, k);
    }
    PassIs(cls, a, b, flags, false, d);
    PassIs(cls, b, a, flags, true, d);
  }

  /**
   One direction of the diff, added to diffs0, for settings filed under the names they have; the
   types in rest are still to be visited.
   */
  ghost predicate PassMade(
    reg: Registry, a: ConnVal, b: ConnVal, flags: CompareFlags, invert: bool, diffs0: ConnDiff, rest: set<string>,
    diffs: ConnDiff)
  {
    && NoEmptyEntry(diffs)
    && (diffs == map[] <==> diffs0 == map[] && QuietPass(reg, a - rest, b, flags, invert))
    && (InjectiveNames(Names(reg)) && Named(reg, a) && diffs0.Keys <= AllNames(reg) ==>
          PassDone(reg, a, b, flags, invert, diffs0, rest, diffs))
  }

  lemma PassMadeStart(reg: Registry, a: ConnVal, b: ConnVal, flags: CompareFlags, invert: bool, diffs0: ConnDiff)
    requires NoEmptyEntry(diffs0) && CompleteConn(reg, a)
    ensures PassMade(reg, a, b, flags, invert, diffs0, a.Keys, diffs0)
  {
    assert a - a.Keys == map[];
  }

  lemma PassMadeStep(
    reg: Registry, a: ConnVal, b: ConnVal, flags: CompareFlags, invert: bool, diffs0: ConnDiff, rest: set<string>,
    t: string, diffs: ConnDiff)
    requires t in rest && t in a && t in reg.classes && HasName(a[t])
    requires PassMade(reg, a, b, flags, invert, diffs0, rest, diffs)
    ensures PassMade(reg, a, b, flags, invert, diffs0, rest - {t},
                     Filed(diffs, a[t][NAME].s, TypePass(reg, a, b, flags, invert, t)))
  {
    FiledAt(diffs, a[t][NAME].s, TypePass(reg, a, b, flags, invert, t));
    FiledNothing(diffs, a[t][NAME].s, TypePass(reg, a, b, flags, invert, t));
    QuietStep(reg, a, b, flags, invert, rest, t);
    if InjectiveNames(Names(reg)) && Named(reg, a) && diffs0.Keys <= AllNames(reg) {
      assert NamedAt(reg, a, t);
      PassStep(reg, a, b, flags, invert, diffs0, rest, t, diffs);
    }
  }

  /** Two passes over settings with any names: empty iff there is nothing to report. */
  lemma TwoPassesMade(reg: Registry, a: ConnVal, b: ConnVal, flags: CompareFlags, first: ConnDiff, diffs: ConnDiff)
    requires ValidRegistry(reg) && ValidConn(reg, a) && ValidConn(reg, b)
    requires PassMade(reg, a, b, flags, false, map[], {}, first) && PassMade(reg, b, a, flags, true, first, {}, diffs)
    ensures diffs == map[] <==> NothingToReport(reg, a, b, flags)
    ensures Named(reg, a) && Named(reg, b) ==> IsDiff(reg, a, b, flags, diffs)
  {
    assert a - {} == a && b - {} == b;
    QuietIff(reg, a, b, flags);
    if Named(reg, a) && Named(reg, b) {
      assert PassDone(reg, a, b, flags, false, map[], {}, first);
      assert PassDone(reg, b, a, flags, true, first, {}, diffs);
      TwoPassesIsDiff(reg, a, b, flags, diffs);
    }
  }

  lemma TwoPassesOf(reg: Registry, a: ConnVal, b: ConnVal, flags: CompareFlags, t: string)
    requires ValidRegistry(reg) && ValidConn(reg, a) && ValidConn(reg, b) && t in reg.classes
    ensures var one := if t in a then Merged(map[], TypePass(reg, a, b, flags, false, t)) else map[];
            TypeDiff(reg, a, b, flags, t) == if t in b then Merged(one, TypePass(reg, b, a, flags, true, t)) else one
  {
    var cls := reg.classes[t];
    MergedUnits(TypeDiff(reg, a, b, flags, t));
    if t in a && t in b {
      SharedPass(cls, a[t], b[t], flags);
    } else if t in a {
      OneSidedPass(cls, a[t], flags);
    } else if t in b {
      OneSidedPass(cls, b[t], flags);
    }
  }

  /** The two passes amount to the pointwise diff. */
  lemma TwoPassesIsDiff(reg: Registry, a: ConnVal, b: ConnVal, flags: CompareFlags, diffs: ConnDiff)
    requires ValidRegistry(reg) && ValidConn(reg, a) && ValidConn(reg, b)
    requires TwoPasses(reg, a, b, flags, diffs)
    ensures IsDiff(reg, a, b, flags, diffs)
  {
    var first :|
      PassDone(reg, a, b, flags, false, map[], {}, first) && PassDone(reg, b, a, flags, true, first, {}, diffs);
    forall t | t in reg.classes ensures At(diffs, reg.classes[t].settingName) == TypeDiff(reg, a, b, flags, t) {
      TwoPassesOf(reg, a, b, flags, t);
      assert At(first, reg.classes[t].settingName) == AfterPass(reg, a, b, flags, false, map[], t);
    }
  }

  lemma QuietType(reg: Registry, a: ConnVal, b: ConnVal, flags: CompareFlags, t: string)
    requires ValidRegistry(reg) && ValidConn(reg, a) && ValidConn(reg, b) && t in reg.classes
    ensures TypeDiff(reg, a, b, flags, t) == map[] <==>
            && (t in a ==> TypePass(reg, a, b, flags, false, t) == map[])
            && (t in b ==> TypePass(reg, b, a, flags, true, t) == map[])
  {
    TwoPassesOf(reg, a, b, flags, t);
    var one := if t in a then Merged(map[], TypePass(reg, a, b, flags, false, t)) else map[];
    MergedNothing(map[], if t in a then TypePass(reg, a, b, flags, false, t) else map[]);
    MergedNothing(one, if t in b then TypePass(reg, b, a, flags, true, t) else map[]);
  }

  /** Two passes with nothing to add: nothing to report, whatever settings are called. */
  lemma QuietIff(reg: Registry, a: ConnVal, b: ConnVal, flags: CompareFlags)
    requires ValidRegistry(reg) && ValidConn(reg, a) && ValidConn(reg, b)
    ensures NothingToReport(reg, a, b, flags) <==>
            QuietPass(reg, a, b, flags, false) && QuietPass(reg, b, a, flags, true)
  {
    forall t | t in reg.classes
      ensures TypeDiff(reg, a, b, flags, t) == map[] <==>
              && (t in a ==> TypePass(reg, a, b, flags, false, t) == map[])
              && (t in b ==> TypePass(reg, b, a, flags, true, t) == map[])
    {
      QuietType(reg, a, b, flags, t);
    }
  }

  lemma SelfDiff(reg: Registry, a: ConnVal, flags: CompareFlags)
    requires ValidConn(reg, a)
    ensures IsDiff(reg, a, a, flags, map[]) && NothingToReport(reg, a, a, flags)
  {
  }

  // ---------- Serializing and parsing ----------

  /** What survives being stored: properties that are not serialized start afresh. */
  function Stored(cls: SettingClass, vals: Values): Values {
    map k | k in cls.props :: if cls.props[k].serialize && k in vals then vals[k] else cls.props[k].initial
  }

  function StoredConn(reg: Registry, c: ConnVal): ConnVal {
    map t | t in c && t in reg.classes :: Stored(reg.classes[t], c[t])
  }

  ghost predicate AllRegistered(reg: Registry, c: ConnVal) {
    forall t | t in c :: t in reg.classes && reg.classes[t].settingName in reg.registered
  }

  lemma ParsedSerialized(reg: Registry, cls: SettingClass, vals: Values)
    requires ValidClass(cls) && StoresValid(reg, cls) && ExactClass(cls) && ValidValues(cls, vals)
    ensures Parsed(reg, cls, Serialized(cls, vals)) == Stored(cls, vals)
  {
    forall k | k in cls.props
      ensures ParsedProp(reg, cls, Serialized(cls, vals), k) ==
              if cls.props[k].serialize then vals[k] else cls.props[k].initial
    {
      var p := cls.props[k];
      assert ValidProp(p) && Holds(p, vals[k]) && Holds(p, p.default);
      assert p.serialize ==> Stores(reg, p);
    }
  }

  lemma RegisteredType(reg: Registry, t: string)
    requires ValidNames(reg) && t in reg.classes && reg.classes[t].settingName in reg.registered
    ensures reg.registered[reg.classes[t].settingName] == t
  {
    var u := reg.registered[reg.classes[t].settingName];
    assert Names(reg)[u] == Names(reg)[t];
  }

  lemma ParsedTypesAre(reg: Registry, c: ConnVal, hash: ConnHash)
    requires ValidNames(reg) && AllRegistered(reg, c) && IsRenamed(Names(reg), SerializedTypes(reg, c), hash)
    ensures TypesNamed(reg, hash.Keys) == c.Keys
  {
    forall t | t in c ensures t in TypesNamed(reg, hash.Keys) {
      RegisteredType(reg, t);
      assert t in SerializedTypes(reg, c) && Names(reg)[t] in hash;
    }
    forall t | t in TypesNamed(reg, hash.Keys) ensures t in c {
      var n :| n in hash && n in reg.registered && reg.registered[n] == t;
      var u :| u in SerializedTypes(reg, c) && u in Names(reg) && Names(reg)[u] == n;
      assert Names(reg)[t] == n;
    }
  }

  /** Where settings have their classes' names, sections are filed under these. */
  lemma NamedSerialized(reg: Registry, c: ConnVal, hash: ConnHash)
    requires InjectiveNames(Names(reg)) && CompleteConn(reg, c) && Named(reg, c)
    ensures IsSerialized(reg, c, hash) <==> IsRenamed(Names(reg), SerializedTypes(reg, c), hash)
  {
    forall t | t in c ensures t in NamesOf(c) && NamesOf(c)[t] == Names(reg)[t] {
      assert NamedAt(reg, c, t);
    }
    FiledRenamed(NamesOf(c), Names(reg), SerializedTypes(reg, c), hash);
  }

  /**
   Parsing a connection's serialization gives the connection back, as far as it is stored, if
   settings have their classes' names.
   */
  lemma RoundTrip(reg: Registry, c: ConnVal, hash: ConnHash)
    requires ValidRegistry(reg) && ValidConn(reg, c) && AllRegistered(reg, c)
    requires Named(reg, c) && IsSerialized(reg, c, hash)
    ensures ParsedConn(reg, hash) == StoredConn(reg, c)
  {
    NamedSerialized(reg, c, hash);
    ParsedBack(reg, c, hash);
  }

  lemma ParsedBack(reg: Registry, c: ConnVal, hash: ConnHash)
    requires ValidRegistry(reg) && ValidConn(reg, c) && AllRegistered(reg, c)
    requires IsRenamed(Names(reg), SerializedTypes(reg, c), hash)
    ensures ParsedConn(reg, hash) == StoredConn(reg, c)
  {
    ParsedTypesAre(reg, c, hash);
    forall t | t in c
      ensures reg.classes[t].settingName in hash
      ensures Parsed(reg, reg.classes[t], hash[reg.classes[t].settingName]) == Stored(reg.classes[t], c[t])
    {
      assert t in SerializedTypes(reg, c) && t in Names(reg);
      assert Names(reg)[t] in hash;
      ParsedSerialized(reg, reg.classes[t], c[t]);
    }
    SameMaps(ParsedConn(reg, hash), StoredConn(reg, c));
  }

  /** Every property that is not serialized has its initial value. */
  ghost predicate OnlyStored(cls: SettingClass, vals: Values) {
    forall k | k in cls.props && !cls.props[k].serialize :: k in vals && vals[k] == cls.props[k].initial
  }

  ghost predicate OnlyStoredConn(reg: Registry, c: ConnVal) {
    forall t | t in c && t in reg.classes :: OnlyStored(reg.classes[t], c[t])
  }

  lemma StoredIff(cls: SettingClass, vals: Values)
    requires vals.Keys == cls.props.Keys
    ensures Stored(cls, vals) == vals <==> OnlyStored(cls, vals)
  {
    var stored := Stored(cls, vals);
    if OnlyStored(cls, vals) {
      SameMaps(stored, vals);
    } else {
      var k :| k in cls.props && !cls.props[k].serialize && vals[k] != cls.props[k].initial;
      assert stored[k] != vals[k];
    }
  }

  lemma StoredConnIff(reg: Registry, c: ConnVal)
    requires CompleteConn(reg, c)
    ensures StoredConn(reg, c) == c <==> OnlyStoredConn(reg, c)
  {
    var stored := StoredConn(reg, c);
    forall t | t in c ensures t in stored && (stored[t] == c[t] <==> OnlyStored(reg.classes[t], c[t])) {
      StoredIff(reg.classes[t], c[t]);
    }
    if OnlyStoredConn(reg, c) {
      SameMaps(stored, c);
    }
  }

  /**
   The parsed connection compares as exactly the same if and only if the properties that are
   not serialized have their initial values; and then it is the same, so it verifies too. The
   name is one of them: a renamed setting is not parsed back.
   */
  lemma RoundTripIff(reg: Registry, c: ConnVal, hash: ConnHash)
    requires ValidRegistry(reg) && KnownNames(reg) && ValidConn(reg, c) && AllRegistered(reg, c)
    requires IsSerialized(reg, c, hash)
    ensures SameConn(reg, c, ParsedConn(reg, hash), EXACT) <==> OnlyStoredConn(reg, c)
    ensures OnlyStoredConn(reg, c) <==> ParsedConn(reg, hash) == c
  {
    if Named(reg, c) {
      RoundTrip(reg, c, hash);
      StoredValid(reg, c);
      SameExact(reg, c, StoredConn(reg, c));
      StoredConnIff(reg, c);
    } else {
      var t :| !NamedAt(reg, c, t);
      assert NamedType(reg, t);
      assert !OnlyStored(reg.classes[t], c[t]);
      RenamedNotParsed(reg, c, hash, t);
    }
  }

  lemma RenamedNotParsed(reg: Registry, c: ConnVal, hash: ConnHash, t: string)
    requires ValidRegistry(reg) && KnownNames(reg) && ValidConn(reg, c) && !NamedAt(reg, c, t)
    ensures t in ParsedConn(reg, hash) ==> ParsedConn(reg, hash)[t] != c[t]
    ensures !SameConn(reg, c, ParsedConn(reg, hash), EXACT)
  {
    var cls := reg.classes[t];
    assert NamedType(reg, t) && Holds(cls.props[NAME], c[t][NAME]);
    if t in ParsedConn(reg, hash) {
      var parsed := Parsed(reg, cls, hash[cls.settingName]);
      NamedParsed(reg, t, hash[cls.settingName]);
      assert Holds(cls.props[NAME], parsed[NAME]) && !SameProp(cls, c[t], parsed, EXACT, NAME);
    }
  }

  lemma StoredValid(reg: Registry, c: ConnVal)
    requires ValidRegistry(reg) && ValidConn(reg, c)
    ensures ValidConn(reg, StoredConn(reg, c))
  {
    forall t | t in c ensures ValidValues(reg.classes[t], Stored(reg.classes[t], c[t])) {
    }
  }

  /** An exact comparison is equality. */
  lemma SameExact(reg: Registry, a: ConnVal, b: ConnVal)
    requires ValidRegistry(reg) && ValidConn(reg, a) && ValidConn(reg, b)
    ensures SameConn(reg, a, b, EXACT) <==> a == b
  {
    if SameConn(reg, a, b, EXACT) {
      forall t | t in a ensures t in b && a[t] == b[t] {
        var cls := reg.classes[t];
        forall k | k in cls.props ensures a[t][k] == b[t][k] {
          assert SameProp(cls, a[t], b[t], EXACT, k);
        }
        SameMaps(a[t], b[t]);
      }
      SameMaps(a, b);
    }
    if a == b {
      SameReflexive(reg, a, EXACT);
    }
  }

  // ---------- Comparing is an equivalence ----------

  lemma SameReflexive(reg: Registry, a: ConnVal, flags: CompareFlags)
    requires ValidRegistry(reg) && ValidConn(reg, a)
    ensures SameConn(reg, a, a, flags)
  {
    forall t, k | t in a && k in reg.classes[t].props ensures SameProp(reg.classes[t], a[t], a[t], flags, k) {
      assert Holds(reg.classes[t].props[k], a[t][k]);
    }
  }

  lemma SameTransitive(reg: Registry, a: ConnVal, b: ConnVal, c: ConnVal, flags: CompareFlags)
    requires ValidRegistry(reg) && ValidConn(reg, a) && ValidConn(reg, b) && ValidConn(reg, c)
    requires SameConn(reg, a, b, flags) && SameConn(reg, b, c, flags)
    ensures SameConn(reg, a, c, flags) && SameConn(reg, b, a, flags)
  {
    IncludesTransitive(reg, a, b, c, flags);
    IncludesTransitive(reg, c, b, a, flags);
  }

  lemma SameValuesTransitive(cls: SettingClass, a: Values, b: Values, c: Values, flags: CompareFlags)
    requires ExactClass(cls) && ValidValues(cls, a) && ValidValues(cls, b) && ValidValues(cls, c)
    requires SameValues(cls, a, b, flags) && SameValues(cls, b, c, flags)
    ensures SameValues(cls, a, c, flags)
  {
    forall k | k in cls.props ensures SameProp(cls, a, c, flags, k) {
      assert SameProp(cls, a, b, flags, k) && SameProp(cls, b, c, flags, k);
      assert Holds(cls.props[k], a[k]) && Holds(cls.props[k], b[k]) && Holds(cls.props[k], c[k]);
    }
  }

  lemma IncludesTransitive(reg: Registry, a: ConnVal, b: ConnVal, c: ConnVal, flags: CompareFlags)
    requires ValidRegistry(reg) && ValidConn(reg, a) && ValidConn(reg, b) && ValidConn(reg, c)
    requires Includes(reg, a, b, flags) && Includes(reg, b, c, flags)
    ensures Includes(reg, a, c, flags)
  {
    forall t | t in a ensures t in c && SameValues(reg.classes[t], a[t], c[t], flags) {
      SameValuesTransitive(reg.classes[t], a[t], b[t], c[t], flags);
    }
  }

  // ---------- Serializing what was parsed ----------

  /**
   A section restricted to serialized keys with a value that is not the default; a value that is
   not accepted has given way to the one that construction leaves.
   */
  function Normalized(reg: Registry, cls: SettingClass, section: Values): Values {
    map k | k in cls.props && k in section && cls.props[k].serialize
            && AcceptedOr(reg, cls.props[k], section[k], cls.props[k].unset) != cls.props[k].default ::
      AcceptedOr(reg, cls.props[k], section[k], cls.props[k].unset)
  }

  lemma SerializedParsed(reg: Registry, cls: SettingClass, section: Values)
    requires ValidClass(cls) && ExactClass(cls)
    ensures Serialized(cls, Parsed(reg, cls, section)) == Normalized(reg, cls, section)
  {
    forall k | k in cls.props
      ensures Holds(cls.props[k], ParsedProp(reg, cls, section, k)) && Holds(cls.props[k], cls.props[k].default)
      ensures cls.props[k].serialize ==>
                ParsedProp(reg, cls, section, k) ==
                if k in section then AcceptedOr(reg, cls.props[k], section[k], cls.props[k].unset)
                else cls.props[k].default
    {
    }
  }

  lemma AcceptedTwice(reg: Registry, p: PropSpec, v: GValue)
    requires Stores(reg, p) && p.serialize
    ensures AcceptedOr(reg, p, AcceptedOr(reg, p, v, p.unset), p.unset) == AcceptedOr(reg, p, v, p.unset)
  {
    assert Holds(p, AcceptedOr(reg, p, v, p.unset));
  }

  lemma NormalizedTwice(reg: Registry, cls: SettingClass, section: Values)
    requires ValidClass(cls) && StoresValid(reg, cls)
    ensures Normalized(reg, cls, Normalized(reg, cls, section)) == Normalized(reg, cls, section)
  {
    var once := Normalized(reg, cls, section);
    forall k | k in once ensures AcceptedOr(reg, cls.props[k], once[k], cls.props[k].unset) == once[k] {
      AcceptedTwice(reg, cls.props[k], section[k]);
    }
    SameMaps(Normalized(reg, cls, once), once);
  }

  /** A hash restricted to known sections, each normalized. */
  function NormalizedHash(reg: Registry, hash: ConnHash): ConnHash {
    map n | n in hash && n in reg.registered && reg.registered[n] in reg.classes ::
      Normalized(reg, reg.classes[reg.registered[n]], hash[n])
  }

  /** Serializing a parsed hash gives the normalized hash. */
  lemma SerializeParsed(reg: Registry, hash: ConnHash, out: ConnHash)
    requires ValidRegistry(reg) && KnownNames(reg) && IsSerialized(reg, ParsedConn(reg, hash), out)
    ensures out == NormalizedHash(reg, hash)
  {
    ParsedValid(reg, hash);
    NamedSerialized(reg, ParsedConn(reg, hash), out);
    SerializedBack(reg, hash, out);
  }

  lemma SerializedBack(reg: Registry, hash: ConnHash, out: ConnHash)
    requires ValidRegistry(reg) && IsRenamed(Names(reg), SerializedTypes(reg, ParsedConn(reg, hash)), out)
    ensures out == NormalizedHash(reg, hash)
  {
    var c, norm := ParsedConn(reg, hash), NormalizedHash(reg, hash);
    forall n | n in norm ensures n in out && out[n] == norm[n] {
      var t := reg.registered[n];
      assert t in TypesNamed(reg, hash.Keys) && Names(reg)[t] == n;
      SerializedParsed(reg, reg.classes[t], hash[n]);
      assert t in SerializedTypes(reg, c);
    }
    forall n | n in out ensures n in norm {
      var t :| t in SerializedTypes(reg, c) && t in Names(reg) && Names(reg)[t] == n;
      assert t in TypesNamed(reg, hash.Keys);
      var m :| m in hash && m in reg.registered && reg.registered[m] == t;
      assert Names(reg)[t] == m;
    }
    SameMaps(out, norm);
  }

  /** Parsing and serializing a second time changes nothing. */
  lemma SerializeParseIdempotent(reg: Registry, hash: ConnHash, once: ConnHash, twice: ConnHash)
    requires ValidRegistry(reg) && KnownNames(reg)
    requires IsSerialized(reg, ParsedConn(reg, hash), once) && IsSerialized(reg, ParsedConn(reg, once), twice)
    ensures twice == once
  {
    SerializeParsed(reg, hash, once);
    SerializeParsed(reg, once, twice);
    NormalizedHashTwice(reg, hash);
  }

  lemma NormalizedHashTwice(reg: Registry, hash: ConnHash)
    requires ValidRegistry(reg)
    ensures NormalizedHash(reg, NormalizedHash(reg, hash)) == NormalizedHash(reg, hash)
  {
    var once := NormalizedHash(reg, hash);
    forall n | n in once ensures n in NormalizedHash(reg, once) && NormalizedHash(reg, once)[n] == once[n] {
      NormalizedTwice(reg, reg.classes[reg.registered[n]], hash[n]);
    }
    SameMaps(once, NormalizedHash(reg, once));
  }

  // ---------- Diff against comparison ----------

  /** Some property other than the name is looked at under the flags. */
  ghost predicate HasDiffed(cls: SettingClass, flags: CompareFlags) {
    exists k :: Diffed(cls, k, flags)
  }

  ghost predicate NothingToReport(reg: Registry, a: ConnVal, b: ConnVal, flags: CompareFlags) {
    forall t | t in reg.classes :: TypeDiff(reg, a, b, flags, t) == map[]
  }

  lemma EmptyDiff(reg: Registry, a: ConnVal, b: ConnVal, flags: CompareFlags, diffs: ConnDiff)
    requires IsDiff(reg, a, b, flags, diffs)
    ensures diffs == map[] <==> NothingToReport(reg, a, b, flags)
  {
    if NothingToReport(reg, a, b, flags) {
      assert forall t | t in reg.classes :: reg.classes[t].settingName !in diffs;
      assert diffs.Keys == {};
    }
  }

  /** Names are compared, but not diffed. */
  ghost predicate SameName(cls: SettingClass, a: Values, b: Values, flags: CompareFlags) {
    NAME in cls.props ==> SameProp(cls, a, b, flags, NAME)
  }

  lemma EmptySharedDiff(cls: SettingClass, a: Values, b: Values, flags: CompareFlags)
    requires ExactClass(cls) && ValidValues(cls, a) && ValidValues(cls, b)
    ensures SharedDiff(cls, a, b, flags) == map[] && SameName(cls, a, b, flags) <==> SameValues(cls, a, b, flags)
  {
    var d := SharedDiff(cls, a, b, flags);
    forall k | k in cls.props && k != NAME ensures k in d <==> !SameProp(cls, a, b, flags, k) {
      assert Holds(cls.props[k], a[k]) && Holds(cls.props[k], b[k]);
    }
    if k :| k in d {
      assert !SameProp(cls, a, b, flags, k);
    }
  }

  ghost predicate SameType(reg: Registry, a: ConnVal, b: ConnVal, flags: CompareFlags, t: string)
    requires t in reg.classes
  {
    (t in a <==> t in b) && (t in a && t in b ==> SameValues(reg.classes[t], a[t], b[t], flags))
  }

  /** What a diff does not say about a type: its name, and a setting on one side with nothing to diff. */
  ghost predicate Unsaid(reg: Registry, a: ConnVal, b: ConnVal, flags: CompareFlags, t: string)
    requires t in reg.classes
  {
    || (t in a && t in b && !SameName(reg.classes[t], a[t], b[t], flags))
    || ((t in a <==> t !in b) && !HasDiffed(reg.classes[t], flags))
  }

  lemma TypeAgrees(reg: Registry, a: ConnVal, b: ConnVal, flags: CompareFlags, t: string)
    requires t in reg.classes && ExactClass(reg.classes[t]) && ValidConn(reg, a) && ValidConn(reg, b)
    ensures SameType(reg, a, b, flags, t) <==> TypeDiff(reg, a, b, flags, t) == map[] && !Unsaid(reg, a, b, flags, t)
  {
    var cls := reg.classes[t];
    if t in a && t in b {
      EmptySharedDiff(cls, a[t], b[t], flags);
    } else if k :| Diffed(cls, k, flags) {
      assert k in OneSidedDiff(cls, flags, IN_A) && k in OneSidedDiff(cls, flags, IN_B);
    }
  }

  lemma SameConnByType(reg: Registry, a: ConnVal, b: ConnVal, flags: CompareFlags)
    requires ValidRegistry(reg) && ValidConn(reg, a) && ValidConn(reg, b)
    ensures SameConn(reg, a, b, flags) <==> forall t | t in reg.classes :: SameType(reg, a, b, flags, t)
  {
    if forall t | t in reg.classes :: SameType(reg, a, b, flags, t) {
      forall t | t in b ensures t in a && SameValues(reg.classes[t], b[t], a[t], flags) {
        assert SameType(reg, a, b, flags, t);
        SameValuesSymmetric(reg.classes[t], a[t], b[t], flags);
      }
      forall t | t in a ensures t in b && SameValues(reg.classes[t], a[t], b[t], flags) {
        assert SameType(reg, a, b, flags, t);
      }
    }
  }

  lemma SameValuesSymmetric(cls: SettingClass, a: Values, b: Values, flags: CompareFlags)
    requires ExactClass(cls) && ValidValues(cls, a) && ValidValues(cls, b) && SameValues(cls, a, b, flags)
    ensures SameValues(cls, b, a, flags)
  {
    forall k | k in cls.props ensures SameProp(cls, b, a, flags, k) {
      assert SameProp(cls, a, b, flags, k) && Holds(cls.props[k], a[k]) && Holds(cls.props[k], b[k]);
    }
  }

  /**
   Any two connections compare as the same iff their diff has nothing to report, the names of
   settings of one type agree where they are compared, and a setting of a type without a property
   to diff is in both or in neither.
   */
  lemma SameIff(reg: Registry, a: ConnVal, b: ConnVal, flags: CompareFlags)
    requires ValidRegistry(reg) && ValidConn(reg, a) && ValidConn(reg, b)
    ensures SameConn(reg, a, b, flags) <==>
            && NothingToReport(reg, a, b, flags)
            && forall t | t in reg.classes :: !Unsaid(reg, a, b, flags, t)
  {
    SameConnByType(reg, a, b, flags);
    forall t | t in reg.classes
      ensures SameType(reg, a, b, flags, t) <==> TypeDiff(reg, a, b, flags, t) == map[] && !Unsaid(reg, a, b, flags, t)
    {
      TypeAgrees(reg, a, b, flags, t);
    }
  }

  /** Two connections that compare as different with nothing for a diff to report. */
  ghost predicate Unreported(reg: Registry, a: ConnVal, b: ConnVal, flags: CompareFlags) {
    && ValidConn(reg, a) && ValidConn(reg, b)
    && NothingToReport(reg, a, b, flags) && !SameConn(reg, a, b, flags)
  }

  lemma RenamedDiff(cls: SettingClass, vals: Values, name: GValue, flags: CompareFlags)
    requires ExactClass(cls) && ValidValues(cls, vals) && NAME in cls.props && ShouldCompare(cls, NAME, flags)
    requires Holds(cls.props[NAME], name) && name != vals[NAME]
    ensures SharedDiff(cls, vals, vals[NAME := name], flags) == map[]
    ensures !SameName(cls, vals, vals[NAME := name], flags)
  {
    assert Holds(cls.props[NAME], name) && Holds(cls.props[NAME], vals[NAME]);
    forall k | k in cls.props && k != NAME ensures SameProp(cls, vals, vals[NAME := name], flags, k) {
      assert Holds(cls.props[k], vals[k]);
    }
  }

  /** A setting that has been renamed compares as different, and the diff does not say so. */
  lemma RenamedPair(reg: Registry, t: string, name: GValue, flags: CompareFlags)
    requires ValidRegistry(reg) && t in reg.classes
    requires var cls := reg.classes[t];
             && NAME in cls.props && ShouldCompare(cls, NAME, flags)
             && Holds(cls.props[NAME], name) && name != cls.props[NAME].initial
    ensures var vals := Initial(reg.classes[t]);
            Unreported(reg, map[t := vals], map[t := vals[NAME := name]], flags)
  {
    var cls := reg.classes[t];
    var vals := Initial(cls);
    var a, b := map[t := vals], map[t := vals[NAME := name]];
    assert ValidConn(reg, a) && ValidConn(reg, b);
    RenamedDiff(cls, vals, name, flags);
    assert Unsaid(reg, a, b, flags, t);
    SameIff(reg, a, b, flags);
  }

  /** A setting on one side only, of a type without a property to diff, is not reported either. */
  lemma UndiffedPair(reg: Registry, t: string, flags: CompareFlags)
    requires ValidRegistry(reg) && KnownNames(reg) && t in reg.classes && !HasDiffed(reg.classes[t], flags)
    ensures var a, b: ConnVal := map[t := Initial(reg.classes[t])], map[];
            Named(reg, a) && Named(reg, b) && Unreported(reg, a, b, flags)
  {
    var a, b: ConnVal := map[t := Initial(reg.classes[t])], map[];
    assert NamedType(reg, t);
    assert OneSidedDiff(reg.classes[t], flags, IN_A) == map[];
    assert Unsaid(reg, a, b, flags, t);
    SameIff(reg, a, b, flags);
  }

  ghost predicate Agrees(reg: Registry, a: ConnVal, b: ConnVal, flags: CompareFlags) {
    NothingToReport(reg, a, b, flags) <==> SameConn(reg, a, b, flags)
  }

  /** A name is not compared, or there is only one that it can be. */
  ghost predicate NameSettled(cls: SettingClass, flags: CompareFlags)
    requires NAME in cls.props
  {
    ShouldCompare(cls, NAME, flags) ==> forall v | Holds(cls.props[NAME], v) :: v == cls.props[NAME].initial
  }

  ghost predicate AlwaysAgrees(reg: Registry, flags: CompareFlags) {
    forall a, b {:trigger Agrees(reg, a, b, flags)} ::
      ValidConn(reg, a) && ValidConn(reg, b) ==> Agrees(reg, a, b, flags)
  }

  ghost predicate NamedAlwaysAgrees(reg: Registry, flags: CompareFlags) {
    forall a, b {:trigger Agrees(reg, a, b, flags)} ::
      ValidConn(reg, a) && ValidConn(reg, b) && Named(reg, a) && Named(reg, b) ==> Agrees(reg, a, b, flags)
  }

  /**
   The diff and the comparison agree on all connections iff names cannot differ and every class
   has a property to diff.
   */
  lemma DiffAgreesIff(reg: Registry, flags: CompareFlags)
    requires ValidRegistry(reg) && KnownNames(reg)
    ensures AlwaysAgrees(reg, flags) <==>
            forall t | t in reg.classes ::
              NAME in reg.classes[t].props && NameSettled(reg.classes[t], flags) && HasDiffed(reg.classes[t], flags)
  {
    forall t | t in reg.classes
      ensures NAME in reg.classes[t].props
      ensures !HasDiffed(reg.classes[t], flags) || !NameSettled(reg.classes[t], flags) ==> !AlwaysAgrees(reg, flags)
    {
      assert NamedType(reg, t);
      if !HasDiffed(reg.classes[t], flags) {
        UndiffedDisagrees(reg, t, flags);
      } else if !NameSettled(reg.classes[t], flags) {
        RenamedDisagrees(reg, t, flags);
      }
    }
    if forall t | t in reg.classes :: NameSettled(reg.classes[t], flags) && HasDiffed(reg.classes[t], flags) {
      forall a, b | ValidConn(reg, a) && ValidConn(reg, b) ensures Agrees(reg, a, b, flags) {
        SettledAgrees(reg, a, b, flags);
      }
    }
  }

  lemma RenamedDisagrees(reg: Registry, t: string, flags: CompareFlags)
    requires ValidRegistry(reg) && t in reg.classes && NAME in reg.classes[t].props
    requires !NameSettled(reg.classes[t], flags)
    ensures !AlwaysAgrees(reg, flags)
  {
    var cls := reg.classes[t];
    var name :| Holds(cls.props[NAME], name) && name != cls.props[NAME].initial;
    RenamedPair(reg, t, name, flags);
    var vals := Initial(cls);
    assert !Agrees(reg, map[t := vals], map[t := vals[NAME := name]], flags);
  }

  lemma UndiffedDisagrees(reg: Registry, t: string, flags: CompareFlags)
    requires ValidRegistry(reg) && KnownNames(reg) && t in reg.classes && !HasDiffed(reg.classes[t], flags)
    ensures !AlwaysAgrees(reg, flags) && !NamedAlwaysAgrees(reg, flags)
  {
    UndiffedPair(reg, t, flags);
    assert !Agrees(reg, map[t := Initial(reg.classes[t])], map[], flags);
  }

  lemma SettledAgrees(reg: Registry, a: ConnVal, b: ConnVal, flags: CompareFlags)
    requires ValidRegistry(reg) && ValidConn(reg, a) && ValidConn(reg, b)
    requires forall t | t in reg.classes ::
               NAME in reg.classes[t].props && NameSettled(reg.classes[t], flags) && HasDiffed(reg.classes[t], flags)
    ensures Agrees(reg, a, b, flags)
  {
    SameIff(reg, a, b, flags);
    forall t | t in reg.classes ensures !Unsaid(reg, a, b, flags, t) {
      var cls := reg.classes[t];
      if t in a && t in b && ShouldCompare(cls, NAME, flags) {
        assert Holds(cls.props[NAME], a[t][NAME]) && Holds(cls.props[NAME], b[t][NAME]);
      }
    }
  }

  /** Of settings that have kept their names, the diff says all iff every class has a property to diff. */
  lemma NamedAgreesIff(reg: Registry, flags: CompareFlags)
    requires ValidRegistry(reg) && KnownNames(reg)
    ensures NamedAlwaysAgrees(reg, flags) <==> forall t | t in reg.classes :: HasDiffed(reg.classes[t], flags)
  {
    if t :| t in reg.classes && !HasDiffed(reg.classes[t], flags) {
      UndiffedDisagrees(reg, t, flags);
    } else {
      forall a, b | ValidConn(reg, a) && ValidConn(reg, b) && Named(reg, a) && Named(reg, b)
        ensures Agrees(reg, a, b, flags)
      {
        NamedTogether(reg, a, b);
        DiffAgrees(reg, a, b, flags);
      }
    }
  }

  lemma NamedTogether(reg: Registry, a: ConnVal, b: ConnVal)
    requires ValidConn(reg, a) && Named(reg, a) && Named(reg, b)
    ensures NamesAgree(a, b)
  {
    forall t | t in a && t in b ensures NAME in a[t] && NAME in b[t] && a[t][NAME] == b[t][NAME] {
      assert NamedAt(reg, a, t) && NamedAt(reg, b, t);
    }
  }

  /** Settings of one type have the same name. */
  ghost predicate NamesAgree(a: ConnVal, b: ConnVal) {
    forall t | t in a && t in b :: NAME in a[t] && NAME in b[t] && a[t][NAME] == b[t][NAME]
  }

  lemma NamedSame(cls: SettingClass, a: Values, b: Values, flags: CompareFlags)
    requires ExactClass(cls) && ValidValues(cls, a) && ValidValues(cls, b)
    requires NAME in cls.props && a[NAME] == b[NAME]
    ensures SameName(cls, a, b, flags)
  {
    assert Holds(cls.props[NAME], a[NAME]);
  }

  /** If names agree and every class has a property to diff, the diff is empty just when comparing succeeds. */
  lemma DiffAgrees(reg: Registry, a: ConnVal, b: ConnVal, flags: CompareFlags)
    requires ValidRegistry(reg) && ValidConn(reg, a) && ValidConn(reg, b)
    requires NamesAgree(a, b) && forall t | t in reg.classes :: HasDiffed(reg.classes[t], flags)
    ensures Agrees(reg, a, b, flags)
  {
    SameIff(reg, a, b, flags);
    forall t | t in reg.classes ensures !Unsaid(reg, a, b, flags, t) {
      if t in a && t in b {
        NamedSame(reg.classes[t], a[t], b[t], flags);
      }
    }
  }

  // ---------- What the flags leave out ----------

  /** FUZZY leaves out what is marked and secrets, the other flags secrets and the connection's id. */
  ghost predicate LeftOut(cls: SettingClass, k: string, flags: CompareFlags)
    requires k in cls.props
  {
    || (flags.fuzzy && (cls.props[k].fuzzyIgnore || cls.props[k].secret))
    || (flags.ignoreSecrets && cls.props[k].secret)
    || (flags.ignoreId && cls.isConnection && k == "id")
  }

  /** Settings compare as the same, and differ in a diff, by just the properties that are not left out. */
  lemma FlagsIff(cls: SettingClass, a: Values, b: Values, flags: CompareFlags)
    requires ExactClass(cls) && ValidValues(cls, a) && ValidValues(cls, b)
    ensures SameValues(cls, a, b, flags) <==> forall k | k in cls.props :: a[k] == b[k] || LeftOut(cls, k, flags)
    ensures forall k :: k in SharedDiff(cls, a, b, flags) <==>
              k in cls.props && k != "name" && a[k] != b[k] && !LeftOut(cls, k, flags)
  {
    forall k | k in cls.props ensures SameProp(cls, a, b, flags, k) <==> a[k] == b[k] || LeftOut(cls, k, flags) {
      assert Holds(cls.props[k], a[k]) && Holds(cls.props[k], b[k]);
    }
  }

  /** What the diff leaves to be compared, if it looks at every class and names are compared. */
  lemma NamesLeft(reg: Registry, a: ConnVal, b: ConnVal, flags: CompareFlags)
    requires ValidRegistry(reg) && ValidConn(reg, a) && ValidConn(reg, b)
    requires forall t | t in reg.classes ::
               && HasDiffed(reg.classes[t], flags)
               && NAME in reg.classes[t].props && ShouldCompare(reg.classes[t], NAME, flags)
    ensures SameConn(reg, a, b, flags) <==> NothingToReport(reg, a, b, flags) && NamesAgree(a, b)
  {
    if NamesAgree(a, b) {
      DiffAgrees(reg, a, b, flags);
    } else {
      var t :| t in a && t in b && a[t][NAME] != b[t][NAME];
      var cls := reg.classes[t];
      assert Holds(cls.props[NAME], a[t][NAME]) && Holds(cls.props[NAME], b[t][NAME]);
      assert !SameProp(cls, a[t], b[t], flags, NAME);
    }
  }
}
