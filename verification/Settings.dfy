/**
 Settings and connections as values: property schemas, what is serialized and parsed, which
 properties a comparison looks at, and what a diff reports
 (libbm-util/bm-setting.c and libbm-util/bm-connection.c).

 A setting class is a table of property specifications. A setting is a record of values for
 that table; a connection is a table of settings keyed by the name of their type.
 */
module Settings {
  import opened Maps
  import opened Diffs
  import opened GValues

  const NAME := "name"
  const ID := "id"

  // ---------- Schemas ----------

  /**
   `initial` is the value after construction: the default, except that the class's init has set
   the name. `unset` is the value after a construction that was given a value the property does
   not take: zeroed memory for a construct property, else the initial value. `valid` says which
   values g_param_value_validate leaves alone, `same` which pairs g_param_values_cmp calls equal.
   */
  datatype PropSpec = PropSpec(
    ptype: GType, default: GValue, initial: GValue, unset: GValue,
    valid: GValue -> bool, same: (GValue, GValue) -> bool,
    writable: bool, serialize: bool, secret: bool, fuzzyIgnore: bool)

  type Values = map<string, GValue>

  datatype ErrorKind = MissingProperty | InvalidProperty | TypeSettingNotFound

  datatype VerifyError =
    | ConnectionSettingNotFound
    | SettingError(kind: ErrorKind, prop: string)

  /** `verify` sees the setting's values and the names of all settings of the connection. */
  datatype SettingClass = SettingClass(
    typeName: string, settingName: string, isConnection: bool, priority: nat,
    props: map<string, PropSpec>,
    verify: (Values, set<string>) -> Option<VerifyError>,
    needSecrets: Values -> Option<seq<string>>)

  /**
   Types by name, the type registered for each setting name, the type and the timestamp
   property of the 'connection' setting, and g_value_transform.
   */
  datatype Registry = Registry(
    classes: map<string, SettingClass>,
    registered: map<string, string>,
    connection: string,
    timestamp: string,
    transform: (GValue, GType) -> Option<GValue>)

  /** The setting name of each type. */
  function Names(reg: Registry): map<string, string> {
    map t | t in reg.classes :: reg.classes[t].settingName
  }

  function AllNames(reg: Registry): set<string> {
    set t | t in reg.classes :: reg.classes[t].settingName
  }

  ghost predicate TypeNames(reg: Registry) {
    forall t | t in reg.classes :: reg.classes[t].typeName == t
  }

  /** Setting names identify types, and are registered for the types that have them. */
  ghost predicate ValidNames(reg: Registry) {
    && InjectiveNames(Names(reg))
    && (forall n | n in reg.registered :: reg.registered[n] in reg.classes && Names(reg)[reg.registered[n]] == n)
  }

  /**
   The class's init sets the name, no parsed parameter and no clearing changes it, and any name
   can be set.
   */
  ghost predicate NamedClass(reg: Registry, cls: SettingClass) {
    NAME in cls.props
    && var p := cls.props[NAME];
       && p.initial == Str(cls.settingName) && !p.serialize && !p.secret
       && forall s :: Accepted(reg, p, Str(s)) == Some(Str(s))
  }

  ghost predicate NamedType(reg: Registry, t: string) {
    t in reg.classes ==> NamedClass(reg, reg.classes[t])
  }

  ghost predicate KnownNames(reg: Registry) {
    reg.timestamp != NAME && forall t {:trigger NamedType(reg, t)} :: NamedType(reg, t)
  }

  ghost predicate HasName(vals: Values) {
    NAME in vals && vals[NAME].Str?
  }

  ghost predicate HasNameAt(c: ConnVal, t: string) {
    t in c ==> HasName(c[t])
  }

  /** No setting's name is NULL. */
  ghost predicate HasNames(c: ConnVal) {
    forall t {:trigger HasNameAt(c, t)} :: HasNameAt(c, t)
  }

  /** The names that the settings have. */
  function NamesOf(c: ConnVal): map<string, string> {
    map t | t in c && NAME in c[t] && c[t][NAME].Str? :: c[t][NAME].s
  }

  ghost predicate NamedAs(reg: Registry, t: string, vals: Values) {
    t in reg.classes ==> NAME in vals && vals[NAME] == Str(reg.classes[t].settingName)
  }

  ghost predicate NamedAt(reg: Registry, c: ConnVal, t: string) {
    t in c ==> NamedAs(reg, t, c[t])
  }

  /** Every setting has the name that its class has given it. */
  ghost predicate Named(reg: Registry, c: ConnVal) {
    forall t {:trigger NamedAt(reg, c, t)} :: NamedAt(reg, c, t)
  }

  // ---------- Setting values ----------

  function Initial(cls: SettingClass): Values {
    map k | k in cls.props :: cls.props[k].initial
  }

  /** A new setting just before the given parameters are set on it. */
  function Started(cls: SettingClass, given: set<string>): Values {
    map k | k in cls.props :: if k in given then cls.props[k].unset else cls.props[k].initial
  }

  /** What setting a property to v stores, if the property is writable and takes the value. */
  function Accepted(reg: Registry, p: PropSpec, v: GValue): Option<GValue> {
    if !p.writable then None
    else
      match reg.transform(v, p.ptype)
      case None => None
      case Some(w) => if p.valid(w) then Some(w) else None
  }

  function AcceptedOr(reg: Registry, p: PropSpec, v: GValue, otherwise: GValue): GValue {
    var w := Accepted(reg, p, v);
    if w.Some? then w.value else otherwise
  }

  function Serialized(cls: SettingClass, vals: Values): Values {
    map k | k in cls.props && k in vals &&
            cls.props[k].serialize && !cls.props[k].same(vals[k], cls.props[k].default) ::
      vals[k]
  }

  /** The entries of a hash that name a serialized property. */
  function Params(cls: SettingClass, hash: Values): Values {
    map k | k in hash && k in cls.props && cls.props[k].serialize :: hash[k]
  }

  function ParsedProp(reg: Registry, cls: SettingClass, hash: Values, k: string): GValue
    requires k in cls.props
  {
    if k in hash && cls.props[k].serialize then AcceptedOr(reg, cls.props[k], hash[k], cls.props[k].unset)
    else cls.props[k].initial
  }

  function Parsed(reg: Registry, cls: SettingClass, hash: Values): Values {
    map k | k in cls.props :: ParsedProp(reg, cls, hash, k)
  }

  function ClearedProp(reg: Registry, cls: SettingClass, vals: Values, k: string): GValue
    requires k in vals
  {
    if k in cls.props && cls.props[k].secret then AcceptedOr(reg, cls.props[k], cls.props[k].default, vals[k])
    else vals[k]
  }

  function Cleared(reg: Registry, cls: SettingClass, vals: Values): Values {
    map k | k in vals :: ClearedProp(reg, cls, vals, k)
  }

  function DuplicatedProp(reg: Registry, cls: SettingClass, vals: Values, k: string): GValue
    requires k in cls.props
  {
    if k in vals then AcceptedOr(reg, cls.props[k], vals[k], cls.props[k].initial) else cls.props[k].initial
  }

  function Duplicated(reg: Registry, cls: SettingClass, vals: Values): Values {
    map k | k in cls.props :: DuplicatedProp(reg, cls, vals, k)
  }

  // ---------- Comparison ----------

  datatype CompareFlags = CompareFlags(fuzzy: bool, ignoreId: bool, ignoreSecrets: bool)

  const EXACT := CompareFlags(false, false, false)

  /** should_compare_prop */
  predicate ShouldCompare(cls: SettingClass, k: string, flags: CompareFlags)
    requires k in cls.props
  {
    var p := cls.props[k];
    && !(flags.fuzzy && (p.fuzzyIgnore || p.secret))
    && !(flags.ignoreSecrets && p.secret)
    && !(flags.ignoreId && cls.isConnection && k == ID)
  }

  predicate SameProp(cls: SettingClass, a: Values, b: Values, flags: CompareFlags, k: string)
    requires k in cls.props
  {
    ShouldCompare(cls, k, flags) ==> k in a && k in b && cls.props[k].same(a[k], b[k])
  }

  predicate SameValues(cls: SettingClass, a: Values, b: Values, flags: CompareFlags) {
    forall k | k in cls.props :: SameProp(cls, a, b, flags, k)
  }

  /** A diff skips the name as well. */
  predicate Diffed(cls: SettingClass, k: string, flags: CompareFlags) {
    k in cls.props && ShouldCompare(cls, k, flags) && k != NAME
  }

  /** The bits for a property of a, compared with b's value of it if b has the setting. */
  function PropDiff(p: PropSpec, a: GValue, b: Option<GValue>, invert: bool): Option<DiffResult> {
    if b.None? then Some(if invert then IN_B else IN_A)
    else if p.same(a, b.value) then None
    else
      var r := DiffResult(!p.same(a, p.default), !p.same(b.value, p.default));
      Some(if invert then r.Inverted() else r)
  }

  function PropDiffAt(cls: SettingClass, a: Values, b: Option<Values>, flags: CompareFlags, invert: bool, k: string)
    : Option<DiffResult>
  {
    if !Diffed(cls, k, flags) || k !in a || (b.Some? && k !in b.value) then None
    else PropDiff(cls.props[k], a[k], if b.None? then None else Some(b.value[k]), invert)
  }

  /** What one call of the setting diff reports. */
  function OnePass(cls: SettingClass, a: Values, b: Option<Values>, flags: CompareFlags, invert: bool): SettingDiff {
    map k | k in cls.props && PropDiffAt(cls, a, b, flags, invert, k).Some? ::
      PropDiffAt(cls, a, b, flags, invert, k).value
  }

  // ---------- Connections ----------

  type ConnVal = map<string, Values>

  type ConnHash = map<string, Values>

  /** Every setting is of a known type and has a value for each of its properties. */
  ghost predicate CompleteConn(reg: Registry, c: ConnVal) {
    forall t | t in c :: t in reg.classes && c[t].Keys == reg.classes[t].props.Keys
  }

  function SettingNames(c: ConnVal): set<string> {
    set t | t in NamesOf(c) :: NamesOf(c)[t]
  }

  ghost predicate Verified(reg: Registry, c: ConnVal) {
    && reg.connection in c
    && forall t | t in c && t in reg.classes :: reg.classes[t].verify(c[t], SettingNames(c)).None?
  }

  function SerializedTypes(reg: Registry, c: ConnVal): map<string, Values> {
    map t | t in c && t in reg.classes :: Serialized(reg.classes[t], c[t])
  }

  /** The serialization of a connection: each setting's section under the setting's own name. */
  ghost predicate IsSerialized(reg: Registry, c: ConnVal, hash: ConnHash) {
    IsFiled(NamesOf(c), SerializedTypes(reg, c), hash)
  }

  /** The types whose registered names are among the given section names. */
  function TypesNamed(reg: Registry, sections: set<string>): set<string> {
    set n | n in sections && n in reg.registered && reg.registered[n] in reg.classes :: reg.registered[n]
  }

  function ParsedConn(reg: Registry, hash: ConnHash): ConnVal {
    map t | t in TypesNamed(reg, hash.Keys) && reg.classes[t].settingName in hash ::
      Parsed(reg, reg.classes[t], hash[reg.classes[t].settingName])
  }

  /** Every setting of a is in b, with the same values where it is compared. */
  ghost predicate Includes(reg: Registry, a: ConnVal, b: ConnVal, flags: CompareFlags) {
    forall t | t in a && t in reg.classes :: t in b && SameValues(reg.classes[t], a[t], b[t], flags)
  }

  ghost predicate SameConn(reg: Registry, a: ConnVal, b: ConnVal, flags: CompareFlags) {
    Includes(reg, a, b, flags) && Includes(reg, b, a, flags)
  }

  function ClearedConn(reg: Registry, c: ConnVal): ConnVal {
    map t | t in c :: if t in reg.classes then Cleared(reg, reg.classes[t], c[t]) else c[t]
  }

  function DuplicatedConn(reg: Registry, c: ConnVal): ConnVal {
    map t | t in c :: if t in reg.classes then Duplicated(reg, reg.classes[t], c[t]) else c[t]
  }

  function Stamp(ts: nat): GValue {
    Integral(UInt64, ts)
  }

  predicate CanStamp(reg: Registry, c: ConnVal) {
    && reg.connection in c && reg.connection in reg.classes
    && reg.timestamp in reg.classes[reg.connection].props
  }

  /** The connection setting with its timestamp set to a tracked one, if there is one. */
  function StampedConn(reg: Registry, c: ConnVal, ts: Option<nat>): ConnVal {
    if ts.None? || !CanStamp(reg, c) || reg.timestamp !in c[reg.connection] then c
    else
      var vals := c[reg.connection];
      var p := reg.classes[reg.connection].props[reg.timestamp];
      c[reg.connection := vals[reg.timestamp := AcceptedOr(reg, p, Stamp(ts.value), vals[reg.timestamp])]]
  }

  /** The duplicate that is shown to others: secrets cleared, and stamped if a timestamp is tracked. */
  function Prepared(reg: Registry, c: ConnVal, ts: Option<nat>): ConnVal {
    StampedConn(reg, ClearedConn(reg, DuplicatedConn(reg, c)), ts)
  }

  /** What one direction of the diff adds for a type. */
  function TypePass(reg: Registry, a: ConnVal, b: ConnVal, flags: CompareFlags, invert: bool, t: string): SettingDiff
    requires t in reg.classes && t in a
  {
    OnePass(reg.classes[t], a[t], if t in b then Some(b[t]) else None, flags, invert)
  }

  function AfterPass(
    reg: Registry, a: ConnVal, b: ConnVal, flags: CompareFlags, invert: bool, diffs: ConnDiff, t: string): SettingDiff
    requires t in reg.classes
  {
    var before := At(diffs, reg.classes[t].settingName);
    if t in a then Merged(before, TypePass(reg, a, b, flags, invert, t)) else before
  }

  /** One direction of the diff, added to diffs0; the types in rest are still to be visited. */
  ghost predicate PassDone(
    reg: Registry, a: ConnVal, b: ConnVal, flags: CompareFlags, invert: bool, diffs0: ConnDiff, rest: set<string>,
    diffs: ConnDiff)
  {
    && NoEmptyEntry(diffs) && diffs.Keys <= AllNames(reg)
    && forall t | t in reg.classes ::
         At(diffs, reg.classes[t].settingName) ==
         if t in rest then At(diffs0, reg.classes[t].settingName) else AfterPass(reg, a, b, flags, invert, diffs0, t)
  }

  /** One direction of the diff has nothing to add. */
  ghost predicate QuietPass(reg: Registry, a: ConnVal, b: ConnVal, flags: CompareFlags, invert: bool) {
    forall t | t in a && t in reg.classes :: TypePass(reg, a, b, flags, invert, t) == map[]
  }

  // ---------- Names stay ----------

  lemma NamedParsed(reg: Registry, t: string, hash: Values)
    requires KnownNames(reg) && t in reg.classes
    ensures NamedAs(reg, t, Parsed(reg, reg.classes[t], hash))
  {
    assert NamedType(reg, t);
  }

  lemma NameKept(reg: Registry, t: string, vals: Values)
    requires KnownNames(reg) && t in reg.classes && HasName(vals)
    ensures NAME in Duplicated(reg, reg.classes[t], vals) && Duplicated(reg, reg.classes[t], vals)[NAME] == vals[NAME]
    ensures NAME in Cleared(reg, reg.classes[t], vals) && Cleared(reg, reg.classes[t], vals)[NAME] == vals[NAME]
  {
    assert NamedType(reg, t) && vals[NAME] == Str(vals[NAME].s);
  }

  lemma SameNames(c: ConnVal, d: ConnVal)
    requires HasNames(c) && c.Keys == d.Keys
    requires forall t | t in c :: NAME in d[t] && NAME in c[t] && d[t][NAME] == c[t][NAME]
    ensures NamesOf(d) == NamesOf(c) && HasNames(d)
  {
    forall t ensures HasNameAt(d, t) {
      assert HasNameAt(c, t);
    }
    forall t | t in c ensures HasName(c[t]) {
      assert HasNameAt(c, t);
    }
  }

  lemma DuplicatedNames(reg: Registry, c: ConnVal)
    requires KnownNames(reg) && CompleteConn(reg, c) && HasNames(c)
    ensures NamesOf(DuplicatedConn(reg, c)) == NamesOf(c) && HasNames(DuplicatedConn(reg, c))
  {
    var d := DuplicatedConn(reg, c);
    forall t | t in c ensures NAME in d[t] && NAME in c[t] && d[t][NAME] == c[t][NAME] {
      assert HasNameAt(c, t);
      NameKept(reg, t, c[t]);
    }
    SameNames(c, d);
  }

  lemma ClearedNames(reg: Registry, c: ConnVal)
    requires KnownNames(reg) && CompleteConn(reg, c) && HasNames(c)
    ensures NamesOf(ClearedConn(reg, c)) == NamesOf(c) && HasNames(ClearedConn(reg, c))
  {
    var d := ClearedConn(reg, c);
    forall t | t in c ensures NAME in d[t] && NAME in c[t] && d[t][NAME] == c[t][NAME] {
      assert HasNameAt(c, t);
      NameKept(reg, t, c[t]);
    }
    SameNames(c, d);
  }

  lemma StampedNames(reg: Registry, c: ConnVal, ts: Option<nat>)
    requires KnownNames(reg) && HasNames(c)
    ensures NamesOf(StampedConn(reg, c, ts)) == NamesOf(c)
  {
    var d := StampedConn(reg, c, ts);
    forall t | t in c ensures NAME in d[t] && NAME in c[t] && d[t][NAME] == c[t][NAME] {
      assert HasNameAt(c, t);
    }
    SameNames(c, d);
  }

  /** Duplicating, clearing and stamping change no name. */
  lemma NamesStay(reg: Registry, c: ConnVal, ts: Option<nat>)
    requires KnownNames(reg) && CompleteConn(reg, c) && HasNames(c)
    ensures NamesOf(Prepared(reg, c, ts)) == NamesOf(c)
  {
    DuplicatedNames(reg, c);
    assert CompleteConn(reg, DuplicatedConn(reg, c));
    ClearedNames(reg, DuplicatedConn(reg, c));
    StampedNames(reg, ClearedConn(reg, DuplicatedConn(reg, c)), ts);
  }

  // ---------- One more step of a loop over settings ----------

  lemma ParseStart(reg: Registry, hash: ConnHash)
    ensures ParsedConn(reg, hash) - TypesNamed(reg, hash.Keys) == map[]
    ensures ParsedConn(reg, hash) - TypesNamed(reg, {}) == ParsedConn(reg, hash)
  {
  }

  /** One more section parsed; different sections have different types. */
  lemma ParseStep(reg: Registry, hash: ConnHash, rest: set<string>, n: string)
    requires ValidNames(reg) && n in rest && rest <= hash.Keys
    ensures var before := ParsedConn(reg, hash) - TypesNamed(reg, rest);
            ParsedConn(reg, hash) - TypesNamed(reg, rest - {n}) ==
              if n !in reg.registered then before
              else before[reg.registered[n] := Parsed(reg, reg.classes[reg.registered[n]], hash[n])]
  {
    if n in reg.registered {
      var t := reg.registered[n];
      assert t in TypesNamed(reg, hash.Keys);
      assert Names(reg)[t] == n;
      assert TypesNamed(reg, rest) == TypesNamed(reg, rest - {n}) + {t};
      assert t !in TypesNamed(reg, rest - {n});
    } else {
      assert TypesNamed(reg, rest) == TypesNamed(reg, rest - {n});
    }
  }

  lemma NamesStep(c: ConnVal, rest: set<string>, t: string)
    requires t in rest && t in c && HasName(c[t])
    ensures SettingNames(c - (rest - {t})) == SettingNames(c - rest) + {c[t][NAME].s}
  {
    var m, m' := NamesOf(c - rest), NamesOf(c - (rest - {t}));
    assert m' == m[t := c[t][NAME].s] && t !in m;
    forall n | n in SettingNames(c - rest) ensures n in SettingNames(c - (rest - {t})) {
      var u :| u in m && m[u] == n;
      assert u in m' && m'[u] == n;
    }
    assert t in m' && m'[t] in SettingNames(c - (rest - {t}));
  }

  lemma QuietStep(
    reg: Registry, a: ConnVal, b: ConnVal, flags: CompareFlags, invert: bool, rest: set<string>, t: string)
    requires t in rest && t in a && t in reg.classes
    ensures QuietPass(reg, a - (rest - {t}), b, flags, invert) <==>
            QuietPass(reg, a - rest, b, flags, invert) && TypePass(reg, a, b, flags, invert, t) == map[]
  {
    var c, c' := a - rest, a - (rest - {t});
    assert c'.Keys == c.Keys + {t};
    forall u | u in c' && u in reg.classes
      ensures TypePass(reg, c', b, flags, invert, u) == TypePass(reg, a, b, flags, invert, u)
      ensures u != t ==> u in c && TypePass(reg, c, b, flags, invert, u) == TypePass(reg, a, b, flags, invert, u)
    {
    }
  }

  lemma IncludesStep(reg: Registry, a: ConnVal, b: ConnVal, flags: CompareFlags, rest: set<string>, t: string)
    requires t in rest && t in a && t in reg.classes
    ensures Includes(reg, a - (rest - {t}), b, flags) <==>
            Includes(reg, a - rest, b, flags) && t in b && SameValues(reg.classes[t], a[t], b[t], flags)
  {
    var c, c' := a - rest, a - (rest - {t});
    assert c'.Keys == c.Keys + {t};
    assert forall u | u in c' :: c'[u] == a[u] && (u != t ==> u in c && c[u] == a[u]);
  }

  lemma {:induction false} PassStep(
    reg: Registry, a: ConnVal, b: ConnVal, flags: CompareFlags, invert: bool, diffs0: ConnDiff, rest: set<string>,
    t: string, diffs: ConnDiff)
    requires InjectiveNames(Names(reg)) && t in rest && t in a && t in reg.classes
    requires PassDone(reg, a, b, flags, invert, diffs0, rest, diffs)
    ensures PassDone(reg, a, b, flags, invert, diffs0, rest - {t},
                     Filed(diffs, reg.classes[t].settingName, TypePass(reg, a, b, flags, invert, t)))
  {
    assert reg.classes[t].settingName in AllNames(reg);
    FiledAt(diffs, reg.classes[t].settingName, TypePass(reg, a, b, flags, invert, t));
    var more := Filed(diffs, reg.classes[t].settingName, TypePass(reg, a, b, flags, invert, t));
    forall u | u in reg.classes && u != t
      ensures At(more, reg.classes[u].settingName) == At(diffs, reg.classes[u].settingName)
    {
      assert Names(reg)[u] != Names(reg)[t];
    }
    assert At(more, reg.classes[t].settingName) == AfterPass(reg, a, b, flags, invert, diffs0, t);
  }
}
