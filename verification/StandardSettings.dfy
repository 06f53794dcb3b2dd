/**
 The three registered setting classes, with their schemas and verify functions
 (libbm-util/bm-setting-connection.c, bm-setting-bluetooth.c and bm-setting-serial.c).
 */
module StandardSettings {
  import opened Maps
  import opened Diffs
  import opened GValues
  import opened GValuesProofs
  import opened Settings
  import opened SettingsProofs

  const MAX_UINT := 0xffff_ffff
  const MAX_UINT64 := 0xffff_ffff_ffff_ffff

  const EQUAL: (GValue, GValue) -> bool := (v, w) => v == w

  /** Readable and writable, serialized, not secret. */
  function Property(t: GType, default: GValue, unset: GValue, valid: GValue -> bool, fuzzyIgnore: bool): PropSpec {
    PropSpec(t, default, default, unset, valid, EQUAL, true, true, false, fuzzyIgnore)
  }

  function StringProperty(fuzzyIgnore: bool): PropSpec {
    Property(TString, Null(TString), Null(TString), (v: GValue) => TypeOf(v) == TString, fuzzyIgnore)
  }

  function IntProperty(t: IntType, default: int, lo: int, hi: int, fuzzyIgnore: bool): PropSpec {
    Property(TFixed(Whole(t)), Integral(t, default), Integral(t, 0),
             (v: GValue) => v.Integral? && v.itype == t && lo <= v.n <= hi, fuzzyIgnore)
  }

  /** The name: not serialized, NULL by default, set by each class's init. */
  function NameProperty(settingName: string): PropSpec {
    PropSpec(
      TString, Null(TString), Str(settingName), Str(settingName), (v: GValue) => TypeOf(v) == TString, EQUAL,
      true, false, false, false)
  }

  const ADDRESS_TYPE := TFixedArray(Whole(UChar))

  function AddressProperty(): PropSpec {
    Property(ADDRESS_TYPE, Null(ADDRESS_TYPE), Null(ADDRESS_TYPE), (v: GValue) => TypeOf(v) == ADDRESS_TYPE, false)
  }

  // ---------- 'connection' ----------

  const UUID := "uuid"
  const TYPE := "type"

  function ConnectionProps(): map<string, PropSpec> {
    map[
      NAME := NameProperty("connection"),
      ID := StringProperty(true),
      UUID := StringProperty(true),
      TYPE := StringProperty(false),
      "autoconnect" := IntProperty(Boolean, 1, 0, 1, true),
      "timestamp" := IntProperty(UInt64, 0, 0, MAX_UINT64, true),
      "read-only" := IntProperty(Boolean, 0, 0, 1, true)
    ]
  }

  predicate IsHexDigit(c: char) {
    '0' <= c <= '9' || 'a' <= c <= 'f' || 'A' <= c <= 'F'
  }

  /** Looks at one character after another. */
  method ValidateUuid(uuid: string) returns (ok: bool)
    ensures ok <==> UuidOk(uuid)
  {
    if |uuid| == 0 {
      return false;
    }
    var i := 0;
    while i < |uuid|
      invariant 0 <= i <= |uuid|
      invariant forall j | 0 <= j < i :: IsHexDigit(uuid[j]) || uuid[j] == '-'
    {
      if !IsHexDigit(uuid[i]) && uuid[i] != '-' {
        return false;
      }
      i := i + 1;
    }
    return true;
  }

  predicate UuidOk(uuid: string) {
    uuid != "" && forall c | c in uuid :: IsHexDigit(c) || c == '-'
  }

  function StringOf(vals: Values, k: string): Option<string> {
    if k in vals && vals[k].Str? then Some(vals[k].s) else None
  }

  function ConnectionVerify(vals: Values, names: set<string>): Option<VerifyError> {
    var id, uuid, ctype := StringOf(vals, ID), StringOf(vals, UUID), StringOf(vals, TYPE);
    if id.None? then Some(SettingError(MissingProperty, ID))
    else if id.value == "" then Some(SettingError(InvalidProperty, ID))
    else if uuid.None? then Some(SettingError(MissingProperty, UUID))
    else if !UuidOk(uuid.value) then Some(SettingError(InvalidProperty, UUID))
    else if ctype.None? then Some(SettingError(MissingProperty, TYPE))
    else if ctype.value == "" then Some(SettingError(InvalidProperty, TYPE))
    else if names != {} && ctype.value !in names then Some(SettingError(TypeSettingNotFound, TYPE))
    else None
  }

  // ---------- 'bluetooth' ----------

  const BDADDR := "bdaddr"

  function BluetoothProps(): map<string, PropSpec> {
    map[NAME := NameProperty("bluetooth"), BDADDR := AddressProperty(), TYPE := StringProperty(false)]
  }

  function BluetoothVerify(vals: Values, names: set<string>): Option<VerifyError> {
    var btype := StringOf(vals, TYPE);
    if BDADDR !in vals || vals[BDADDR].Null? then Some(SettingError(MissingProperty, BDADDR))
    else if btype.None? then Some(SettingError(MissingProperty, TYPE))
    else if btype.value != "dun" && btype.value != "panu" then Some(SettingError(InvalidProperty, TYPE))
    else None
  }

  // ---------- 'serial' ----------

  function SerialProps(): map<string, PropSpec> {
    map[
      NAME := NameProperty("serial"),
      "baud" := IntProperty(UInt, 57600, 0, MAX_UINT, false),
      "bits" := IntProperty(UInt, 8, 5, 8, false),
      "parity" := IntProperty(Char, 110, 69, 111, false),  // 'n', from 'E' to 'o'
      "stopbits" := IntProperty(UInt, 1, 1, 2, false),
      "send-delay" := IntProperty(UInt64, 0, 0, MAX_UINT64, false)
    ]
  }

  // ---------- The registry ----------

  const CONNECTION_TYPE := "BMSettingConnection"
  const BLUETOOTH_TYPE := "BMSettingBluetooth"
  const SERIAL_TYPE := "BMSettingSerial"

  /** register_default_settings; none of the classes has a need_secrets. */
  function StandardRegistry(transform: (GValue, GType) -> Option<GValue>): Registry {
    var none := (vals: Values) => None;
    Registry(
      map[
        CONNECTION_TYPE :=
          SettingClass(CONNECTION_TYPE, "connection", true, 0, ConnectionProps(), ConnectionVerify, none),
        BLUETOOTH_TYPE := SettingClass(BLUETOOTH_TYPE, "bluetooth", false, 1, BluetoothProps(), BluetoothVerify, none),
        SERIAL_TYPE := SettingClass(SERIAL_TYPE, "serial", false, 2, SerialProps(), (vals, names) => None, none)
      ],
      map["connection" := CONNECTION_TYPE, "bluetooth" := BLUETOOTH_TYPE, "serial" := SERIAL_TYPE],
      CONNECTION_TYPE, "timestamp", transform)
  }

  /** g_value_transform copies a value to its own type. */
  ghost predicate CopiesOwnType(transform: (GValue, GType) -> Option<GValue>) {
    forall v :: transform(v, TypeOf(v)) == Some(v)
  }

  // ---------- What the three schemas have in common ----------

  /** Valid, never secret, compared by equality, and holding one type of value. */
  ghost predicate Plain(p: PropSpec) {
    && ValidProp(p) && p.writable && !p.secret
    && (forall v, w :: p.same(v, w) <==> v == w)
    && (forall v | Holds(p, v) :: TypeOf(v) == p.ptype)
  }

  lemma PlainString(fuzzyIgnore: bool)
    ensures Plain(StringProperty(fuzzyIgnore))
  {
  }

  lemma PlainInt(t: IntType, default: int, lo: int, hi: int, fuzzyIgnore: bool)
    requires lo <= default <= hi
    ensures Plain(IntProperty(t, default, lo, hi, fuzzyIgnore))
  {
  }

  lemma PlainName(settingName: string)
    ensures Plain(NameProperty(settingName))
  {
  }

  lemma PlainAddress()
    ensures Plain(AddressProperty())
  {
  }

  /** Every property but the name is serialized. */
  ghost predicate PlainProps(props: map<string, PropSpec>) {
    && NAME in props && !props[NAME].serialize
    && forall k | k in props :: Plain(props[k]) && (k != NAME ==> props[k].serialize)
  }

  /** Properties added one by one to a schema that has a name. */
  lemma PlainMore(props: map<string, PropSpec>, k: string, p: PropSpec)
    requires PlainProps(props) && k != NAME && Plain(p) && p.serialize
    ensures PlainProps(props[k := p])
  {
  }

  lemma PlainStart(settingName: string)
    ensures PlainProps(map[NAME := NameProperty(settingName)])
  {
    PlainName(settingName);
  }

  lemma PlainConnection()
    ensures PlainProps(ConnectionProps())
  {
    var p0 := map[NAME := NameProperty("connection")];
    PlainStart("connection");
    PlainString(true);
    PlainString(false);
    PlainInt(Boolean, 1, 0, 1, true);
    PlainInt(UInt64, 0, 0, MAX_UINT64, true);
    PlainInt(Boolean, 0, 0, 1, true);
    var p1 := p0[ID := StringProperty(true)];
    PlainMore(p0, ID, StringProperty(true));
    var p2 := p1[UUID := StringProperty(true)];
    PlainMore(p1, UUID, StringProperty(true));
    var p3 := p2[TYPE := StringProperty(false)];
    PlainMore(p2, TYPE, StringProperty(false));
    var p4 := p3["autoconnect" := IntProperty(Boolean, 1, 0, 1, true)];
    PlainMore(p3, "autoconnect", IntProperty(Boolean, 1, 0, 1, true));
    var p5 := p4["timestamp" := IntProperty(UInt64, 0, 0, MAX_UINT64, true)];
    PlainMore(p4, "timestamp", IntProperty(UInt64, 0, 0, MAX_UINT64, true));
    PlainMore(p5, "read-only", IntProperty(Boolean, 0, 0, 1, true));
    assert ConnectionProps() == p5["read-only" := IntProperty(Boolean, 0, 0, 1, true)];
  }

  lemma PlainBluetooth()
    ensures PlainProps(BluetoothProps())
  {
    var p0 := map[NAME := NameProperty("bluetooth")];
    PlainStart("bluetooth");
    PlainString(false);
    PlainAddress();
    var p1 := p0[BDADDR := AddressProperty()];
    PlainMore(p0, BDADDR, AddressProperty());
    PlainMore(p1, TYPE, StringProperty(false));
    assert BluetoothProps() == p1[TYPE := StringProperty(false)];
  }

  lemma PlainSerial()
    ensures PlainProps(SerialProps())
  {
    var p0 := map[NAME := NameProperty("serial")];
    PlainStart("serial");
    PlainInt(UInt, 57600, 0, MAX_UINT, false);
    PlainInt(UInt, 8, 5, 8, false);
    PlainInt(Char, 110, 69, 111, false);
    PlainInt(UInt, 1, 1, 2, false);
    PlainInt(UInt64, 0, 0, MAX_UINT64, false);
    var p1 := p0["baud" := IntProperty(UInt, 57600, 0, MAX_UINT, false)];
    PlainMore(p0, "baud", IntProperty(UInt, 57600, 0, MAX_UINT, false));
    var p2 := p1["bits" := IntProperty(UInt, 8, 5, 8, false)];
    PlainMore(p1, "bits", IntProperty(UInt, 8, 5, 8, false));
    var p3 := p2["parity" := IntProperty(Char, 110, 69, 111, false)];
    PlainMore(p2, "parity", IntProperty(Char, 110, 69, 111, false));
    var p4 := p3["stopbits" := IntProperty(UInt, 1, 1, 2, false)];
    PlainMore(p3, "stopbits", IntProperty(UInt, 1, 1, 2, false));
    PlainMore(p4, "send-delay", IntProperty(UInt64, 0, 0, MAX_UINT64, false));
    assert SerialProps() == p4["send-delay" := IntProperty(UInt64, 0, 0, MAX_UINT64, false)];
  }

  lemma PlainClass(reg: Registry, cls: SettingClass)
    requires CopiesOwnType(reg.transform) && PlainProps(cls.props)
    ensures ValidClass(cls) && StoresValid(reg, cls) && ExactClass(cls)
  {
    forall k, v | k in cls.props && Holds(cls.props[k], v)
      ensures Accepted(reg, cls.props[k], v) == if cls.props[k].valid(v) then Some(v) else None
    {
      assert Plain(cls.props[k]);
      assert reg.transform(v, TypeOf(v)) == Some(v);
    }
  }

  lemma {:induction false} StandardTypes(transform: (GValue, GType) -> Option<GValue>)
    ensures StandardRegistry(transform).classes.Keys == {CONNECTION_TYPE, BLUETOOTH_TYPE, SERIAL_TYPE}
    ensures TypeNames(StandardRegistry(transform))
  {
  }

  lemma ThreeNames(a: string, b: string, c: string, x: string, y: string, z: string)
    requires |x| != |y| && |y| != |z| && |x| != |z|
    ensures InjectiveNames(map[a := x, b := y, c := z])
  {
  }

  lemma NamesAre(transform: (GValue, GType) -> Option<GValue>)
    ensures Names(StandardRegistry(transform)) ==
            map[CONNECTION_TYPE := "connection", BLUETOOTH_TYPE := "bluetooth", SERIAL_TYPE := "serial"]
  {
    StandardTypes(transform);
    SameMaps(Names(StandardRegistry(transform)),
             map[CONNECTION_TYPE := "connection", BLUETOOTH_TYPE := "bluetooth", SERIAL_TYPE := "serial"]);
  }

  lemma ThreeValidNames(reg: Registry, a: string, b: string, c: string, x: string, y: string, z: string)
    requires |x| != |y| && |y| != |z| && |x| != |z|
    requires Names(reg) == map[a := x, b := y, c := z] && reg.registered == map[x := a, y := b, z := c]
    requires a != b && b != c && a != c
    ensures ValidNames(reg) && forall t | t in reg.classes :: reg.classes[t].settingName in reg.registered
  {
    ThreeNames(a, b, c, x, y, z);
    assert reg.classes.Keys == Names(reg).Keys;
    forall t | t in reg.classes ensures reg.classes[t].settingName in reg.registered {
      assert Names(reg)[t] == reg.classes[t].settingName;
    }
  }

  lemma StandardNames(transform: (GValue, GType) -> Option<GValue>)
    ensures var reg := StandardRegistry(transform);
            ValidNames(reg) && forall t | t in reg.classes :: reg.classes[t].settingName in reg.registered
  {
    NamesAre(transform);
    ThreeValidNames(StandardRegistry(transform), CONNECTION_TYPE, BLUETOOTH_TYPE, SERIAL_TYPE,
                    "connection", "bluetooth", "serial");
  }

  lemma StandardValid(transform: (GValue, GType) -> Option<GValue>)
    requires CopiesOwnType(transform)
    ensures ValidRegistry(StandardRegistry(transform))
  {
    var reg := StandardRegistry(transform);
    StandardTypes(transform);
    StandardNames(transform);
    forall t | t in reg.classes
      ensures ValidClass(reg.classes[t]) && StoresValid(reg, reg.classes[t]) && ExactClass(reg.classes[t])
    {
      StandardPlain(transform, t);
      PlainClass(reg, reg.classes[t]);
    }
  }

  lemma StandardPlain(transform: (GValue, GType) -> Option<GValue>, t: string)
    requires t in StandardRegistry(transform).classes
    ensures PlainProps(StandardRegistry(transform).classes[t].props)
  {
    PropsOf(transform, t);
    if t == CONNECTION_TYPE {
      PlainConnection();
    } else if t == BLUETOOTH_TYPE {
      PlainBluetooth();
    } else {
      PlainSerial();
    }
  }

  lemma PropsOf(transform: (GValue, GType) -> Option<GValue>, t: string)
    requires t in StandardRegistry(transform).classes
    ensures t == CONNECTION_TYPE || t == BLUETOOTH_TYPE || t == SERIAL_TYPE
    ensures StandardRegistry(transform).classes[t].props ==
            if t == CONNECTION_TYPE then ConnectionProps()
            else if t == BLUETOOTH_TYPE then BluetoothProps()
            else SerialProps()
  {
  }

  // ---------- The general results for the registered classes ----------

  /** What the deep comparison of two addresses returns is zero just when they are equal. */
  lemma AddressesSame(rank: GType -> int, v: GValue, w: GValue, r: int)
    requires Injective(rank) && TypeOf(v) == ADDRESS_TYPE && TypeOf(w) == ADDRESS_TYPE
    requires Outcome(rank, v, w, r)
    ensures r == 0 <==> AddressProperty().same(v, w)
  {
    ZeroIffEqual(rank, v, w);
    if v == w {
      ZeroDecides(rank, v, w, r);
    }
  }

  lemma StandardDiffed(transform: (GValue, GType) -> Option<GValue>, flags: CompareFlags, t: string)
    requires t in StandardRegistry(transform).classes
    ensures HasDiffed(StandardRegistry(transform).classes[t], flags)
  {
    var cls := StandardRegistry(transform).classes[t];
    if t == CONNECTION_TYPE {
      assert Diffed(cls, TYPE, flags);
    } else if t == BLUETOOTH_TYPE {
      assert Diffed(cls, BDADDR, flags);
    } else {
      assert Diffed(cls, "baud", flags);
    }
  }

  lemma NameIsKnown(reg: Registry, cls: SettingClass)
    requires CopiesOwnType(reg.transform)
    requires NAME in cls.props && cls.props[NAME] == NameProperty(cls.settingName)
    ensures NamedClass(reg, cls)
  {
    forall s ensures Accepted(reg, cls.props[NAME], Str(s)) == Some(Str(s)) {
      assert reg.transform(Str(s), TypeOf(Str(s))) == Some(Str(s));
    }
  }

  lemma StandardKnown(transform: (GValue, GType) -> Option<GValue>)
    requires CopiesOwnType(transform)
    ensures KnownNames(StandardRegistry(transform))
  {
    var reg := StandardRegistry(transform);
    assert |reg.timestamp| != |NAME|;
    forall t ensures NamedType(reg, t) {
      if t in reg.classes {
        NameOf(transform, t);
        NameIsKnown(reg, reg.classes[t]);
      }
    }
  }

  lemma NameOf(transform: (GValue, GType) -> Option<GValue>, t: string)
    requires t in StandardRegistry(transform).classes
    ensures var cls := StandardRegistry(transform).classes[t];
            NAME in cls.props && cls.props[NAME] == NameProperty(cls.settingName)
  {
    PropsOf(transform, t);
  }

  lemma NameCompared(cls: SettingClass, flags: CompareFlags)
    requires NAME in cls.props && cls.props[NAME] == NameProperty(cls.settingName)
    ensures ShouldCompare(cls, NAME, flags)
  {
    assert |NAME| != |ID|;
  }

  lemma StandardCompared(transform: (GValue, GType) -> Option<GValue>, flags: CompareFlags)
    requires CopiesOwnType(transform)
    ensures var reg := StandardRegistry(transform);
            ValidRegistry(reg) && forall t | t in reg.classes ::
              && HasDiffed(reg.classes[t], flags)
              && NAME in reg.classes[t].props && ShouldCompare(reg.classes[t], NAME, flags)
  {
    var reg := StandardRegistry(transform);
    StandardValid(transform);
    forall t | t in reg.classes
      ensures HasDiffed(reg.classes[t], flags)
      ensures NAME in reg.classes[t].props && ShouldCompare(reg.classes[t], NAME, flags)
    {
      StandardDiffed(transform, flags, t);
      NameOf(transform, t);
      NameCompared(reg.classes[t], flags);
    }
  }

  /**
   For the registered classes comparing two connections succeeds just when there is nothing to
   report and the names agree, whatever the flags.
   */
  lemma StandardSameIff(transform: (GValue, GType) -> Option<GValue>, a: ConnVal, b: ConnVal, flags: CompareFlags)
    requires CopiesOwnType(transform)
    requires ValidConn(StandardRegistry(transform), a) && ValidConn(StandardRegistry(transform), b)
    ensures var reg := StandardRegistry(transform);
            SameConn(reg, a, b, flags) <==> NothingToReport(reg, a, b, flags) && NamesAgree(a, b)
  {
    StandardCompared(transform, flags);
    NamesLeft(StandardRegistry(transform), a, b, flags);
  }

  lemma RenamedOf(reg: Registry, t: string, name: string, flags: CompareFlags)
    requires ValidRegistry(reg) && t in reg.classes
    requires var cls := reg.classes[t];
             && NAME in cls.props && cls.props[NAME] == NameProperty(cls.settingName)
             && ShouldCompare(cls, NAME, flags) && name != cls.settingName
    ensures var vals := Initial(reg.classes[t]);
            Unreported(reg, map[t := vals], map[t := vals[NAME := Str(name)]], flags)
  {
    RenamedPair(reg, t, Str(name), flags);
  }

  /** Renaming a setting of a registered class makes a difference that no diff reports. */
  lemma StandardRenamed(
    transform: (GValue, GType) -> Option<GValue>, t: string, name: string, flags: CompareFlags)
    requires CopiesOwnType(transform) && t in StandardRegistry(transform).classes
    requires name != StandardRegistry(transform).classes[t].settingName
    ensures var reg := StandardRegistry(transform);
            var vals := Initial(reg.classes[t]);
            Unreported(reg, map[t := vals], map[t := vals[NAME := Str(name)]], flags)
  {
    StandardCompared(transform, flags);
    NameOf(transform, t);
    RenamedOf(StandardRegistry(transform), t, name, flags);
  }

  /** If no setting has been renamed, a diff is empty just when comparing succeeds. */
  lemma StandardDiffAgrees(
    transform: (GValue, GType) -> Option<GValue>, a: ConnVal, b: ConnVal, flags: CompareFlags, diffs: ConnDiff)
    requires CopiesOwnType(transform)
    requires var reg := StandardRegistry(transform);
             && ValidConn(reg, a) && ValidConn(reg, b) && Named(reg, a) && Named(reg, b)
             && IsDiff(reg, a, b, flags, diffs)
    ensures diffs == map[] <==> SameConn(StandardRegistry(transform), a, b, flags)
  {
    var reg := StandardRegistry(transform);
    EmptyDiff(reg, a, b, flags, diffs);
    NamedTogether(reg, a, b);
    StandardSameIff(transform, a, b, flags);
  }

  /** The name is the only property that is not stored. */
  lemma StandardOnlyStored(transform: (GValue, GType) -> Option<GValue>, c: ConnVal)
    requires CompleteConn(StandardRegistry(transform), c)
    ensures OnlyStoredConn(StandardRegistry(transform), c) <==> Named(StandardRegistry(transform), c)
  {
    var reg := StandardRegistry(transform);
    forall t | t in c ensures OnlyStored(reg.classes[t], c[t]) <==> NamedAt(reg, c, t) {
      NameOf(transform, t);
      StandardPlain(transform, t);
    }
    if OnlyStoredConn(reg, c) {
      forall t ensures NamedAt(reg, c, t) {
      }
    }
  }

  /**
   A verified connection survives being serialized and parsed, accepted and the same, unless a
   setting has been renamed; then it does not come back.
   */
  lemma StandardRoundTrip(transform: (GValue, GType) -> Option<GValue>, c: ConnVal, hash: ConnHash)
    requires CopiesOwnType(transform)
    requires var reg := StandardRegistry(transform);
             ValidConn(reg, c) && Verified(reg, c) && IsSerialized(reg, c, hash)
    ensures var reg := StandardRegistry(transform);
            var parsed := ParsedConn(reg, hash);
            && (parsed == c <==> Named(reg, c))
            && (SameConn(reg, c, parsed, EXACT) <==> Named(reg, c))
            && (Named(reg, c) ==> Verified(reg, parsed))
  {
    var reg := StandardRegistry(transform);
    StandardValid(transform);
    StandardKnown(transform);
    StandardNames(transform);
    StandardOnlyStored(transform, c);
    RoundTripIff(reg, c, hash);
  }

  /**
   A section with an impossible number of bits is parsed to zero bits, which verifies and is
   serialized; but a duplicate does not take them, and shows nothing.
   */
  lemma BitsNotShown(transform: (GValue, GType) -> Option<GValue>, names: set<string>)
    requires CopiesOwnType(transform)
    ensures var reg := StandardRegistry(transform);
            var cls := reg.classes[SERIAL_TYPE];
            var vals := Parsed(reg, cls, map["bits" := Integral(UInt, 3)]);
            && "bits" in vals && vals["bits"] == Integral(UInt, 0) && cls.verify(vals, names).None?
            && "bits" in Redacted(cls, Serialized(cls, vals))
            && "bits" !in Serialized(cls, Cleared(reg, cls, Duplicated(reg, cls, vals)))
  {
    var reg := StandardRegistry(transform);
    PropsOf(transform, SERIAL_TYPE);
    BitsOf(reg, reg.classes[SERIAL_TYPE]);
  }

  lemma BitsProp(reg: Registry, props: map<string, PropSpec>)
    requires CopiesOwnType(reg.transform) && props == SerialProps()
    ensures "bits" in props && props["bits"].serialize && !props["bits"].secret
    ensures props["bits"].unset == Integral(UInt, 0) && !props["bits"].valid(props["bits"].unset)
    ensures Accepted(reg, props["bits"], Integral(UInt, 3)).None?
  {
    var three := Integral(UInt, 3);
    assert props["bits"] == IntProperty(UInt, 8, 5, 8, false);
    assert reg.transform(three, TypeOf(three)) == Some(three);
  }

  lemma BitsOf(reg: Registry, cls: SettingClass)
    requires CopiesOwnType(reg.transform) && cls.props == SerialProps()
    ensures var vals := Parsed(reg, cls, map["bits" := Integral(UInt, 3)]);
            && "bits" in vals && vals["bits"] == Integral(UInt, 0)
            && "bits" in Redacted(cls, Serialized(cls, vals))
            && "bits" !in Serialized(cls, Cleared(reg, cls, Duplicated(reg, cls, vals)))
  {
    BitsProp(reg, cls.props);
    PlainSerial();
    PlainClass(reg, cls);
    RefusedNotShown(reg, cls, map["bits" := Integral(UInt, 3)], "bits");
  }
}
