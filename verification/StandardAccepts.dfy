/** What connections of the registered classes are accepted, in terms of their values. */
module StandardAccepts {
  import opened Maps
  import opened GValues
  import opened Settings
  import opened SettingsProofs
  import opened StandardSettings

  type Transform = (GValue, GType) -> Option<GValue>

  // ---------- What a setting's own verify accepts ----------

  /** A string that is set, if the property is a string. */
  ghost predicate IsSet(vals: Values, k: string) {
    k in vals && vals[k].Str?
  }

  ghost predicate HexAndDashes(s: string) {
    && |s| > 0
    && forall i | 0 <= i < |s| :: s[i] == '-' || '0' <= s[i] <= '9' || 'a' <= s[i] <= 'f' || 'A' <= s[i] <= 'F'
  }

  lemma UuidIs(s: string)
    ensures UuidOk(s) <==> HexAndDashes(s)
  {
    if UuidOk(s) {
      forall i | 0 <= i < |s| ensures IsHexDigit(s[i]) || s[i] == '-' {
        assert s[i] in s;
      }
    }
    if HexAndDashes(s) {
      forall c | c in s ensures IsHexDigit(c) || c == '-' {
        var i :| 0 <= i < |s| && s[i] == c;
      }
    }
  }

  /** The id, the uuid and the type are in order. */
  ghost predicate GoodId(vals: Values) {
    IsSet(vals, "id") && vals["id"].s != ""
  }

  ghost predicate GoodUuid(vals: Values) {
    IsSet(vals, "uuid") && HexAndDashes(vals["uuid"].s)
  }

  ghost predicate GoodType(vals: Values) {
    IsSet(vals, "type") && vals["type"].s != ""
  }

  /** The connection setting: what is accepted, and which failure is reported first. */
  lemma ConnectionErrors(vals: Values, names: set<string>)
    requires names != {}
    ensures var err := ConnectionVerify(vals, names);
            && (err == None <==> GoodId(vals) && GoodUuid(vals) && GoodType(vals) && vals["type"].s in names)
            && (!IsSet(vals, "id") ==> err == Some(SettingError(MissingProperty, "id")))
            && (IsSet(vals, "id") && !GoodId(vals) ==> err == Some(SettingError(InvalidProperty, "id")))
            && (GoodId(vals) && !IsSet(vals, "uuid") ==> err == Some(SettingError(MissingProperty, "uuid")))
            && (GoodId(vals) && IsSet(vals, "uuid") && !GoodUuid(vals) ==>
                  err == Some(SettingError(InvalidProperty, "uuid")))
            && (GoodId(vals) && GoodUuid(vals) && !IsSet(vals, "type") ==>
                  err == Some(SettingError(MissingProperty, "type")))
            && (GoodId(vals) && GoodUuid(vals) && IsSet(vals, "type") && !GoodType(vals) ==>
                  err == Some(SettingError(InvalidProperty, "type")))
            && (GoodId(vals) && GoodUuid(vals) && GoodType(vals) && vals["type"].s !in names ==>
                  err == Some(SettingError(TypeSettingNotFound, "type")))
  {
    if IsSet(vals, "uuid") {
      UuidIs(vals["uuid"].s);
    }
  }

  /** The bluetooth setting has an address and one of two types. */
  ghost predicate GoodBluetooth(vals: Values) {
    && "bdaddr" in vals && !vals["bdaddr"].Null?
    && IsSet(vals, "type") && (vals["type"].s == "dun" || vals["type"].s == "panu")
  }

  lemma BluetoothErrors(vals: Values, names: set<string>)
    ensures var err := BluetoothVerify(vals, names);
            && (err == None <==> GoodBluetooth(vals))
            && ("bdaddr" !in vals || vals["bdaddr"].Null? ==> err == Some(SettingError(MissingProperty, "bdaddr")))
            && ("bdaddr" in vals && !vals["bdaddr"].Null? && !IsSet(vals, "type") ==>
                  err == Some(SettingError(MissingProperty, "type")))
            && ("bdaddr" in vals && !vals["bdaddr"].Null? && IsSet(vals, "type") && !GoodBluetooth(vals) ==>
                  err == Some(SettingError(InvalidProperty, "type")))
  {
  }

  // ---------- Priorities and secrets ----------

  /** The registered classes have different priorities, and none of them ever asks for secrets. */
  lemma StandardAsksNothing(transform: Transform, t: string, vals: Values)
    requires t in StandardRegistry(transform).classes
    ensures var cls := StandardRegistry(transform).classes[t];
            && cls.needSecrets(vals).None?
            && cls.priority == if t == "BMSettingConnection" then 0 else if t == "BMSettingBluetooth" then 1 else 2
  {
  }

  // ---------- What a connection needs to be accepted ----------

  /**
   There is a connection setting with an id, a uuid of hex digits and dashes, and a type that is the
   name of some setting; and a bluetooth setting, if there is one, is in order.
   */
  ghost predicate Acceptable(c: ConnVal) {
    && "BMSettingConnection" in c
    && var vals := c["BMSettingConnection"];
       && GoodId(vals) && GoodUuid(vals) && GoodType(vals)
       && (exists t :: t in c && "name" in c[t] && c[t]["name"] == vals["type"])
       && ("BMSettingBluetooth" in c ==> GoodBluetooth(c["BMSettingBluetooth"]))
  }

  function VerifyAs(t: string, vals: Values, names: set<string>): Option<VerifyError> {
    if t == "BMSettingConnection" then ConnectionVerify(vals, names)
    else if t == "BMSettingBluetooth" then BluetoothVerify(vals, names)
    else None
  }

  lemma VerifyOf(transform: Transform, t: string, vals: Values, names: set<string>)
    requires t in StandardRegistry(transform).classes
    ensures StandardRegistry(transform).classes[t].verify(vals, names) == VerifyAs(t, vals, names)
  {
  }

  lemma NamedSomewhere(c: ConnVal, v: GValue)
    requires v.Str?
    ensures v.s in SettingNames(c) <==> exists t :: t in c && "name" in c[t] && c[t]["name"] == v
  {
    if v.s in SettingNames(c) {
      var t :| t in NamesOf(c) && NamesOf(c)[t] == v.s;
      assert t in c && c[t]["name"] == v;
    }
    if t :| t in c && "name" in c[t] && c[t]["name"] == v {
      assert t in NamesOf(c) && NamesOf(c)[t] == v.s;
    }
  }

  lemma AcceptableIff(c: ConnVal)
    requires HasNames(c)
    ensures Acceptable(c) <==>
            "BMSettingConnection" in c && forall t | t in c :: VerifyAs(t, c[t], SettingNames(c)).None?
  {
    var names := SettingNames(c);
    if "BMSettingConnection" in c {
      var vals := c["BMSettingConnection"];
      assert HasNameAt(c, "BMSettingConnection");
      NamedSomewhere(c, vals[NAME]);
      ConnectionErrors(vals, names);
      if IsSet(vals, "type") {
        NamedSomewhere(c, vals["type"]);
      }
      if "BMSettingBluetooth" in c {
        BluetoothErrors(c["BMSettingBluetooth"], names);
      }
    }
  }

  /** A connection of the registered classes is accepted for what it holds, and for nothing else. */
  lemma StandardAccepted(transform: Transform, c: ConnVal)
    requires ValidConn(StandardRegistry(transform), c) && HasNames(c)
    ensures Verified(StandardRegistry(transform), c) <==> Acceptable(c)
  {
    forall t | t in c
      ensures StandardRegistry(transform).classes[t].verify(c[t], SettingNames(c)) == VerifyAs(t, c[t], SettingNames(c))
    {
      VerifyOf(transform, t, c[t], SettingNames(c));
    }
    AcceptableIff(c);
  }

  // ---------- What is parsed ----------

  lemma ValueKept(reg: Registry, p: PropSpec, v: GValue)
    requires CopiesOwnType(reg.transform) && p.writable && TypeOf(v) == p.ptype
    ensures Accepted(reg, p, v) == if p.valid(v) then Some(v) else None
  {
    assert reg.transform(v, TypeOf(v)) == Some(v);
  }

  /** What a section makes of an integer: the default if it is not there, and zero if it is out of range. */
  ghost predicate ReadsInt(vals: Values, section: Values, k: string, t: IntType, default: int, lo: int, hi: int) {
    && k in vals
    && (k !in section ==> vals[k] == Integral(t, default))
    && (k in section && section[k].Integral? && section[k].itype == t ==>
          vals[k] == Integral(t, if lo <= section[k].n <= hi then section[k].n else 0))
  }

  lemma IntParsed(
    reg: Registry, cls: SettingClass, section: Values, k: string, t: IntType, default: int, lo: int, hi: int,
    fuzzyIgnore: bool)
    requires CopiesOwnType(reg.transform)
    requires k in cls.props && cls.props[k] == IntProperty(t, default, lo, hi, fuzzyIgnore)
    ensures ReadsInt(Parsed(reg, cls, section), section, k, t, default, lo, hi)
  {
    if k in section && section[k].Integral? && section[k].itype == t {
      ValueKept(reg, cls.props[k], section[k]);
    }
  }

  /** A string or an address is kept, and is NULL if it is not there. */
  ghost predicate Reads(vals: Values, section: Values, k: string, t: GType) {
    && k in vals
    && (k !in section ==> vals[k] == Null(t))
    && (k in section && TypeOf(section[k]) == t ==> vals[k] == section[k])
  }

  lemma StringParsed(reg: Registry, cls: SettingClass, section: Values, k: string, fuzzyIgnore: bool)
    requires CopiesOwnType(reg.transform) && k in cls.props && cls.props[k] == StringProperty(fuzzyIgnore)
    ensures Reads(Parsed(reg, cls, section), section, k, TString)
  {
    if k in section && TypeOf(section[k]) == TString {
      ValueKept(reg, cls.props[k], section[k]);
    }
  }

  lemma AddressParsed(reg: Registry, cls: SettingClass, section: Values, k: string)
    requires CopiesOwnType(reg.transform) && k in cls.props && cls.props[k] == AddressProperty()
    ensures Reads(Parsed(reg, cls, section), section, k, TFixedArray(Whole(UChar)))
  {
    if k in section && TypeOf(section[k]) == TFixedArray(Whole(UChar)) {
      ValueKept(reg, cls.props[k], section[k]);
    }
  }

  lemma SerialPropsAre()
    ensures var props := SerialProps();
            && props.Keys == {"name", "baud", "bits", "parity", "stopbits", "send-delay"}
            && props["baud"] == IntProperty(UInt, 57600, 0, 0xffff_ffff, false)
            && props["bits"] == IntProperty(UInt, 8, 5, 8, false)
            && props["parity"] == IntProperty(Char, 'n' as int, 'E' as int, 'o' as int, false)
            && props["stopbits"] == IntProperty(UInt, 1, 1, 2, false)
            && props["send-delay"] == IntProperty(UInt64, 0, 0, 0xffff_ffff_ffff_ffff, false)
  {
  }

  /** A serial section: 57600 baud and 8n1 by default, with the ranges of each property. */
  lemma SerialReads(reg: Registry, cls: SettingClass, section: Values)
    requires CopiesOwnType(reg.transform) && cls.props == SerialProps()
    ensures var vals := Parsed(reg, cls, section);
            && ReadsInt(vals, section, "baud", UInt, 57600, 0, 0xffff_ffff)
            && ReadsInt(vals, section, "bits", UInt, 8, 5, 8)
            && ReadsInt(vals, section, "parity", Char, 'n' as int, 'E' as int, 'o' as int)
            && ReadsInt(vals, section, "stopbits", UInt, 1, 1, 2)
            && ReadsInt(vals, section, "send-delay", UInt64, 0, 0, 0xffff_ffff_ffff_ffff)
  {
    SerialPropsAre();
    IntParsed(reg, cls, section, "baud", UInt, 57600, 0, 0xffff_ffff, false);
    IntParsed(reg, cls, section, "bits", UInt, 8, 5, 8, false);
    IntParsed(reg, cls, section, "parity", Char, 'n' as int, 'E' as int, 'o' as int, false);
    IntParsed(reg, cls, section, "stopbits", UInt, 1, 1, 2, false);
    IntParsed(reg, cls, section, "send-delay", UInt64, 0, 0, 0xffff_ffff_ffff_ffff, false);
  }

  lemma ConnectionPropsAre()
    ensures var props := ConnectionProps();
            && props.Keys == {"name", "id", "uuid", "type", "autoconnect", "timestamp", "read-only"}
            && props["id"] == StringProperty(true) && props["uuid"] == StringProperty(true)
            && props["type"] == StringProperty(false)
            && props["autoconnect"] == IntProperty(Boolean, 1, 0, 1, true)
            && props["timestamp"] == IntProperty(UInt64, 0, 0, 0xffff_ffff_ffff_ffff, true)
            && props["read-only"] == IntProperty(Boolean, 0, 0, 1, true)
  {
  }

  /** A connection section: no strings, autoconnect, no timestamp and not read-only by default. */
  lemma ConnectionReads(reg: Registry, cls: SettingClass, section: Values)
    requires CopiesOwnType(reg.transform) && cls.props == ConnectionProps()
    ensures var vals := Parsed(reg, cls, section);
            && Reads(vals, section, "id", TString) && Reads(vals, section, "uuid", TString)
            && Reads(vals, section, "type", TString)
            && ReadsInt(vals, section, "autoconnect", Boolean, 1, 0, 1)
            && ReadsInt(vals, section, "timestamp", UInt64, 0, 0, 0xffff_ffff_ffff_ffff)
            && ReadsInt(vals, section, "read-only", Boolean, 0, 0, 1)
  {
    ConnectionPropsAre();
    StringParsed(reg, cls, section, "id", true);
    StringParsed(reg, cls, section, "uuid", true);
    StringParsed(reg, cls, section, "type", false);
    IntParsed(reg, cls, section, "autoconnect", Boolean, 1, 0, 1, true);
    IntParsed(reg, cls, section, "timestamp", UInt64, 0, 0, 0xffff_ffff_ffff_ffff, true);
    IntParsed(reg, cls, section, "read-only", Boolean, 0, 0, 1, true);
  }

  lemma BluetoothPropsAre()
    ensures var props := BluetoothProps();
            && props.Keys == {"name", "bdaddr", "type"}
            && props["bdaddr"] == AddressProperty() && props["type"] == StringProperty(false)
  {
  }

  /** A bluetooth section: no address and no type by default. */
  lemma BluetoothReads(reg: Registry, cls: SettingClass, section: Values)
    requires CopiesOwnType(reg.transform) && cls.props == BluetoothProps()
    ensures var vals := Parsed(reg, cls, section);
            Reads(vals, section, "bdaddr", TFixedArray(Whole(UChar))) && Reads(vals, section, "type", TString)
  {
    BluetoothPropsAre();
    AddressParsed(reg, cls, section, "bdaddr");
    StringParsed(reg, cls, section, "type", false);
  }

  // ---------- What the flags leave out ----------

  /** No setting of a registered class has secrets; FUZZY looks at no more of a connection than its type. */
  ghost predicate StandardLeftOut(t: string, k: string, flags: CompareFlags) {
    && t == "BMSettingConnection"
    && ((flags.fuzzy && k in {"id", "uuid", "autoconnect", "timestamp", "read-only"}) || (flags.ignoreId && k == "id"))
  }

  lemma ConnectionMarks(k: string)
    requires k in ConnectionProps()
    ensures !ConnectionProps()[k].secret
    ensures ConnectionProps()[k].fuzzyIgnore <==> k in {"id", "uuid", "autoconnect", "timestamp", "read-only"}
  {
    ConnectionPropsAre();
    assert ConnectionProps()["name"] == NameProperty("connection");
  }

  lemma OtherMarks(k: string)
    ensures k in BluetoothProps() ==> !BluetoothProps()[k].secret && !BluetoothProps()[k].fuzzyIgnore
    ensures k in SerialProps() ==> !SerialProps()[k].secret && !SerialProps()[k].fuzzyIgnore
  {
    BluetoothPropsAre();
    SerialPropsAre();
    assert BluetoothProps()["name"] == NameProperty("bluetooth") && SerialProps()["name"] == NameProperty("serial");
  }

  lemma LeftOutOf(transform: Transform, t: string, k: string, flags: CompareFlags)
    requires var reg := StandardRegistry(transform); t in reg.classes && k in reg.classes[t].props
    ensures LeftOut(StandardRegistry(transform).classes[t], k, flags) <==> StandardLeftOut(t, k, flags)
  {
    PropsOf(transform, t);
    ConnectionFlag(transform, t);
    MarksMean(StandardRegistry(transform).classes[t], t, k, flags);
  }

  lemma MarksMean(cls: SettingClass, t: string, k: string, flags: CompareFlags)
    requires k in cls.props && (cls.isConnection <==> t == CONNECTION_TYPE)
    requires cls.props == if t == CONNECTION_TYPE then ConnectionProps()
                          else if t == BLUETOOTH_TYPE then BluetoothProps()
                          else SerialProps()
    ensures LeftOut(cls, k, flags) <==> StandardLeftOut(t, k, flags)
  {
    if t == CONNECTION_TYPE {
      ConnectionMarks(k);
    } else {
      OtherMarks(k);
    }
  }

  lemma ConnectionFlag(transform: Transform, t: string)
    requires t in StandardRegistry(transform).classes
    ensures StandardRegistry(transform).classes[t].isConnection <==> t == "BMSettingConnection"
  {
  }

  /** Two settings of a registered type compare as the same iff all that is not left out is equal. */
  lemma StandardFlags(transform: Transform, t: string, a: Values, b: Values, flags: CompareFlags)
    requires CopiesOwnType(transform) && t in StandardRegistry(transform).classes
    requires var cls := StandardRegistry(transform).classes[t]; ValidValues(cls, a) && ValidValues(cls, b)
    ensures var cls := StandardRegistry(transform).classes[t];
            && (SameValues(cls, a, b, flags) <==>
                  forall k | k in cls.props :: a[k] == b[k] || StandardLeftOut(t, k, flags))
            && (forall k :: k in SharedDiff(cls, a, b, flags) <==>
                  k in cls.props && k != "name" && a[k] != b[k] && !StandardLeftOut(t, k, flags))
  {
    var cls := StandardRegistry(transform).classes[t];
    StandardValid(transform);
    FlagsIff(cls, a, b, flags);
    forall k | k in cls.props ensures LeftOut(cls, k, flags) <==> StandardLeftOut(t, k, flags) {
      LeftOutOf(transform, t, k, flags);
    }
  }

  // ---------- The timestamp that is shown ----------

  lemma StandardStamp(transform: Transform, ts: nat)
    requires ts <= 0xffff_ffff_ffff_ffff
    ensures ValidStamp(StandardRegistry(transform), Some(ts))
    ensures StandardRegistry(transform).connection == "BMSettingConnection"
    ensures StandardRegistry(transform).timestamp == "timestamp"
  {
    var reg := StandardRegistry(transform);
    assert reg.classes[reg.connection].props == ConnectionProps();
    ConnectionPropsAre();
  }

  lemma RestampedAt(reg: Registry, hash: Values, ts: nat)
    ensures reg.timestamp in Restamped(reg, hash, ts) <==> ts != 0
    ensures ts != 0 ==> Restamped(reg, hash, ts)[reg.timestamp] == Integral(UInt64, ts)
  {
  }

  /** A tracked timestamp is shown for the connection's own, and none is shown if it is zero. */
  lemma TimestampShown(transform: Transform, c: ConnVal, ts: nat)
    requires CopiesOwnType(transform) && ValidConn(StandardRegistry(transform), c)
    requires "BMSettingConnection" in c && ts <= 0xffff_ffff_ffff_ffff
    ensures var reg := StandardRegistry(transform);
            var shown := SerializedTypes(reg, Prepared(reg, c, Some(ts)));
            && "BMSettingConnection" in shown
            && ("timestamp" in shown["BMSettingConnection"] <==> ts != 0)
            && (ts != 0 ==> shown["BMSettingConnection"]["timestamp"] == Integral(UInt64, ts))
  {
    var reg := StandardRegistry(transform);
    StandardValid(transform);
    StandardStamp(transform, ts);
    StampShown(reg, c, ts);
  }

  lemma StampShown(reg: Registry, c: ConnVal, ts: nat)
    requires ValidRegistry(reg) && ValidConn(reg, c) && ValidStamp(reg, Some(ts)) && reg.connection in c
    ensures var shown := SerializedTypes(reg, Prepared(reg, c, Some(ts)));
            && reg.connection in shown
            && (reg.timestamp in shown[reg.connection] <==> ts != 0)
            && (ts != 0 ==> shown[reg.connection][reg.timestamp] == Integral(UInt64, ts))
  {
    var cls := reg.classes[reg.connection];
    PublicIs(reg, c, Some(ts));
    RestampedAt(reg, InRangeOnly(cls, Redacted(cls, Serialized(cls, c[reg.connection]))), ts);
  }

  // ---------- Hashes that are accepted, and hashes that are not ----------

  /** A connection section with an id and a uuid, of type bluetooth. */
  ghost predicate WantsBluetooth(section: Values) {
    GoodId(section) && GoodUuid(section) && "type" in section && section["type"] == Str("bluetooth")
  }

  /** A bluetooth section with an address and one of the two types. */
  ghost predicate GivesBluetooth(section: Values) {
    GoodBluetooth(section) && TypeOf(section["bdaddr"]) == TFixedArray(Whole(UChar))
  }

  lemma SectionsExist() returns (connection: Values, bluetooth: Values)
    ensures WantsBluetooth(connection) && GivesBluetooth(bluetooth)
  {
    connection := map["id" := Str("a"), "uuid" := Str("0-f"), "type" := Str("bluetooth")];
    bluetooth := map["bdaddr" := FixedArray(Whole(UChar), "123456"), "type" := Str("panu")];
    assert HexAndDashes("0-f");
  }

  /** There is a hash that is accepted. */
  lemma SomeAccepted(transform: Transform) returns (hash: ConnHash)
    requires CopiesOwnType(transform)
    ensures Accepts(StandardRegistry(transform), hash)
  {
    var connection, bluetooth := SectionsExist();
    hash := map["connection" := connection, "bluetooth" := bluetooth];
    BothAccepted(transform, hash);
  }

  lemma SectionParsed(reg: Registry, hash: ConnHash, n: string)
    requires ValidNames(reg) && KnownNames(reg) && n in hash && n in reg.registered
    ensures var t := reg.registered[n];
            && t in ParsedConn(reg, hash) && ParsedConn(reg, hash)[t] == Parsed(reg, reg.classes[t], hash[n])
            && "name" in ParsedConn(reg, hash)[t] && ParsedConn(reg, hash)[t]["name"] == Str(n)
  {
    var t := reg.registered[n];
    assert Names(reg)[t] == n && t in TypesNamed(reg, hash.Keys);
    NamedParsed(reg, t, hash[n]);
  }

  /** bm_connection_new_from_hash does not return NULL. */
  ghost predicate Accepts(reg: Registry, hash: ConnHash) {
    Verified(reg, ParsedConn(reg, hash))
  }

  /** A hash is accepted for what is parsed from it. */
  lemma HashAccepted(transform: Transform, hash: ConnHash)
    requires CopiesOwnType(transform)
    ensures Accepts(StandardRegistry(transform), hash) <==> Acceptable(ParsedConn(StandardRegistry(transform), hash))
  {
    var reg := StandardRegistry(transform);
    StandardValid(transform);
    StandardKnown(transform);
    ParsedValid(reg, hash);
    StandardAccepted(transform, ParsedConn(reg, hash));
  }

  ghost predicate IsRegistered(reg: Registry, n: string, t: string, props: map<string, PropSpec>) {
    && n in reg.registered && reg.registered[n] == t
    && t in reg.classes && reg.classes[t].props == props
  }

  /** The three settings of the registry, and the rules for names. */
  ghost predicate HasAll(reg: Registry) {
    && CopiesOwnType(reg.transform) && ValidNames(reg) && KnownNames(reg)
    && IsRegistered(reg, "connection", "BMSettingConnection", ConnectionProps())
    && IsRegistered(reg, "bluetooth", "BMSettingBluetooth", BluetoothProps())
    && IsRegistered(reg, "serial", "BMSettingSerial", SerialProps())
  }

  lemma ConnectionRegistered(transform: Transform)
    ensures IsRegistered(StandardRegistry(transform), "connection", "BMSettingConnection", ConnectionProps())
  {
  }

  lemma BluetoothRegistered(transform: Transform)
    ensures IsRegistered(StandardRegistry(transform), "bluetooth", "BMSettingBluetooth", BluetoothProps())
  {
  }

  lemma SerialRegistered(transform: Transform)
    ensures IsRegistered(StandardRegistry(transform), "serial", "BMSettingSerial", SerialProps())
  {
  }

  lemma StandardHasAll(transform: Transform)
    requires CopiesOwnType(transform)
    ensures HasAll(StandardRegistry(transform))
  {
    StandardNames(transform);
    StandardKnown(transform);
    ConnectionRegistered(transform);
    BluetoothRegistered(transform);
    SerialRegistered(transform);
  }

  lemma GoodConnection(reg: Registry, cls: SettingClass, section: Values)
    requires CopiesOwnType(reg.transform) && cls.props == ConnectionProps() && WantsBluetooth(section)
    ensures WantsBluetooth(Parsed(reg, cls, section))
  {
    ConnectionReads(reg, cls, section);
  }

  lemma GoodAddress(reg: Registry, cls: SettingClass, section: Values)
    requires CopiesOwnType(reg.transform) && cls.props == BluetoothProps() && GivesBluetooth(section)
    ensures GoodBluetooth(Parsed(reg, cls, section))
  {
    BluetoothReads(reg, cls, section);
  }

  /** With these two sections a hash is accepted. */
  lemma BothAccepted(transform: Transform, hash: ConnHash)
    requires CopiesOwnType(transform)
    requires "connection" in hash && WantsBluetooth(hash["connection"])
    requires "bluetooth" in hash && GivesBluetooth(hash["bluetooth"])
    ensures Accepts(StandardRegistry(transform), hash)
  {
    StandardHasAll(transform);
    BothAcceptable(StandardRegistry(transform), hash);
    HashAccepted(transform, hash);
  }

  lemma BothAcceptable(reg: Registry, hash: ConnHash)
    requires HasAll(reg)
    requires "connection" in hash && WantsBluetooth(hash["connection"])
    requires "bluetooth" in hash && GivesBluetooth(hash["bluetooth"])
    ensures Acceptable(ParsedConn(reg, hash))
  {
    var c := ParsedConn(reg, hash);
    SectionParsed(reg, hash, "connection");
    SectionParsed(reg, hash, "bluetooth");
    GoodConnection(reg, reg.classes["BMSettingConnection"], hash["connection"]);
    GoodAddress(reg, reg.classes["BMSettingBluetooth"], hash["bluetooth"]);
    assert c["BMSettingBluetooth"]["name"] == c["BMSettingConnection"]["type"];
  }

  /** Without the setting that is named as its type, it is not. */
  lemma TypeAloneRefused(transform: Transform, hash: ConnHash)
    requires CopiesOwnType(transform)
    requires hash.Keys == {"connection"} && WantsBluetooth(hash["connection"])
    ensures !Accepts(StandardRegistry(transform), hash)
  {
    StandardHasAll(transform);
    AloneUnacceptable(StandardRegistry(transform), hash);
    HashAccepted(transform, hash);
  }

  lemma AloneUnacceptable(reg: Registry, hash: ConnHash)
    requires HasAll(reg) && hash.Keys == {"connection"} && WantsBluetooth(hash["connection"])
    ensures !Acceptable(ParsedConn(reg, hash))
  {
    var c, t := ParsedConn(reg, hash), "BMSettingConnection";
    assert "connection" in hash;
    SectionParsed(reg, hash, "connection");
    GoodConnection(reg, reg.classes[t], hash["connection"]);
    OnlyType(reg, hash);
    OnlyName(c, t);
  }

  lemma OnlyType(reg: Registry, hash: ConnHash)
    requires HasAll(reg) && hash.Keys == {"connection"}
    ensures ParsedConn(reg, hash).Keys <= {"BMSettingConnection"}
  {
  }

  lemma OnlyName(c: ConnVal, t: string)
    requires t in c && t == "BMSettingConnection" && c.Keys <= {t}
    requires "name" in c[t] && c[t]["name"] == Str("connection") && "type" in c[t] && c[t]["type"] == Str("bluetooth")
    ensures !Acceptable(c)
  {
    assert |"connection"| != |"bluetooth"|;
  }
}
