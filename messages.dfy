/**
 * The message shaping of the bridge (aqualogic_mqtt/messages.py): the entity
 * catalog, identifier sanitising, the state and discovery payloads, and the
 * routing of inbound command topics.
 */
module Messages {
  import opened Wrappers
  import opened Strings
  import opened Dicts
  import opened Json
  import opened Aqualogic
  import Panelmanager

  // ---------------------------------------------------------------------
  // Identifier sanitising (get_id_for_string)
  // ---------------------------------------------------------------------

  /** `str.isidentifier` on a single ASCII character: a letter or `_`. */
  predicate IsIdentifierChar(c: char) {
    'a' <= c <= 'z' || 'A' <= c <= 'Z' || c == '_'
  }

  /** The characters `get_id_for_string` keeps: `str.isdecimal` is taken to be `IsAsciiDigit`. */
  predicate IsWordChar(c: char) {
    IsIdentifierChar(c) || IsAsciiDigit(c)
  }

  /** Every character that is not kept becomes a space. */
  function Masked(s: string): (r: string)
    ensures |r| == |s|
  {
    seq(|s|, i requires 0 <= i < |s| => if IsWordChar(s[i]) then s[i] else ' ')
  }

  /** The kept runs of `s`, joined by `_`, before leading digits are stripped. */
  function JoinedWords(s: string): string {
    Join("_", Split(Masked(s)))
  }

  /** `get_id_for_string`: a name usable as an MQTT key or entity id. */
  function IdForString(s: string): (r: string)
    ensures AllSatisfy(r, IsWordChar)
    ensures NoneSatisfy(r, IsSpace)
    ensures r == [] || !IsAsciiDigit(r[0])
  {
    var j := JoinedWords(s);
    JoinedWordsAreWordChars(s);
    var r := TrimLeft(j, IsAsciiDigit);
    SuffixKeeps(j, |j| - |r|, IsWordChar);
    WordCharsAreNotSpace(r);
    r
  }

  lemma WordCharsAreNotSpace(r: string)
    requires AllSatisfy(r, IsWordChar)
    ensures NoneSatisfy(r, IsSpace)
  {
    forall i | 0 <= i < |r| ensures !IsSpace(r[i]) {
      assert IsWordChar(r[i]);
    }
  }

  predicate WordOrBlank(c: char) {
    IsWordChar(c) || c == ' '
  }

  lemma {:induction false} SplitKeeps(s: string, p: char -> bool)
    requires AllSatisfy(s, p)
    ensures forall i :: 0 <= i < |Split(s)| ==> AllSatisfy(Split(s)[i], p)
    decreases |s|
  {
    var t := SkipSpace(s);
    SuffixKeeps(s, |s| - |t|, p);
    if t != [] {
      var w := Word(t);
      PrefixKeeps(t, |w|, p);
      SuffixKeeps(t, |w|, p);
      var rest := Split(t[|w|..]);
      SplitKeeps(t[|w|..], p);
      var parts := Split(s);
      assert parts == [w] + rest;
      forall i | 0 <= i < |parts| ensures AllSatisfy(parts[i], p) {
        if i > 0 { assert parts[i] == rest[i - 1]; }
      }
    }
  }

  lemma JoinedWordsAreWordChars(s: string)
    ensures AllSatisfy(JoinedWords(s), IsWordChar)
  {
    var m := Masked(s);
    assert AllSatisfy(m, WordOrBlank);
    SplitKeeps(m, WordOrBlank);
    var parts := Split(m);
    forall i | 0 <= i < |parts| ensures AllSatisfy(parts[i], IsWordChar) {
      forall k | 0 <= k < |parts[i]| ensures IsWordChar(parts[i][k]) {
        assert WordOrBlank(parts[i][k]) && !IsSpace(parts[i][k]);
      }
    }
    JoinKeeps("_", parts, IsWordChar);
  }

  predicate HasWordChar(s: string) {
    exists i :: 0 <= i < |s| && IsWordChar(s[i])
  }

  lemma MaskedAppend(a: string, b: string)
    ensures Masked(a + b) == Masked(a) + Masked(b)
  {
  }

  lemma MaskedBlanks(sep: string)
    requires NoneSatisfy(sep, IsWordChar)
    ensures AllSatisfy(Masked(sep), IsSpace)
  {
  }

  /** A run of kept characters is its own identifier. */
  lemma JoinedWordsOfRun(w: string)
    requires w != [] && AllSatisfy(w, IsWordChar)
    ensures JoinedWords(w) == w
  {
    assert Masked(w) == w;
    WordCharsAreNotSpace(w);
    SplitOfWord(w);
  }

  /** A run of dropped characters at either end of the input leaves no trace. */
  lemma JoinedWordsIgnoreEdges(a: string, sep: string)
    requires NoneSatisfy(sep, IsWordChar)
    ensures JoinedWords(sep + a) == JoinedWords(a)
    ensures JoinedWords(a + sep) == JoinedWords(a)
  {
    MaskedAppend(sep, a);
    MaskedAppend(a, sep);
    MaskedBlanks(sep);
    SplitAfterSpaces(Masked(sep), Masked(a));
    SplitBeforeSpaces(Masked(a), Masked(sep));
  }

  lemma MaskedNotBlank(a: string)
    requires HasWordChar(a)
    ensures Split(Masked(a)) != []
  {
    var i :| 0 <= i < |a| && IsWordChar(a[i]);
    assert Masked(a)[i] == a[i];
    SplitOfNonBlank(Masked(a), i);
  }

  /** A run of dropped characters between kept ones becomes exactly one `_`. */
  lemma JoinedWordsAtSeparator(a: string, sep: string, b: string)
    requires HasWordChar(a) && HasWordChar(b)
    requires sep != [] && NoneSatisfy(sep, IsWordChar)
    ensures JoinedWords(a + sep + b) == JoinedWords(a) + "_" + JoinedWords(b)
  {
    MaskedAppend(a + sep, b);
    MaskedAppend(a, sep);
    MaskedBlanks(sep);
    SplitAroundBlanks(Masked(a), Masked(sep), Masked(b));
    MaskedNotBlank(a);
    MaskedNotBlank(b);
    JoinAppend("_", Split(Masked(a)), Split(Masked(b)));
  }

  // ---------------------------------------------------------------------
  // The entity catalog (get_control_dict, get_sensor_dict, get_valid_entity_meta)
  // ---------------------------------------------------------------------

  /** A switch (or the light) the bridge exposes: the panel state it shows and sets. */
  datatype Control = Control(state: State, id: string, name: string)

  /** A read-only sensor: `attr` is the panel attribute it reports. */
  datatype Sensor = Sensor(id: string, attr: Attribute, platform: string,
                           devClass: Option<string>, unit: Option<string>, name: string)

  /** A row of `get_control_dict`: key, panel state, id after the identifier, name. */
  datatype ControlRow = ControlRow(key: string, state: State, suffix: string, name: string)

  const ControlRows: seq<ControlRow> := [
    ControlRow("l", Lights, "_light_lights", "Lights"),
    ControlRow("f", Filter, "_switch_filter", "Filter"),
    ControlRow("aux1", Aux(1), "_switch_aux_1", "Aux 1"),
    ControlRow("aux2", Aux(2), "_switch_aux_2", "Aux 2"),
    ControlRow("aux3", Aux(3), "_switch_aux_3", "Aux 3"),
    ControlRow("aux4", Aux(4), "_switch_aux_4", "Aux 4"),
    ControlRow("aux5", Aux(5), "_switch_aux_5", "Aux 5"),
    ControlRow("aux6", Aux(6), "_switch_aux_6", "Aux 6"),
    ControlRow("aux7", Aux(7), "_switch_aux_7", "Aux 7"),
    ControlRow("aux8", Aux(8), "_switch_aux_8", "Aux 8"),
    ControlRow("aux9", Aux(9), "_switch_aux_9", "Aux 9"),
    ControlRow("aux10", Aux(10), "_switch_aux_10", "Aux 10"),
    ControlRow("aux11", Aux(11), "_switch_aux_11", "Aux 11"),
    ControlRow("aux12", Aux(12), "_switch_aux_12", "Aux 12"),
    ControlRow("aux13", Aux(13), "_switch_aux_13", "Aux 13"),
    ControlRow("aux14", Aux(14), "_switch_aux_14", "Aux 14"),
    ControlRow("spill", Spillover, "_switch_spillover", "Spillover"),
    ControlRow("v3", Valve3, "_switch_valve_3", "Valve 3"),
    ControlRow("v4", Valve4, "_switch_valve_4", "Valve 4"),
    ControlRow("h1", Heater1, "_switch_heater_1", "Heater 1"),
    ControlRow("hauto", HeaterAutoMode, "_switch_heater_auto", "Heater Auto Mode"),
    ControlRow("sc", SuperChlorinate, "_switch_super_chlorinate", "Super Chlorinate"),
    ControlRow("pool", Pool, "_switch_pool", "Pool"),
    ControlRow("spa", Spa, "_switch_spa", "Spa")
  ]

  /** A row of `get_sensor_dict`: key, id after the identifier, attribute, device class, unit, name. */
  datatype SensorRow = SensorRow(key: string, suffix: string, attr: Attribute,
                                 devClass: Option<string>, unit: Option<string>, name: string)

  const SensorRows: seq<SensorRow> := [
    SensorRow("t_a", "_sensor_air_temperature", AirTemp, Some("temperature"), Some("\U{00B0}F"), "Air Temperature"),
    SensorRow("t_p", "_sensor_pool_temperature", PoolTemp, Some("temperature"), Some("\U{00B0}F"), "Pool Temperature"),
    SensorRow("t_s", "_sensor_spa_temperature", SpaTemp, Some("temperature"), Some("\U{00B0}F"), "Spa Temperature"),
    SensorRow("cl_p", "_sensor_pool_chlorinator", PoolChlorinator, None, Some("%"), "Pool Chlorinator"),
    SensorRow("cl_s", "_sensor_spa_chlorinator", SpaChlorinator, None, Some("%"), "Spa Chlorinator"),
    SensorRow("salt", "_sensor_salt_level", SaltLevel, None, Some("ppm"), "Salt Level"),
    SensorRow("s_p", "_sensor_pump_speed", PumpSpeed, None, None, "Pump Speed"),
    SensorRow("p_p", "_sensor_pump_power", PumpPower, Some("power"), Some("W"), "Pump Power")
  ]

  const ControlKeys: seq<string> := ControlKeysHead + ControlKeysTail
  const ControlKeysHead: seq<string> :=
    ["l", "f", "aux1", "aux2", "aux3", "aux4", "aux5", "aux6", "aux7", "aux8", "aux9", "aux10"]
  const ControlKeysTail: seq<string> :=
    ["aux11", "aux12", "aux13", "aux14", "spill", "v3", "v4", "h1", "hauto", "sc", "pool", "spa"]
  const SensorKeys: seq<string> := ["t_a", "t_p", "t_s", "cl_p", "cl_s", "salt", "s_p", "p_p"]

  function ControlEntry(identifier: string, row: ControlRow): (string, Control) {
    (row.key, Control(row.state, identifier + row.suffix, row.name))
  }

  function SensorEntry(identifier: string, row: SensorRow): (string, Sensor) {
    (row.key, Sensor(identifier + row.suffix, row.attr, "sensor", row.devClass, row.unit, row.name))
  }

  /** `get_control_dict(identifier)`. */
  function ControlDict(identifier: string): (r: Dict<Control>)
    ensures Keys(r) == ControlKeys
  {
    seq(|ControlRows|, i requires 0 <= i < |ControlRows| =>
      ControlEntry(identifier, ControlRows[i]))
  }

  /** `get_sensor_dict(identifier)`. */
  function SensorDict(identifier: string): (r: Dict<Sensor>)
    ensures Keys(r) == SensorKeys
  {
    seq(|SensorRows|, i requires 0 <= i < |SensorRows| =>
      SensorEntry(identifier, SensorRows[i]))
  }

  /** No key is used twice, within or across the two catalogs. */
  lemma CatalogKeysDistinct()
    ensures Distinct(SensorKeys + ControlKeys)
  {
    ControlKeysDistinct();
    SensorKeysApart();
    DistinctAppend(SensorKeys, ControlKeys);
  }

  // The literal key lists are compared block by block, each block against
  // itself and against the others.

  lemma SensorKeysDistinct()
    ensures Distinct(SensorKeys)
  {
  }

  lemma ControlKeysHeadDistinct()
    ensures Distinct(ControlKeysHead)
  {
  }

  lemma ControlKeysTailDistinct()
    ensures Distinct(ControlKeysTail)
  {
  }

  lemma ControlKeysDistinct()
    ensures Distinct(ControlKeys)
  {
    ControlKeysHeadDistinct();
    ControlKeysTailDistinct();
    assert forall k :: k in ControlKeysHead ==> k !in ControlKeysTail;
    DistinctAppend(ControlKeysHead, ControlKeysTail);
  }

  lemma SensorKeysApart()
    ensures Distinct(SensorKeys)
    ensures forall k :: k in SensorKeys ==> k !in ControlKeys
  {
    SensorKeysDistinct();
    SensorKeysApartFromHead();
    SensorKeysApartFromTail();
  }

  lemma SensorKeysApartFromHead()
    ensures forall k :: k in SensorKeys ==> k !in ControlKeysHead
  {
  }

  lemma SensorKeysApartFromTail()
    ensures forall k :: k in SensorKeys ==> k !in ControlKeysTail
  {
  }

  /** `cs` and `sysm` are not catalog keys. */
  lemma ExtraKeysApart()
    ensures forall k :: k in SensorKeys + ControlKeys ==> k !in ["cs", "sysm"]
  {
    assert forall k :: k in SensorKeys ==> k !in ["cs", "sysm"];
    assert forall k :: k in ControlKeysHead ==> k !in ["cs", "sysm"];
    assert forall k :: k in ControlKeysTail ==> k !in ["cs", "sysm"];
  }

  /** Distinct control ids: ids are the identifier followed by distinct suffixes. */
  predicate DistinctIds(d: Dict<Control>) {
    forall i, j :: 0 <= i < j < |d| ==> d[i].1.id != d[j].1.id
  }

  lemma PrefixCancel(p: string, a: string, b: string)
    requires p + a == p + b
    ensures a == b
  {
    assert a == (p + a)[|p|..];
  }

  lemma ControlIdsDistinct(identifier: string)
    ensures DistinctIds(ControlDict(identifier))
  {
    ControlSuffixesDistinct();
    var d := ControlDict(identifier);
    forall i, j | 0 <= i < j < |d| ensures d[i].1.id != d[j].1.id {
      if d[i].1.id == d[j].1.id {
        PrefixCancel(identifier, ControlRows[i].suffix, ControlRows[j].suffix);
      }
    }
  }

  /** No two control rows share a suffix; compared in blocks of rows. */
  lemma ControlSuffixesDistinct()
    ensures forall i, j :: 0 <= i < j < |ControlRows| ==> ControlRows[i].suffix != ControlRows[j].suffix
  {
    SuffixesDistinctEarly();
    SuffixesDistinctLate();
    SuffixesApartMiddle();
    SuffixesApartLate();
  }

  lemma SuffixesDistinctEarly()
    ensures forall i, j :: 0 <= i < j < 12 ==> ControlRows[i].suffix != ControlRows[j].suffix
  {
  }

  lemma SuffixesDistinctLate()
    ensures forall i, j :: 12 <= i < j < 24 ==> ControlRows[i].suffix != ControlRows[j].suffix
  {
  }

  lemma SuffixesApartMiddle()
    ensures forall i, j :: 0 <= i < 12 && 12 <= j < 18 ==> ControlRows[i].suffix != ControlRows[j].suffix
  {
  }

  lemma SuffixesApartLate()
    ensures forall i, j :: 0 <= i < 12 && 18 <= j < 24 ==> ControlRows[i].suffix != ControlRows[j].suffix
  {
  }

  function ControlNames(d: Dict<Control>): (r: Dict<string>)
    ensures Keys(r) == Keys(d)
  {
    seq(|d|, i requires 0 <= i < |d| => (d[i].0, d[i].1.name))
  }

  function SensorNames(d: Dict<Sensor>): (r: Dict<string>)
    ensures Keys(r) == Keys(d)
  {
    seq(|d|, i requires 0 <= i < |d| => (d[i].0, d[i].1.name))
  }

  /**
   * `get_valid_entity_meta()`: every catalog key with its display name; the
   * sensor keys come first, then the control keys, each once.
   */
  function EntityNames(): (r: Dict<string>)
    ensures Keys(r) == SensorKeys + ControlKeys
    ensures UniqueKeys(r)
  {
    var s := SensorNames(SensorDict("aqualogic"));
    var c := ControlNames(ControlDict("aqualogic"));
    KeysAppend(s, c);
    CatalogKeysDistinct();
    PutAllFresh(s, c);
    PutAll(s, c)
  }

  /** The state keys a user sensor may not take: SensorKeys + ControlKeys + ["cs", "sysm"]. */
  function ReservedKeys(): seq<string> {
    SensorKeys + ControlKeys + ["cs", "sysm"]
  }

  /** The reserved keys are those of `get_valid_entity_meta()`, then `cs` and `sysm`. */
  lemma ReservedKeysAreEntityKeys()
    ensures ReservedKeys() == Keys(EntityNames()) + ["cs", "sysm"]
  {
  }

  // ---------------------------------------------------------------------
  // User sensors on "Check System" messages (get_system_message_sensor_dict)
  // ---------------------------------------------------------------------

  /** A binary sensor that is on while its message is displayed. */
  datatype MessageSensor = MessageSensor(id: string, devClass: string, name: string)

  /** Why a configuration is refused: `sms[0]` of an empty definition, or a taken key. */
  datatype ConfigError = MissingText | ReservedKey(key: string)

  /** The state key of a definition `[text, key?, device class?]`: the sanitised key, else the sanitised text. */
  function SensorKeyFor(def: seq<string>): string
    requires def != []
  {
    IdForString(if |def| >= 2 then def[1] else def[0])
  }

  function MessageSensorFor(identifier: string, def: seq<string>): MessageSensor
    requires def != []
  {
    MessageSensor(identifier + "_" + IdForString(def[0]),
                  if |def| < 3 then "problem" else def[2],
                  def[0])
  }

  /** A definition the loop accepts. */
  predicate Acceptable(def: seq<string>) {
    def != [] && SensorKeyFor(def) !in ReservedKeys()
  }

  /** The error the loop raises on a definition it does not accept. */
  function ErrorFor(def: seq<string>): ConfigError
    requires !Acceptable(def)
  {
    if def == [] then MissingText else ReservedKey(SensorKeyFor(def))
  }

  /** One turn of the loop: assign the definition's sensor to its key, or fail. */
  function AddSensor(identifier: string, acc: Result<Dict<MessageSensor>, ConfigError>, def: seq<string>)
    : (r: Result<Dict<MessageSensor>, ConfigError>)
    ensures acc.Err? ==> r == acc
    ensures acc.Ok? && !Acceptable(def) ==> r == Err(ErrorFor(def))
    ensures acc.Ok? && Acceptable(def) ==> r == Ok(Put(acc.value, SensorKeyFor(def), MessageSensorFor(identifier, def)))
  {
    match acc
    case Err(e) => Err(e)
    case Ok(d) =>
      if !Acceptable(def) then Err(ErrorFor(def))
      else Ok(Put(d, SensorKeyFor(def), MessageSensorFor(identifier, def)))
  }

  /** A turn keeps the keys distinct and clear of the reserved ones. */
  predicate ClearKeys(d: Dict<MessageSensor>) {
    UniqueKeys(d) && forall k :: k in Keys(d) ==> k !in ReservedKeys()
  }

  lemma AddSensorKeeps(identifier: string, acc: Result<Dict<MessageSensor>, ConfigError>, def: seq<string>)
    requires acc.Ok? ==> ClearKeys(acc.value)
    ensures AddSensor(identifier, acc, def).Ok? ==> ClearKeys(AddSensor(identifier, acc, def).value)
  {
    if acc.Ok? && Acceptable(def) {
      var d := acc.value;
      var key := SensorKeyFor(def);
      var v := MessageSensorFor(identifier, def);
      PutUnique(d, key, v);
      PutAvoids(d, key, v, ReservedKeys());
    }
  }

  /**
   * `get_system_message_sensor_dict(identifier, defs)`: the definitions in
   * order, each assigned to its key; the first refused one ends it with an error.
   */
  function MessageSensorDict(identifier: string, defs: seq<seq<string>>): (r: Result<Dict<MessageSensor>, ConfigError>)
    decreases |defs|
  {
    if defs == [] then Ok([])
    else
      var n := |defs| - 1;
      AddSensor(identifier, MessageSensorDict(identifier, defs[..n]), defs[n])
  }

  /** On success the user sensors have distinct keys, none of them reserved. */
  lemma {:induction false} MessageSensorDictClear(identifier: string, defs: seq<seq<string>>)
    ensures MessageSensorDict(identifier, defs).Ok? ==> ClearKeys(MessageSensorDict(identifier, defs).value)
    decreases |defs|
  {
    if defs != [] {
      var n := |defs| - 1;
      MessageSensorDictClear(identifier, defs[..n]);
      AddSensorKeeps(identifier, MessageSensorDict(identifier, defs[..n]), defs[n]);
    }
  }

  /** The (key, sensor) assignments the loop makes, in order. */
  function SensorAssignments(identifier: string, defs: seq<seq<string>>): (r: Dict<MessageSensor>)
    requires NonEmpty(defs)
    ensures |r| == |defs|
  {
    seq(|defs|, i requires 0 <= i < |defs| && defs[i] != [] =>
      (SensorKeyFor(defs[i]), MessageSensorFor(identifier, defs[i])))
  }

  predicate NonEmpty(defs: seq<seq<string>>) {
    forall i :: 0 <= i < |defs| ==> defs[i] != []
  }

  predicate AllAcceptable(defs: seq<seq<string>>) {
    forall i :: 0 <= i < |defs| ==> Acceptable(defs[i])
  }

  lemma AllAcceptableSnoc(defs: seq<seq<string>>, def: seq<string>)
    ensures AllAcceptable(defs + [def]) <==> AllAcceptable(defs) && Acceptable(def)
  {
    assert forall i :: 0 <= i < |defs| ==> (defs + [def])[i] == defs[i];
    assert (defs + [def])[|defs|] == def;
  }

  /** The loop succeeds exactly when it accepts every definition. */
  lemma {:induction false} MessageSensorDictOk(identifier: string, defs: seq<seq<string>>)
    ensures MessageSensorDict(identifier, defs).Ok? <==> AllAcceptable(defs)
    decreases |defs|
  {
    if defs != [] {
      var n := |defs| - 1;
      var p := defs[..n];
      MessageSensorDictOk(identifier, p);
      AllAcceptableSnoc(p, defs[n]);
      FrontLast(defs);
    }
  }

  /**
   * On success the result is the assignments made one after the other, so a
   * key given twice keeps the later sensor, in the earlier one's place.
   */
  lemma {:induction false} MessageSensorDictAssigns(identifier: string, defs: seq<seq<string>>)
    requires AllAcceptable(defs)
    ensures NonEmpty(defs)
    ensures MessageSensorDict(identifier, defs) == Ok(PutAll([], SensorAssignments(identifier, defs)))
    decreases |defs|
  {
    AcceptableNonEmpty(defs);
    if defs != [] {
      var n := |defs| - 1;
      var p := defs[..n];
      var def := defs[n];
      AllAcceptableSnoc(p, def);
      FrontLast(defs);
      MessageSensorDictAssigns(identifier, p);
      var d := PutAll([], SensorAssignments(identifier, p));
      MessageSensorDictUnfold(identifier, defs);
      AddSensorAccepts(identifier, d, def);
      SensorAssignmentsSnoc(identifier, p, def);
      PutAllAppendOne([], SensorAssignments(identifier, p), (SensorKeyFor(def), MessageSensorFor(identifier, def)));
    }
  }

  lemma AcceptableNonEmpty(defs: seq<seq<string>>)
    requires AllAcceptable(defs)
    ensures NonEmpty(defs)
  {
    forall i | 0 <= i < |defs| ensures defs[i] != [] {
      assert Acceptable(defs[i]);
    }
  }

  lemma MessageSensorDictUnfold(identifier: string, defs: seq<seq<string>>)
    requires defs != []
    ensures MessageSensorDict(identifier, defs)
         == AddSensor(identifier, MessageSensorDict(identifier, defs[..|defs| - 1]), defs[|defs| - 1])
  {
  }

  lemma AddSensorAccepts(identifier: string, d: Dict<MessageSensor>, def: seq<string>)
    requires Acceptable(def)
    ensures AddSensor(identifier, Ok(d), def) == Ok(Put(d, SensorKeyFor(def), MessageSensorFor(identifier, def)))
  {
  }

  lemma SensorAssignmentsSnoc(identifier: string, defs: seq<seq<string>>, def: seq<string>)
    requires NonEmpty(defs) && def != []
    ensures NonEmpty(defs + [def])
    ensures SensorAssignments(identifier, defs + [def])
         == SensorAssignments(identifier, defs) + [(SensorKeyFor(def), MessageSensorFor(identifier, def))]
  {
    var e := defs + [def];
    NonEmptySnoc(defs, def);
    var a := SensorAssignments(identifier, e);
    var b := SensorAssignments(identifier, defs) + [(SensorKeyFor(def), MessageSensorFor(identifier, def))];
    forall j | 0 <= j < |a| ensures a[j] == b[j] {
      SensorAssignmentsAt(identifier, e, j);
      if j < |defs| {
        SensorAssignmentsAt(identifier, defs, j);
        assert e[j] == defs[j];
      } else {
        assert e[j] == def;
      }
    }
  }

  lemma NonEmptySnoc(defs: seq<seq<string>>, def: seq<string>)
    requires NonEmpty(defs) && def != []
    ensures NonEmpty(defs + [def])
  {
    var e := defs + [def];
    forall j | 0 <= j < |e| ensures e[j] != [] {
      assert e[j] == if j < |defs| then defs[j] else def;
    }
  }

  lemma SensorAssignmentsAt(identifier: string, defs: seq<seq<string>>, j: nat)
    requires NonEmpty(defs) && j < |defs|
    ensures SensorAssignments(identifier, defs)[j] == (SensorKeyFor(defs[j]), MessageSensorFor(identifier, defs[j]))
  {
  }

  /** On failure the error is the one of the first refused definition. */
  lemma {:induction false} MessageSensorDictFirstError(identifier: string, defs: seq<seq<string>>, i: nat)
    requires i < |defs| && !Acceptable(defs[i]) && AllAcceptable(defs[..i])
    ensures MessageSensorDict(identifier, defs) == Err(ErrorFor(defs[i]))
    decreases |defs|
  {
    var n := |defs| - 1;
    var p := defs[..n];
    if i == n {
      MessageSensorDictOk(identifier, p);
    } else {
      assert p[..i] == defs[..i] && p[i] == defs[i];
      MessageSensorDictFirstError(identifier, p, i);
    }
  }

  lemma MessageSensorDictSnoc(identifier: string, defs: seq<seq<string>>, i: nat)
    requires i < |defs|
    ensures MessageSensorDict(identifier, defs[..i + 1])
         == AddSensor(identifier, MessageSensorDict(identifier, defs[..i]), defs[i])
  {
    PrefixStep(defs, i);
  }

  /** The loop of `get_system_message_sensor_dict`, building `result` in place. */
  method GetSystemMessageSensorDict(identifier: string, defs: seq<seq<string>>)
    returns (r: Result<Dict<MessageSensor>, ConfigError>)
    ensures r == MessageSensorDict(identifier, defs)
  {
    var result: Dict<MessageSensor> := [];
    var i := 0;
    while i < |defs|
      invariant 0 <= i <= |defs|
      invariant MessageSensorDict(identifier, defs[..i]) == Ok(result)
    {
      var def := defs[i];
      SensorDictTurn(identifier, defs, i, result);
      if def == [] {
        return Err(MissingText);
      }
      var key := IdForString(if |def| >= 2 then def[1] else def[0]);
      if key in ReservedKeys() {
        return Err(ReservedKey(key));
      }
      result := Put(result, key, MessageSensorFor(identifier, def));
      i := i + 1;
    }
    Whole(defs);
    r := Ok(result);
  }

  /** One turn of the loop, with the checks in the order the loop makes them. */
  lemma SensorDictTurn(identifier: string, defs: seq<seq<string>>, i: nat, result: Dict<MessageSensor>)
    requires i < |defs| && MessageSensorDict(identifier, defs[..i]) == Ok(result)
    ensures defs[i] == [] ==> MessageSensorDict(identifier, defs) == Err(MissingText)
    ensures defs[i] != [] && SensorKeyFor(defs[i]) in ReservedKeys()
        ==> MessageSensorDict(identifier, defs) == Err(ReservedKey(SensorKeyFor(defs[i])))
    ensures defs[i] != [] && SensorKeyFor(defs[i]) !in ReservedKeys()
        ==> MessageSensorDict(identifier, defs[..i + 1])
            == Ok(Put(result, SensorKeyFor(defs[i]), MessageSensorFor(identifier, defs[i])))
  {
    MessageSensorDictSnoc(identifier, defs, i);
    AddSensorStep(identifier, result, defs[i]);
    if !Acceptable(defs[i]) {
      MessageSensorDictStops(identifier, defs, i + 1);
    }
  }

  lemma AddSensorStep(identifier: string, d: Dict<MessageSensor>, def: seq<string>)
    ensures def == [] ==> AddSensor(identifier, Ok(d), def) == Err(MissingText)
    ensures def != [] && SensorKeyFor(def) in ReservedKeys()
        ==> AddSensor(identifier, Ok(d), def) == Err(ReservedKey(SensorKeyFor(def)))
    ensures def != [] && SensorKeyFor(def) !in ReservedKeys()
        ==> AddSensor(identifier, Ok(d), def) == Ok(Put(d, SensorKeyFor(def), MessageSensorFor(identifier, def)))
  {
  }

  /** Once the loop has failed on a prefix, the rest of the definitions do not matter. */
  lemma {:induction false} MessageSensorDictStops(identifier: string, defs: seq<seq<string>>, k: nat)
    requires k <= |defs| && MessageSensorDict(identifier, defs[..k]).Err?
    ensures MessageSensorDict(identifier, defs) == MessageSensorDict(identifier, defs[..k])
    decreases |defs| - k
  {
    if k < |defs| {
      PrefixStep(defs, k);
      MessageSensorDictStops(identifier, defs, k + 1);
    } else {
      Whole(defs);
    }
  }

  // ---------------------------------------------------------------------
  // The formatter (Messages.__init__)
  // ---------------------------------------------------------------------

  /** A configured `Messages` object; its fields are set once and never changed. */
  datatype Formatter = Formatter(
    identifier: string,
    discoverPrefix: string,
    root: string,
    statusPath: string,
    controls: Dict<Control>,
    sensors: Dict<Sensor>,
    messageSensors: Dict<MessageSensor>)

  /** What configuration guarantees about a formatter. */
  predicate Valid(f: Formatter) {
    && f.root == f.discoverPrefix + "/device/" + f.identifier
    && f.statusPath == f.discoverPrefix + "/status"
    && UniqueKeys(f.controls) && UniqueKeys(f.sensors)
    && (forall e :: e in f.controls ==> e in ControlDict(f.identifier))
    && (forall e :: e in f.sensors ==> e in SensorDict(f.identifier))
    && DistinctIds(f.controls)
    && ClearKeys(f.messageSensors)
  }

  /** `Messages(identifier, discover_prefix, enable, system_message_sensors)`. */
  function Configure(identifier: string, discoverPrefix: string, enable: seq<string>, defs: seq<seq<string>>)
    : (r: Result<Formatter, ConfigError>)
    ensures r.Ok? ==> Valid(r.value)
  {
    MessageSensorDictClear(identifier, defs);
    match MessageSensorDict(identifier, defs)
    case Err(e) => Err(e)
    case Ok(sms) =>
      var controls := Restrict(ControlDict(identifier), enable);
      var sensors := Restrict(SensorDict(identifier), enable);
      CatalogKeysDistinct();
      assert Keys(ControlDict(identifier)) == (SensorKeys + ControlKeys)[|SensorKeys|..];
      assert Keys(SensorDict(identifier)) == (SensorKeys + ControlKeys)[..|SensorKeys|];
      RestrictUnique(ControlDict(identifier), enable);
      RestrictUnique(SensorDict(identifier), enable);
      ControlIdsDistinct(identifier);
      RestrictDistinctIds(ControlDict(identifier), enable);
      Ok(Formatter(identifier, discoverPrefix,
                   discoverPrefix + "/device/" + identifier,
                   discoverPrefix + "/status",
                   controls, sensors, sms))
  }

  lemma {:induction false} RestrictDistinctIds(d: Dict<Control>, keep: seq<string>)
    requires DistinctIds(d)
    ensures DistinctIds(Restrict(d, keep))
    decreases |d|
  {
    if d != [] {
      var rest := Restrict(d[1..], keep);
      assert DistinctIds(d[1..]) by {
        forall i, j | 0 <= i < j < |d| - 1 ensures d[1..][i].1.id != d[1..][j].1.id {
          assert d[1..][i] == d[i + 1] && d[1..][j] == d[j + 1];
        }
      }
      RestrictDistinctIds(d[1..], keep);
      if d[0].0 in keep {
        var r := [d[0]] + rest;
        forall i, j | 0 <= i < j < |r| ensures r[i].1.id != r[j].1.id {
          if i == 0 {
            assert r[j] == rest[j - 1] && r[j] in d[1..];
            var m :| 0 <= m < |d| - 1 && d[1..][m] == r[j];
            assert d[m + 1] == r[j];
          } else {
            assert r[i] == rest[i - 1] && r[j] == rest[j - 1];
          }
        }
      }
    }
  }

  /** The enabled controls are exactly the catalog's controls whose key is enabled, in catalog order. */
  lemma ConfigureFilters(identifier: string, discoverPrefix: string, enable: seq<string>, defs: seq<seq<string>>, k: string)
    requires Configure(identifier, discoverPrefix, enable, defs).Ok?
    ensures var f := Configure(identifier, discoverPrefix, enable, defs).value;
      && Get(f.controls, k) == (if k in enable then Get(ControlDict(identifier), k) else None)
      && Get(f.sensors, k) == (if k in enable then Get(SensorDict(identifier), k) else None)
      && IsSubsequence(f.controls, ControlDict(identifier))
      && IsSubsequence(f.sensors, SensorDict(identifier))
      && Ok(f.messageSensors) == MessageSensorDict(identifier, defs)
  {
    CatalogKeysDistinct();
    assert Keys(ControlDict(identifier)) == (SensorKeys + ControlKeys)[|SensorKeys|..];
    assert Keys(SensorDict(identifier)) == (SensorKeys + ControlKeys)[..|SensorKeys|];
    RestrictGet(ControlDict(identifier), enable, k);
    RestrictGet(SensorDict(identifier), enable, k);
  }

  /** Configuration fails exactly when building the user sensors does. */
  lemma ConfigureFails(identifier: string, discoverPrefix: string, enable: seq<string>, defs: seq<seq<string>>)
    ensures Configure(identifier, discoverPrefix, enable, defs).Err?
        <==> exists i :: 0 <= i < |defs| && !Acceptable(defs[i])
  {
    MessageSensorDictOk(identifier, defs);
  }

  // ---------------------------------------------------------------------
  // Topics (get_subscription_topics, get_discovery_topic, get_state_topic)
  // ---------------------------------------------------------------------

  /** One filter: the device's levels, then any one level, then `set`. */
  function SubscriptionTopics(f: Formatter): (r: seq<string>)
    ensures |r| == 1
    ensures SplitOn(r[0], '/') == SplitOn(f.discoverPrefix + "/device/" + f.identifier, '/') + ["+", "set"]
  {
    var root := f.discoverPrefix + "/device/" + f.identifier;
    CommandFilterPath(root);
    TopicLevels(root, "+", "set");
    [root + "/+/set"]
  }

  /** One level below the root, named `config`. */
  function DiscoveryTopic(f: Formatter): (r: string)
    ensures SplitOn(r, '/') == SplitOn(f.root, '/') + ["config"]
  {
    assert f.root + "/config" == f.root + "/" + "config";
    TopicLevel(f.root, "config");
    f.root + "/config"
  }

  /** One level below the root, named `state`. */
  function StateTopic(f: Formatter): (r: string)
    ensures SplitOn(r, '/') == SplitOn(f.root, '/') + ["state"]
  {
    assert f.root + "/state" == f.root + "/" + "state";
    TopicLevel(f.root, "state");
    f.root + "/state"
  }

  /** The topic a control is commanded on, as advertised in its `cmd_t`. */
  function CommandTopic(f: Formatter, c: Control): string {
    f.root + "/" + c.id + "/set"
  }

  /**
   * Topic filter matching of MQTT Version 5.0, section 4.7, for filters
   * without `#`: the same number of `/`-separated levels, and `+` stands
   * for any one level.
   */
  predicate Matches(filter: string, topic: string) {
    LevelsMatch(SplitOn(filter, '/'), SplitOn(topic, '/'))
  }

  predicate LevelsMatch(fl: seq<string>, tl: seq<string>) {
    |fl| == |tl| && forall i :: 0 <= i < |fl| ==> fl[i] == "+" || fl[i] == tl[i]
  }

  lemma WildcardLevel(r: seq<string>, level: string, last: string)
    ensures LevelsMatch(r + ["+", last], r + [level, last])
  {
    forall i | 0 <= i < |r| + 2 ensures (r + ["+", last])[i] == "+" || (r + ["+", last])[i] == (r + [level, last])[i] {
      if i < |r| {
        assert (r + ["+", last])[i] == r[i] == (r + [level, last])[i];
      }
    }
  }

  lemma TopicLevels(root: string, level: string, last: string)
    requires '/' !in level && '/' !in last
    ensures SplitOn(root + "/" + level + "/" + last, '/') == SplitOn(root, '/') + [level, last]
  {
    assert root + "/" + level + "/" + last == (root + ['/'] + level) + ['/'] + last;
    SplitOnConcat(root + ['/'] + level, '/', last);
    SplitOnConcat(root, '/', level);
  }

  /** The subscription receives the command topic of every control whose id has no `/`. */
  lemma SubscriptionReceivesCommands(f: Formatter, c: Control)
    requires f.root == f.discoverPrefix + "/device/" + f.identifier && '/' !in c.id
    ensures Matches(SubscriptionTopics(f)[0], CommandTopic(f, c))
  {
    var sub := SubscriptionTopics(f)[0];
    assert sub == f.root + "/" + "+" + "/" + "set";
    assert CommandTopic(f, c) == f.root + "/" + c.id + "/" + "set";
    TopicLevels(f.root, "+", "set");
    TopicLevels(f.root, c.id, "set");
    WildcardLevel(SplitOn(f.root, '/'), c.id, "set");
  }

  /** A topic one level below `root` does not match a filter two levels below it. */
  lemma DeeperFilter(root: string, last: string)
    requires '/' !in last
    ensures !Matches(root + "/" + "+" + "/" + "set", root + "/" + last)
  {
    TopicLevels(root, "+", "set");
    assert root + "/" + last == root + ['/'] + last;
    SplitOnConcat(root, '/', last);
  }

  /** The bridge does not receive its own state or discovery payloads. */
  lemma SubscriptionIgnoresOwnTopics(f: Formatter)
    requires f.root == f.discoverPrefix + "/device/" + f.identifier
    ensures !Matches(SubscriptionTopics(f)[0], StateTopic(f))
    ensures !Matches(SubscriptionTopics(f)[0], DiscoveryTopic(f))
  {
    assert SubscriptionTopics(f)[0] == f.root + "/" + "+" + "/" + "set";
    assert StateTopic(f) == f.root + "/" + "state";
    assert DiscoveryTopic(f) == f.root + "/" + "config";
    DeeperFilter(f.root, "state");
    DeeperFilter(f.root, "config");
  }

  /**
   * The subscription does not receive the status topic: the filter has more
   * levels than `{prefix}/status`, so the discovery reply to "online" is
   * reached only through a subscription made elsewhere.
   */
  lemma SubscriptionMissesStatus(f: Formatter)
    requires f.root == f.discoverPrefix + "/device/" + f.identifier
    requires f.statusPath == f.discoverPrefix + "/status"
    ensures !Matches(SubscriptionTopics(f)[0], f.statusPath)
  {
    StatusDeeper(f.discoverPrefix, f.identifier);
    DevicePath(f.discoverPrefix, f.identifier);
    CommandFilterPath(f.discoverPrefix + "/device/" + f.identifier);
    StatusPath(f.discoverPrefix);
  }

  lemma DevicePath(p: string, identifier: string)
    ensures p + "/device/" + identifier == p + "/" + "device" + "/" + identifier
  {
  }

  lemma CommandFilterPath(root: string)
    ensures root + "/+/set" == root + "/" + "+" + "/" + "set"
  {
  }

  lemma StatusPath(p: string)
    ensures p + "/status" == p + "/" + "status"
  {
  }

  lemma StatusDeeper(p: string, identifier: string)
    ensures !Matches((p + "/" + "device" + "/" + identifier) + "/" + "+" + "/" + "set", p + "/" + "status")
  {
    var root := p + "/" + "device" + "/" + identifier;
    PrefixLevels(p, "device", identifier);
    TopicLevels(root, "+", "set");
    TopicLevel(p, "status");
  }

  lemma TopicLevel(p: string, last: string)
    requires '/' !in last
    ensures SplitOn(p + "/" + last, '/') == SplitOn(p, '/') + [last]
  {
    assert p + "/" + last == p + ['/'] + last;
    SplitOnConcat(p, '/', last);
  }

  /** `prefix/device/identifier` has at least two more levels than `prefix`. */
  lemma PrefixLevels(p: string, device: string, identifier: string)
    requires '/' !in device
    ensures |SplitOn(p + "/" + device + "/" + identifier, '/')| >= |SplitOn(p, '/')| + 2
  {
    assert p + "/" + device + "/" + identifier == (p + ['/'] + device) + ['/'] + identifier;
    SplitOnConcat(p + ['/'] + device, '/', identifier);
    SplitOnConcat(p, '/', device);
  }

  // ---------------------------------------------------------------------
  // The state payload (get_state_message)
  // ---------------------------------------------------------------------

  /** `_onoff[b]`. */
  function OnOff(b: bool): Json {
    JStr(if b then "ON" else "OFF")
  }

  function SensorReadings(d: Dict<Sensor>, panel: Snapshot): (r: Dict<Json>)
    ensures Keys(r) == Keys(d)
  {
    seq(|d|, i requires 0 <= i < |d| => (d[i].0, panel.reading(d[i].1.attr)))
  }

  function ControlStates(d: Dict<Control>, panel: Snapshot): (r: Dict<Json>)
    ensures Keys(r) == Keys(d)
  {
    seq(|d|, i requires 0 <= i < |d| => (d[i].0, OnOff(d[i].1.state in panel.on)))
  }

  function MessageSensorStates(d: Dict<MessageSensor>, sysm: seq<string>): (r: Dict<Json>)
    ensures Keys(r) == Keys(d)
  {
    seq(|d|, i requires 0 <= i < |d| => (d[i].0, OnOff(d[i].1.name in sysm)))
  }

  function StateBase(panel: Snapshot, sysm: seq<string>): Dict<Json> {
    [("cs", OnOff(CheckSystem in panel.on)), ("sysm", JStr(Join(", ", sysm)))]
  }

  /** The `state` dict of `get_state_message`, for the active messages `sysm`. */
  function StateRecord(f: Formatter, panel: Snapshot, sysm: seq<string>): Dict<Json> {
    PutAll(PutAll(PutAll(StateBase(panel, sysm),
                         SensorReadings(f.sensors, panel)),
                  ControlStates(f.controls, panel)),
           MessageSensorStates(f.messageSensors, sysm))
  }

  lemma EnabledKeysInCatalog(f: Formatter)
    requires Valid(f)
    ensures forall k :: k in Keys(f.sensors) ==> k in SensorKeys
    ensures forall k :: k in Keys(f.controls) ==> k in ControlKeys
  {
    forall k | k in Keys(f.sensors) ensures k in SensorKeys {
      var i :| 0 <= i < |f.sensors| && Keys(f.sensors)[i] == k;
      assert f.sensors[i] in SensorDict(f.identifier);
      assert k in Keys(SensorDict(f.identifier));
    }
    forall k | k in Keys(f.controls) ensures k in ControlKeys {
      var i :| 0 <= i < |f.controls| && Keys(f.controls)[i] == k;
      assert f.controls[i] in ControlDict(f.identifier);
      assert k in Keys(ControlDict(f.identifier));
    }
  }

  lemma DistinctPrefix(a: seq<string>, b: seq<string>)
    requires Distinct(a + b)
    ensures Distinct(a)
  {
    forall i, j | 0 <= i < j < |a| ensures a[i] != a[j] {
      assert (a + b)[i] == a[i] && (a + b)[j] == a[j];
    }
  }

  lemma ReservedDistinct()
    ensures Distinct(ReservedKeys())
  {
    CatalogKeysDistinct();
    ExtraKeysApart();
    assert Distinct(["cs", "sysm"]);
    DistinctAppend(SensorKeys + ControlKeys, ["cs", "sysm"]);
  }

  /** The catalog keys, `cs` and `sysm` are all different. */
  lemma ReservedApart()
    ensures Distinct(SensorKeys) && Distinct(ControlKeys)
    ensures forall k :: k in SensorKeys ==> k !in ControlKeys + ["cs", "sysm"]
    ensures forall k :: k in ControlKeys ==> k !in ["cs", "sysm"]
  {
    ControlKeysDistinct();
    SensorKeysApart();
    ExtraKeysApart();
  }

  /** The state keys of a valid formatter never clash. */
  lemma StateKeysDistinct(f: Formatter)
    requires Valid(f)
    ensures Distinct(["cs", "sysm"] + Keys(f.sensors) + Keys(f.controls) + Keys(f.messageSensors))
  {
    EnabledKeysInCatalog(f);
    ReservedApart();
    var ks, kc, km := Keys(f.sensors), Keys(f.controls), Keys(f.messageSensors);
    assert forall k :: k in ks ==> k in SensorKeys;
    assert forall k :: k in kc ==> k in ControlKeys;
    assert forall k :: k in km ==> k !in ReservedKeys();
    assert forall k :: k in kc ==> k !in km;
    DistinctAppend(kc, km);
    assert forall k :: k in ks ==> k !in kc + km;
    DistinctAppend(ks, kc + km);
    assert forall k :: k in ["cs", "sysm"] ==> k !in ks + (kc + km);
    DistinctAppend(["cs", "sysm"], ks + (kc + km));
    assert ["cs", "sysm"] + ks + kc + km == ["cs", "sysm"] + (ks + (kc + km));
  }

  /**
   * The state payload lists `cs`, `sysm`, the enabled sensors, the enabled
   * controls and the user sensors, in that order, each key once.
   */
  lemma StateRecordLayout(f: Formatter, panel: Snapshot, sysm: seq<string>)
    requires Valid(f)
    ensures StateRecord(f, panel, sysm)
         == StateBase(panel, sysm) + SensorReadings(f.sensors, panel)
            + ControlStates(f.controls, panel) + MessageSensorStates(f.messageSensors, sysm)
    ensures Keys(StateRecord(f, panel, sysm))
         == ["cs", "sysm"] + Keys(f.sensors) + Keys(f.controls) + Keys(f.messageSensors)
    ensures UniqueKeys(StateRecord(f, panel, sysm))
  {
    var b, sr, cs, ms := StateBase(panel, sysm), SensorReadings(f.sensors, panel),
                         ControlStates(f.controls, panel), MessageSensorStates(f.messageSensors, sysm);
    StateKeysDistinct(f);
    var kb, ks, kc, km := ["cs", "sysm"], Keys(f.sensors), Keys(f.controls), Keys(f.messageSensors);
    assert Keys(b) == kb;
    KeysAppend(b, sr);
    KeysAppend(b + sr, cs);
    KeysAppend(b + sr + cs, ms);
    DistinctPrefix(kb + ks + kc, km);
    DistinctPrefix(kb + ks, kc);
    PutAllFresh(b, sr);
    PutAllFresh(b + sr, cs);
    PutAllFresh(b + sr + cs, ms);
  }

  /** `cs` is "ON" exactly when the panel shows Check System; `sysm` is the active messages joined with ", ". */
  lemma StateRecordFixedValues(f: Formatter, panel: Snapshot, sysm: seq<string>)
    requires Valid(f)
    ensures Get(StateRecord(f, panel, sysm), "cs") == Some(OnOff(CheckSystem in panel.on))
    ensures Get(StateRecord(f, panel, sysm), "sysm") == Some(JStr(Join(", ", sysm)))
  {
    StateRecordLayout(f, panel, sysm);
    var b, sr, cs, ms := StateBase(panel, sysm), SensorReadings(f.sensors, panel),
                         ControlStates(f.controls, panel), MessageSensorStates(f.messageSensors, sysm);
    GetInFirst(b, sr, cs, ms, 0);
    GetInFirst(b, sr, cs, ms, 1);
  }

  /** Each enabled sensor's value is the panel's reading of its attribute. */
  lemma StateRecordSensorValues(f: Formatter, panel: Snapshot, sysm: seq<string>)
    requires Valid(f)
    ensures forall i :: 0 <= i < |f.sensors| ==>
      Get(StateRecord(f, panel, sysm), f.sensors[i].0) == Some(panel.reading(f.sensors[i].1.attr))
  {
    StateRecordLayout(f, panel, sysm);
    var b, sr, cs, ms := StateBase(panel, sysm), SensorReadings(f.sensors, panel),
                         ControlStates(f.controls, panel), MessageSensorStates(f.messageSensors, sysm);
    forall i | 0 <= i < |f.sensors|
      ensures Get(b + sr + cs + ms, f.sensors[i].0) == Some(panel.reading(f.sensors[i].1.attr))
    {
      GetInSecond(b, sr, cs, ms, i);
    }
  }

  /** Each enabled control is "ON" exactly when its panel state is on. */
  lemma StateRecordControlValues(f: Formatter, panel: Snapshot, sysm: seq<string>)
    requires Valid(f)
    ensures forall i :: 0 <= i < |f.controls| ==>
      Get(StateRecord(f, panel, sysm), f.controls[i].0) == Some(OnOff(f.controls[i].1.state in panel.on))
  {
    StateRecordLayout(f, panel, sysm);
    var b, sr, cs, ms := StateBase(panel, sysm), SensorReadings(f.sensors, panel),
                         ControlStates(f.controls, panel), MessageSensorStates(f.messageSensors, sysm);
    forall i | 0 <= i < |f.controls|
      ensures Get(b + sr + cs + ms, f.controls[i].0) == Some(OnOff(f.controls[i].1.state in panel.on))
    {
      GetInMiddle(b + sr, cs, ms, i);
    }
  }

  /** Each user sensor is "ON" exactly when its message is among the active ones. */
  lemma StateRecordMessageSensorValues(f: Formatter, panel: Snapshot, sysm: seq<string>)
    requires Valid(f)
    ensures forall i :: 0 <= i < |f.messageSensors| ==>
      Get(StateRecord(f, panel, sysm), f.messageSensors[i].0) == Some(OnOff(f.messageSensors[i].1.name in sysm))
  {
    StateRecordLayout(f, panel, sysm);
    var b, sr, cs, ms := StateBase(panel, sysm), SensorReadings(f.sensors, panel),
                         ControlStates(f.controls, panel), MessageSensorStates(f.messageSensors, sysm);
    assert b + sr + cs + ms == b + sr + cs + ms + [];
    forall i | 0 <= i < |f.messageSensors|
      ensures Get(b + sr + cs + ms + [], f.messageSensors[i].0) == Some(OnOff(f.messageSensors[i].1.name in sysm))
    {
      GetInMiddle(b + sr + cs, ms, [], i);
    }
  }

  // ---------------------------------------------------------------------
  // The discovery payload (get_discovery_message)
  // ---------------------------------------------------------------------

  /** A value that may be `None`, as `json.dumps` writes it. */
  function OptionalString(o: Option<string>): Json {
    if o.Some? then JStr(o.value) else JNull
  }

  function DeviceInfo(f: Formatter): Json {
    JObj([("ids", JStr(f.identifier)), ("name", JStr(f.identifier)), ("mf", JStr("Hayward")),
          ("mdl", JStr("RS485")), ("sw", JStr("0.0")), ("sn", JStr(f.identifier)), ("hw", JStr("0.0"))])
  }

  function OriginInfo(): Json {
    JObj([("name", JStr("aqualogic_mqtt")), ("sw", JStr("0.0.1a")),
          ("url", JStr("https://github.com/SphtKr/aqualogic_mqtt"))])
  }

  /** The id of the built-in "Check System" binary sensor. */
  function CheckSystemId(f: Formatter): string {
    f.identifier + "_binary_sensor_check_system"
  }

  /** The id of the built-in "System Messages" text sensor. */
  function SystemMessagesId(f: Formatter): string {
    f.identifier + "_sensor_system_messages"
  }

  /** The two components every discovery payload starts with. */
  function FixedComponents(f: Formatter): Dict<Json> {
    [(CheckSystemId(f),
      JObj([("p", JStr("binary_sensor")), ("dev_cla", JStr("problem")),
            ("val_tpl", JStr("{{ value_json.cs }}")), ("obj_id", JStr(CheckSystemId(f))),
            ("uniq_id", JStr(CheckSystemId(f))), ("name", JStr("Check System"))])),
     (SystemMessagesId(f),
      JObj([("p", JStr("sensor")), ("val_tpl", JStr("{{ value_json.sysm }}")),
            ("obj_id", JStr(SystemMessagesId(f))), ("uniq_id", JStr(SystemMessagesId(f))),
            ("name", JStr("System Messages"))]))]
  }

  function SensorComponent(k: string, s: Sensor): Json {
    JObj([("p", JStr(s.platform)), ("dev_cla", OptionalString(s.devClass)),
          ("unit_of_meas", OptionalString(s.unit)), ("val_tpl", JStr("{{ value_json." + k + "}}")),
          ("obj_id", JStr(s.id)), ("uniq_id", JStr(s.id)), ("name", JStr(s.name))])
  }

  /** The members of a switch component, before the light is patched. */
  function SwitchMembers(f: Formatter, k: string, c: Control): Dict<Json> {
    [("p", JStr("switch")), ("dev_cla", JStr("switch")), ("val_tpl", JStr("{{ value_json." + k + " }}")),
     ("uniq_id", JStr(c.id)), ("obj_id", JStr(c.id)), ("name", JStr(c.name)),
     ("cmd_t", JStr(CommandTopic(f, c)))]
  }

  /**
   * A control's component: a switch, except that the light (key `l`) becomes
   * platform `light`, its template moves to `stat_val_tpl`, and it has no
   * device class.
   */
  function ControlComponent(f: Formatter, k: string, c: Control): Json {
    var cmp := SwitchMembers(f, k, c);
    if k == "l" then JObj(LightPatch(cmp, JStr("{{ value_json." + k + " }}"))) else JObj(cmp)
  }

  /** The edits that turn a switch component into a light's. */
  function LightPatch(cmp: Dict<Json>, tpl: Json): Dict<Json> {
    Del(Del(Put(Put(cmp, "p", JStr("light")), "stat_val_tpl", tpl), "val_tpl"), "dev_cla")
  }

  lemma LightPatchGet(cmp: Dict<Json>, tpl: Json)
    ensures Get(LightPatch(cmp, tpl), "p") == Some(JStr("light"))
    ensures Get(LightPatch(cmp, tpl), "stat_val_tpl") == Some(tpl)
    ensures Get(LightPatch(cmp, tpl), "val_tpl") == None
    ensures Get(LightPatch(cmp, tpl), "dev_cla") == None
    ensures Get(LightPatch(cmp, tpl), "cmd_t") == Get(cmp, "cmd_t")
    ensures Get(LightPatch(cmp, tpl), "uniq_id") == Get(cmp, "uniq_id")
  {
    LightPatchSets(cmp, tpl);
    LightPatchKeeps(cmp, tpl, "cmd_t");
    LightPatchKeeps(cmp, tpl, "uniq_id");
  }

  lemma LightPatchSets(cmp: Dict<Json>, tpl: Json)
    ensures Get(LightPatch(cmp, tpl), "p") == Some(JStr("light"))
    ensures Get(LightPatch(cmp, tpl), "stat_val_tpl") == Some(tpl)
    ensures Get(LightPatch(cmp, tpl), "val_tpl") == None
    ensures Get(LightPatch(cmp, tpl), "dev_cla") == None
  {
  }

  lemma LightPatchKeeps(cmp: Dict<Json>, tpl: Json, k: string)
    requires k != "p" && k != "stat_val_tpl" && k != "val_tpl" && k != "dev_cla"
    ensures Get(LightPatch(cmp, tpl), k) == Get(cmp, k)
  {
  }

  function MessageSensorComponent(k: string, m: MessageSensor): Json {
    JObj([("p", JStr("binary_sensor")), ("dev_cla", JStr(m.devClass)),
          ("val_tpl", JStr("{{ value_json." + k + "}}")), ("obj_id", JStr(m.id)),
          ("uniq_id", JStr(m.id)), ("name", JStr(m.name))])
  }

  function SensorComponents(f: Formatter): (r: Dict<Json>)
    ensures |r| == |f.sensors| && forall i :: 0 <= i < |r| ==> r[i].0 == f.sensors[i].1.id
  {
    seq(|f.sensors|, i requires 0 <= i < |f.sensors| =>
      (f.sensors[i].1.id, SensorComponent(f.sensors[i].0, f.sensors[i].1)))
  }

  function ControlComponents(f: Formatter): (r: Dict<Json>)
    ensures |r| == |f.controls| && forall i :: 0 <= i < |r| ==> r[i].0 == f.controls[i].1.id
  {
    seq(|f.controls|, i requires 0 <= i < |f.controls| =>
      (f.controls[i].1.id, ControlComponent(f, f.controls[i].0, f.controls[i].1)))
  }

  function MessageSensorComponents(f: Formatter): (r: Dict<Json>)
    ensures |r| == |f.messageSensors| && forall i :: 0 <= i < |r| ==> r[i].0 == f.messageSensors[i].1.id
  {
    seq(|f.messageSensors|, i requires 0 <= i < |f.messageSensors| =>
      (f.messageSensors[i].1.id, MessageSensorComponent(f.messageSensors[i].0, f.messageSensors[i].1)))
  }

  /** `p['cmps']` after the three loops: every component stored under its id, later ones replacing earlier. */
  function Components(f: Formatter): Dict<Json> {
    PutAll(PutAll(PutAll(FixedComponents(f), SensorComponents(f)), ControlComponents(f)), MessageSensorComponents(f))
  }

  function DiscoveryMessage(f: Formatter): Json {
    JObj([("dev", DeviceInfo(f)), ("o", OriginInfo()), ("cmps", JObj(Components(f))),
          ("stat_t", JStr(StateTopic(f))), ("qos", JInt(2))])
  }

  lemma SensorComponentStep(base: Dict<Json>, f: Formatter, i: nat)
    requires i < |f.sensors|
    ensures PutAll(base, SensorComponents(f)[..i + 1])
         == Put(PutAll(base, SensorComponents(f)[..i]), f.sensors[i].1.id, SensorComponent(f.sensors[i].0, f.sensors[i].1))
  {
    PutAllSnoc(base, SensorComponents(f), i);
  }

  lemma ControlComponentStep(base: Dict<Json>, f: Formatter, i: nat)
    requires i < |f.controls|
    ensures PutAll(base, ControlComponents(f)[..i + 1])
         == Put(PutAll(base, ControlComponents(f)[..i]), f.controls[i].1.id, ControlComponent(f, f.controls[i].0, f.controls[i].1))
  {
    PutAllSnoc(base, ControlComponents(f), i);
  }

  lemma MessageSensorComponentStep(base: Dict<Json>, f: Formatter, i: nat)
    requires i < |f.messageSensors|
    ensures PutAll(base, MessageSensorComponents(f)[..i + 1])
         == Put(PutAll(base, MessageSensorComponents(f)[..i]), f.messageSensors[i].1.id,
                MessageSensorComponent(f.messageSensors[i].0, f.messageSensors[i].1))
  {
    PutAllSnoc(base, MessageSensorComponents(f), i);
  }

  /** `get_discovery_message`, filling `p['cmps']` loop by loop. */
  method GetDiscoveryMessage(f: Formatter) returns (r: Json)
    ensures r == DiscoveryMessage(f)
  {
    var cmps := FixedComponents(f);
    ghost var sc, cc, mc := SensorComponents(f), ControlComponents(f), MessageSensorComponents(f);
    for i := 0 to |f.sensors|
      invariant cmps == PutAll(FixedComponents(f), sc[..i])
    {
      var (k, v) := f.sensors[i];
      var cmp := SensorComponent(k, v);
      SensorComponentStep(FixedComponents(f), f, i);
      cmps := Put(cmps, v.id, cmp);
    }
    Whole(sc);
    ghost var afterSensors := cmps;
    for i := 0 to |f.controls|
      invariant cmps == PutAll(afterSensors, cc[..i])
    {
      var (k, v) := f.controls[i];
      var cmp := SwitchMembers(f, k, v);
      if k == "l" {
        ghost var switch := cmp;
        cmp := Put(cmp, "p", JStr("light"));
        cmp := Put(cmp, "stat_val_tpl", JStr("{{ value_json." + k + " }}"));
        cmp := Del(cmp, "val_tpl");
        cmp := Del(cmp, "dev_cla");
        assert cmp == LightPatch(switch, JStr("{{ value_json." + k + " }}"));
      }
      ControlComponentStep(afterSensors, f, i);
      cmps := Put(cmps, v.id, JObj(cmp));
    }
    Whole(cc);
    ghost var afterControls := cmps;
    for i := 0 to |f.messageSensors|
      invariant cmps == PutAll(afterControls, mc[..i])
    {
      var (k, v) := f.messageSensors[i];
      var cmp := MessageSensorComponent(k, v);
      MessageSensorComponentStep(afterControls, f, i);
      cmps := Put(cmps, v.id, cmp);
    }
    Whole(mc);
    r := JObj([("dev", DeviceInfo(f)), ("o", OriginInfo()), ("cmps", JObj(cmps)),
               ("stat_t", JStr(StateTopic(f))), ("qos", JInt(2))]);
  }

  lemma SensorComponentsKeys(f: Formatter, k: string)
    ensures k in Keys(SensorComponents(f)) <==> exists i :: 0 <= i < |f.sensors| && f.sensors[i].1.id == k
  {
    InKeys(SensorComponents(f), k);
  }

  lemma ControlComponentsKeys(f: Formatter, k: string)
    ensures k in Keys(ControlComponents(f)) <==> exists i :: 0 <= i < |f.controls| && f.controls[i].1.id == k
  {
    InKeys(ControlComponents(f), k);
  }

  lemma MessageSensorComponentsKeys(f: Formatter, k: string)
    ensures k in Keys(MessageSensorComponents(f)) <==>
      exists i :: 0 <= i < |f.messageSensors| && f.messageSensors[i].1.id == k
  {
    InKeys(MessageSensorComponents(f), k);
  }

  lemma FixedComponentsKeys(f: Formatter)
    ensures Keys(FixedComponents(f)) == [CheckSystemId(f), SystemMessagesId(f)]
  {
  }

  /** Which ids the discovery payload lists, with the component kind each comes from. */
  lemma ComponentsKeys(f: Formatter, k: string)
    ensures k in Keys(Components(f)) <==>
      || k == CheckSystemId(f) || k == SystemMessagesId(f)
      || (exists i :: 0 <= i < |f.sensors| && f.sensors[i].1.id == k)
      || (exists i :: 0 <= i < |f.controls| && f.controls[i].1.id == k)
      || (exists i :: 0 <= i < |f.messageSensors| && f.messageSensors[i].1.id == k)
  {
    ComponentsKeysIn(f, k);
    FixedComponentsKeys(f);
    SensorComponentsKeys(f, k);
    ControlComponentsKeys(f, k);
    MessageSensorComponentsKeys(f, k);
  }

  lemma ComponentsKeysIn(f: Formatter, k: string)
    ensures k in Keys(Components(f)) <==>
      || k in Keys(FixedComponents(f)) || k in Keys(SensorComponents(f))
      || k in Keys(ControlComponents(f)) || k in Keys(MessageSensorComponents(f))
  {
    var sc, cc, mc := SensorComponents(f), ControlComponents(f), MessageSensorComponents(f);
    PutAllKeys(FixedComponents(f), sc, k);
    PutAllKeys(PutAll(FixedComponents(f), sc), cc, k);
    PutAllKeys(PutAll(PutAll(FixedComponents(f), sc), cc), mc, k);
  }

  /** Position `i` of the switch members holds the first entry with its key. */
  lemma SwitchMemberAt(f: Formatter, k: string, c: Control, i: nat)
    requires i < 7
    ensures Get(SwitchMembers(f, k, c), SwitchMembers(f, k, c)[i].0) == Some(SwitchMembers(f, k, c)[i].1)
  {
    var cmp := SwitchMembers(f, k, c);
    assert cmp[0].0 == "p" && cmp[1].0 == "dev_cla" && cmp[2].0 == "val_tpl" && cmp[3].0 == "uniq_id"
      && cmp[4].0 == "obj_id" && cmp[5].0 == "name" && cmp[6].0 == "cmd_t";
    GetLiteral(cmp, i);
  }

  lemma SwitchMembersCommand(f: Formatter, k: string, c: Control)
    ensures Get(SwitchMembers(f, k, c), "uniq_id") == Some(JStr(c.id))
    ensures Get(SwitchMembers(f, k, c), "cmd_t") == Some(JStr(CommandTopic(f, c)))
  {
    SwitchMemberAt(f, k, c, 3);
    SwitchMemberAt(f, k, c, 6);
  }

  lemma SwitchMembersPlatform(f: Formatter, k: string, c: Control)
    ensures Get(SwitchMembers(f, k, c), "p") == Some(JStr("switch"))
    ensures Get(SwitchMembers(f, k, c), "dev_cla") == Some(JStr("switch"))
  {
    SwitchMemberAt(f, k, c, 0);
    SwitchMemberAt(f, k, c, 1);
  }

  lemma SwitchMembersTemplate(f: Formatter, k: string, c: Control)
    ensures Get(SwitchMembers(f, k, c), "val_tpl") == Some(JStr("{{ value_json." + k + " }}"))
    ensures Get(SwitchMembers(f, k, c), "stat_val_tpl") == None
  {
    SwitchMemberAt(f, k, c, 2);
    SwitchMembersKeys(f, k, c);
    assert "stat_val_tpl" !in ["p", "dev_cla", "val_tpl", "uniq_id", "obj_id", "name", "cmd_t"];
  }

  lemma SwitchMembersKeys(f: Formatter, k: string, c: Control)
    ensures Keys(SwitchMembers(f, k, c)) == ["p", "dev_cla", "val_tpl", "uniq_id", "obj_id", "name", "cmd_t"]
  {
  }

  /** The light's component is the switch's, patched: platform `light`, the template moved, no device class. */
  lemma LightComponentShape(f: Formatter, k: string, c: Control)
    requires k == "l"
    ensures ControlComponent(f, k, c) == JObj(LightPatch(SwitchMembers(f, k, c), JStr("{{ value_json." + k + " }}")))
    ensures Get(ControlComponent(f, k, c).members, "cmd_t") == Some(JStr(CommandTopic(f, c)))
    ensures Get(ControlComponent(f, k, c).members, "uniq_id") == Some(JStr(c.id))
    ensures Get(ControlComponent(f, k, c).members, "p") == Some(JStr("light"))
    ensures Get(ControlComponent(f, k, c).members, "stat_val_tpl") == Some(JStr("{{ value_json." + k + " }}"))
    ensures Get(ControlComponent(f, k, c).members, "val_tpl") == None
    ensures Get(ControlComponent(f, k, c).members, "dev_cla") == None
  {
    SwitchMembersCommand(f, k, c);
    LightPatchGet(SwitchMembers(f, k, c), JStr("{{ value_json." + k + " }}"));
  }

  /** Every other control is a switch with its value template. */
  lemma SwitchComponentShape(f: Formatter, k: string, c: Control)
    requires k != "l"
    ensures ControlComponent(f, k, c) == JObj(SwitchMembers(f, k, c))
    ensures Get(SwitchMembers(f, k, c), "cmd_t") == Some(JStr(CommandTopic(f, c)))
    ensures Get(SwitchMembers(f, k, c), "uniq_id") == Some(JStr(c.id))
    ensures Get(SwitchMembers(f, k, c), "p") == Some(JStr("switch"))
    ensures Get(SwitchMembers(f, k, c), "dev_cla") == Some(JStr("switch"))
    ensures Get(SwitchMembers(f, k, c), "val_tpl") == Some(JStr("{{ value_json." + k + " }}"))
    ensures Get(SwitchMembers(f, k, c), "stat_val_tpl") == None
  {
    SwitchMembersCommand(f, k, c);
    SwitchMembersPlatform(f, k, c);
    SwitchMembersTemplate(f, k, c);
  }

  /** Every control's component carries its command topic and id. */
  lemma ControlComponentCommand(f: Formatter, k: string, c: Control)
    ensures ControlComponent(f, k, c).JObj?
    ensures Get(ControlComponent(f, k, c).members, "cmd_t") == Some(JStr(CommandTopic(f, c)))
    ensures Get(ControlComponent(f, k, c).members, "uniq_id") == Some(JStr(c.id))
  {
    if k == "l" {
      LightComponentShape(f, k, c);
    } else {
      SwitchComponentShape(f, k, c);
    }
  }

  lemma ControlComponentsUnique(f: Formatter)
    requires DistinctIds(f.controls)
    ensures UniqueKeys(ControlComponents(f))
  {
    var cc := ControlComponents(f);
    forall i, j | 0 <= i < j < |cc| ensures Keys(cc)[i] != Keys(cc)[j] {
      assert cc[i].0 == f.controls[i].1.id && cc[j].0 == f.controls[j].1.id;
    }
  }

  /**
   * Every enabled control is advertised under its id, unless a user
   * system-message sensor was given the same id (the source does not check
   * for that clash; the later sensor entry then replaces the control).
   */
  lemma ComponentOfControl(f: Formatter, i: nat)
    requires DistinctIds(f.controls) && i < |f.controls|
    requires forall j :: 0 <= j < |f.messageSensors| ==> f.messageSensors[j].1.id != f.controls[i].1.id
    ensures Get(Components(f), f.controls[i].1.id) == Some(ControlComponent(f, f.controls[i].0, f.controls[i].1))
  {
    var id := f.controls[i].1.id;
    var cc, mc := ControlComponents(f), MessageSensorComponents(f);
    forall j | 0 <= j < |mc| ensures Keys(mc)[j] != id {
      assert mc[j].0 == f.messageSensors[j].1.id;
    }
    assert id !in Keys(mc);
    ControlComponentsUnique(f);
    LastGetUnique(cc, i);
    assert Keys(cc)[i] == id;
  }

  // ---------------------------------------------------------------------
  // Routing inbound messages (handle_message_on_topic)
  // ---------------------------------------------------------------------

  /** The first control in `d` whose command topic is `topic`. */
  function CommandTarget(f: Formatter, d: Dict<Control>, topic: string): (r: Option<Control>)
    ensures r.None? <==> forall i :: 0 <= i < |d| ==> CommandTopic(f, d[i].1) != topic
    ensures forall i :: (0 <= i < |d| && CommandTopic(f, d[i].1) == topic
      && forall j :: 0 <= j < i ==> CommandTopic(f, d[j].1) != topic) ==> r == Some(d[i].1)
  {
    if d == [] then None
    else if CommandTopic(f, d[0].1) == topic then Some(d[0].1)
    else
      var r := CommandTarget(f, d[1..], topic);
      assert forall i :: 1 <= i < |d| ==> d[i] == d[1..][i - 1];
      r
  }

  /**
   * What handling one inbound message does: the publications it asks for
   * (`None` when nothing matched) and the panel state it requests.
   */
  datatype Routed = Routed(reply: Option<seq<(string, Json)>>, request: Option<(State, bool)>)

  function Route(f: Formatter, topic: string, msg: string): (r: Routed)
    ensures r.reply.None? <==>
      !(topic == f.statusPath && msg == "online") && forall i :: 0 <= i < |f.controls| ==> CommandTopic(f, f.controls[i].1) != topic
    ensures r.request.Some? <==> r.reply == Some([])
  {
    if topic == f.statusPath && msg == "online" then
      Routed(Some([(DiscoveryTopic(f), DiscoveryMessage(f))]), None)
    else
      match CommandTarget(f, f.controls, topic)
      case Some(c) => Routed(Some([]), Some((c.state, msg == "ON")))
      case None => Routed(None, None)
  }

  /** A command topic is never the status topic: it is longer. */
  lemma CommandIsNotStatus(f: Formatter, c: Control)
    requires f.root == f.discoverPrefix + "/device/" + f.identifier
    requires f.statusPath == f.discoverPrefix + "/status"
    ensures CommandTopic(f, c) != f.statusPath
  {
    assert |CommandTopic(f, c)| > |f.statusPath|;
  }

  lemma CommandIdCancel(root: string, a: string, b: string)
    requires root + "/" + a + "/set" == root + "/" + b + "/set"
    ensures a == b
  {
    var t := root + "/" + a + "/set";
    assert |a| == |b|;
    assert a == t[|root| + 1..|root| + 1 + |a|];
    assert b == (root + "/" + b + "/set")[|root| + 1..|root| + 1 + |b|];
  }

  /** The status topic with payload "online" asks for the discovery message to be published and changes nothing. */
  lemma RouteStatus(f: Formatter, msg: string)
    requires f.root == f.discoverPrefix + "/device/" + f.identifier
    requires f.statusPath == f.discoverPrefix + "/status"
    ensures Route(f, f.statusPath, msg) ==
      if msg == "online" then Routed(Some([(f.root + "/config", DiscoveryMessage(f))]), None)
      else Routed(None, None)
  {
    forall i | 0 <= i < |f.controls| ensures CommandTopic(f, f.controls[i].1) != f.statusPath {
      CommandIsNotStatus(f, f.controls[i].1);
    }
  }

  /** A control's command topic requests that control's state: on exactly for "ON". */
  lemma RouteCommand(f: Formatter, i: nat, msg: string)
    requires f.root == f.discoverPrefix + "/device/" + f.identifier
    requires f.statusPath == f.discoverPrefix + "/status"
    requires DistinctIds(f.controls) && i < |f.controls|
    ensures Route(f, f.root + "/" + f.controls[i].1.id + "/set", msg) ==
      Routed(Some([]), Some((f.controls[i].1.state, msg == "ON")))
  {
    var c := f.controls[i].1;
    var t := CommandTopic(f, c);
    CommandIsNotStatus(f, c);
    forall j | 0 <= j < i ensures CommandTopic(f, f.controls[j].1) != t {
      if CommandTopic(f, f.controls[j].1) == t {
        CommandIdCancel(f.root, f.controls[j].1.id, c.id);
      }
    }
  }

  /** Each advertised command topic is one the router accepts, for the control it belongs to. */
  lemma AdvertisedCommandRoutes(f: Formatter, i: nat, msg: string)
    requires Valid(f) && i < |f.controls|
    requires forall j :: 0 <= j < |f.messageSensors| ==> f.messageSensors[j].1.id != f.controls[i].1.id
    ensures exists t ::
      && Get(Components(f), f.controls[i].1.id) == Some(ControlComponent(f, f.controls[i].0, f.controls[i].1))
      && Get(ControlComponent(f, f.controls[i].0, f.controls[i].1).members, "cmd_t") == Some(JStr(t))
      && Route(f, t, msg) == Routed(Some([]), Some((f.controls[i].1.state, msg == "ON")))
  {
    ComponentOfControl(f, i);
    ControlComponentCommand(f, f.controls[i].0, f.controls[i].1);
    RouteCommand(f, i, msg);
    var t := CommandTopic(f, f.controls[i].1);
    assert Route(f, t, msg) == Routed(Some([]), Some((f.controls[i].1.state, msg == "ON")));
  }

  /** `set_state` calls a routing result stands for. */
  function Requests(r: Routed): seq<(State, bool)> {
    if r.request.Some? then [r.request.value] else []
  }

  /** `handle_message_on_topic`: at most one `set_state` call, through the panel. */
  method HandleMessageOnTopic(f: Formatter, topic: string, msg: string, panel: Panel)
    returns (r: Option<seq<(string, Json)>>)
    modifies panel
    ensures r == Route(f, topic, msg).reply
    ensures panel.requests == old(panel.requests) + Requests(Route(f, topic, msg))
  {
    if topic == f.statusPath && msg == "online" {
      var m := GetDiscoveryMessage(f);
      return Some([(f.root + "/config", m)]);
    }
    var i := 0;
    while i < |f.controls|
      invariant i <= |f.controls|
      invariant forall j :: 0 <= j < i ==> CommandTopic(f, f.controls[j].1) != topic
      invariant panel.requests == old(panel.requests)
    {
      var v := f.controls[i].1;
      if f.root + "/" + v.id + "/set" == topic {
        panel.SetState(v.state, msg == "ON");
        return Some([]);
      }
      i := i + 1;
    }
    return None;
  }

  // ---------------------------------------------------------------------
  // The state payload (get_state_message)
  // ---------------------------------------------------------------------

  /** `get_state_message`, filling `state` loop by loop from the panel and the tracker's messages. */
  method GetStateMessage(f: Formatter, panel: Snapshot, pm: Panelmanager.PanelManager) returns (r: Json)
    ensures r == JObj(StateRecord(f, panel, pm.SystemMessages()))
  {
    var sysm := pm.GetSystemMessages();
    var state := [("cs", OnOff(CheckSystem in panel.on)), ("sysm", JStr(Join(", ", sysm)))];
    ghost var base := state;
    ghost var readings, states, flags :=
      SensorReadings(f.sensors, panel), ControlStates(f.controls, panel), MessageSensorStates(f.messageSensors, sysm);
    for i := 0 to |f.sensors|
      invariant state == PutAll(base, readings[..i])
    {
      var (k, v) := f.sensors[i];
      SensorReadingStep(base, f.sensors, panel, i);
      state := Put(state, k, panel.reading(v.attr));
    }
    Whole(readings);
    ghost var afterSensors := state;
    for i := 0 to |f.controls|
      invariant state == PutAll(afterSensors, states[..i])
    {
      var (k, v) := f.controls[i];
      ControlStateStep(afterSensors, f.controls, panel, i);
      state := Put(state, k, OnOff(v.state in panel.on));
    }
    Whole(states);
    ghost var afterControls := state;
    for i := 0 to |f.messageSensors|
      invariant state == PutAll(afterControls, flags[..i])
    {
      var (k, v) := f.messageSensors[i];
      MessageSensorStateStep(afterControls, f.messageSensors, sysm, i);
      state := Put(state, k, OnOff(v.name in sysm));
    }
    Whole(flags);
    r := JObj(state);
  }

  lemma SensorReadingStep(base: Dict<Json>, d: Dict<Sensor>, panel: Snapshot, i: nat)
    requires i < |d|
    ensures PutAll(base, SensorReadings(d, panel)[..i + 1])
         == Put(PutAll(base, SensorReadings(d, panel)[..i]), d[i].0, panel.reading(d[i].1.attr))
  {
    PutAllSnoc(base, SensorReadings(d, panel), i);
  }

  lemma ControlStateStep(base: Dict<Json>, d: Dict<Control>, panel: Snapshot, i: nat)
    requires i < |d|
    ensures PutAll(base, ControlStates(d, panel)[..i + 1])
         == Put(PutAll(base, ControlStates(d, panel)[..i]), d[i].0, OnOff(d[i].1.state in panel.on))
  {
    PutAllSnoc(base, ControlStates(d, panel), i);
  }

  lemma MessageSensorStateStep(base: Dict<Json>, d: Dict<MessageSensor>, sysm: seq<string>, i: nat)
    requires i < |d|
    ensures PutAll(base, MessageSensorStates(d, sysm)[..i + 1])
         == Put(PutAll(base, MessageSensorStates(d, sysm)[..i]), d[i].0, OnOff(d[i].1.name in sysm))
  {
    PutAllSnoc(base, MessageSensorStates(d, sysm), i);
  }
}
