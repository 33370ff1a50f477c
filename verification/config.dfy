/** The `matrix/config` handler: a read with lazy initialisation on GET and a
    validate-build-overwrite on POST, written as a pure transition from
    (method, decoded body, current time, stored content) to (status, body,
    new stored content). The state file is the store: `None` when the file
    does not exist, `Some(v)` for its content. */
module Config {
  import opened Wrappers
  import opened Json
  import opened Php
  import Modes

  /** The persisted device configuration. */
  datatype DeviceState = DeviceState(mode: int, brightness: int, speed: int, lastUpdate: int)

  type Store = Option<Value>

  /** Mode written when a GET finds no state file. */
  const InitialMode: int := 2
  /** Mode written when a POST body has no usable `mode`. */
  const UpdateMode: int := 1
  const DefaultBrightness: int := 128
  const DefaultSpeed: int := 50

  const StateKeys: set<string> := {"mode", "brightness", "speed", "lastUpdate"}

  /** The JSON object written for a state, with exactly the four keys. */
  function Encode(s: DeviceState): (v: Value)
    ensures v.JObj? && v.fields.Keys == StateKeys
  {
    JObj(map["mode" := JInt(s.mode), "brightness" := JInt(s.brightness),
             "speed" := JInt(s.speed), "lastUpdate" := JInt(s.lastUpdate)])
  }

  /** Reads a stored value back as a state, when it has that shape. */
  function Decode(v: Value): (r: Option<DeviceState>)
    ensures r.Some? ==> Encode(r.value) == v
  {
    if v.JObj? && v.fields.Keys == StateKeys
       && v.fields["mode"].JInt? && v.fields["brightness"].JInt?
       && v.fields["speed"].JInt? && v.fields["lastUpdate"].JInt?
    then
      var r := DeviceState(v.fields["mode"].i, v.fields["brightness"].i,
                           v.fields["speed"].i, v.fields["lastUpdate"].i);
      assert Encode(r).fields == v.fields;
      Some(r)
    else None
  }

  /** Every state is read back as itself. */
  lemma DecodeEncode(s: DeviceState)
    ensures Decode(Encode(s)) == Some(s)
  {
  }

  /** The state-file invariant: absent, or exactly a four-key state object. */
  predicate WellFormed(store: Store) {
    store.None? || Decode(store.value).Some?
  }

  /** The state a GET writes when there is no state file. Its mode is a
      listed one, and apart from the mode it is what a POST with no usable
      settings builds. */
  function InitialState(now: int): (s: DeviceState)
    ensures Modes.IsModeId(s.mode)
    ensures s.lastUpdate == now
    ensures s.(mode := UpdateMode) == Build(JInt(1), now)
  {
    Modes.ModeIdRange(InitialMode);
    DeviceState(InitialMode, DefaultBrightness, DefaultSpeed, now)
  }

  /** The settings a POST body may carry. */
  datatype Field = ModeField | BrightnessField | SpeedField

  function Key(f: Field): string {
    match f
    case ModeField => "mode"
    case BrightnessField => "brightness"
    case SpeedField => "speed"
  }

  function Default(f: Field): int {
    match f
    case ModeField => UpdateMode
    case BrightnessField => DefaultBrightness
    case SpeedField => DefaultSpeed
  }

  /** `isset($input[key])` for the three setting names. Only a decoded
      object can hold a string key; lists have integer keys and scalars have
      no named offsets. A key whose value is `null` is not set. */
  predicate Isset(input: Value, f: Field)
    ensures Isset(input, f) ==> Truthy(input)
    ensures Isset(input, f) ==> input.JObj? && Key(f) in input.fields
  {
    input.JObj? && Key(f) in input.fields && input.fields[Key(f)] != JNull
  }

  /** `isset($input[key]) ? (int)$input[key] : default`. A missing or null
      key gives the default; an integer passes through; any other set value
      is cast into the 64-bit range. */
  function Setting(input: Value, f: Field): (n: int)
    ensures !Isset(input, f) ==> n == Default(f)
    ensures Isset(input, f) && input.fields[Key(f)].JInt? ==> n == input.fields[Key(f)].i
    ensures Isset(input, f) && !input.fields[Key(f)].JInt? ==> IntMin <= n <= IntMax
  {
    if Isset(input, f) then IntCast(input.fields[Key(f)]) else Default(f)
  }

  /** The state a POST builds from its body; the time always comes from the
      server. */
  function Build(input: Value, now: int): (s: DeviceState)
    ensures s.lastUpdate == now
    ensures !Isset(input, ModeField) ==> s.mode == UpdateMode
    ensures !Isset(input, BrightnessField) ==> s.brightness == DefaultBrightness
    ensures !Isset(input, SpeedField) ==> s.speed == DefaultSpeed
    ensures input.JObj? && "mode" in input.fields && input.fields["mode"].JInt? ==> s.mode == input.fields["mode"].i
    ensures input.JObj? && "brightness" in input.fields && input.fields["brightness"].JInt?
            ==> s.brightness == input.fields["brightness"].i
    ensures input.JObj? && "speed" in input.fields && input.fields["speed"].JInt? ==> s.speed == input.fields["speed"].i
  {
    DeviceState(Setting(input, ModeField), Setting(input, BrightnessField),
                Setting(input, SpeedField), now)
  }

  const InvalidInput: Value := JObj(map["error" := JStr("Invalid input")])

  datatype Outcome = Outcome(status: int, body: Option<Value>, store: Store)

  /** One request to the handler. A method other than GET or POST produces
      no body and leaves the file alone. */
  function Handle(verb: string, input: Value, now: int, store: Store): (o: Outcome)
    ensures o.store != store ==> o.body == o.store
    ensures o.status == 400 ==> o.store == store && o.body == Some(InvalidInput)
    ensures o.status == 400 <==> verb == "POST" && !Truthy(input)
    ensures o.status != 400 ==> o.status == 200
    ensures verb == "GET" ==> o.store.Some? && o.body == o.store
    ensures verb != "GET" && verb != "POST" ==> o.body.None? && o.store == store
    ensures WellFormed(store) ==> WellFormed(o.store)
  {
    if verb == "GET" then
      if store.Some? then Outcome(200, store, store)
      else
        var v := Encode(InitialState(now));
        Outcome(200, Some(v), Some(v))
    else if verb == "POST" then
      if Truthy(input) then
        var v := Encode(Build(input, now));
        Outcome(200, Some(v), Some(v))
      else
        Outcome(400, Some(InvalidInput), store)
    else
      Outcome(200, None, store)
  }

  /** A GET with no state file writes the initial state stamped `now` and
      answers with that same object. */
  lemma GetInitialises(input: Value, now: int)
    ensures Handle("GET", input, now, None)
         == Outcome(200, Some(Encode(DeviceState(2, 128, 50, now))), Some(Encode(DeviceState(2, 128, 50, now))))
  {
  }

  /** A GET with a state file returns its content verbatim, whatever it is,
      and writes nothing. */
  lemma GetVerbatim(input: Value, now: int, content: Value)
    ensures Handle("GET", input, now, Some(content)) == Outcome(200, Some(content), Some(content))
  {
  }

  /** Once a GET has run, another GET (at any later time) returns the same
      body and changes nothing. */
  lemma GetIdempotent(in1: Value, in2: Value, now1: int, now2: int, store: Store)
    ensures var o1 := Handle("GET", in1, now1, store);
            var o2 := Handle("GET", in2, now2, o1.store);
            o2.body == o1.body && o2.store == o1.store
  {
  }

  /** A falsy body (parse failure, `false`, `0`, `""`, `"0"`, `[]`, `{}`) is
      rejected with the fixed error and no write. */
  lemma PostRejectsFalsy(input: Value, now: int, store: Store)
    requires !Truthy(input)
    ensures Handle("POST", input, now, store) == Outcome(400, Some(InvalidInput), store)
  {
  }

  /** The empty object decodes to an empty array, which is falsy. */
  lemma PostEmptyObjectRejected(now: int, store: Store)
    ensures Handle("POST", JObj(map[]), now, store).status == 400
  {
  }

  /** A truthy body replaces the whole file with the state built from the
      body, and answers with it; the previous content plays no part. */
  lemma PostOverwrites(input: Value, now: int, store: Store, other: Store)
    requires Truthy(input)
    ensures var o := Handle("POST", input, now, store);
            o.status == 200 && o.body == o.store && o.store == Some(Encode(Build(input, now)))
            && o == Handle("POST", input, now, other)
  {
  }

  /** Whatever keys the body carries, the written object has exactly the
      four state keys, and `lastUpdate` is the server's time even when the
      body supplies one. */
  lemma PostExactKeys(input: Value, now: int, store: Store)
    requires Truthy(input)
    ensures var o := Handle("POST", input, now, store);
            o.store.Some? && o.store.value.JObj? && o.store.value.fields.Keys == StateKeys
            && o.store.value.fields["lastUpdate"] == JInt(now)
  {
  }

  /** Each setting is the body's value cast to int when set and not null,
      and otherwise its POST default: mode 1, brightness 128, speed 50. */
  lemma PostDefaults(input: Value, now: int, store: Store)
    requires Truthy(input)
    ensures var s := Decode(Handle("POST", input, now, store).store.value);
            && s.Some?
            && s.value.mode == (if Isset(input, ModeField) then IntCast(input.fields["mode"]) else 1)
            && s.value.brightness == (if Isset(input, BrightnessField) then IntCast(input.fields["brightness"]) else 128)
            && s.value.speed == (if Isset(input, SpeedField) then IntCast(input.fields["speed"]) else 50)
            && s.value.lastUpdate == now
  {
    DecodeEncode(Build(input, now));
  }

  /** A setting given as `null` counts as absent, whatever else the body
      holds. */
  lemma PostNullIsAbsent(fields: map<string, Value>, f: Field)
    ensures Setting(JObj(fields[Key(f) := JNull]), f) == Default(f)
  {
  }

  /** A truthy body that is not an object (a number, a string, a list) sets
      nothing, so every setting takes its default. */
  lemma PostNonObjectDefaults(input: Value, now: int)
    requires Truthy(input) && !input.JObj?
    ensures Build(input, now) == DeviceState(UpdateMode, DefaultBrightness, DefaultSpeed, now)
  {
  }

  /** Posting back a state object that was read yields that state, with only
      the time renewed. */
  lemma PostEchoRoundTrip(s: DeviceState, now: int)
    ensures Build(Encode(s), now) == s.(lastUpdate := now)
  {
  }

  /** Settings sent as decimal strings are read as the numbers they spell. */
  lemma PostNumericStrings(mode: int, brightness: int, speed: int, now: int)
    requires IntMin <= mode <= IntMax && IntMin <= brightness <= IntMax && IntMin <= speed <= IntMax
    ensures Build(JObj(map["mode" := JStr(IntToString(mode)), "brightness" := JStr(IntToString(brightness)),
                           "speed" := JStr(IntToString(speed))]), now)
         == DeviceState(mode, brightness, speed, now)
  {
    var v := JObj(map["mode" := JStr(IntToString(mode)), "brightness" := JStr(IntToString(brightness)),
                      "speed" := JStr(IntToString(speed))]);
    StringSetting(v, ModeField, mode);
    StringSetting(v, BrightnessField, brightness);
    StringSetting(v, SpeedField, speed);
  }

  lemma StringSetting(v: Value, f: Field, n: int)
    requires IntMin <= n <= IntMax
    requires v.JObj? && Key(f) in v.fields && v.fields[Key(f)] == JStr(IntToString(n))
    ensures Setting(v, f) == n
  {
    StringToIntRoundTrip(n);
  }

  /** The mode is not checked against the mode table: any integer mode is
      stored as given, listed or not. */
  lemma PostModeUnchecked(mode: int, now: int)
    ensures var s := Build(JObj(map["mode" := JInt(mode)]), now);
            s.mode == mode && (Modes.IsModeId(s.mode) <==> 1 <= mode <= 5)
  {
    Modes.ModeIdRange(mode);
  }

  /** A successful POST followed by a GET reads back exactly the state the
      POST built, not the client's payload. */
  lemma ReadAfterWrite(input: Value, in2: Value, now: int, later: int, store: Store)
    requires Truthy(input)
    ensures var o1 := Handle("POST", input, now, store);
            var o2 := Handle("GET", in2, later, o1.store);
            o2.body == Some(Encode(Build(input, now))) && o2.body == o1.body && o2.store == o1.store
  {
  }

  /** Any other method answers with no body and writes nothing. */
  lemma OtherMethodsInert(verb: string, input: Value, now: int, store: Store)
    requires verb != "GET" && verb != "POST"
    ensures Handle(verb, input, now, store) == Outcome(200, None, store)
  {
  }

  /** Both default modes name an entry of the mode table. */
  lemma DefaultModesListed()
    ensures Modes.IsModeId(InitialMode) && Modes.IsModeId(UpdateMode)
  {
    Modes.ModeIdRange(InitialMode);
    Modes.ModeIdRange(UpdateMode);
  }
}
