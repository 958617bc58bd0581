/**
 Packing a zone's year into the 172-byte TimeZone structure of section 2.7.6 of MS-ASDTYPE, and what a
 reader of that structure makes of it.
 */
module ZoneEncoding {
  import opened Base
  import opened Gregorian
  import opened Recurrence
  import opened ZoneScan

  // ----- Little-endian fields -----

  function PushU16(value: int): (bytes: seq<Byte>)
    requires 0 <= value < 0x10000
    ensures |bytes| == 2
  {
    [value % 256, value / 256]
  }

  function ReadU16(bytes: seq<Byte>): (value: Unit)
    requires |bytes| == 2
  {
    var low: int, high: int := bytes[0], bytes[1];
    low + 256 * high
  }

  predicate FitsI32(value: int) {
    -0x8000_0000 <= value < 0x8000_0000
  }

  /** Two's complement. */
  function PushI32(value: int): (bytes: seq<Byte>)
    requires FitsI32(value)
    ensures |bytes| == 4
  {
    var unsigned := if value < 0 then value + 0x1_0000_0000 else value;
    PushU16(unsigned % 0x10000) + PushU16(unsigned / 0x10000)
  }

  function ReadI32(bytes: seq<Byte>): int
    requires |bytes| == 4
  {
    var unsigned := ReadU16(bytes[..2]) + 0x10000 * ReadU16(bytes[2..]);
    if unsigned >= 0x8000_0000 then unsigned - 0x1_0000_0000 else unsigned
  }

  function PushUnits(units: seq<Unit>): (bytes: seq<Byte>)
    ensures |bytes| == 2 * |units|
  {
    if units == [] then [] else PushU16(units[0]) + PushUnits(units[1..])
  }

  function ReadUnits(bytes: seq<Byte>): seq<Unit>
    requires |bytes| % 2 == 0
  {
    if bytes == [] then [] else [ReadU16(bytes[..2])] + ReadUnits(bytes[2..])
  }

  function Zeros(n: nat): seq<Unit> {
    seq(n, _ => 0)
  }

  /** At most 31 units, then zeros up to 32. */
  function NameField(name: seq<Unit>): (field: seq<Unit>)
    ensures |field| == 32 && field[31] == 0
  {
    var kept := if |name| <= 31 then name else name[..31];
    kept + Zeros(32 - |kept|)
  }

  function PushName(name: seq<Unit>): (bytes: seq<Byte>)
    ensures |bytes| == 64
  {
    PushUnits(NameField(name))
  }

  // ----- System times -----

  function TransitionWeek(date: Date): int
    requires Valid(date)
  {
    if date.day + 7 > MonthLength(date.year, date.month) then 5 else (date.day - 1) / 7 + 1
  }

  /** Zeros stand for no change; otherwise month, weekday, week, hour, minute and second. */
  function SystemTime(local: Option<int>): (fields: seq<Unit>)
    ensures |fields| == 8
  {
    match local
    case None => Zeros(8)
    case Some(local) =>
      var date, time := LocalDate(local), local % DAY;
      WeekFits(date);
      [0, date.month, Gregorian.Weekday(DayNumber(date)), TransitionWeek(date), time / 3600, time / 60 % 60, time % 60, 0]
  }

  lemma WeekFits(date: Date)
    requires Valid(date)
    ensures 1 <= TransitionWeek(date) <= 5
  {
  }

  // ----- The structure -----

  /** The fields a reader of the structure sees. */
  datatype Structure = Structure(
    bias: int, standardName: seq<Unit>, standardDate: seq<Unit>, standardBias: int,
    daylightName: seq<Unit>, daylightDate: seq<Unit>, daylightBias: int)

  function Packed(bias: int, standardName: seq<Unit>, standardDate: seq<Unit>,
                  daylightName: seq<Unit>, daylightDate: seq<Unit>, daylightBias: int): seq<Byte>
    requires FitsI32(bias) && FitsI32(daylightBias)
  {
    PushI32(bias) + PushName(standardName) + PushUnits(standardDate) + PushI32(0)
    + PushName(daylightName) + PushUnits(daylightDate) + PushI32(daylightBias)
  }

  function Read(bytes: seq<Byte>): Structure
    requires |bytes| == 172
  {
    Structure(ReadI32(bytes[..4]), ReadUnits(bytes[4..68]), ReadUnits(bytes[68..84]), ReadI32(bytes[84..88]),
              ReadUnits(bytes[88..152]), ReadUnits(bytes[152..168]), ReadI32(bytes[168..]))
  }

  lemma I32RoundTrip(value: int)
    requires FitsI32(value)
    ensures ReadI32(PushI32(value)) == value
  {
    var unsigned := if value < 0 then value + 0x1_0000_0000 else value;
    var bytes := PushI32(value);
    assert bytes[..2] == PushU16(unsigned % 0x10000) && bytes[2..] == PushU16(unsigned / 0x10000);
  }

  lemma {:induction false} UnitsRoundTrip(units: seq<Unit>)
    ensures ReadUnits(PushUnits(units)) == units
  {
    if units != [] {
      UnitsRoundTrip(units[1..]);
      var bytes := PushUnits(units);
      assert bytes[..2] == PushU16(units[0]) && bytes[2..] == PushUnits(units[1..]);
    }
  }

  /** The structure is 172 bytes whatever the names, and reading it gives back every field. */
  lemma ReadsBack(bias: int, standardName: seq<Unit>, standardDate: seq<Unit>,
                  daylightName: seq<Unit>, daylightDate: seq<Unit>, daylightBias: int)
    requires FitsI32(bias) && FitsI32(daylightBias) && |standardDate| == 8 && |daylightDate| == 8
    ensures var bytes := Packed(bias, standardName, standardDate, daylightName, daylightDate, daylightBias);
            |bytes| == 172
            && Read(bytes) == Structure(bias, NameField(standardName), standardDate, 0,
                                        NameField(daylightName), daylightDate, daylightBias)
  {
    var bytes := Packed(bias, standardName, standardDate, daylightName, daylightDate, daylightBias);
    assert bytes[..4] == PushI32(bias);
    assert bytes[4..68] == PushName(standardName);
    assert bytes[68..84] == PushUnits(standardDate);
    assert bytes[84..88] == PushI32(0);
    assert bytes[88..152] == PushName(daylightName);
    assert bytes[152..168] == PushUnits(daylightDate);
    assert bytes[168..] == PushI32(daylightBias);
    I32RoundTrip(bias);
    I32RoundTrip(0);
    I32RoundTrip(daylightBias);
    UnitsRoundTrip(NameField(standardName));
    UnitsRoundTrip(NameField(daylightName));
    UnitsRoundTrip(standardDate);
    UnitsRoundTrip(daylightDate);
  }

  // ----- The encoder -----

  function FirstWith(found: seq<Transition>, daylight: bool): Option<Transition> {
    if found == [] then None
    else if (found[0].dst != 0) == daylight then Some(found[0])
    else FirstWith(found[1..], daylight)
  }

  function ExactMinutes(seconds: int): Result<int, ErrorCode> {
    if seconds % 60 != 0 || !FitsI32(seconds / 60) then Err(ValidationFailed) else Ok(seconds / 60)
  }

  /** "Standard" and "Daylight" in UTF-16. */
  const STANDARD: seq<Unit> := [83, 116, 97, 110, 100, 97, 114, 100]
  const DAYLIGHT: seq<Unit> := [68, 97, 121, 108, 105, 103, 104, 116]

  function Local(t: Option<Transition>): Option<int> {
    if t.Some? then Some(t.value.localBefore) else None
  }

  function Name(t: Option<Transition>, otherwise: seq<Unit>): seq<Unit> {
    if t.Some? then t.value.name else otherwise
  }

  function Delta(daylight: Option<Transition>): Offset {
    if daylight.Some? then daylight.value.dst else 0
  }

  /** The structure for the changes found, with negated minutes for biases. */
  function Expected(base: Offset, standard: Option<Transition>, daylight: Option<Transition>): Structure {
    Structure(-(base / 60), NameField(Name(standard, STANDARD)), SystemTime(Local(standard)), 0,
              NameField(Name(daylight, DAYLIGHT)), SystemTime(Local(daylight)), -(Delta(daylight) / 60))
  }

  /** A name's field holds its first 31 units, then zeros. */
  lemma NamesAreCut(name: seq<Unit>, i: nat)
    requires i < 32
    ensures NameField(name)[i] == if i < |name| && i < 31 then name[i] else 0
  {
  }

  /** Each half of the structure carries its own transition's name, or its English one when there is none. */
  lemma NamesAreTheirs(base: Offset, standard: Option<Transition>, daylight: Option<Transition>)
    ensures Expected(base, standard, daylight).standardName ==
              NameField(if standard.Some? then standard.value.name else seq(8, i requires 0 <= i < 8 => "Standard"[i] as int))
    ensures Expected(base, standard, daylight).daylightName ==
              NameField(if daylight.Some? then daylight.value.name else seq(8, i requires 0 <= i < 8 => "Daylight"[i] as int))
  {
    assert seq(8, i requires 0 <= i < 8 => "Standard"[i] as int) == STANDARD;
    assert seq(8, i requires 0 <= i < 8 => "Daylight"[i] as int) == DAYLIGHT;
  }

  /** Numbers are little-endian, negative ones in two's complement. */
  lemma LittleEndian()
    ensures PushU16(0x1234) == [0x34, 0x12] && PushI32(300) == [0x2C, 0x01, 0, 0] && PushI32(-300) == [0xD4, 0xFE, 0xFF, 0xFF]
  {
  }

  method Pack(bias: int, standardName: seq<Unit>, standardDate: seq<Unit>,
              daylightName: seq<Unit>, daylightDate: seq<Unit>, daylightBias: int)
    returns (bytes: seq<Byte>)
    requires FitsI32(bias) && FitsI32(daylightBias) && |standardDate| == 8 && |daylightDate| == 8
    ensures bytes == Packed(bias, standardName, standardDate, daylightName, daylightDate, daylightBias)
  {
    bytes := PushI32(bias);
    bytes := bytes + PushName(standardName);
    bytes := bytes + PushUnits(standardDate);
    bytes := bytes + PushI32(0);
    bytes := bytes + PushName(daylightName);
    bytes := bytes + PushUnits(daylightDate);
    bytes := bytes + PushI32(daylightBias);
  }

  method PackZone(base: Offset, standard: Option<Transition>, daylight: Option<Transition>)
    returns (bytes: seq<Byte>)
    ensures |bytes| == 172 && Read(bytes) == Expected(base, standard, daylight)
  {
    var bias, delta := -(base / 60), -(Delta(daylight) / 60);
    var standardName, daylightName := Name(standard, STANDARD), Name(daylight, DAYLIGHT);
    var standardDate, daylightDate := SystemTime(Local(standard)), SystemTime(Local(daylight));
    bytes := Pack(bias, standardName, standardDate, daylightName, daylightDate, delta);
    ReadsBack(bias, standardName, standardDate, daylightName, daylightDate, delta);
  }

  method EncodeTimeZone(zone: Zone, year: int)
    returns (r: Result<seq<Byte>, ErrorCode>, ghost found: Result<seq<Transition>, ErrorCode>, ghost points: seq<int>)
    ensures Regular(zone, year) ==>
              && found.Ok? && Describes(zone, points, found.value)
              && Scanned(zone, YearStart(year), YearStart(year + 1), ScanStart(year), ScanEnd(year), points)
    ensures r.Err? ==> r.error == ValidationFailed
    ensures r.Ok? <==> found.Ok? && Encodable(found.value, BaseOffset(zone, year))
    ensures r.Ok? ==>
              |r.value| == 172
              && Read(r.value) == Expected(BaseOffset(zone, year), FirstWith(found.value, false), FirstWith(found.value, true))
  {
    r := Err(ValidationFailed);
    var transitions;
    transitions, points := Transitions(zone, year);
    found := transitions;
    if transitions.Err? {
      return;
    }
    if |transitions.value| != 0 && |transitions.value| != 2 {
      return;
    }
    var base := BaseOffset(zone, year);
    if ExactMinutes(base).Err? {
      return;
    }
    var daylight := FirstWith(transitions.value, true);
    var standard := FirstWith(transitions.value, false);
    if |transitions.value| == 2 && (daylight.None? || standard.None?) {
      return;
    }
    if ExactMinutes(Delta(daylight)).Err? {
      return;
    }
    var bytes := PackZone(base, standard, daylight);
    r := Ok(bytes);
  }

  function BaseOffset(zone: Zone, year: int): Offset {
    zone(DAY * DayNumber(Date(year, 1, 15))).base
  }

  /** What the encoder accepts: no changes, or one to daylight and one to standard time, all in whole minutes. */
  ghost predicate Encodable(found: seq<Transition>, base: int) {
    && base % 60 == 0
    && (found == [] ||
        (|found| == 2 && FirstWith(found, true).Some? && FirstWith(found, false).Some?
         && FirstWith(found, true).value.dst % 60 == 0))
  }
}
