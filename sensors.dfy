/**
 * The limit check of the quick (display) sensor pass: a handler object that
 * takes the readings of one sensor read, colours each temperature against its
 * low and high limit, and keeps the result in a table keyed by sensor name.
 */
module Sensors {

  datatype Option<T> = None | Some(value: T)

  type SensorId = string

  /** A colour as the display takes it: a red, green, blue triple. */
  datatype Rgb = Rgb(red: nat, green: nat, blue: nat)

  const RED: Rgb := Rgb(255, 0, 0)
  const GREEN: Rgb := Rgb(0, 255, 0)
  const BLUE: Rgb := Rgb(0, 0, 255)

  /** The part of one sensor's reading that the limit check looks at. */
  datatype Reading = Reading(temperature: real, lowLimit: real, highLimit: real)

  /** One entry of the result table: the temperature read and its colour. */
  datatype Entry = Entry(temperature: real, color: Rgb)

  type Table = map<SensorId, Entry>

  /** The exceptions the handler can raise or pass on. */
  datatype Failure =
    | ReaderRaised(reason: string)  // the sensor reader raised; passed on unchanged
    | TableIsNone                   // item assignment on a result table that is None

  /** What the sensor reader hands back: readings and failed sensors, or an exception. */
  datatype SensorRead =
    | ReadOk(readings: map<SensorId, Reading>, failed: seq<SensorId>)
    | ReadFailed(reason: string)

  /** How a call of a handler method ends: it returns a table or None, or it raises. */
  datatype Outcome = Returned(value: Option<Table>) | Raised(failure: Failure)

  /** The three fields of a handler: readings, failed sensors, result table (None is Python's None). */
  datatype HandlerState = HandlerState(readings: map<SensorId, Reading>, failed: seq<SensorId>, table: Option<Table>)

  datatype Transition = Transition(state: HandlerState, outcome: Outcome)

  /** The state of a freshly constructed handler. */
  function Fresh(): HandlerState
  {
    HandlerState(map[], [], Some(map[]))
  }

  /**
   * The colour decision for one reading. The high limit is tested first, so
   * with inverted limits a temperature above the high limit is red even when
   * it is also below the low limit.
   */
  function Classify(r: Reading): (e: Entry)
    ensures e.temperature == r.temperature
    ensures e.color == RED <==> r.temperature > r.highLimit
    ensures e.color == BLUE <==> r.temperature <= r.highLimit && r.temperature < r.lowLimit
    ensures e.color == GREEN <==> r.lowLimit <= r.temperature <= r.highLimit
  {
    if r.temperature > r.highLimit then Entry(r.temperature, RED)
    else if r.temperature < r.lowLimit then Entry(r.temperature, BLUE)
    else Entry(r.temperature, GREEN)
  }

  /** With consistent limits, a temperature equal to either limit is green. */
  lemma LimitValuesAreGreen(r: Reading)
    requires r.lowLimit <= r.highLimit
    requires r.temperature == r.lowLimit || r.temperature == r.highLimit
    ensures Classify(r).color == GREEN
  {
  }

  /**
   * With inverted limits (low above high) the high test wins: every
   * temperature above the high limit is red, and the high limit itself is
   * blue because it lies below the low limit.
   */
  lemma InvertedLimits(r: Reading)
    requires r.highLimit < r.lowLimit
    ensures r.temperature > r.highLimit ==> Classify(r).color == RED
    ensures r.temperature == r.highLimit ==> Classify(r).color == BLUE
    ensures Classify(r).color != GREEN
  {
  }

  /**
   * The table after the comparison loop has run over `readings` starting
   * from `table`: each reading's key holds its classification, every other
   * key keeps its old entry.
   */
  function ApplyLimits(table: Table, readings: map<SensorId, Reading>): (t: Table)
    ensures t.Keys == table.Keys + readings.Keys
    ensures forall k :: k in readings ==> t[k] == Classify(readings[k])
    ensures forall k :: k in table && k !in readings ==> t[k] == table[k]
  {
    table + map k | k in readings :: Classify(readings[k])
  }

  /**
   * The comparison method as written: it updates the result table in place
   * and returns nothing. On a table that is None the first item assignment
   * raises, so it fails exactly when there is a reading to store.
   */
  function Compare(s: HandlerState): (r: Transition)
    ensures r.state.readings == s.readings && r.state.failed == s.failed
    ensures r.outcome.Raised? <==> s.table == None && s.readings != map[]
    ensures r.outcome.Raised? ==> r.outcome.failure == TableIsNone && r.state == s
    ensures r.outcome.Returned? ==> r.outcome.value == None
    ensures s.table.Some? ==> r.state.table == Some(ApplyLimits(s.table.value, s.readings))
    ensures s.table == None ==> r.state == s
  {
    match s.table
    case Some(t) => Transition(s.(table := Some(ApplyLimits(t, s.readings))), Returned(None))
    case None =>
      if s.readings == map[] then Transition(s, Returned(None))
      else Transition(s, Raised(TableIsNone))
  }

  /** The failed-sensor list plays no part in the comparison. */
  lemma FailedSensorsIgnored(s: HandlerState, failed: seq<SensorId>)
    ensures Compare(s.(failed := failed)).outcome == Compare(s).outcome
    ensures Compare(s.(failed := failed)).state.table == Compare(s).state.table
  {
  }

  /**
   * The read-then-compare sequence as written. A failing read is passed on
   * and leaves the handler as it was; otherwise the readings are stored, the
   * comparison runs, a failure of it is passed on, and on success the result
   * table is overwritten with the comparison's return value, which is None.
   */
  function ReadAndStore(s: HandlerState, read: SensorRead): (r: Transition)
    ensures read.ReadFailed? ==> r == Transition(s, Raised(ReaderRaised(read.reason)))
    ensures read.ReadOk? ==> r.state.readings == read.readings && r.state.failed == read.failed
    ensures read.ReadOk? ==> r.state.table == None
    ensures read.ReadOk? && (s.table.Some? || read.readings == map[]) ==> r.outcome == Returned(None)
    ensures read.ReadOk? && s.table == None && read.readings != map[] ==> r.outcome == Raised(TableIsNone)
  {
    match read
    case ReadFailed(reason) => Transition(s, Raised(ReaderRaised(reason)))
    case ReadOk(readings, failed) =>
      var c := Compare(HandlerState(readings, failed, s.table));
      match c.outcome
      case Raised(_) => c
      case Returned(v) => Transition(c.state.(table := v), Returned(v))
  }

  /**
   * As written, a successful pass computes a classified table and then loses
   * it: on a fresh handler with one hot freezer reading, the comparison
   * stores a red entry, yet the handler ends with no table and returns None.
   */
  lemma TableLostAfterSuccess()
    ensures var read := ReadOk(map["Freezer" := Reading(30.0, -25.0, -15.0)], []);
            Compare(HandlerState(read.readings, [], Fresh().table)).state.table
              == Some(map["Freezer" := Entry(30.0, RED)])
            && ReadAndStore(Fresh(), read) == Transition(HandlerState(read.readings, [], None), Returned(None))
  {
    var read := ReadOk(map["Freezer" := Reading(30.0, -25.0, -15.0)], []);
    var t := ApplyLimits(map[], read.readings);
    assert t.Keys == {"Freezer"};
    assert t == map["Freezer" := Entry(30.0, RED)];
  }

  /**
   * As written, a second pass on the same handler raises as soon as a sensor
   * was read, because the first pass left the result table None.
   */
  lemma SecondPassRaises(s: HandlerState, first: SensorRead, second: SensorRead)
    requires first.ReadOk? && ReadAndStore(s, first).outcome.Returned?
    requires second.ReadOk? && second.readings != map[]
    ensures ReadAndStore(ReadAndStore(s, first).state, second).outcome == Raised(TableIsNone)
  {
  }

  /** The comparison as evidently intended: it returns the table it updated. */
  function CompareIntended(s: HandlerState): (r: Transition)
    ensures r.state == Compare(s).state
    ensures r.outcome.Raised? <==> Compare(s).outcome.Raised?
    ensures r.outcome.Raised? ==> r.outcome == Compare(s).outcome
    ensures r.outcome.Returned? ==> r.outcome.value == r.state.table
  {
    var c := Compare(s);
    if c.outcome.Returned? then Transition(c.state, Returned(c.state.table)) else c
  }

  /** The read-then-compare sequence with the intended comparison. */
  function ReadAndStoreIntended(s: HandlerState, read: SensorRead): (r: Transition)
    ensures read.ReadFailed? ==> r == Transition(s, Raised(ReaderRaised(read.reason)))
  {
    match read
    case ReadFailed(reason) => Transition(s, Raised(ReaderRaised(reason)))
    case ReadOk(readings, failed) =>
      var c := CompareIntended(HandlerState(readings, failed, s.table));
      match c.outcome
      case Raised(_) => c
      case Returned(v) => Transition(c.state.(table := v), Returned(v))
  }

  /**
   * With the intended comparison, a successful read on a handler that has a
   * table returns the classified table, keeps it, and leaves the handler
   * ready for the next pass.
   */
  lemma IntendedReturnsClassification(s: HandlerState, readings: map<SensorId, Reading>, failed: seq<SensorId>)
    requires s.table.Some?
    ensures var r := ReadAndStoreIntended(s, ReadOk(readings, failed));
            r.outcome == Returned(Some(ApplyLimits(s.table.value, readings)))
            && r.state == HandlerState(readings, failed, Some(ApplyLimits(s.table.value, readings)))
  {
  }

  /** The handler object; its three fields are the ones the source assigns. */
  class QuickSensorDataHandler {
    var readingsFromSensors: map<SensorId, Reading>
    var failedSensors: seq<SensorId>
    var sensorTempsAndColors: Option<Table>

    function State(): HandlerState
      reads this
    {
      HandlerState(readingsFromSensors, failedSensors, sensorTempsAndColors)
    }

    /**
     * Loop state of the comparison: starting from `before`, the keys in
     * `done` hold their classification and every other key is untouched.
     */
    ghost predicate Done(before: Table, done: set<SensorId>)
      reads this
      requires done <= readingsFromSensors.Keys
    {
      match sensorTempsAndColors
      case None => false
      case Some(t) =>
        t.Keys == before.Keys + done
        && (forall k :: k in done ==> t[k] == Classify(readingsFromSensors[k]))
        && (forall k :: k in before && k !in done ==> t[k] == before[k])
    }

    constructor ()
      ensures State() == Fresh()
    {
      readingsFromSensors := map[];
      failedSensors := [];
      sensorTempsAndColors := Some(map[]);
    }

    /** Reads the sensors (the reader's answer is `read`) and then compares against the limits. */
    method ReadAndStoreSensorReadings(read: SensorRead) returns (result: Outcome)
      modifies this
      ensures Transition(State(), result) == ReadAndStore(old(State()), read)
    {
      match read {
        case ReadFailed(reason) =>
          return Raised(ReaderRaised(reason));
        case ReadOk(readings, failed) =>
          readingsFromSensors, failedSensors := readings, failed;
      }
      var compared := CompareReadValuesWithSetLimits();
      match compared {
        case Raised(f) =>
          return Raised(f);
        case Returned(v) =>
          sensorTempsAndColors := v;
      }
      result := Returned(sensorTempsAndColors);
    }

    /**
     * Walks the readings in any order and writes each one's classification
     * into the result table in place; returns nothing.
     */
    method CompareReadValuesWithSetLimits() returns (outcome: Outcome)
      modifies this`sensorTempsAndColors
      ensures Transition(State(), outcome) == Compare(old(State()))
    {
      var remaining := readingsFromSensors.Keys;
      while remaining != {}
        invariant remaining <= readingsFromSensors.Keys
        invariant old(sensorTempsAndColors).None? ==> sensorTempsAndColors.None? && remaining == readingsFromSensors.Keys
        invariant old(sensorTempsAndColors).Some? ==> Done(old(sensorTempsAndColors).value, readingsFromSensors.Keys - remaining)
        decreases remaining
      {
        var key :| key in remaining;
        match sensorTempsAndColors {
          case None =>
            return Raised(TableIsNone);
          case Some(t) =>
            sensorTempsAndColors := Some(t[key := Classify(readingsFromSensors[key])]);
        }
        remaining := remaining - {key};
      }
      if old(sensorTempsAndColors).Some? {
        assert sensorTempsAndColors.value == ApplyLimits(old(sensorTempsAndColors).value, readingsFromSensors);
      }
      outcome := Returned(None);
    }
  }
}
