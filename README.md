# DHT22 temperature logger: limit colouring and the stop-flag timer

This project models the two pieces of the DHT22 temperature logger that carry
logic of their own, and proves properties of them.

- **`Sensors`** (`sensors.dfy`) models `QuickSensorDataHandler`. The handler
  object holds three fields: the readings map, the failed-sensor list and the
  result table. `ReadAndStoreSensorReadings` takes one sensor read and then
  runs the limit comparison. `CompareReadValuesWithSetLimits` walks the
  readings and writes `(temperature, colour)` into the result table in place.
  The colour is RED above the high limit, otherwise BLUE below the low limit,
  otherwise GREEN. The class methods are proved against the specification
  functions `Compare` and `ReadAndStore`. The lemmas then state what those
  functions promise.
- **`Utility`** (`timer.dfy`) models the `MyTimer` thread. Its `Run` loop waits
  on the stop event for one period, calls the task when the wait times out,
  and stops at the first wait that finds the event set. Threads are replaced
  by oracles. `sets[i]` says whether another thread sets the event before the
  i-th wait times out. `raisesOn(n)` says whether the task's n-th call raises.
  `Run` is proved to produce exactly the steps given by the function `Trace`.
  The lemmas describe every such trace: its shape, its call count, and how it
  grows when the run is observed for longer.

`MyTimer` has no lock, no
error containment and no period validation. An exception from the task ends
the run, and any period is accepted.

The result table is `Option<Table>`, where `None` stands for Python's `None`.
`_compareReadValuesWithSetLimits` has no `return`, so the assignment at
Sensors/QuickSensorDataHandler.py:38 sets the field to `None` on every
successful pass. The model keeps this behaviour. One consequence follows from
it: a second pass on the same handler raises. Item assignment on `None` fails,
and this is modelled as the failure `TableIsNone`. The pass only raises when
at least one sensor was read.

## Model

| member | source | states |
|---|---|---|
| `Sensors.Classify` | Sensors/QuickSensorDataHandler.py:56-65 | The stored temperature is the reading's own. The colour is RED exactly when the temperature is above the high limit. It is BLUE exactly when the temperature is not above the high limit but below the low limit. It is GREEN exactly when low <= temperature <= high. |
| `Sensors.LimitValuesAreGreen` | Sensors/QuickSensorDataHandler.py:62-65 | With low <= high, a temperature equal to either limit is GREEN. |
| `Sensors.InvertedLimits` | Sensors/QuickSensorDataHandler.py:60-63 | With low > high, the high test wins: any temperature above high is RED, even one below low. A temperature equal to high is BLUE. Nothing is GREEN. |
| `Sensors.ApplyLimits` | Sensors/QuickSensorDataHandler.py:52-65 | After the loop, the table's keys are the old keys plus the reading keys. Each reading key holds its reading's classification. Every other key keeps its old entry, because the table is updated in place and never cleared. |
| `Sensors.Compare` | Sensors/QuickSensorDataHandler.py:45-65 | The comparison never changes the readings or the failed list, and it returns None. It raises `TableIsNone` exactly when the table is None and there is a reading. When the table is None, nothing changes, whether it raises or not. On a table that exists, the new table is `ApplyLimits` of the old one. |
| `Sensors.FailedSensorsIgnored` | Sensors/QuickSensorDataHandler.py:52-65 | The failed-sensor list has no effect on the comparison's outcome or result table. |
| `Sensors.ReadAndStore` | Sensors/QuickSensorDataHandler.py:27-43 | A reader exception is re-raised, no comparison runs, and the handler is unchanged. Otherwise the readings and failed list are stored, and the table ends as None. The call returns None when the table existed or nothing was read. It re-raises `TableIsNone` when the table was None and something was read. |
| `Sensors.TableLostAfterSuccess` | Sensors/QuickSensorDataHandler.py:38-43 | Example: a fresh handler and one hot freezer reading. The comparison builds `{Freezer: (30.0, RED)}`, yet the pass ends with table None and returns None. |
| `Sensors.SecondPassRaises` | Sensors/QuickSensorDataHandler.py:37-65 | After one successful pass, a second pass on the same handler with a non-empty read raises `TableIsNone`. |
| `Sensors.CompareIntended` | Sensors/QuickSensorDataHandler.py:45-65 | The intended comparison has the same effect on the handler as `Compare`. It raises exactly when `Compare` raises, with the same failure. On success it returns the table it updated. |
| `Sensors.ReadAndStoreIntended` | Sensors/QuickSensorDataHandler.py:27-43 | With the intended comparison, a reader exception is still re-raised and leaves the handler unchanged. |
| `Sensors.IntendedReturnsClassification` | Sensors/QuickSensorDataHandler.py:36-43 | With the intended comparison, a successful read on a handler with a table returns `ApplyLimits(table, readings)` and keeps it in the handler. The next pass therefore cannot hit None. |
| `Sensors.QuickSensorDataHandler.constructor` | Sensors/QuickSensorDataHandler.py:10-23 | A new handler has an empty readings map, an empty failed list and an empty result table. |
| `Sensors.QuickSensorDataHandler.ReadAndStoreSensorReadings` | Sensors/QuickSensorDataHandler.py:27-43 | The new fields and the returned outcome are exactly those of `ReadAndStore` on the old fields. |
| `Sensors.QuickSensorDataHandler.CompareReadValuesWithSetLimits` | Sensors/QuickSensorDataHandler.py:45-65 | The loop visits the readings in any order and changes only the result table. It ends with `Compare` of the old state, whatever order was used. |
| `Utility.StopEvent.constructor` | DHT22logger.py:77 | A new event is not set. |
| `Utility.StopEvent.Set` | DHT22logger.py:82 | After `set`, the event is set. Setting it again changes nothing. |
| `Utility.StopEvent.Wait` | Utility/MyTimer.py:11 | A wait reports true exactly when the event was already set or is set during the wait. The flag then equals the result, so a set flag never resets. |
| `Utility.Task.Call` | Utility/MyTimer.py:12 | Each call of the task adds one to its call count. It raises as the task's behaviour says for that call number. |
| `Utility.MyTimer.constructor` | Utility/MyTimer.py:4-8 | The period, event and task are stored unchanged. The period is not validated. |
| `Utility.WaitReportsOutcome` | Utility/MyTimer.py:10-12 | The run's steps, `Trace`, use up the outcomes in order, one wait per outcome. Step 2k is the k-th wait. It uses the timer's own period and reports the k-th outcome. The first wait also reports an event that was already set. A run never has more waits than there are outcomes. |
| `Utility.StopSeenAtFirstSetWait` | Utility/MyTimer.py:11 | A run ends with the stop seen exactly when some wait finds the event set within the horizon and none of the calls made before that wait raised. |
| `Utility.MyTimer.Run` | Utility/MyTimer.py:10-12 | The steps taken are `Trace` of the period, the event's initial flag and the wait outcomes. The exit is given by the last step. The task's call count grows by the number of calls in the trace. The event ends set exactly when it was set before or the run saw the stop. |
| `Utility.TraceWellShaped` | Utility/MyTimer.py:10-12 | Every run alternates wait, call, wait, call. Each wait uses the timer's own period. The k-th call is the task's call number n + k and directly follows a timed-out wait. Only the last step can be a wait that saw the stop or a call that raised, so no call happens after either. |
| `Utility.CallsMatchTimeouts` | Utility/MyTimer.py:11-12 | The task is called at most once per leading timed-out wait. If no call raises, the calls equal the leading timeouts. If call c raises, the run ends there after c - n + 1 calls, and none of the earlier calls raised. |
| `Utility.AlreadySetNoCalls` | Utility/MyTimer.py:11 | If the event is already set when the run starts, the task is never called and the first wait ends the run. |
| `Utility.LongerHorizonExtends` | Utility/MyTimer.py:11-12 | The steps seen over a longer horizon extend those seen over a shorter one. A run that has stopped or raised takes no further steps. |

## Findings

| source | as written | input that shows it | evidently intended | confidence | as-written member | corrected member |
|---|---|---|---|---|---|---|
| Sensors/QuickSensorDataHandler.py:38-43, 45-65 | `_compareReadValuesWithSetLimits` returns nothing. Line 38 stores that None into `sensorTempsAndColors`, and line 43 returns it. The caller at DHT22logger.py:221-233 indexes the result as a table. | A fresh handler and the read `{Freezer: (30.0, low -25.0, high -15.0)}`: the pass returns None and the table is gone. A second pass with any reading raises on item assignment to None. | The comparison returns the table it filled in, so the pass returns and keeps the classified table. | high, not executed | `Sensors.TableLostAfterSuccess` | `Sensors.IntendedReturnsClassification` |

## Left out

- Logging calls, the configuration object, and the construction of the sensor reader and the measurement comparer are left out. The comparer is constructed but never used.
- The sensor reader is a foreign collaborator. Its answer is the parameter `read` (readings and failed sensors, or an exception). `QuickSensorReader` is not part of this model.
- Readings keep only the three keys the limit check uses. Humidity and other keys are left out. A missing limit key, which Python 2 would compare against `None`, is not modelled. Neither is a value that is not a dictionary.
- Temperatures are `real`. Floating-point rounding does not matter, because they are only compared.
- The result table is a value, not a shared dictionary object, so aliasing of that dictionary by other holders is not modelled.
- The colours BLACK and WHITE are defined in the comparison but never used, so they are left out.
- Threads are replaced by oracles. These are out: `Thread.start`, real time, the concurrent `Event.set`, and what the task does beyond raising or returning.
- `Utility.MyTimer.Run`: a run is modelled only up to a finite horizon of wait outcomes. A run that has not stopped when the horizon ends returns `StillRunning`, whereas the thread would keep looping.
- The logger main program and its `locked` flag are left out. That flag is toggled in one thread only and is never consulted by the timer's task.
