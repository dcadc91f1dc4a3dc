# CPU-usage capture script, modelled in Dafny

`Scripts_Python/Consumo_CPU/scriptCapturaCpu.py` watches one Android process
for DURATION = 120 seconds. On each pass of its loop it runs
`adb shell top -p <pid> -n 1` and picks the %CPU column (column 8) out of the
first line that mentions the pid and parses. It keeps the reading together
with the time elapsed since the start, then sleeps off whatever is left of
SAMPLE_INTERVAL = 0.4 seconds. At the end `plot_graph` computes:

- an exponential moving average of the readings with alpha 0.3 (pandas
  `ewm(adjust=False)`);
- the means of the raw and the smoothed series;
- the peak reading and its position.

It then draws the chart.

The Dafny project has six modules, one file each:

| file | module | models |
|---|---|---|
| `wrappers.dfy` | `Wrappers` | `Option`, the model's `None` |
| `pytext.dfy` | `PyText` | `str.splitlines()`, `str.split()`, and `in` on strings |
| `pyfloat.dfy` | `PyFloat` | `float()` on decimal text with an optional sign and exponent |
| `extractor.dfy` | `CpuExtractor` | `get_cpu_usage` |
| `trend.dfy` | `Trend` | the numbers `plot_graph` computes |
| `sampling.dfy` | `Sampling` | the `while` loop of `main`, and `main` itself |

`get_cpu_usage` is modelled in two parts:

- a specification function, `CpuUsage`, with `FirstReading` behind it;
- the imperative `for` loop, `GetCpuUsage`, proved equal to that function.

The sampling loop is modelled as the method `Collect`, with its body as
`Pass`. It works against two oracles:

- `clock(n)` is what the n-th call of `time.perf_counter()` returns. The
  readings never go down.
- `probe(k)` is the text the k-th `top` run printed.

The loop records what each pass saw as an `Iteration`. Its contract relates
the two lists it builds to that record:

- `cpu_data` holds the readings that were not `None`, in order.
- `timestamps` holds the elapsed time of those same iterations.

The timing lemmas then derive the following from the record:

- timestamps are non-negative and in order;
- each pass lasts at least SAMPLE_INTERVAL;
- there are at most 300 passes.

The last two need one more premise: every requested sleep lasted as long as
asked.

Three consequences of the code are worth stating outright:

- **The smoothed column.** `[10, 20, 10, 40, 10]` smooths to
  `[10, 13, 12.1, 20.47, 17.329]` under the recurrence the code asks pandas
  for (`Trend.EwmaExample`).
- **Timestamps can pass DURATION.** `elapsed_time` is read after the probe
  returns, so a reading whose probe started just before the deadline can be
  stamped later than DURATION. The model proves only that each timestamp is
  at least 0 and at most the clock reading that ends its pass
  (`Sampling.StampsOrdered`).
- **The sample count.** At most DURATION / SAMPLE_INTERVAL = 300 passes
  happen only if every requested sleep is honoured
  (`Sampling.IterationCount`).

## Model

| member | source | states |
|---|---|---|
| PyText.SplitLines | Scripts_Python/Consumo_CPU/scriptCapturaCpu.py:16 | `output.splitlines()`: no resulting line contains a line boundary (`\n`, `\r`, `\r\n` as one, and the other Unicode boundaries) |
| PyText.SplitLinesTerminated | Scripts_Python/Consumo_CPU/scriptCapturaCpu.py:16 | splitting a listing made of newline-terminated lines gives exactly those lines back, with no empty trailing line |
| PyText.Fields | Scripts_Python/Consumo_CPU/scriptCapturaCpu.py:20 | `line.split()`: every field is non-empty and free of whitespace |
| PyText.FieldsCons | Scripts_Python/Consumo_CPU/scriptCapturaCpu.py:20 | a field followed by nothing or by whitespace is split off as the first field, whatever follows |
| PyText.FieldsJoin | Scripts_Python/Consumo_CPU/scriptCapturaCpu.py:20 | splitting fields joined by single spaces gives the same fields back |
| PyText.FieldsAfterSpace | Scripts_Python/Consumo_CPU/scriptCapturaCpu.py:20 | a whitespace character in front of a text adds no field |
| PyText.FieldsAfterSpaces | Scripts_Python/Consumo_CPU/scriptCapturaCpu.py:20 | a whole run of whitespace in front of a text adds no field |
| PyText.FieldsPadded | Scripts_Python/Consumo_CPU/scriptCapturaCpu.py:20 | splitting a line of columns padded by whitespace runs of any length (the inner ones non-empty, the outer ones possibly empty) gives exactly the columns |
| PyText.Contains | Scripts_Python/Consumo_CPU/scriptCapturaCpu.py:19 | `str(pid) in line` holds exactly when the pid occurs in the line at some position |
| PyFloat.ParseFloat | Scripts_Python/Consumo_CPU/scriptCapturaCpu.py:22 | `float(text)`: a value exactly when the text is an unsigned number (a mantissa with at least one digit and an optional exponent) after at most one sign, `None` (the `ValueError`) otherwise; a negative value comes only from a leading `-` |
| PyFloat.ParseFloatShape | Scripts_Python/Consumo_CPU/scriptCapturaCpu.py:22 | any text `float()` accepts holds a digit, and holds only sign, digit, point and exponent characters; anything else is a `ValueError`, here `None` |
| PyFloat.ParseFloatNat | Scripts_Python/Consumo_CPU/scriptCapturaCpu.py:22 | a natural number written in decimal parses back to itself |
| PyFloat.ParseFloatFixedPoint | Scripts_Python/Consumo_CPU/scriptCapturaCpu.py:22 | a `whole.frac` column such as `12.5` parses to the whole part plus the fraction scaled by its number of digits |
| PyFloat.ParseFloatNoExponent | Scripts_Python/Consumo_CPU/scriptCapturaCpu.py:22 | text that starts with a digit and has no exponent marker parses as its mantissa alone |
| CpuExtractor.LineReading | Scripts_Python/Consumo_CPU/scriptCapturaCpu.py:19-27 | one pass of the `for` body: a reading only from a line that mentions the pid and has a column 8 |
| CpuExtractor.CpuUsage | Scripts_Python/Consumo_CPU/scriptCapturaCpu.py:16-28 | what `get_cpu_usage` returns for one `top` listing; an empty listing (the probe printed nothing) gives `None` |
| CpuExtractor.GetCpuUsage | Scripts_Python/Consumo_CPU/scriptCapturaCpu.py:16-28 | the `for` loop with its early `return` returns the first line's reading that succeeds, or `None` when no line yields one |
| CpuExtractor.FirstReadingNone | Scripts_Python/Consumo_CPU/scriptCapturaCpu.py:18-28 | `get_cpu_usage` returns `None` exactly when no line mentions the pid with a numeric column 8: in both directions |
| CpuExtractor.FirstReadingIsFirstHit | Scripts_Python/Consumo_CPU/scriptCapturaCpu.py:18-25 | when line i yields a reading and every earlier line fails, the result is line i's reading |
| CpuExtractor.FirstReadingHasHit | Scripts_Python/Consumo_CPU/scriptCapturaCpu.py:18-25 | a returned reading comes from the first line that yields one |
| CpuExtractor.FirstReadingSkips | Scripts_Python/Consumo_CPU/scriptCapturaCpu.py:18-27 | lines that fail, by lacking the pid, lacking column 8 (`IndexError`) or holding a non-number there (`ValueError`), are passed over without effect |
| CpuExtractor.TopLineReading | Scripts_Python/Consumo_CPU/scriptCapturaCpu.py:19-27 | a `top` process line, its columns padded by runs of blanks before, between and after them, yields `float()` of column 8 when it mentions the pid, or nothing when it has at most 8 columns |
| CpuExtractor.ListingReading | Scripts_Python/Consumo_CPU/scriptCapturaCpu.py:16-25 | for a listing of newline-terminated lines, end to end: the reading of its first line that mentions the pid and parses |
| Trend.Ewma | Scripts_Python/Consumo_CPU/scriptCapturaCpu.py:33-35 | the smoothed column has one entry per reading and starts at the first reading |
| Trend.EwmaRecurrence | Scripts_Python/Consumo_CPU/scriptCapturaCpu.py:33-35 | the smoothed column starts at the first reading, and each later entry is 0.3·reading + 0.7·previous smoothed entry |
| Trend.EwmaUnique | Scripts_Python/Consumo_CPU/scriptCapturaCpu.py:33-35 | that recurrence determines the smoothed column completely |
| Trend.EwmaBetween | Scripts_Python/Consumo_CPU/scriptCapturaCpu.py:33-35 | each smoothed value lies between the current reading and the previous smoothed value |
| Trend.EwmaWithinRange | Scripts_Python/Consumo_CPU/scriptCapturaCpu.py:33-35 | every smoothed value lies between the smallest and the largest reading |
| Trend.Max | Scripts_Python/Consumo_CPU/scriptCapturaCpu.py:46 | `max()` is one of the readings, and no reading exceeds it |
| Trend.IdxMax | Scripts_Python/Consumo_CPU/scriptCapturaCpu.py:47 | `idxmax()` is a position of a largest reading, and every earlier reading is strictly smaller (the first occurrence) |
| Trend.IdxMaxIsMax | Scripts_Python/Consumo_CPU/scriptCapturaCpu.py:46-47 | the reading at `max_index` is `max_cpu` |
| Trend.Mean | Scripts_Python/Consumo_CPU/scriptCapturaCpu.py:38-42 | `Series.mean()` of a non-empty column lies between its smallest and its largest value |
| Trend.SmoothedMeanWithin | Scripts_Python/Consumo_CPU/scriptCapturaCpu.py:38 | the mean of the smoothed column lies between the smallest and the largest reading |
| Trend.Summarize | Scripts_Python/Consumo_CPU/scriptCapturaCpu.py:31-47 | `plot_graph`'s numbers: the smoothed column obeys the recurrence; both means are the means of their columns and lie within the readings' range; the peak is the first largest reading; the peak is marked at the timestamp of that sample |
| Trend.EwmaExample | Scripts_Python/Consumo_CPU/scriptCapturaCpu.py:33-35 | 10, 20, 10, 40, 10 is smoothed to 10, 13, 12.1, 20.47, 17.329 |
| Trend.MeanExample | Scripts_Python/Consumo_CPU/scriptCapturaCpu.py:42 | 10, 20, 10, 40, 10 has mean 18 |
| Trend.PeakExample | Scripts_Python/Consumo_CPU/scriptCapturaCpu.py:46-47 | 10, 20, 10, 40, 10 peaks at 40, at index 3 |
| Sampling.IsTimed | Scripts_Python/Consumo_CPU/scriptCapturaCpu.py:86-98 | what one pass's clock readings are: the loop check is clock call 4k+1 and was below DURATION, `loop_start` is call 4k+2, `elapsed_time` call 4k+3, `loop_duration` call 4k+4; the pass asks to sleep exactly when it took less than SAMPLE_INTERVAL, and then for exactly the rest of the interval |
| Sampling.Pass | Scripts_Python/Consumo_CPU/scriptCapturaCpu.py:87-98 | one pass of the loop body takes `loop_start`, keeps what `get_cpu_usage` makes of the pass's `top` listing, and is timed as `IsTimed` says |
| Sampling.FinishPass | Scripts_Python/Consumo_CPU/scriptCapturaCpu.py:90-98 | the part of a pass after the probe: `elapsed_time` and `loop_duration` from the next two clock calls, and a sleep of `SAMPLE_INTERVAL - loop_duration` exactly when that is positive |
| Sampling.Collect | Scripts_Python/Consumo_CPU/scriptCapturaCpu.py:82-98 | the loop runs while less than DURATION has passed and stops at the first check that finds DURATION passed. `cpu_data` and `timestamps` are the readings and elapsed times of the passes whose probe returned a value, in order. The timestamps are non-negative and ordered. With honoured sleeps there are at most DURATION / SAMPLE_INTERVAL passes |
| Sampling.Run | Scripts_Python/Consumo_CPU/scriptCapturaCpu.py:81-102 | `main`: collect, then summarise. There is no summary exactly when no sample was kept, the case where `idxmax` raises |
| Sampling.Readings | Scripts_Python/Consumo_CPU/scriptCapturaCpu.py:91-92 | `cpu_data` after the given passes: at most one reading per pass |
| Sampling.Stamps | Scripts_Python/Consumo_CPU/scriptCapturaCpu.py:91-93 | the two lists always have the same length |
| Sampling.ExtendLists | Scripts_Python/Consumo_CPU/scriptCapturaCpu.py:91-93 | a pass appends to both lists exactly when its probe returned a value |
| Sampling.SamplePairing | Scripts_Python/Consumo_CPU/scriptCapturaCpu.py:91-93 | entry i of `cpu_data` and entry i of `timestamps` come from the same pass |
| Sampling.AppendOnly | Scripts_Python/Consumo_CPU/scriptCapturaCpu.py:91-93 | the lists are only ever appended to: after every pass they are prefixes of the final lists |
| Sampling.StampsOrdered | Scripts_Python/Consumo_CPU/scriptCapturaCpu.py:85-93 | timestamps are non-negative and non-decreasing, and none is later than the clock reading that ends the last pass |
| Sampling.IterationInOrder | Scripts_Python/Consumo_CPU/scriptCapturaCpu.py:86-95 | within one pass the loop check, `loop_start`, `elapsed_time` and `loop_duration` come in program order, so `loop_duration` is never negative |
| Sampling.IterationLasts | Scripts_Python/Consumo_CPU/scriptCapturaCpu.py:95-98 | drift correction: with honoured sleeps, every pass lasts at least SAMPLE_INTERVAL from `loop_start`, whether or not it slept |
| Sampling.Cadence | Scripts_Python/Consumo_CPU/scriptCapturaCpu.py:87-98 | with honoured sleeps, consecutive passes start at least SAMPLE_INTERVAL apart |
| Sampling.GuardAfterIntervals | Scripts_Python/Consumo_CPU/scriptCapturaCpu.py:86-98 | with honoured sleeps, the loop check of pass k comes at least k·SAMPLE_INTERVAL after `start_time` |
| Sampling.IterationCount | Scripts_Python/Consumo_CPU/scriptCapturaCpu.py:86-98 | with honoured sleeps, the loop runs at most DURATION / SAMPLE_INTERVAL = 300 times, so at most 300 samples are kept |

## Left out

- Running `adb shell top` (lines 13-15) is outside the model. The model's input is the text the probe printed, given by the oracle `probe`. Errors from `subprocess` are not modelled.
- `time.perf_counter()` is the oracle `clock`, which never goes back. `time.sleep` is not an effect on that oracle: the loop records how long it asked to sleep, and the cadence and count lemmas take "every requested sleep was honoured" as a premise.
- Sampling.Collect: the loop is modelled only for clocks that eventually reach DURATION past `start_time`. A clock that never does would make the source loop forever.
- Sampling.Collect: the bound on the number of passes is stated only under honoured sleeps, because the clock oracle does not model sleeping.
- The `print` calls (lines 23-24, 39, 43, 48, 100-101) are not modelled. Neither are the drawing, saving and showing of the chart (lines 50-78); only the point the chart marks (line 67) is modelled, as `peakTime`.
- Reading the pid with `input()` (lines 105-107) is not modelled. The pid is a parameter.
- Floats are real numbers here. IEEE rounding, infinities and NaN are not modelled, so the exact value of the smoothed column and of the means is the real-number value.
- PyFloat.ParseFloatShape: `float()` is modelled for decimal text only, with an optional sign, an optional point and an optional exponent. These forms are left out: surrounding whitespace, `_` digit separators, `inf`/`nan`, and non-ASCII digits. `top` prints none of them in its %CPU column.
- Trend.Summarize: it requires a non-empty series and a timestamp column of the same length. For an empty series the source's `idxmax` raises; `Sampling.Run` models that as `None`. The loop always passes columns of the same length.
