# stats-exporter sampling engine in Dafny

This project models the sampling core of stats-exporter, a small Rust service. A background
thread (`build_stats`) wakes every `cmdn_polling_secs` seconds and reads the
host's probes. From those readings it builds one `Stats` sample and appends it to a bounded
history vector, which the HTTP handlers serve as JSON. The model covers one
iteration of that loop and whole runs of it:

- **History** (`history.dfy`): the bounded vector. When it already holds
  `history_depth` samples, `remove(0)` drops the oldest one, then the new
  sample is pushed. Because the test is an equality, an over-full vector is
  not trimmed. A depth of 0 makes the first `remove(0)` panic on the empty
  vector.
- **Throttle** (`throttle.dfy`): the filesystem refresh period in loop
  iterations.
  - The default is 900 iterations when the filesystem interval is 0.
  - Otherwise it is the truncated quotient of the two intervals.
  - A zero loop interval saturates the period to `u64::MAX`.
  - The test `loop_count % period == 0` panics when the period is 0.
- **Selectors** (`selectors.dfy`): `get_fs_use` and `get_root_use` keep the
  disk mounted at the wanted point that comes last in the list, or 0.0 when
  no disk is mounted there. `get_temp` keeps the reading of the last sensor
  with the wanted label, or -1 when there is none.
- **Network** (`network.dfy`): `get_tot_ntwk_*` / `get_iface_ntwk_*` and the
  `"total"` dispatch.
  - Each selected interface's byte counter is cast `as i32`.
  - The counters are summed with checked `i32` addition.
  - The rate is `((sum * 8) / secs) / 1024`, using Rust's truncating division.
- **Padding** (`padding.dfy`): `add_whitespace` left-pads a string with
  spaces. The width is computed with `u32` arithmetic on the string's byte
  length.
- **Sampler** (`sampler.dfy`): one iteration as a state transition
  `Step(cfg, engine, probe)`.
  - The state is the history, the last filesystem usages, the loop counter
    and the refresh period.
  - The probe readings of one iteration are a `Probe` value.
  - `Run` folds `Step` over a sequence of readings.
- **LoopProperties** (`loop_properties.dfy`): properties of whole runs.
  - The history is the window of all samples taken.
  - Stale-carry holds in closed form.
  - No sample carries Kubernetes statistics.
  - The settings that make the loop panic are identified.

**Arithmetic.** Integer arithmetic follows a debug build of the program. An
`i32` addition or multiplication that overflows panics, and so does an
unsigned subtraction that underflows. So do division by zero, `% 0` and
`remove(0)` on an empty vector. A panic ends the sampling thread. It is
modelled as the `Panic(cause)` alternative of `Outcomes.Outcome`, which every
operation returns.

**Where the code is followed.** One might expect the refresh period to be
rounded, and clamped to at least one iteration. The code does neither: the
`f32` product is truncated by `as u64`. A filesystem interval shorter than the
loop interval therefore gives a period of 0. So can `f32` rounding with equal
intervals (29 s and 29 s give 0.99999994, truncated to 0). The first refresh
test then panics. The model keeps the truncation but computes the exact
quotient, as "## Left out" says.

**Network counters.** The rates divide the interface counters by the loop
interval. sysinfo's `received()` and `transmitted()` count the bytes since the
previous refresh, and the loop refreshes the networks on every iteration
(src/main.rs:312), so the result is a rate over one interval. The model takes
the counters as the probe gives them.

## Model

| member | source | states |
|---|---|---|
| RustInt.TruncDiv | src/main.rs:157 | `/` on `i32` rounds toward zero: the magnitude of the quotient is the quotient of the magnitudes, and a nonzero quotient is positive exactly when the operands have the same sign |
| RustInt.AddI32 | src/main.rs:156 | checked `i32` addition: succeeds exactly when the sum fits in `i32`, and then returns the sum; otherwise it panics with an overflow |
| RustInt.MulI32 | src/main.rs:157 | checked `i32` multiplication: succeeds exactly when the product fits, and otherwise panics with an overflow |
| RustInt.DivI32 | src/main.rs:157 | `i32` division panics exactly on a zero divisor or on `i32::MIN / -1`; a zero divisor is a divide-by-zero panic; otherwise it returns the truncated quotient |
| RustInt.SubUnsigned | src/main.rs:88 | unsigned subtraction succeeds exactly when the subtrahend is not larger; the difference plus the subtrahend gives back the minuend; an underflow is an overflow panic |
| RustInt.UsizeAsU32 | src/main.rs:87 | `as u32` keeps the low 32 bits: the result agrees with the length modulo 2^32, and a length that fits in 32 bits is unchanged |
| RustInt.U64AsI32 | src/main.rs:152 | `as i32` leaves a counter up to `i32::MAX` unchanged and otherwise agrees with it modulo 2^32 |
| Padding.AddWhitespace | src/main.rs:85-100 | succeeds exactly when the byte length as `u32` is at most the width, and otherwise panics on the `u32` subtraction; the output ends with the input, everything before it is spaces, and its length is the width whenever the input fits |
| Padding.PadThenTrim | src/main.rs:85-100 | padding is lossless: trimming the leading spaces gives back any input that does not itself start with a space |
| Padding.TooLongPanics | src/main.rs:87-88 | a 3-byte string padded to width 2 panics |
| Padding.PadExample | src/main.rs:85-100 | `"42"` padded to width 5 is `"   42"` |
| Selectors.DiskUsage | src/main.rs:141 | one disk's usage is (total - available) of total, and it panics exactly when more space is available than the total |
| Selectors.FsUse | src/main.rs:137-145 | succeeds exactly when every mount point in the list is valid UTF-8 and every disk mounted at the point has available <= total. A panic is the `unwrap` of an unreadable mount point or the subtraction's overflow, and only the latter when every mount point is readable. The usage is that of the LAST disk mounted there, or 0.0 when none is |
| Selectors.RootUse | src/main.rs:126-134 | the same selection for mount point `/`, defined under the same conditions |
| Selectors.UnreadableMountPanics | src/main.rs:126-134 | a disk whose mount point is not UTF-8 makes `get_root_use` panic on the `unwrap`, even when `/` is listed and consistent |
| Selectors.LastMountExists | src/main.rs:137-145 | a mount point that occurs has a last occurrence, so `FsUse`'s two cases cover every input |
| Selectors.GetTemp | src/main.rs:215-225 | the reading of the LAST sensor with the label, or -1 when no sensor has it |
| Selectors.LastLabelExists | src/main.rs:215-225 | a label that occurs has a last occurrence, so `GetTemp`'s two cases cover every input |
| Network.SelectorOf | src/main.rs:330-337 | the interface name `"total"`, and only that name, selects every interface; any other name selects by that name |
| Network.Counters | src/main.rs:178-186 | the summed vector is empty when no interface is selected, and is every interface's cast counter in list order when all are selected |
| Network.CheckedSum | src/main.rs:156 | the left-to-right `i32` sum succeeds exactly when every running total fits, and then equals the mathematical sum; otherwise it is an overflow panic |
| Network.NonNegativeSumFits | src/main.rs:150-156 | with non-negative counters the running totals all fit exactly when the final total fits |
| Network.Kbps | src/main.rs:157 | succeeds exactly when `total * 8` fits and the interval is nonzero; the value is `((total * 8) / secs) / 1024` truncated at each division; the overflow is reported before the zero divisor |
| Network.Rate | src/main.rs:148-212 | for all four rate functions: defined exactly when the sum and `sum * 8` fit and the interval is nonzero; the value is the truncated rate of the selected counters' sum; a summing or multiplication overflow is reported before a division by zero |
| Network.NetworkRates | src/main.rs:328-337 | down and up rates for the configured name: succeeds exactly when both are defined, and the pair is the two rates |
| Network.NoMatchIsZero | src/main.rs:178-193 | a name that no interface has gives rate 0, or a division-by-zero panic when the interval is 0 |
| Network.UniqueNameSelectsOne | src/main.rs:178-186 | with unique interface names, selecting one interface's name sums exactly its counter |
| Network.NamedRateIsOneInterface | src/main.rs:148-193 | with unique interface names, the rate for one interface's name is that interface's own counter converted to kbit/s, which is what `"total"` reports for that interface alone |
| Network.RateNonNegative | src/main.rs:148-160 | non-negative counters give a non-negative rate |
| Network.TotalExample | src/main.rs:148-160 | two interfaces with 1024 bytes each over one second give 16 |
| Network.OverflowExample | src/main.rs:152-157 | a counter of 2^28 bytes overflows `sum * 8`, whatever the interval |
| Network.TruncationExample | src/main.rs:157 | a negative (wrapped) total rounds toward zero: -8000 / 1024 gives -7, not -8 |
| Throttle.RefreshCycles | src/main.rs:272-278 | the period is 900 when the filesystem interval is 0; it is at least 1 exactly when that interval is 0, the loop interval is 0, or the loop interval is at most the filesystem interval |
| Throttle.RefreshPeriodBounds | src/main.rs:276-278 | with both intervals set, period * loop interval <= filesystem interval < (period + 1) * loop interval |
| Throttle.IsRefreshCycle | src/main.rs:340 | the refresh test succeeds exactly when the period is positive and otherwise panics with a remainder by zero; iteration 0 refreshes; the iterations before the first full period do not |
| Throttle.LatestRefresh | src/main.rs:340 | the latest multiple of the period at or before an iteration: it is a multiple, not after the iteration, and less than one period before it |
| Throttle.RefreshSchedule | src/main.rs:339-355 | iteration `k * period + j` (with `j` < period) refreshes exactly when `j == 0` |
| Throttle.MinuteRefreshExample | src/main.rs:276-278 | loop every second, filesystems every 60 seconds: period 60 |
| Throttle.DefaultRefreshExample | src/main.rs:272-278 | a filesystem interval of 0 gives period 900 for any loop interval |
| Throttle.FasterFeaturePanics | src/main.rs:276-340 | loop every 10 s, filesystems every 5 s: period 0, and the first refresh test panics |
| History.Append | src/main.rs:374-392 | the push fails exactly when depth is 0 and the vector is empty (a `remove(0)` panic); the new sample is last; before it comes the old vector, minus its oldest sample when the vector was full; the bound `<= depth` is preserved |
| History.WindowSnoc | src/main.rs:374-392 | appending to the window of a sequence gives the window of the sequence extended by the sample |
| History.WindowAfterAppend | src/main.rs:374-392 | any buffer built by the eviction rule from a window is the window of the extended sequence |
| History.AppendAllIsWindow | src/main.rs:374-392 | after any number of appends to a buffer within the bound, the buffer is the last `depth` elements of everything appended, in order |
| History.FifoFromEmpty | src/main.rs:374-392 | from empty: with N <= depth appends the history is exactly the samples; with N > depth it has depth samples, the oldest being the (N - depth + 1)-th appended |
| History.DepthThreeExample | src/main.rs:374-392 | depth 3 fed A, B, C, D holds B, C, D |
| History.ZeroDepthPanics | src/main.rs:374-375 | depth 0 panics on the first append |
| Sampler.Start | src/main.rs:272-293 | the loop starts with an empty history, no remembered usages and counter 0; its refresh period is 900 for an unset interval and is positive exactly as `RefreshCycles` says |
| Sampler.RefreshFileSystems | src/main.rs:341-351 | the recomputation succeeds exactly when every configured mount point's disks are consistent; it yields one entry per configured filesystem, in order, with its name, its mount point and `get_fs_use` of it |
| Sampler.FileSystemUsage | src/main.rs:339-355 | with no filesystem configured it reports none and keeps the memory; with a zero period it panics; on a refresh iteration it recomputes and remembers; on any other iteration it reports the remembered usages unchanged |
| Sampler.Temperature | src/main.rs:323-326 | 0 when no sensor is configured; otherwise -1 when no sensor has the label, else the reading of the last one that does |
| Sampler.SampleOf | src/main.rs:304-392 | a sample is built exactly when none of root usage, rates or filesystems panics. Its gauges are the probe's, its root usage, rates and temperature are the selectors' values on the probe (`BasicOf`), and its filesystem part is `FileSystemUsage`'s. It has no Kubernetes statistics |
| Sampler.Step | src/main.rs:299-405 | one iteration succeeds exactly when sampling succeeds and the push does not panic. The counter goes up by one. Exactly one sample is appended after the old history, and it is the sample `SampleOf` builds from this iteration's readings; whose oldest sample is dropped when it was full, and the bound is kept. The new sample has no Kubernetes statistics. With filesystems configured, every iteration is either a refresh one (fresh usages, remembered) or a stale one (the remembered usages, unchanged) |
| Sampler.SensorsIgnoredWithoutItem | src/main.rs:314-326 | without a temperature label the sensor readings do not affect the iteration |
| Sampler.WindowAfterStep | src/main.rs:374-392 | if the history is the window of all samples so far, one more iteration keeps it the window of all samples taken |
| Sampler.CarryAfterStep | src/main.rs:339-355 | the per-iteration stale-carry property extends by one iteration |
| Sampler.Run | src/main.rs:299-405 | a run of N iterations appends N samples and adds N to the counter; the history is the window of all samples; with filesystems configured, the memory holds the last sample's usages |
| Sampler.RunCarries | src/main.rs:339-355 | in a run from counter 0, samples on refresh iterations hold usages recomputed from that iteration's disks, and every other sample repeats the previous sample's usages |
| LoopProperties.CopiedFromLatestRefresh | src/main.rs:339-355 | each sample's usages equal those of the sample taken at the latest refresh iteration |
| LoopProperties.CarriedFromLatestRefresh | src/main.rs:339-355 | each sample's usages are those recomputed from the disks read at the latest refresh iteration |
| LoopProperties.StaleCarry | src/main.rs:339-355 | stale-carry for a whole run from counter 0: the period is positive, and sample k reports the usages recomputed at the latest refresh iteration `k - k % period`, from that iteration's disks |
| LoopProperties.RunSucceedsFrom | src/main.rs:299-405 | with sound settings and readings, every iteration succeeds and the history is the window of all samples |
| LoopProperties.RunSucceeds | src/main.rs:299-405 | the same from the initial state: the history is the last `depth` samples taken |
| LoopProperties.RunReportsNoKubernetes | src/main.rs:304-392 | no sample of any run carries Kubernetes statistics |
| LoopProperties.RunReportsReadings | src/main.rs:310-337 | sample k of a run holds the readings of the k-th probe: its gauges, its root usage, its two rates for the configured interface and its configured temperature |
| LoopProperties.ReadingsSnoc | src/main.rs:310-337 | the per-sample readings property extends by one iteration |
| LoopProperties.RunWithoutFileSystems | src/main.rs:292-355 | without configured filesystems every sample reports none and the memory never changes |
| LoopProperties.RunNeedsSettings | src/main.rs:299-405 | a run that succeeds has a positive loop interval, a positive period when filesystems are configured, and depth >= 1 when the history started empty |
| LoopProperties.ZeroDepthPanics | src/main.rs:374-375 | depth 0 makes every non-empty run from the start panic |
| LoopProperties.ZeroIntervalPanics | src/main.rs:328-337 | a loop interval of 0 makes every non-empty run panic |
| LoopProperties.FasterFileSystemPollingPanics | src/main.rs:276-340 | with filesystems configured, a filesystem interval shorter than the loop interval makes every non-empty run from the start panic |

## Left out

- Probing the host (sysinfo's `refresh_*` calls), the mutex, the thread, the sleep and the HTTP handlers: the readings of one iteration are the `Probe` parameter, and `Run` takes them as a sequence.
- `main`, the configuration file, the help text and the Kubernetes configuration unpacking in `main`: they are outside the loop.
- CPU, RAM and swap percentages, including their NaN cases, and the `{:.1}` formatting of every field: floating point is not modelled. The gauges are opaque strings, and a disk percentage is kept as the pair (used, total) (`Selectors.Percent`). The network and temperature fields keep their `i32` value rather than its rendering.
- Throttle.RefreshCycles: takes the exact truncated quotient `feature / cmdn`. The program computes the `f32` product `(60 / cmdn) * (feature / 60)`, which can land just below an integer and truncate one lower: 1 s and 63 s give 62, and 1 s and 1000 s give 999. With equal intervals of 29, 31, 43 or 53 seconds the product is 0.99999994, so the period is 0 and the first refresh test (src/main.rs:340) panics with `% 0`. That rounding is not modelled.
- Throttle.RefreshPeriodBounds: the bounds hold for the exact quotient; the program's `f32` period can be one lower (62 for 1 s and 63 s).
- Sampler.Start: its period is positive exactly when the exact quotient is; with the program's `f32` period, equal intervals such as 29 s and 29 s give 0.
- LoopProperties.RunSucceeds: `SoundConfig` guarantees success only with the exact quotient. With the program's `f32` period, a configuration of 29 s and 29 s with filesystems configured meets `SoundConfig`, yet the first refresh test panics.
- Selectors.GetTemp: readings are taken as already converted to `i32`. The program converts the selected `f32` reading with `as i32`, and that conversion is left out.
- Network.Counters: its contract states only the no-match and all-match cases. A partial match is covered by `Network.UniqueNameSelectsOne`.
- The order in which interfaces are listed is given by the `Probe`. The program's list comes from a map, and only the overflow of an intermediate sum depends on its order.
- Release-build arithmetic: a release build wraps where the model panics.
- Overflow of the `u64` loop counter: after 2^64 iterations it would panic.
- The Kubernetes refresh period (computed but unused) and the commented-out Kubernetes block: every sample carries an empty Kubernetes list, as the code produces.
- A panic also poisons the history mutex for the HTTP handlers; the model only reports the panic.
- Negative polling intervals: the intervals come from unsigned configuration values, so the model takes them as non-negative `i32` (`RustInt.NonNegI32`).
