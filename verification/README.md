# zktraffic process options, modelled in Dafny

zktraffic can tune its own process on the host. It can pin the process to a
set of CPU cores and set its scheduling nice level, and it reports the
process uptime. `zktraffic/base/process.py` provides this through one
capability with two variants. `PsUtilProcessOptions` is backed by the
operating system's process facility (psutil). `DummyProcessOptions` is an
inert fallback, bound when psutil cannot be imported.

The model is functional:

- `AffinityCsv` models the affinity parser. Python's `str.split(',')` is
  `Split`, with `Join` as its inverse. The per-token `int()` conversion is
  `DecimalValue`, with `Decimal` as its inverse. `ParseCpuAffinity` combines
  them.
- `Uptime` models the uptime arithmetic. Float timestamps are `real`. Python's
  `int()` on a float truncates toward zero, which `Trunc` models.
- `ProcessOptions` models the two variants (`Variant = PsUtil | Dummy`) over an
  immutable `ProcState`. The state holds the affinity (a set of cores, as the
  kernel's mask keeps it), the nice level and the warning log. Each mutator
  call into psutil and the `cpu_affinity` and `create_time` reads take an
  `OsOutcome` parameter
  (`Accepted | Rejected | Unsupported | AccessDenied | NoSuchProcess`), so every
  `except` branch of the source is an explicit case. Each operation returns an
  `Effect` with:
  - the new state;
  - the OS mutation requests issued (`PinCpus`, `Renice`), so "no OS call" is
    `requests == []`;
  - the exception that escapes to the caller, if any.
- `Run` performs a sequence of mutator calls. It carries the invariants that
  hold across calls: the log is append-only, and a nice level in [0, 20] stays
  in that range.

Three behaviours of the code worth stating plainly:

- Not every failure is caught. `set_cpu_affinity` catches only `OSError`,
  `ValueError` and `AttributeError`. psutil's `AccessDenied` and
  `NoSuchProcess` derive from `psutil.Error`, not `OSError`, so they escape.
  `set_niceness` does not catch `AttributeError`. The `cpu_affinity` getter
  catches only `AttributeError`. `uptime` catches nothing. The model records
  each escape in `Effect.raised` (in a `Failure` for `uptime`).
- Nothing trims tokens. Only `int()` tolerates surrounding whitespace, and the
  model's token grammar has none (see Left out).
- `uptime` is non-negative whenever now >= create_time.

## Model

| member | source | states |
|---|---|---|
| AffinityCsv.Split | zktraffic/base/process.py:96 | `split(',')` yields one token per comma plus one. No token contains a comma. Joining the tokens with commas gives back the input. |
| AffinityCsv.SplitJoin | zktraffic/base/process.py:96 | Splitting the comma-join of comma-free tokens returns exactly those tokens, so the split is unique. |
| AffinityCsv.SplitTrailingComma | zktraffic/base/process.py:96 | A trailing comma adds exactly one empty last token. |
| AffinityCsv.DecimalValue | zktraffic/base/process.py:96 | The value `int()` gives a digit token. An n-digit token's value is below 10^n, and at least 10^(n-1) when it does not start with '0'. |
| AffinityCsv.LeadingZero | zktraffic/base/process.py:96 | Leading zeros do not change the value, as in `int("007") == 7`. |
| AffinityCsv.Decimal | zktraffic/base/process.py:96 | Every natural number has a canonical digit string whose base-10 value is that number. It has no leading zero except "0". |
| AffinityCsv.ParseTokens | zktraffic/base/process.py:96 | The list comprehension succeeds iff every token is a decimal literal. On success there is one value per token, in order. On failure it reports the first bad token, and every token before it was valid. |
| AffinityCsv.ParseCpuAffinity | zktraffic/base/process.py:89-96 | Success iff every comma-separated token is decimal. The result has length commas + 1 and element i is the value of token i, with no sorting, deduplication or bounds check. A failure names the first offending token, every earlier token being valid, and yields no partial list. |
| AffinityCsv.ParseRender | zktraffic/base/process.py:96 | Round trip: parsing the comma-joined decimal rendering of any non-empty core list returns that list, duplicates and order included. |
| AffinityCsv.ParsedListNonEmpty | zktraffic/base/process.py:96 | A successful parse never yields the empty list. |
| AffinityCsv.TrailingCommaFails | zktraffic/base/process.py:96 | Any input ending in a comma fails as a whole, e.g. "0,". |
| AffinityCsv.ExamplesAccepted | zktraffic/base/process.py:96 | "0,2,4" gives [0,2,4]. "2,2,0" gives [2,2,0], keeping order and duplicates. "1" gives [1]. |
| AffinityCsv.ExamplesRejected | zktraffic/base/process.py:96 | "" fails on its only, empty token. "0," fails on the empty second token. "a,b" fails on "a". None of them yields a partial list. |
| ProcessOptions.Bind | zktraffic/base/process.py:129 | The platform-backed variant is bound exactly when the facility could be imported. |
| ProcessOptions.ParseCpuAffinity | zktraffic/base/process.py:124-126 | The null variant's parser returns [] for every input. The platform variant's parser succeeds exactly on well-formed input, with one element per token, element i being the value of token i. |
| ProcessOptions.SetCpuAffinity | zktraffic/base/process.py:37-48 | Null variant: inert. On a parse failure the OS is never asked and exactly one "unable to set" warning is logged. When the OS accepts, exactly the parsed list is requested, the affinity becomes exactly the cores it names (the cpuset narrowing is left out), and nothing is logged. A rejected or escaping call still records exactly that one request. An OS rejection logs the same warning as a parse failure. A missing facility logs the "not available" warning. Only AccessDenied and NoSuchProcess escape, and then the state is unchanged. Niceness never changes. |
| ProcessOptions.CpuAffinity | zktraffic/base/process.py:50-59 | Returns the set of cores the process is pinned to when the facility answers. When the facility is missing it returns None and logs one warning. Other OS errors escape. The null variant always returns None and is inert. |
| ProcessOptions.SetNiceness | zktraffic/base/process.py:61-72 | Null variant: inert. A level outside [0, 20] makes zero OS requests, leaves niceness unchanged and logs one warning. A level inside the range makes exactly one `nice(n)` request. If it succeeds the niceness becomes n with no warning. Environment errors, access denied and no-such-process each log one warning and change nothing. Only a missing facility escapes. Affinity never changes. |
| ProcessOptions.Niceness | zktraffic/base/process.py:74-80 | The platform variant reports the process' nice level. The null variant always reports 0. |
| ProcessOptions.ProcessUptime | zktraffic/base/process.py:82-87 | Platform variant: succeeds exactly when `create_time()` does; otherwise that error escapes, since nothing is caught. Its value is non-negative when now is not earlier than the creation time. Null variant: never fails; 0 when the stat is unavailable, non-negative when the change time is not in the future. |
| ProcessOptions.ProcessUptimeMonotone | zktraffic/base/process.py:82-87 | For both variants, a later clock reading succeeds or fails alike and never gives a smaller uptime. |
| ProcessOptions.Run | zktraffic/base/process.py:37-72 | Over any sequence of mutator calls, the warning log only grows, by at most one per call. At most one OS request is made per call. A nice level in [0, 20] stays in range. The null variant leaves the state unchanged. |
| ProcessOptions.DummyStaysInert | zktraffic/base/process.py:99-112 | Whatever mutators are called on the null variant, its state is unchanged, its niceness reads 0 and its affinity reads None. |
| ProcessOptions.SetThenGetAffinity | zktraffic/base/process.py:42-57 | Setting the affinity to the rendering of a core list (OS accepting), then reading it back, yields exactly the cores the list names, when all of them are allowed by the process' cpuset (see Left out). Nothing is logged. |
| ProcessOptions.DuplicatesCollapse | zktraffic/base/process.py:42-57 | Order and duplicates of a request are not kept: after "2,2,0" is accepted, the affinity reads back as exactly the cores 0 and 2. |
| ProcessOptions.PinToCoreZero | zktraffic/base/process.py:42-57 | After `set_cpu_affinity("0")` succeeds, `cpu_affinity` returns a set holding 0. |
| ProcessOptions.SetCpuAffinityIdempotent | zktraffic/base/process.py:42-44 | Repeating an accepted affinity setting leaves the state as the first call left it. |
| ProcessOptions.SetNicenessIdempotent | zktraffic/base/process.py:68-70 | Repeating an accepted in-range nice level leaves the state as the first call left it. |
| ProcessOptions.OutOfRangeNeverRenices | zktraffic/base/process.py:66-72 | On either variant, a level outside [0, 20] (such as 25) never changes the observed niceness, makes no OS request and raises nothing. |
| ProcessOptions.DummyScenario | zktraffic/base/process.py:99-105 | With the facility absent, the null variant is bound. `set_cpu_affinity("0,1")` then logs nothing and raises nothing, and the affinity still reads None. |
| Uptime.Trunc | zktraffic/base/process.py:87 | `int()` on a float truncates toward zero. For x >= 0 the result r satisfies r <= x < r + 1. For x < 0 it satisfies r - 1 < x <= r. |
| Uptime.TruncMonotone | zktraffic/base/process.py:87 | Truncation is monotone. |
| Uptime.PsUtilUptime | zktraffic/base/process.py:87 | `int(time.time()) - int(create_time())`: non-negative whenever now >= create_time, and for non-negative timestamps strictly within one second of the exact elapsed time. |
| Uptime.PsUtilUptimeMonotone | zktraffic/base/process.py:87 | Uptime is non-decreasing as now grows. |
| Uptime.TruncateThenSubtract | zktraffic/base/process.py:87 | Truncating before subtracting differs from truncating the difference. At 10.25 and 9.75 the first gives 1 and the second gives 0. |
| Uptime.DummyUptime | zktraffic/base/process.py:114-122 | The null variant's uptime is 0 when the process entry is missing or unreadable. Otherwise it is the elapsed time truncated, which is non-negative and within one second below the exact elapsed time when the change time is not in the future. |
| Uptime.DummyUptimeMonotone | zktraffic/base/process.py:114-122 | The null variant's uptime is non-decreasing as now grows. |

## Left out

- AffinityCsv.ParseCpuAffinity: accepts only non-empty strings of ASCII digits as tokens. Python's `int()` also accepts surrounding whitespace, a leading `+` or `-`, underscores between digits and non-ASCII digits. So inputs such as "0, 2" or "-1" fail here but parse in the source. This subset is deliberate: it is the canonical form of a core index.
- ProcessOptions.Niceness: the getter delegates straight to psutil and catches nothing. OS errors on reading the nice level are not modelled.
- ProcessOptions.CpuAffinity: returns the set of cores in the kernel's mask. psutil returns it as a sorted list; the order of that list is not modelled.
- ProcessOptions.SetCpuAffinity: an accepted mask is taken to be installed exactly. The kernel really installs its intersection with the CPUs the process' cpuset allows, so on a 4-CPU host "0,99" can succeed and read back as [0]. That narrowing is not modelled.
- ProcessOptions.SetThenGetAffinity: the exact read-back holds only when every named core is allowed by the process' cpuset, for the same reason as for `SetCpuAffinity`.
- ProcessOptions.SetNiceness: an accepted level is taken to become the process' nice level exactly. Linux clamps 20 to 19, so the getter would then read 19; that OS clamping is not modelled.
- psutil itself (`psutil.Process`, `cpu_affinity`, `nice`, `create_time`) is foreign code. Each mutator call and the `cpu_affinity` and `create_time` reads take an `OsOutcome` parameter. The `nice()` read takes none (see `ProcessOptions.Niceness` above). Which core indices or levels the OS accepts is left to that parameter.
- The logging sink (`twitter.common.log`) is modelled as appending a tag to a list. Message text is not modelled.
- Wall-clock time and the process-filesystem stat are parameters (`now`, `created`, `ctime`). Floats are abstracted as `real`, without IEEE rounding.
- The import probe (lines 25-29) and the module-level binding (line 129) become the explicit `Bind(hasFacility)` argument.
- Calling `set_cpu_affinity` with a non-string argument is not modelled. The `AttributeError` from `.split` would be caught and reported as "not available". The model's argument is always a string.
- Concurrency is not modelled. The source is single-threaded and takes no locks.
