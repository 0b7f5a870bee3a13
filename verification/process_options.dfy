/**
  The process-options capability: read and adjust the CPU affinity and the
  niceness of the current process, and read its uptime, in one of two
  variants fixed once at start-up.

  - `PsUtil` is backed by the operating system's process facility. Every
    call into that facility is abstracted as an `OsOutcome` parameter, so
    each error branch of the source is an explicit case here.
  - `Dummy` is the inert fallback used when that facility is missing.

  The process is an immutable `ProcState` (affinity, nice level, warning
  log); every operation returns an `Effect` with the new state, the OS
  mutation requests it issued, and the exception (if any) that escapes to the
  caller.
 */
module ProcessOptions {
  import opened Wrappers
  import AffinityCsv
  import Uptime

  /** Which implementation of the capability is bound. */
  datatype Variant = PsUtil | Dummy

  /** How the OS facility answers one call.
      - `Accepted`: the call succeeds.
      - `Rejected`: it raises `OSError` / `EnvironmentError` or `ValueError`
        (for example a core index that does not exist).
      - `Unsupported`: the facility is not exposed on this platform; the
        attribute lookup raises `AttributeError` before any call is made.
      - `AccessDenied`, `NoSuchProcess`: the facility's own exceptions, which
        derive from its base error class and not from `OSError`. */
  datatype OsOutcome = Accepted | Rejected | Unsupported | AccessDenied | NoSuchProcess

  /** Which warning was logged; the message text is not modelled. */
  datatype Warning =
    | AffinityFailed(csv: string)   // "unable to set cpu affinity"
    | AffinityUnavailable           // "cpu affinity is not available on your platform"
    | NiceFailed(level: int)        // "unable to set nice level on process"

  /** A mutation request that reached the OS facility. */
  datatype Request = PinCpus(cpus: seq<nat>) | Renice(level: int)

  /** The process as the OS sees it. The kernel keeps the affinity as a mask,
      so it is a set of core indices: order and duplicates of a request are
      not retained. */
  datatype ProcState = ProcState(affinity: set<nat>, nice: int, warnings: seq<Warning>)

  /** The cores named by a list, as the kernel's mask records them. */
  function CoreSet(cpus: seq<nat>): (cores: set<nat>)
    ensures forall c :: c in cores <==> c in cpus
  {
    set c | c in cpus
  }

  /** The result of one operation: its return value, the process state
      afterwards, the OS mutation requests made, and the exception that
      escapes to the caller (`None` when the call returns normally). */
  datatype Effect<T> = Effect(value: T, state: ProcState, requests: seq<Request>, raised: Option<OsOutcome>)

  /** The module-level binding: the platform-backed variant when the facility
      could be imported, the null variant otherwise. */
  function Bind(hasFacility: bool): (v: Variant)
    ensures v.PsUtil? <==> hasFacility
  {
    if hasFacility then PsUtil else Dummy
  }

  /** `st` with one more warning at the end of the log. */
  function Warn(st: ProcState, w: Warning): ProcState
  {
    st.(warnings := st.warnings + [w])
  }

  /** The call returned normally, touched nothing and asked the OS for nothing. */
  predicate Inert<T>(st: ProcState, e: Effect<T>)
  {
    e.state == st && e.requests == [] && e.raised.None?
  }

  /** Affinity and niceness are as before and exactly warning `w` was appended
      to the log. */
  predicate WarnedOnce(st: ProcState, st': ProcState, w: Warning)
  {
    st'.affinity == st.affinity && st'.nice == st.nice && st'.warnings == st.warnings + [w]
  }

  // ---------------------------------------------------------------------------
  // Affinity
  // ---------------------------------------------------------------------------

  /** `parse_cpu_affinity`: the real parser for the platform-backed variant,
      always the empty list for the null variant. */
  function ParseCpuAffinity(v: Variant, csv: string): (r: Result<seq<nat>, AffinityCsv.ParseError>)
    ensures v.Dummy? ==> r == Success([])
    ensures v.PsUtil? ==> (r.Success? <==> AffinityCsv.WellFormed(csv))
    ensures v.PsUtil? && r.Success? ==>
      && |r.value| == AffinityCsv.Occurrences(csv, ',') + 1
      && forall i :: 0 <= i < |r.value| ==>
           r.value[i] == AffinityCsv.DecimalValue(AffinityCsv.Split(csv)[i])
  {
    match v
    case Dummy => Success([])
    case PsUtil => AffinityCsv.ParseCpuAffinity(csv)
  }

  /** `set_cpu_affinity`: parse, then ask the OS to pin the process. A parse
      failure and an OS rejection log the same warning; a missing facility
      logs another; the facility's own access and lifetime errors are not
      caught and escape. */
  function SetCpuAffinity(v: Variant, st: ProcState, csv: string, os: OsOutcome): (e: Effect<()>)
    // The null variant does nothing.
    ensures v.Dummy? ==> Inert(st, e)
    // Parse failure: the OS is never called, one warning is logged.
    ensures v.PsUtil? && !AffinityCsv.WellFormed(csv) ==>
      e.requests == [] && e.raised.None? && WarnedOnce(st, e.state, AffinityFailed(csv))
    // Parsed and accepted: the parsed list is requested, and the affinity
    // becomes exactly the cores it names.
    ensures v.PsUtil? && AffinityCsv.WellFormed(csv) && os.Accepted? ==>
      && e.raised.None?
      && e.state.warnings == st.warnings && e.state.nice == st.nice
      && e.requests == [PinCpus(AffinityCsv.ParseCpuAffinity(csv).value)]
      && forall c :: c in e.state.affinity <==> c in AffinityCsv.ParseCpuAffinity(csv).value
    // Parsed but rejected by the OS: same warning as a parse failure.
    ensures v.PsUtil? && AffinityCsv.WellFormed(csv) && os.Rejected? ==>
      && e.requests == [PinCpus(AffinityCsv.ParseCpuAffinity(csv).value)]
      && e.raised.None? && WarnedOnce(st, e.state, AffinityFailed(csv))
    // Facility absent: the other warning, and no request reaches the OS.
    ensures v.PsUtil? && AffinityCsv.WellFormed(csv) && os.Unsupported? ==>
      e.requests == [] && e.raised.None? && WarnedOnce(st, e.state, AffinityUnavailable)
    // Only the facility's own errors escape, and then nothing was logged.
    ensures e.raised.Some? <==>
      v.PsUtil? && AffinityCsv.WellFormed(csv) && (os.AccessDenied? || os.NoSuchProcess?)
    ensures e.raised.Some? ==>
      && e.state == st && e.raised == Some(os)
      && e.requests == [PinCpus(AffinityCsv.ParseCpuAffinity(csv).value)]
    // Only a successful pin changes the affinity; niceness never changes.
    ensures e.state.affinity != st.affinity ==> v.PsUtil? && os.Accepted?
    ensures e.state.nice == st.nice
  {
    match v
    case Dummy => Effect((), st, [], None)
    case PsUtil =>
      match AffinityCsv.ParseCpuAffinity(csv)
      case Failure(_) => Effect((), Warn(st, AffinityFailed(csv)), [], None)
      case Success(cpus) =>
        match os
        case Accepted => Effect((), st.(affinity := CoreSet(cpus)), [PinCpus(cpus)], None)
        case Rejected => Effect((), Warn(st, AffinityFailed(csv)), [PinCpus(cpus)], None)
        case Unsupported => Effect((), Warn(st, AffinityUnavailable), [], None)
        case AccessDenied => Effect((), st, [PinCpus(cpus)], Some(os))
        case NoSuchProcess => Effect((), st, [PinCpus(cpus)], Some(os))
  }

  /** The `cpu_affinity` property: the cores the process is pinned to, or
      `None` (with a warning) when the facility is absent; the null variant
      always answers `None`. Other OS errors are not caught. */
  function CpuAffinity(v: Variant, st: ProcState, os: OsOutcome): (e: Effect<Option<set<nat>>>)
    ensures v.Dummy? ==> e.value.None? && Inert(st, e)
    ensures v.PsUtil? && os.Accepted? ==> e.value == Some(st.affinity) && Inert(st, e)
    ensures v.PsUtil? && os.Unsupported? ==>
      e.value.None? && e.requests == [] && e.raised.None? && WarnedOnce(st, e.state, AffinityUnavailable)
    ensures e.raised.Some? <==> v.PsUtil? && (os.Rejected? || os.AccessDenied? || os.NoSuchProcess?)
    ensures e.raised.Some? ==> e.state == st
    ensures e.requests == []
    ensures e.state.affinity == st.affinity && e.state.nice == st.nice
  {
    match v
    case Dummy => Effect(None, st, [], None)
    case PsUtil =>
      match os
      case Accepted => Effect(Some(st.affinity), st, [], None)
      case Unsupported => Effect(None, Warn(st, AffinityUnavailable), [], None)
      case _ => Effect(None, st, [], Some(os))
  }

  // ---------------------------------------------------------------------------
  // Niceness
  // ---------------------------------------------------------------------------

  /** The accepted nice levels: 0 to 20 inclusive. */
  predicate NiceInRange(n: int)
  {
    0 <= n <= 20
  }

  /** `set_niceness`: a level outside [0, 20] is refused before any OS call;
      an OS failure (environment error, access denied, no such process) is
      logged; either way the caller sees no error. Only a missing `nice`
      facility (`AttributeError`) is not caught. */
  function SetNiceness(v: Variant, st: ProcState, n: int, os: OsOutcome): (e: Effect<()>)
    // The null variant does nothing.
    ensures v.Dummy? ==> Inert(st, e)
    // Out of range: zero OS calls, niceness unchanged, one warning.
    ensures v.PsUtil? && !NiceInRange(n) ==>
      e.requests == [] && e.raised.None? && WarnedOnce(st, e.state, NiceFailed(n))
    // In range and the facility exists: exactly one `nice(n)` request.
    ensures v.PsUtil? && NiceInRange(n) && !os.Unsupported? ==> e.requests == [Renice(n)]
    ensures v.PsUtil? && NiceInRange(n) && os.Accepted? ==>
      e.raised.None? && e.state == st.(nice := n)
    ensures v.PsUtil? && NiceInRange(n) && (os.Rejected? || os.AccessDenied? || os.NoSuchProcess?) ==>
      e.raised.None? && WarnedOnce(st, e.state, NiceFailed(n))
    ensures e.raised.Some? <==> v.PsUtil? && NiceInRange(n) && os.Unsupported?
    ensures e.raised.Some? ==> e.state == st && e.requests == []
    // Only an accepted in-range level changes the niceness; affinity never changes.
    ensures e.state.nice != st.nice ==> e.state.nice == n && NiceInRange(n)
    ensures e.state.affinity == st.affinity
  {
    match v
    case Dummy => Effect((), st, [], None)
    case PsUtil =>
      if !NiceInRange(n) then Effect((), Warn(st, NiceFailed(n)), [], None)
      else
        match os
        case Accepted => Effect((), st.(nice := n), [Renice(n)], None)
        case Unsupported => Effect((), st, [], Some(os))
        case _ => Effect((), Warn(st, NiceFailed(n)), [Renice(n)], None)
  }

  /** The `niceness` property: the process' nice level, or always 0 for the
      null variant. */
  function Niceness(v: Variant, st: ProcState): (n: int)
    ensures v.Dummy? ==> n == 0
    ensures v.PsUtil? ==> n == st.nice
  {
    match v
    case Dummy => 0
    case PsUtil => st.nice
  }

  // ---------------------------------------------------------------------------
  // Uptime
  // ---------------------------------------------------------------------------

  /** The `uptime` property. `created` is the creation time the facility
      reports and `os` how its `create_time()` call answers; nothing is
      caught, so any failure escapes. `ctime` is the change time of the
      process' own filesystem entry, used only by the null variant (`None`
      when missing or unreadable), which never fails. */
  function ProcessUptime(v: Variant, now: real, created: real, ctime: Option<real>, os: OsOutcome): (r: Result<int, OsOutcome>)
    ensures v.Dummy? ==> r.Success?
    ensures v.PsUtil? ==> (r.Success? <==> os.Accepted?)
    ensures r.Failure? ==> r.error == os
    ensures v.Dummy? && ctime.None? ==> r == Success(0)
    ensures v.PsUtil? && r.Success? && created <= now ==> r.value >= 0
    ensures v.Dummy? && ctime.Some? && ctime.value <= now ==> r.value >= 0
  {
    match v
    case PsUtil =>
      if os.Accepted? then Success(Uptime.PsUtilUptime(now, created)) else Failure(os)
    case Dummy => Success(Uptime.DummyUptime(now, ctime))
  }

  /** For both variants, a later reading of the clock never gives a smaller
      uptime. */
  lemma ProcessUptimeMonotone(v: Variant, now: real, later: real, created: real, ctime: Option<real>, os: OsOutcome)
    requires now <= later
    ensures
      var early := ProcessUptime(v, now, created, ctime, os);
      var late := ProcessUptime(v, later, created, ctime, os);
      early.Success? == late.Success? && (early.Success? ==> early.value <= late.value)
  {
  }

  // ---------------------------------------------------------------------------
  // Sequences of calls
  // ---------------------------------------------------------------------------

  /** One mutator call, with the OS outcome it meets. */
  datatype Call = SetAffinityCall(csv: string, os: OsOutcome) | SetNiceCall(level: int, os: OsOutcome)

  function Step(v: Variant, st: ProcState, c: Call): Effect<()>
  {
    match c
    case SetAffinityCall(csv, os) => SetCpuAffinity(v, st, csv, os)
    case SetNiceCall(level, os) => SetNiceness(v, st, level, os)
  }

  /** Performs the calls in order and stops at the first one that raises. The
      log only grows, by at most one warning per call; at most one OS request
      is made per call; a nice level within [0, 20] stays within it; and the
      null variant leaves everything as it was. */
  function Run(v: Variant, st: ProcState, calls: seq<Call>): (e: Effect<()>)
    ensures v.Dummy? ==> Inert(st, e)
    ensures st.warnings <= e.state.warnings
    ensures |e.state.warnings| <= |st.warnings| + |calls|
    ensures |e.requests| <= |calls|
    ensures NiceInRange(st.nice) ==> NiceInRange(e.state.nice)
    decreases |calls|
  {
    if |calls| == 0 then Effect((), st, [], None)
    else
      var first := Step(v, st, calls[0]);
      if first.raised.Some? then first
      else
        var rest := Run(v, first.state, calls[1..]);
        Effect((), rest.state, first.requests + rest.requests, rest.raised)
  }

  /** Whatever mutators are called on the null variant, its niceness stays 0
      and its affinity stays absent. */
  lemma DummyStaysInert(st: ProcState, calls: seq<Call>, os: OsOutcome)
    ensures Niceness(Dummy, Run(Dummy, st, calls).state) == 0
    ensures CpuAffinity(Dummy, Run(Dummy, st, calls).state, os).value.None?
    ensures Run(Dummy, st, calls).state == st
  {
  }

  /** Setting the affinity to the rendering of a core list and reading it back
      yields exactly the cores that list names. */
  lemma SetThenGetAffinity(st: ProcState, cpus: seq<nat>)
    requires |cpus| >= 1
    ensures
      var e := SetCpuAffinity(PsUtil, st, AffinityCsv.Render(cpus), Accepted);
      var got := CpuAffinity(PsUtil, e.state, Accepted).value;
      && e.state.warnings == st.warnings
      && got.Some?
      && forall c :: c in got.value <==> c in cpus
  {
    AffinityCsv.ParseRender(cpus);
  }

  /** Duplicates and order are not kept: after "2,2,0" is accepted the
      affinity reads back as the cores 0 and 2. */
  lemma DuplicatesCollapse(st: ProcState)
    ensures
      var e := SetCpuAffinity(PsUtil, st, "2,2,0", Accepted);
      CpuAffinity(PsUtil, e.state, Accepted).value == Some({0, 2})
  {
    AffinityCsv.ExamplesAccepted();
    assert CoreSet([2, 2, 0]) == {0, 2};
  }

  /** Pinning to core 0 and reading the affinity back gives a list holding 0. */
  lemma PinToCoreZero(st: ProcState)
    ensures
      var e := SetCpuAffinity(PsUtil, st, "0", Accepted);
      var got := CpuAffinity(PsUtil, e.state, Accepted).value;
      got.Some? && 0 in got.value
  {
  }

  /** An accepted affinity setting is idempotent: repeating it leaves the
      state as the first call left it. */
  lemma SetCpuAffinityIdempotent(st: ProcState, csv: string)
    ensures
      var once := SetCpuAffinity(PsUtil, st, csv, Accepted).state;
      AffinityCsv.WellFormed(csv) ==> SetCpuAffinity(PsUtil, once, csv, Accepted).state == once
  {
  }

  /** An accepted nice level is idempotent as well. */
  lemma SetNicenessIdempotent(st: ProcState, n: int)
    requires NiceInRange(n)
    ensures
      var once := SetNiceness(PsUtil, st, n, Accepted).state;
      SetNiceness(PsUtil, once, n, Accepted).state == once
  {
  }

  /** An out-of-range level such as 25 never changes the nice level on either
      variant, whatever the OS would have answered. */
  lemma OutOfRangeNeverRenices(v: Variant, st: ProcState, n: int, os: OsOutcome)
    requires !NiceInRange(n)
    ensures
      var e := SetNiceness(v, st, n, os);
      Niceness(v, e.state) == Niceness(v, st) && e.requests == [] && e.raised.None?
  {
  }

  /** Binding the null variant and setting the affinity to "0,1" logs nothing,
      raises nothing, and the affinity still reads as absent. */
  lemma DummyScenario(st: ProcState, os: OsOutcome)
    ensures
      var v := Bind(false);
      var e := SetCpuAffinity(v, st, "0,1", os);
      && e.state.warnings == st.warnings
      && e.raised.None?
      && CpuAffinity(v, e.state, os).value.None?
  {
  }
}
