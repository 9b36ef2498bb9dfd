/** The process-wide flags of libgcrypt's control dispatcher
    `_gcry_vcontrol`: the debug flag word, the `any_init_done` flag of
    `global_init`, the `init_finished` flag and `no_secure_memory`.

    The commands that only delegate to the secure-memory module, the
    memory guard or the logger change none of these flags and are no-ops
    here. `global_init` also initialises the prime, secure-memory and MPI
    modules; those calls are not part of this model and are taken to
    succeed. */
module GlobalControl {

  import opened Machine

  /** The error codes `_gcry_vcontrol` returns. */
  datatype ErrorCode = NoError | General | InvalidOperation

  /** The commands of the dispatcher's switch, with their arguments, and
      every other command, which the switch does not list. `InitSecmem`
      carries, besides its size, whether the secure-memory module then
      reports its pool as not locked in memory. */
  datatype Command =
    | EnableMGuard
    | DumpMemoryStats
    | DumpSecmemStats
    | DropPrivs
    | DisableSecmem
    | InitSecmem(size: uint32, notLocked: bool)
    | TermSecmem
    | DisableSecmemWarn
    | SuspendSecmemWarn
    | ResumeSecmemWarn
    | SetVerbosity(level: int32)
    | SetDebugFlags(mask: Flags)
    | ClearDebugFlags(mask: Flags)
    | DisableInternalLocking
    | AnyInitializationP
    | InitializationFinishedP
    | InitializationFinished
    | SetThreadCbs
    | DisableLockedSecmem
    | DisablePrivDrop
    | Unlisted(code: int)

  /** A bit position of a 32-bit word. */
  type Bit = i: int | 0 <= i < 32

  /** A 32-bit flag word, as the set of positions of its one-bits: `|`
      is union, `& ~` is difference and `&` is intersection. */
  type Flags = set<Bit>

  /** The four flags, as one value. */
  datatype ControlState = ControlState(
    debugFlags: Flags,
    anyInitDone: bool,
    initFinished: bool,
    noSecureMemory: bool)

  /** Static storage starts out zero. */
  const INITIAL_STATE: ControlState := ControlState({}, false, false, false)

  /** `global_init`: the first call sets `any_init_done`; later calls
      return at once. */
  function GlobalInit(st: ControlState): (st': ControlState)
    ensures st'.anyInitDone
    ensures st' == st.(anyInitDone := true)
  {
    if st.anyInitDone then st else st.(anyInitDone := true)
  }

  /** One call of `_gcry_vcontrol`: the new flags and the code returned. */
  function Step(st: ControlState, cmd: Command): (ControlState, ErrorCode)
  {
    match cmd
    case EnableMGuard => (st, NoError)
    case DumpMemoryStats => (st, NoError)
    case DumpSecmemStats => (st, NoError)
    case DropPrivs => (GlobalInit(st), NoError)
    case DisableSecmem => (GlobalInit(st).(noSecureMemory := true), NoError)
    case InitSecmem(_, notLocked) => (GlobalInit(st), if notLocked then General else NoError)
    case TermSecmem => (GlobalInit(st), NoError)
    case DisableSecmemWarn => (st, NoError)
    case SuspendSecmemWarn => (st, NoError)
    case ResumeSecmemWarn => (st, NoError)
    case SetVerbosity(_) => (st, NoError)
    case SetDebugFlags(mask) => (st.(debugFlags := st.debugFlags + mask), NoError)
    case ClearDebugFlags(mask) => (st.(debugFlags := st.debugFlags - mask), NoError)
    case DisableInternalLocking => (GlobalInit(st), NoError)
    case AnyInitializationP => (st, if st.anyInitDone then General else NoError)
    case InitializationFinishedP => (st, if st.initFinished then General else NoError)
    case InitializationFinished =>
      if !st.initFinished then (GlobalInit(st).(initFinished := true), NoError) else (st, NoError)
    case SetThreadCbs => (GlobalInit(st), NoError)
    case DisableLockedSecmem => (st, NoError)
    case DisablePrivDrop => (st, NoError)
    case Unlisted(_) => (st, InvalidOperation)
  }

  /** `_gcry_get_debug_flag`: the set flags among those of `mask`. */
  function DebugFlag(st: ControlState, mask: Flags): Flags
  {
    st.debugFlags * mask
  }

  /** The library's static state and the dispatcher that updates it. */
  class Library {
    var debugFlags: Flags
    var anyInitDone: bool
    var initFinished: bool
    var noSecureMemory: bool

    function State(): ControlState
      reads this
    {
      ControlState(debugFlags, anyInitDone, initFinished, noSecureMemory)
    }

    constructor ()
      ensures State() == INITIAL_STATE
    {
      debugFlags, anyInitDone, initFinished, noSecureMemory := {}, false, false, false;
    }

    /** `global_init` */
    method Init()
      modifies this
      ensures State() == GlobalInit(old(State()))
    {
      if anyInitDone {
        return;
      }
      anyInitDone := true;
    }

    /** `_gcry_vcontrol` */
    method Control(cmd: Command) returns (rc: ErrorCode)
      modifies this
      ensures (State(), rc) == Step(old(State()), cmd)
    {
      rc := NoError;
      match cmd {
        case EnableMGuard =>
        case DumpMemoryStats =>
        case DumpSecmemStats =>
        case DropPrivs =>
          Init();
        case DisableSecmem =>
          Init();
          noSecureMemory := true;
        case InitSecmem(_, notLocked) =>
          Init();
          if notLocked {
            rc := General;
          }
        case TermSecmem =>
          Init();
        case DisableSecmemWarn =>
        case SuspendSecmemWarn =>
        case ResumeSecmemWarn =>
        case SetVerbosity(_) =>
        case SetDebugFlags(mask) =>
          debugFlags := debugFlags + mask;
        case ClearDebugFlags(mask) =>
          debugFlags := debugFlags - mask;
        case DisableInternalLocking =>
          Init();
        case AnyInitializationP =>
          if anyInitDone {
            rc := General;
          }
        case InitializationFinishedP =>
          if initFinished {
            rc := General;
          }
        case InitializationFinished =>
          if !initFinished {
            Init();
            initFinished := true;
          }
        case SetThreadCbs =>
          Init();
        case DisableLockedSecmem =>
        case DisablePrivDrop =>
        case Unlisted(_) =>
          rc := InvalidOperation;
      }
    }

    /** `_gcry_get_debug_flag`: a bit is reported exactly when it is both
        set and asked for. */
    function GetDebugFlag(mask: Flags): (r: Flags)
      reads this
      ensures forall b: Bit :: b in r <==> b in debugFlags && b in mask
      ensures r == DebugFlag(State(), mask)
    {
      debugFlags * mask
    }
  }

  /** `global_init` is idempotent. */
  lemma GlobalInitIdempotent(st: ControlState)
    ensures GlobalInit(GlobalInit(st)) == GlobalInit(st)
    ensures st.anyInitDone ==> GlobalInit(st) == st
  {
  }

  /** Setting debug flags turns on exactly the mask bits and keeps the
      others; the query then reports every bit of the mask. */
  lemma DebugFlagsSet(st: ControlState, mask: Flags)
    ensures forall b: Bit :: b in Step(st, SetDebugFlags(mask)).0.debugFlags <==> b in st.debugFlags || b in mask
    ensures DebugFlag(Step(st, SetDebugFlags(mask)).0, mask) == mask
    ensures Step(st, SetDebugFlags(mask)).0.(debugFlags := st.debugFlags) == st
  {
  }

  /** Clearing debug flags turns off exactly the mask bits and keeps the
      others; the query then reports none of them. */
  lemma DebugFlagsClear(st: ControlState, mask: Flags)
    ensures forall b: Bit :: b in Step(st, ClearDebugFlags(mask)).0.debugFlags <==> b in st.debugFlags && b !in mask
    ensures DebugFlag(Step(st, ClearDebugFlags(mask)).0, mask) == {}
    ensures Step(st, ClearDebugFlags(mask)).0.(debugFlags := st.debugFlags) == st
  {
  }

  /** The two queries report their flag and change nothing. */
  lemma QueriesReport(st: ControlState)
    ensures Step(st, AnyInitializationP) == (st, if st.anyInitDone then General else NoError)
    ensures Step(st, InitializationFinishedP) == (st, if st.initFinished then General else NoError)
  {
  }

  /** `INITIALIZATION_FINISHED` runs `global_init` and sets its flag once;
      afterwards the query reports it and repeating the command changes
      nothing. */
  lemma InitializationFinishedOnce(st: ControlState)
    ensures var (st1, rc1) := Step(st, InitializationFinished);
            && rc1 == NoError
            && st1.initFinished && st1.anyInitDone == (st.anyInitDone || !st.initFinished)
            && Step(st1, InitializationFinished) == (st1, NoError)
            && Step(st1, InitializationFinishedP) == (st1, General)
  {
  }

  /** Only an unlisted command yields `GPG_ERR_INV_OP`, and it changes
      nothing. `GPG_ERR_GENERAL` comes only from the two queries and from a
      secure-memory pool that is not locked. */
  lemma ResultCodes(st: ControlState, cmd: Command)
    ensures Step(st, cmd).1 == InvalidOperation <==> cmd.Unlisted?
    ensures cmd.Unlisted? ==> Step(st, cmd).0 == st
    ensures Step(st, cmd).1 == General <==>
              || (cmd.InitSecmem? && cmd.notLocked)
              || (cmd == AnyInitializationP && st.anyInitDone)
              || (cmd == InitializationFinishedP && st.initFinished)
  {
  }

  /** Every command leaves `any_init_done` set once it is set: no command
      undoes initialisation. */
  lemma InitializationIsPermanent(st: ControlState, cmd: Command)
    ensures st.anyInitDone ==> Step(st, cmd).0.anyInitDone
    ensures st.initFinished ==> Step(st, cmd).0.initFinished
  {
  }
}
