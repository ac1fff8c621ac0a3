/** The host call that runs a kontract: from encoded storage to encoded storage or an error. */
module Executor {
  import opened Primitives
  import opened Scale
  import opened Host

  datatype ExecutionErrors =
    | IncorrecBinary
    | ImpossibleCreateInstance
    | MainEntryPointNotDefined
    | WasmPanic
    | ImpossibleAddFuel
    | ImpossibleCreateEngine
    | ImpossibleCreateHostFunction
    | ImpossibleDecodingKontractStorage
    | UnexpectedBehavoiur
    | OutOfFuel
    | OutOfReads
    | OutOfWrites

  /** What wasmtime makes of a binary. */
  datatype Module = Rejected | NotInstantiable | WithoutMain | Loaded(guest: Guest)

  type Loader = Bytes -> Module

  function MapTrap(trap: Trap): ExecutionErrors {
    match trap
    case OutOfFuel => ExecutionErrors.OutOfFuel
    case ExceededReads => OutOfReads
    case ExceededWrites => OutOfWrites
    case _ => WasmPanic
  }

  /** A panic of the host, as opposed to an error, gives the pallet nothing to return. */
  datatype Execution = Done(storage: Store) | Failed(error: ExecutionErrors) | Crashed

  /** The execution on decoded storage. */
  function Execute(hash: Bytes -> Bytes, load: Loader, code: Bytes, storage: Store,
                   fuel: u32, maxRead: u32, maxWrite: u32): Execution {
    match load(code)
    case Rejected => Failed(IncorrecBinary)
    case NotInstantiable => Failed(ImpossibleCreateInstance)
    case WithoutMain => Failed(MainEntryPointNotDefined)
    case Loaded(guest) =>
      match Run(hash, guest.step, guest.control, Start(guest, storage, fuel, maxRead, maxWrite))
      case Completed(m) => if Encodable(m) then Done(m) else Crashed
      case Trapped(trap) => Failed(MapTrap(trap))
      case Aborted => Crashed
  }

  datatype RawExecution = RawDone(raw: Bytes) | RawFailed(error: ExecutionErrors) | RawCrashed

  method ExecuteCode(hash: Bytes -> Bytes, load: Loader, code: Bytes, raw: Bytes,
                     fuel: u32, maxRead: u32, maxWrite: u32)
    returns (r: RawExecution)
    ensures load(code).Rejected? ==> r == RawFailed(IncorrecBinary)
    ensures !load(code).Rejected? && Decode(raw, UNBOUNDED).None? ==> r == RawFailed(ImpossibleDecodingKontractStorage)
    ensures load(code).NotInstantiable? && Decode(raw, UNBOUNDED).Some? ==> r == RawFailed(ImpossibleCreateInstance)
    ensures load(code).WithoutMain? && Decode(raw, UNBOUNDED).Some? ==> r == RawFailed(MainEntryPointNotDefined)
    ensures !load(code).Rejected? && Decode(raw, UNBOUNDED).Some? ==>
              match Execute(hash, load, code, Decode(raw, UNBOUNDED).value.0, fuel, maxRead, maxWrite)
              case Done(m) => Encodable(m) && r == RawDone(Encode(m))
              case Failed(e) => r == RawFailed(e)
              case Crashed => r == RawCrashed
  {
    var compiled := load(code);
    if compiled.Rejected? {
      return RawFailed(IncorrecBinary);
    }
    var storage := Decode(raw, UNBOUNDED);
    if storage == None {
      return RawFailed(ImpossibleDecodingKontractStorage);
    }
    match compiled {
      case NotInstantiable => return RawFailed(ImpossibleCreateInstance);
      case WithoutMain => return RawFailed(MainEntryPointNotDefined);
      case Loaded(guest) =>
        var store := new KontractStore(hash, storage.value.0, guest.memory, fuel, maxRead, maxWrite);
        var result := store.CallMain(guest.control, guest.step);
        match result {
          case Trapped(trap) => return RawFailed(MapTrap(trap));
          case Aborted => return RawCrashed;
          case Completed(_) =>
            if !Encodable(store.storage) {
              return RawCrashed;
            }
            return RawDone(Encode(store.storage));
        }
    }
  }
}
