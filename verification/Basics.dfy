/** Shared vocabulary: optional values, results, 32-bit words and the status codes of the
    PSA interface together with their register encoding. */
module Basics {

  datatype Option<+T> = None | Some(value: T)

  datatype Result<+T, +E> = Ok(value: T) | Err(error: E)

  const TWO_32: int := 0x1_0000_0000
  const USIZE_MAX: int := 0xFFFF_FFFF

  /** A 32-bit machine word; addresses and lengths are words as well. */
  type Word = n: int | 0 <= n < TWO_32

  type Byte = n: int | 0 <= n < 256

  /** Reduction to 32 bits, as in a release build. */
  function Wrap(n: int): Word {
    n % TWO_32
  }

  /** Clears the five low bits of a word. */
  function Floor32(n: int): int {
    n - n % 32
  }

  /** The last element of a non-empty sequence. */
  function Last<T>(s: seq<T>): T
    requires s != []
  {
    s[|s| - 1]
  }

  datatype StatusCode =
    | Success
    | ProgrammerError
    | ConnectionRefused
    | ConnectionBusy
    | GenericError
    | NotPermitted
    | NotSupported
    | InvalidArgument
    | InvalidHandle
    | BadState
    | BufferTooSmall
    | AlreadyExists
    | DoesNotExist
    | InsufficientMemory
    | InsufficientStorage
    | InsufficientData
    | ServiceFailure
    | CommunicationFailure
    | StorageFailure
    | HardwareFailure
    | InvalidSignature
    | CorruptionDetected
    | DataCorrupt
    | DataInvalid
    | OperationIncomplete

  /** The integer that stands for a status in a register before it is cast to unsigned. */
  function StatusValue(s: StatusCode): int {
    match s
    case Success => 0
    case ProgrammerError => -129
    case ConnectionRefused => -130
    case ConnectionBusy => -131
    case GenericError => -132
    case NotPermitted => -133
    case NotSupported => -134
    case InvalidArgument => -135
    case InvalidHandle => -136
    case BadState => -137
    case BufferTooSmall => -138
    case AlreadyExists => -139
    case DoesNotExist => -140
    case InsufficientMemory => -141
    case InsufficientStorage => -142
    case InsufficientData => -143
    case ServiceFailure => -144
    case CommunicationFailure => -145
    case StorageFailure => -146
    case HardwareFailure => -147
    case InvalidSignature => -149
    case CorruptionDetected => -151
    case DataCorrupt => -152
    case DataInvalid => -153
    case OperationIncomplete => -248
  }

  function StatusWord(s: StatusCode): Word {
    Wrap(StatusValue(s))
  }

  /** The status a raw register stands for, if any. */
  function StatusFromWord(raw: Word): Option<StatusCode> {
    var v := if raw < 0x8000_0000 then raw else raw - TWO_32;
    if v == 0 then Some(Success)
    else if v == -129 then Some(ProgrammerError)
    else if v == -130 then Some(ConnectionRefused)
    else if v == -131 then Some(ConnectionBusy)
    else if v == -132 then Some(GenericError)
    else if v == -133 then Some(NotPermitted)
    else if v == -134 then Some(NotSupported)
    else if v == -135 then Some(InvalidArgument)
    else if v == -136 then Some(InvalidHandle)
    else if v == -137 then Some(BadState)
    else if v == -138 then Some(BufferTooSmall)
    else if v == -139 then Some(AlreadyExists)
    else if v == -140 then Some(DoesNotExist)
    else if v == -141 then Some(InsufficientMemory)
    else if v == -142 then Some(InsufficientStorage)
    else if v == -143 then Some(InsufficientData)
    else if v == -144 then Some(ServiceFailure)
    else if v == -145 then Some(CommunicationFailure)
    else if v == -146 then Some(StorageFailure)
    else if v == -147 then Some(HardwareFailure)
    else if v == -149 then Some(InvalidSignature)
    else if v == -151 then Some(CorruptionDetected)
    else if v == -152 then Some(DataCorrupt)
    else if v == -153 then Some(DataInvalid)
    else if v == -248 then Some(OperationIncomplete)
    else None
  }

  /** What a raw status register means to the caller. */
  function CheckSvcResult(raw: Word): Result<(), StatusCode> {
    match StatusFromWord(raw)
    case Some(Success) => Ok(())
    case Some(s) => Err(s)
    case None => Err(CommunicationFailure)
  }

  /** A status survives its trip through a register. */
  lemma StatusRoundTrip(s: StatusCode)
    ensures StatusFromWord(StatusWord(s)) == Some(s)
  {
    match s {
      case Success =>
      case _ => assert StatusWord(s) == StatusValue(s) + TWO_32;
    }
  }

  /** What a raw status register says, for every word: zero is success, a status word its status, and
      anything else a communication failure. */
  lemma EveryStatusWord(raw: Word)
    ensures CheckSvcResult(raw).Ok? <==> raw == 0
    ensures forall s :: s != Success && raw == StatusWord(s) ==> CheckSvcResult(raw) == Err(s)
    ensures (forall s :: raw != StatusWord(s)) ==> CheckSvcResult(raw) == Err(CommunicationFailure)
  {
    forall s | raw == StatusWord(s) ensures StatusFromWord(raw) == Some(s) {
      StatusRoundTrip(s);
    }
    if StatusFromWord(raw).Some? {
      assert raw == StatusWord(StatusFromWord(raw).value) by { StatusIsItsWord(raw); }
    }
  }

  lemma StatusIsItsWord(raw: Word)
    requires StatusFromWord(raw).Some?
    ensures StatusWord(StatusFromWord(raw).value) == raw
  {
    var v := if raw < 0x8000_0000 then raw else raw - TWO_32;
    assert v == StatusValue(StatusFromWord(raw).value);
  }
}
