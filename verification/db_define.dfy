/** Shared definitions of the storage wrapper: the constants of
    NetService/src/DBDefine.h, the fixed-width integer types the bind
    overloads accept, and the Blob record. */
module DBDefine {

  /** The row cursor that `cleanup` and `fetchFirst` install. */
  const DEFAULT_ROW_CURSOR: nat := 1

  /** The position `resetParamBindPos` installs. Its body lives in
      DBCommand.h, which is not part of this model, so the value is left
      open and no contract depends on it. */
  const PARAM_BIND_START: nat

  /** Fixed-width integers of the bind overloads (their typedefs come from
      Common.h, which is not part of this model; the widths follow the names). */
  newtype Int32 = x: int | -0x8000_0000 <= x < 0x8000_0000
  newtype Int64 = x: int | -0x8000_0000_0000_0000 <= x < 0x8000_0000_0000_0000
  newtype UInt32 = x: int | 0 <= x < 0x1_0000_0000
  newtype UInt64 = x: int | 0 <= x < 0x1_0000_0000_0000_0000

  /** A byte buffer and the size the caller declares for it. */
  datatype Blob = Blob(bytes: seq<bv8>, size: int)
}
