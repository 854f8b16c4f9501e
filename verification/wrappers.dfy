/** Small failure-compatible helper used throughout the model. */
module Wrappers {

  /** A value that may be absent: Java's `null`, or an exception that a caller swallows. */
  datatype Option<+T> = None | Some(value: T) {

    /** Returns the value, or `default` when absent. */
    function GetOr(default: T): T {
      match this
      case Some(v) => v
      case None => default
    }
  }
}

/** The fixed-width integer ranges of the Java primitives the exporter handles. */
module JavaTypes {

  /** A Java `byte`: signed, 8 bits. */
  type int8 = x: int | -0x80 <= x < 0x80

  /** A Java `int`: signed, 32 bits. */
  type int32 = x: int | -0x8000_0000 <= x < 0x8000_0000

  /** A Java `long`: signed, 64 bits; timestamps are epoch milliseconds of this type. */
  type int64 = x: int | -0x8000_0000_0000_0000 <= x < 0x8000_0000_0000_0000
}
