/** Failure-compatible result type for the loader.

    The C# loader signals every problem by throwing; the exception is caught,
    logged and turned into a `null` return. Here each throw becomes an `Err`
    value. The error tag only names the check that fired: the source does not
    distinguish between them once the load has failed. */
module Results {

  /** The check that stopped a load. */
  datatype LoadError =
    | BadHeaderTag             // the first four bytes are not "MThd"
    | TruncatedHeader          // fewer than 14 header bytes
    | NoTracks                 // track count <= 0
    | NullTrackRecord          // a track record dereferenced before it was created
    | BadTrackTag              // a track chunk does not start with "MTrk"
    | TruncatedTrackHeader     // fewer than 8 bytes of track tag and length
    | NegativeTrackLength      // the signed 32-bit track length is negative
    | UnterminatedDelta        // the payload ends inside a delta time
    | MissingByte              // an event reads past the end of the payload
    | ChannelModeValue         // control change with a first data byte >= 0x80
    | MetaLength(metaType: int)
    | SequencerSpecificLength  // the inner length of meta 7F is neither 9 nor 11
    | UnknownMeta(metaType: int)

  datatype Result<T> = Ok(value: T) | Err(error: LoadError) {

    predicate IsFailure() {
      Err?
    }

    function PropagateFailure<U>(): Result<U>
      requires Err?
    {
      Err(error)
    }

    function Extract(): T
      requires Ok?
    {
      value
    }
  }

  datatype Option<T> = None | Some(value: T)
}
