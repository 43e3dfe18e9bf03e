/** Error values and the Option/Result wrappers shared by every module.

    Go returns errors as values; `fmt.Errorf("context: %w", err)` becomes
    `Wrapped(context, err)` so that the stage that failed stays visible. */
module Common {

  datatype Option<T> = None | Some(value: T)

  datatype Error =
    // the sentinel errors of internal/common/error.go
    | PageNotFound
    | FileNotFound
    | IndexingProcessHasAlreadyStarted
    | NoDownloadsFound
    // replies of the key-value store
    | StoreFailure          // the round trip itself failed (network, server down)
    | NilReply              // redis.Nil: a read found no value
    | WrongType             // the key holds a value of another type
    | NotAnInteger          // HINCRBY on a field that is not a canonical integer
    | IncrementOverflow     // HINCRBY past the signed 64-bit range
    // errors built by the program itself
    | Message(text: string)                 // fmt.Errorf / errors.New without a cause
    | Wrapped(context: string, cause: Error) // fmt.Errorf("context: %w", cause)
    | Panic(reason: string)                 // a Go run-time panic, surfaced as a value

  datatype Result<T> = Ok(value: T) | Err(error: Error)

  /** One entry of a directory listing (os.DirEntry): its name and whether
      it is a directory. */
  datatype DirEntry = DirEntry(name: string, isDir: bool)

  /** The order in which Go's `range` visits the keys of a map: every key
      exactly once, in an order the runtime chooses. */
  method Enumerate<K>(keys: set<K>) returns (order: seq<K>)
    ensures |order| == |keys|
    ensures forall k :: k in keys <==> k in order
    ensures forall i, j :: 0 <= i < j < |order| ==> order[i] != order[j]
  {
    order := [];
    var pending := keys;
    while pending != {}
      invariant pending <= keys
      invariant |order| == |keys| - |pending|
      invariant forall k :: k in order <==> k in keys && k !in pending
      invariant forall i, j :: 0 <= i < j < |order| ==> order[i] != order[j]
      decreases |pending|
    {
      var k :| k in pending;
      order := order + [k];
      pending := pending - {k};
    }
  }
}
