/**
 * dataloader.go: a loader pairs a decoder for a stored record with the
 * callback that takes the decoded record. The Go decoder fills a shared
 * destination object that the callback then reads; here the decoder returns
 * the decoded value and the callback receives it.
 */
module DataLoaders {
  import opened Types
  import opened Errors

  datatype DataLoader<!T> = DataLoader(unmarshaler: Bytes -> Result<T>, loader: T -> Option<Error>)

  /** Load: decode, and only on success hand the value to the callback. */
  function Load<T>(l: DataLoader<T>, data: Bytes): (err: Option<Error>)
    ensures l.unmarshaler(data).Err? ==> err == Some(l.unmarshaler(data).error)
    ensures l.unmarshaler(data).Ok? ==> err == l.loader(l.unmarshaler(data).value)
  {
    match l.unmarshaler(data)
    case Err(e) => Some(e)
    case Ok(v) => l.loader(v)
  }

  /** A failed decode decides the outcome whatever the callback would do. */
  lemma LoadIgnoresLoaderOnFailure<T>(u: Bytes -> Result<T>, c1: T -> Option<Error>,
                                      c2: T -> Option<Error>, data: Bytes)
    requires u(data).Err?
    ensures Load(DataLoader(u, c1), data) == Load(DataLoader(u, c2), data) == Some(u(data).error)
  {
  }

  /** NewDataLoader keeps both functions as they are. */
  function NewDataLoader<T>(unmarshaler: Bytes -> Result<T>, callback: T -> Option<Error>): (l: DataLoader<T>)
    ensures l.unmarshaler == unmarshaler && l.loader == callback
  {
    DataLoader(unmarshaler, callback)
  }

  /**
   * A loader built by NewDataLoader loads a record into its callback exactly
   * when the decoder accepts the record, and then with the decoded value.
   */
  lemma NewDataLoaderLoads<T>(unmarshaler: Bytes -> Result<T>, callback: T -> Option<Error>, data: Bytes)
    ensures unmarshaler(data).Ok? ==> Load(NewDataLoader(unmarshaler, callback), data) == callback(unmarshaler(data).value)
    ensures unmarshaler(data).Err? ==> Load(NewDataLoader(unmarshaler, callback), data) == Some(unmarshaler(data).error)
  {
  }

  /**
   * The decoders NewTypedDataLoader can choose from: proto.Unmarshal, which
   * exists only when the destination is a proto.Message, and json.Unmarshal.
   */
  datatype Decoders<!T> = Decoders(proto: Option<Bytes -> Result<T>>, json: Bytes -> Result<T>)

  /**
   * NewTypedDataLoader: a nil destination is refused first; "proto" and
   * "gom" choose the protobuf decoder, asserting that the destination is a
   * proto.Message, which panics when it is not; "json" chooses the JSON
   * decoder, and any other name is an unknown-entity error naming the loader
   * type.
   */
  function NewTypedDataLoader<T>(name: string, storage: Option<Decoders<T>>,
                                 callback: T -> Option<Error>): (r: Result<DataLoader<T>>)
    ensures storage.None? ==> r == Err(NilStorage)
    ensures storage.Some? && (name == "proto" || name == "gom") && storage.value.proto.None? ==>
      r == Err(FailedTypeAssertion)
    ensures storage.Some? && (name == "proto" || name == "gom") && storage.value.proto.Some? ==>
      r.Ok? && r.value.unmarshaler == storage.value.proto.value && r.value.loader == callback
    ensures storage.Some? && name == "json" ==>
      r.Ok? && r.value.unmarshaler == storage.value.json && r.value.loader == callback
    ensures storage.Some? && name != "proto" && name != "gom" && name != "json" ==>
      r == Err(Unknown(LoaderType(name)))
  {
    match storage
    case None => Err(NilStorage)
    case Some(d) =>
      if name == "proto" || name == "gom" then
        match d.proto
        case None => Err(FailedTypeAssertion)
        case Some(u) => Ok(NewDataLoader(u, callback))
      else if name == "json" then Ok(NewDataLoader(d.json, callback))
      else Err(Unknown(LoaderType(name)))
  }

  /**
   * The loader types that succeed are exactly the three names for a
   * proto.Message destination, and only "json" for any other.
   */
  lemma TypedLoaderNames<T>(name: string, d: Decoders<T>, callback: T -> Option<Error>)
    ensures d.proto.Some? ==> (NewTypedDataLoader(name, Some(d), callback).Ok? <==> name in {"proto", "gom", "json"})
    ensures d.proto.None? ==> (NewTypedDataLoader(name, Some(d), callback).Ok? <==> name == "json")
  {
  }
}
