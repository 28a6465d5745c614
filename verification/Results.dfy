/** Optional values and results that may carry the failure the program would throw. */
module Results {

  datatype Option<+T> = None | Some(value: T)

  /** The exceptions of the program, by the reason they are thrown for. */
  datatype Failure =
    | RangeError            // Node: value or offset outside a fixed-width field
    | TypeMismatch          // ruled out by the TypeScript types of the callers
    | NotConnected          // DisconnectedError('Not connected to broker')
    | RequestTooLarge       // KafkaError, size above maxRequestSize
    | ConnectionClosed      // DisconnectedError('Connection closed')
    | BrokerClosed          // DisconnectedError('Broker closed connection')
    | TimedOut              // TimeoutError of the request sweep
    | WriteFailed           // error passed to the socket's write callback
    | UnknownTopic          // KafkaError, topic not in the metadata
    | UnknownPartition      // KafkaError, partition not in the topic
    | NoLeader              // LeaderNotAvailableError
    | NoConnection          // DisconnectedError(`No connection to node`)
    | Other(code: int)      // any other error the network may raise

  datatype Result<+T> = Ok(value: T) | Err(error: Failure) {
    predicate IsFailure() {
      Err?
    }

    function PropagateFailure<U>(): Result<U>
      requires Err?
    {
      Err(error)
    }

    function Extract(): T
      requires Ok?
    {
      value
    }
  }

  /** For loops over the keys of a table, which take the keys in any order. */
  lemma Inhabited(s: set<int>)
    requires s != {}
    ensures exists x :: x in s
  {
    assert (forall x :: x !in s) ==> s == {};
  }
}
