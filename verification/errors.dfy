/** The error enum of the `lcu` crate. */
module LcuErrors {
  /** `NotRunning`: no client process was found. `RequestError`: the HTTP
      layer failed to complete a request (refused connection, TLS failure,
      ...). */
  datatype ApiError = NotRunning | RequestError
}

/** The error enum of the command-line tool, with the message each variant
    displays. */
module ChatErrors {
  import opened LcuErrors

  datatype ChatError =
    | Api(api: ApiError)
    | ReqwestError
    | InvalidDataError(what: string)
    | IoError
    | ParseIntError
    | InvalidIndexError

  /** The `Display` text of each variant. The payload of `InvalidDataError`
      does not appear in it. */
  function Message(e: ChatError): string {
    match e
    case Api(_) => "lcu api error"
    case ReqwestError => "reqwest error"
    case InvalidDataError(_) => "lcu api returned invalid data"
    case IoError => "error with terminal input"
    case ParseIntError => "could not parse string as int"
    case InvalidIndexError => "invalid index"
  }

  /** Two errors are of the same variant. */
  predicate SameVariant(e1: ChatError, e2: ChatError) {
    || (e1.Api? && e2.Api?)
    || (e1.ReqwestError? && e2.ReqwestError?)
    || (e1.InvalidDataError? && e2.InvalidDataError?)
    || (e1.IoError? && e2.IoError?)
    || (e1.ParseIntError? && e2.ParseIntError?)
    || (e1.InvalidIndexError? && e2.InvalidIndexError?)
  }

  /** The printed message tells the variant, and nothing more: two errors
      print the same text exactly when they are of the same variant. */
  lemma MessageNamesVariant(e1: ChatError, e2: ChatError)
    ensures Message(e1) == Message(e2) <==> SameVariant(e1, e2)
  {
    var ms := [Message(Api(NotRunning)), Message(ReqwestError), Message(InvalidDataError([])),
               Message(IoError), Message(ParseIntError), Message(InvalidIndexError)];
    assert ms[0][0] == 'l' && ms[1][0] == 'r' && ms[2][0] == 'l' && ms[3][0] == 'e' && ms[4][0] == 'c' && ms[5][0] == 'i';
    assert |ms[0]| != |ms[2]|;
  }
}
