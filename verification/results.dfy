/** Failure-carrying results shared by every part of the model.  Each error
    constructor names the exception class the Python program would raise. */
module Results {

  /** The exceptions the modelled code can end up raising. */
  datatype Error =
    | CommunicationError  // a Modbus read got an error reply, so its `registers` were missing
    | ValueError          // `datetime(...)` rejected a calendar field
    | RegisterRange       // a value that does not fit in one 16-bit register was written
    | KeyError            // `dict.pop` of a missing key
    | DecodeError         // the MQTT payload is not a JSON object
    | TimestampError      // `datetime.fromtimestamp` rejected the timestamp

  datatype Result<+T> = Ok(value: T) | Err(error: Error)

  datatype Option<+T> = None | Some(value: T)
}
