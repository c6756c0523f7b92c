/** Values exchanged between the broker and its clients, and the records
    the broker keeps about them. */
module Messages {

  datatype Option<+T> = None | Some(value: T)

  /** An opaque handle for one live connection, issued by the transport. */
  type Conn = nat

  /** What the broker stores per patient connection: `{id, name}`. */
  datatype Patient = Patient(id: string, name: string)

  /** What the broker stores per doctor connection: `{id, name, location}`. */
  datatype Doctor = Doctor(id: string, name: string, location: string)

  /** The single in-flight request. `accepted` and `acceptedBy` are set
      together, so a well-formed record has `accepted == acceptedBy.Some?`. */
  datatype Request = Request(
    patientId: string,
    patientName: string,
    requestId: string,
    description: string,
    location: string,
    accepted: bool,
    acceptedBy: Option<string>)

  /** A parsed inbound message, by its `type` field. A REGISTER carries its
      role as the client sent it; `Unrecognised` is any other `type`. */
  datatype Inbound =
    | Register(role: string, id: string, name: string, location: string)
    | PostRequirement(description: string, location: string)
    | AcceptRequest(requestId: string)
    | Unrecognised(kind: string)

  /** The role named in a REGISTERED reply. */
  datatype Role = PatientRole | DoctorRole

  /** The four ERROR replies, one per fixed message text. */
  datatype ErrorKind =
    | NotRegisteredAsPatient
    | NotRegisteredAsDoctor
    | NoActiveRequest
    | RequestIdMismatch

  /** An outbound message, by its `type` field, without the free-text
      `message` field. */
  datatype Msg =
    | Registered(role: Role)
    | Error(kind: ErrorKind)
    | NewRequest(requestId: string, patientName: string, description: string, location: string)
    | RequestPosted(requestId: string)
    | AcceptanceConfirmed(patientName: string)
    | RequestAccepted(doctorName: string, doctorId: string)
    | RequestAlreadyAccepted(acceptedBy: Option<string>)

  /** One `send` on one connection. */
  datatype Envelope = Envelope(to: Conn, msg: Msg)

  /** Everything that can happen to the broker: a parsed message arriving on
      a connection (with the id the clock would give a request posted now), a
      connection closing, or a scheduled clear of the active request firing. */
  datatype Event =
    | Message(from: Conn, body: Inbound, now: string)
    | Closed(conn: Conn)
    | ClearTimerFired
}
