/** The broker as a pure state machine: the two registries, the request
    slot and the clears still scheduled, what each event does to them, and
    which messages each event sends. The class in module Server implements
    this step by step. */
module BrokerSpec {
  import opened Messages

  /** `patients` and `doctors` are keyed by connection; `active` is the
      request slot (`null` is `None`); `pendingClears` counts the deferred
      clears scheduled and not yet fired. */
  datatype State = State(
    patients: map<Conn, Patient>,
    doctors: map<Conn, Doctor>,
    active: Option<Request>,
    pendingClears: nat)

  /** The state at process start. */
  function Initial(): State {
    State(map[], map[], None, 0)
  }

  /** A well-formed request slot: `accepted` holds exactly when `acceptedBy`
      names a doctor. */
  ghost predicate Inv(s: State) {
    s.active.Some? ==> s.active.value.accepted == s.active.value.acceptedBy.Some?
  }

  /** A deferred clear can only fire once one has been scheduled. */
  predicate Enabled(s: State, e: Event) {
    e.ClearTimerFired? ==> s.pendingClears > 0
  }

  /** What an ACCEPT_REQUEST decides, checked in the source's order. */
  datatype AcceptDecision =
    | NotDoctor
    | NoActive
    | IdMismatch
    | AlreadyAccepted(acceptedBy: Option<string>)
    | Wins(doctor: Doctor, request: Request)

  function Decide(s: State, ws: Conn, requestId: string): (d: AcceptDecision)
    ensures d.NotDoctor? <==> ws !in s.doctors
    ensures d.NoActive? <==> ws in s.doctors && s.active.None?
    ensures d.IdMismatch? <==> ws in s.doctors && s.active.Some? && s.active.value.requestId != requestId
    ensures d.AlreadyAccepted? <==>
      ws in s.doctors && s.active.Some? && s.active.value.requestId == requestId && s.active.value.accepted
    ensures d.AlreadyAccepted? ==> d.acceptedBy == s.active.value.acceptedBy
    ensures d.Wins? <==>
      ws in s.doctors && s.active.Some? && s.active.value.requestId == requestId && !s.active.value.accepted
    ensures d.Wins? ==> d.doctor == s.doctors[ws] && d.request == s.active.value
  {
    if ws !in s.doctors then NotDoctor
    else if s.active.None? then NoActive
    else if s.active.value.requestId != requestId then IdMismatch
    else if s.active.value.accepted then AlreadyAccepted(s.active.value.acceptedBy)
    else Wins(s.doctors[ws], s.active.value)
  }

  /** The single reply a rejected accept sends to its caller. */
  function RejectionReply(d: AcceptDecision): Msg
    requires !d.Wins?
  {
    match d
    case NotDoctor => Error(NotRegisteredAsDoctor)
    case NoActive => Error(NoActiveRequest)
    case IdMismatch => Error(RequestIdMismatch)
    case AlreadyAccepted(name) => RequestAlreadyAccepted(name)
  }

  /** The record a patient's post puts in the slot. */
  function Opened(p: Patient, requestId: string, description: string, location: string): Request {
    Request(p.id, p.name, requestId, description, location, false, None)
  }

  /** The slot after `d` wins `r`: accepted, by `d`'s name. */
  function AcceptedBy(r: Request, d: Doctor): Request {
    r.(accepted := true, acceptedBy := Some(d.name))
  }

  /** Patient connections whose `id` is `patientId`. */
  function PatientConnsOf(patients: map<Conn, Patient>, patientId: string): set<Conn> {
    set c | c in patients && patients[c].id == patientId
  }

  /** Doctor connections whose `id` differs from `doctorId`. */
  function OtherDoctorConns(doctors: map<Conn, Doctor>, doctorId: string): set<Conn> {
    set c | c in doctors && doctors[c].id != doctorId
  }

  /** `sent` is `m` delivered once to each connection of `audience`, in
      some order: the last envelope goes to one of them and the rest is a
      broadcast to the others. */
  predicate Broadcast(sent: seq<Envelope>, audience: set<Conn>, m: Msg)
    decreases |sent|
  {
    if sent == [] then audience == {}
    else
      var last := sent[|sent| - 1];
      && last.msg == m && last.to in audience
      && Broadcast(sent[..|sent| - 1], audience - {last.to}, m)
  }

  /** A broadcast delivers `m` exactly once to each connection of its
      audience and sends nothing else. */
  lemma {:induction false} BroadcastCounts(sent: seq<Envelope>, audience: set<Conn>, m: Msg)
    requires Broadcast(sent, audience, m)
    ensures |sent| == |audience|
    ensures forall e :: multiset(sent)[e] == if e.to in audience && e.msg == m then 1 else 0
  {
    if sent != [] {
      var k := |sent| - 1;
      var last := sent[k];
      BroadcastCounts(sent[..k], audience - {last.to}, m);
      assert sent == sent[..k] + [last];
      assert multiset(sent) == multiset(sent[..k]) + multiset{last};
    }
  }

  /** Sending `m` to one more connection extends a broadcast by one. */
  lemma ExtendBroadcast(sent: seq<Envelope>, audience: set<Conn>, m: Msg, c: Conn)
    requires Broadcast(sent, audience, m) && c !in audience
    ensures Broadcast(sent + [Envelope(c, m)], audience + {c}, m)
  {
    assert (sent + [Envelope(c, m)])[..|sent|] == sent;
    assert audience + {c} - {c} == audience;
  }

  /** `handleRegistration`: a `patient` or `doctor` role (re)binds the
      connection in that registry only; any other role changes nothing. */
  function RegisterNext(s: State, ws: Conn, role: string, id: string, name: string, location: string): State {
    if role == "patient" then s.(patients := s.patients[ws := Patient(id, name)])
    else if role == "doctor" then s.(doctors := s.doctors[ws := Doctor(id, name, location)])
    else s
  }

  function RegisterSends(ws: Conn, role: string): seq<Envelope> {
    if role == "patient" then [Envelope(ws, Registered(PatientRole))]
    else if role == "doctor" then [Envelope(ws, Registered(DoctorRole))]
    else []
  }

  /** `handlePostRequirement`: a registered patient's post replaces the slot
      with a fresh open request whatever it held. */
  function PostNext(s: State, ws: Conn, description: string, location: string, now: string): State {
    if ws !in s.patients then s
    else s.(active := Some(Opened(s.patients[ws], now, description, location)))
  }

  /** A rejected post answers the caller with one ERROR; an accepted one
      sends NEW_REQUEST to every doctor and then REQUEST_POSTED to the caller. */
  ghost predicate PostSends(s: State, ws: Conn, description: string, location: string, now: string,
                            sent: seq<Envelope>) {
    if ws !in s.patients then sent == [Envelope(ws, Error(NotRegisteredAsPatient))]
    else
      var p := s.patients[ws];
      && |sent| == |s.doctors.Keys| + 1
      && Broadcast(sent[..|sent| - 1], s.doctors.Keys, NewRequest(now, p.name, description, location))
      && sent[|sent| - 1] == Envelope(ws, RequestPosted(now))
  }

  /** `handleAcceptRequest`: only a win changes the state; it marks the slot
      accepted and schedules one deferred clear. */
  function AcceptNext(s: State, ws: Conn, requestId: string): State {
    var d := Decide(s, ws, requestId);
    if d.Wins? then s.(active := Some(AcceptedBy(d.request, d.doctor)), pendingClears := s.pendingClears + 1)
    else s
  }

  /** The messages of a win by doctor `d` on connection `ws` of request `r`:
      a confirmation to the caller, then a broadcast to the patient's
      connections, then a broadcast to the doctors with another id. */
  ghost predicate WinSends(patients: map<Conn, Patient>, doctors: map<Conn, Doctor>, ws: Conn,
                           d: Doctor, r: Request, sent: seq<Envelope>) {
    var patientConns := PatientConnsOf(patients, r.patientId);
    var otherDoctors := OtherDoctorConns(doctors, d.id);
    && |sent| == 1 + |patientConns| + |otherDoctors|
    && sent[0] == Envelope(ws, AcceptanceConfirmed(r.patientName))
    && Broadcast(sent[1..1 + |patientConns|], patientConns, RequestAccepted(d.name, d.id))
    && Broadcast(sent[1 + |patientConns|..], otherDoctors, RequestAlreadyAccepted(Some(d.name)))
  }

  /** A rejection answers the caller only; a win sends `WinSends`. */
  ghost predicate AcceptSends(s: State, ws: Conn, requestId: string, sent: seq<Envelope>) {
    var d := Decide(s, ws, requestId);
    if !d.Wins? then sent == [Envelope(ws, RejectionReply(d))]
    else WinSends(s.patients, s.doctors, ws, d.doctor, d.request, sent)
  }

  /** The `close` handler: the connection leaves both registries. */
  function CloseNext(s: State, ws: Conn): State {
    s.(patients := s.patients - {ws}, doctors := s.doctors - {ws})
  }

  /** The deferred clear: the slot becomes empty, whatever it holds by then. */
  function ClearNext(s: State): State
    requires s.pendingClears > 0
  {
    s.(active := None, pendingClears := s.pendingClears - 1)
  }

  /** The new state after `e`: the `type` switch and the other two events. */
  function Next(s: State, e: Event): State
    requires Enabled(s, e)
  {
    match e
    case Message(ws, Register(role, id, name, location), _) => RegisterNext(s, ws, role, id, name, location)
    case Message(ws, PostRequirement(description, location), now) => PostNext(s, ws, description, location, now)
    case Message(ws, AcceptRequest(requestId), _) => AcceptNext(s, ws, requestId)
    case Message(_, Unrecognised(_), _) => s
    case Closed(ws) => CloseNext(s, ws)
    case ClearTimerFired => ClearNext(s)
  }

  /** `sent` is what `e` sends in state `s`, in the order the handlers send it
      (each broadcast in some order of its audience). */
  ghost predicate Sends(s: State, e: Event, sent: seq<Envelope>) {
    match e
    case Message(ws, Register(role, _, _, _), _) => sent == RegisterSends(ws, role)
    case Message(ws, PostRequirement(description, location), now) => PostSends(s, ws, description, location, now, sent)
    case Message(ws, AcceptRequest(requestId), _) => AcceptSends(s, ws, requestId, sent)
    case Message(_, Unrecognised(_), _) => sent == []
    case Closed(_) => sent == []
    case ClearTimerFired => sent == []
  }
}
