/** The broker's module-level state and its event handlers, updated in place
    as the handlers do. Every send is appended to `outbox`. */
module Server {
  import opened Messages
  import opened BrokerSpec

  class Broker {
    var patients: map<Conn, Patient>
    var doctors: map<Conn, Doctor>
    var activeRequest: Option<Request>
    /** Deferred clears scheduled by `setTimeout` and not yet fired. */
    var pendingClears: nat
    /** Every message sent so far, in order. */
    var outbox: seq<Envelope>

    /** The state as the specification sees it (everything but the outbox). */
    function Snapshot(): State
      reads this
    {
      State(patients, doctors, activeRequest, pendingClears)
    }

    ghost predicate Valid()
      reads this
    {
      Inv(Snapshot())
    }

    constructor ()
      ensures Valid() && Snapshot() == Initial() && outbox == []
    {
      patients := map[];
      doctors := map[];
      activeRequest := None;
      pendingClears := 0;
      outbox := [];
    }

    method HandleRegistration(ws: Conn, role: string, id: string, name: string, location: string)
      requires Valid()
      modifies this
      ensures Valid()
      ensures Snapshot() == RegisterNext(old(Snapshot()), ws, role, id, name, location)
      ensures outbox == old(outbox) + RegisterSends(ws, role)
    {
      if role == "patient" {
        patients := patients[ws := Patient(id, name)];
        outbox := outbox + [Envelope(ws, Registered(PatientRole))];
      } else if role == "doctor" {
        doctors := doctors[ws := Doctor(id, name, location)];
        outbox := outbox + [Envelope(ws, Registered(DoctorRole))];
      }
    }

    method HandlePostRequirement(ws: Conn, description: string, location: string, now: string)
      requires Valid()
      modifies this
      ensures Valid()
      ensures Snapshot() == PostNext(old(Snapshot()), ws, description, location, now)
      ensures |outbox| >= |old(outbox)| && outbox[..|old(outbox)|] == old(outbox)
      ensures PostSends(old(Snapshot()), ws, description, location, now, outbox[|old(outbox)|..])
    {
      if ws !in patients {
        outbox := outbox + [Envelope(ws, Error(NotRegisteredAsPatient))];
        return;
      }
      var patient := patients[ws];
      var requestId := now;
      activeRequest := Some(Request(patient.id, patient.name, requestId, description, location, false, None));

      // Broadcast to all doctors.
      var notices := NotifyAll(doctors, NewRequest(requestId, patient.name, description, location));
      BroadcastCounts(notices, doctors.Keys, NewRequest(requestId, patient.name, description, location));
      outbox := outbox + notices;

      // Confirm to the patient.
      outbox := outbox + [Envelope(ws, RequestPosted(requestId))];
      assert outbox[|old(outbox)|..] == notices + [Envelope(ws, RequestPosted(requestId))];
    }

    method HandleAcceptRequest(ws: Conn, requestId: string)
      requires Valid()
      modifies this
      ensures Valid()
      ensures Snapshot() == AcceptNext(old(Snapshot()), ws, requestId)
      ensures |outbox| >= |old(outbox)| && outbox[..|old(outbox)|] == old(outbox)
      ensures AcceptSends(old(Snapshot()), ws, requestId, outbox[|old(outbox)|..])
    {
      if ws !in doctors {
        outbox := outbox + [Envelope(ws, Error(NotRegisteredAsDoctor))];
        return;
      }
      var doctor := doctors[ws];
      if activeRequest.None? {
        outbox := outbox + [Envelope(ws, Error(NoActiveRequest))];
        return;
      }
      if activeRequest.value.requestId != requestId {
        outbox := outbox + [Envelope(ws, Error(RequestIdMismatch))];
        return;
      }
      if activeRequest.value.accepted {
        outbox := outbox + [Envelope(ws, RequestAlreadyAccepted(activeRequest.value.acceptedBy))];
        return;
      }

      AcceptAndNotify(ws);
    }

    /** The winning path of `handleAcceptRequest`: the caller is a doctor and
        the active request is still open. */
    method AcceptAndNotify(ws: Conn)
      requires Valid() && ws in doctors && activeRequest.Some? && !activeRequest.value.accepted
      modifies this
      ensures Valid()
      ensures Snapshot() == AcceptNext(old(Snapshot()), ws, old(activeRequest.value.requestId))
      ensures |outbox| >= |old(outbox)| && outbox[..|old(outbox)|] == old(outbox)
      ensures AcceptSends(old(Snapshot()), ws, old(activeRequest.value.requestId), outbox[|old(outbox)|..])
    {
      var doctor := doctors[ws];

      // Accept the request.
      activeRequest := Some(activeRequest.value.(accepted := true));
      activeRequest := Some(activeRequest.value.(acceptedBy := Some(doctor.name)));

      // Notify the accepting doctor, the patient and the other doctors.
      var sent := AcceptanceReplies(patients, doctors, ws, doctor, activeRequest.value);
      outbox := outbox + sent;

      // Schedule the deferred clear.
      pendingClears := pendingClears + 1;

      assert outbox[|old(outbox)|..] == sent;
    }

    /** The `close` handler. */
    method HandleClose(ws: Conn)
      requires Valid()
      modifies this
      ensures Valid()
      ensures Snapshot() == CloseNext(old(Snapshot()), ws)
      ensures outbox == old(outbox)
    {
      patients := patients - {ws};
      doctors := doctors - {ws};
    }

    /** The `setTimeout` callback scheduled by a successful accept. */
    method ClearTimerFires()
      requires Valid() && pendingClears > 0
      modifies this
      ensures Valid()
      ensures Snapshot() == ClearNext(old(Snapshot()))
      ensures outbox == old(outbox)
    {
      activeRequest := None;
      pendingClears := pendingClears - 1;
    }

    /** The `type` switch of the message handler. */
    method HandleMessage(ws: Conn, body: Inbound, now: string)
      requires Valid()
      modifies this
      ensures Valid()
      ensures Snapshot() == Next(old(Snapshot()), Message(ws, body, now))
      ensures |outbox| >= |old(outbox)| && outbox[..|old(outbox)|] == old(outbox)
      ensures Sends(old(Snapshot()), Message(ws, body, now), outbox[|old(outbox)|..])
    {
      match body
      case Register(role, id, name, location) =>
        HandleRegistration(ws, role, id, name, location);
      case PostRequirement(description, location) =>
        HandlePostRequirement(ws, description, location, now);
      case AcceptRequest(requestId) =>
        HandleAcceptRequest(ws, requestId);
      case Unrecognised(_) =>
    }
  }

  /** The sends of `handleAcceptRequest` once `doctor`, on connection `ws`,
      has won `request`: the confirmation, the `patients.forEach` and the
      `doctors.forEach`, in that order. */
  method AcceptanceReplies(patients: map<Conn, Patient>, doctors: map<Conn, Doctor>, ws: Conn,
                           doctor: Doctor, request: Request) returns (sent: seq<Envelope>)
    ensures WinSends(patients, doctors, ws, doctor, request, sent)
  {
    var accepted := RequestAccepted(doctor.name, doctor.id);
    var taken := RequestAlreadyAccepted(Some(doctor.name));
    var toPatient := NotifyPatient(patients, request.patientId, accepted);
    var toDoctors := NotifyOtherDoctors(doctors, doctor.id, taken);
    sent := [Envelope(ws, AcceptanceConfirmed(request.patientName))] + toPatient + toDoctors;
    BroadcastCounts(toPatient, PatientConnsOf(patients, request.patientId), accepted);
    BroadcastCounts(toDoctors, OtherDoctorConns(doctors, doctor.id), taken);
    assert sent[1..1 + |toPatient|] == toPatient;
    assert sent[1 + |toPatient|..] == toDoctors;
  }

  /** The `doctors.forEach` of a post: the envelopes that send `m` to every
      doctor connection, one per connection, in the order visited. */
  method NotifyAll(doctors: map<Conn, Doctor>, m: Msg) returns (batch: seq<Envelope>)
    ensures Broadcast(batch, doctors.Keys, m)
  {
    var pending := doctors.Keys;
    batch := [];
    ghost var reached: set<Conn> := {};
    while pending != {}
      invariant pending <= doctors.Keys && reached == doctors.Keys - pending
      invariant Broadcast(batch, reached, m)
      decreases pending
    {
      var c :| c in pending;
      ExtendBroadcast(batch, reached, m, c);
      batch := batch + [Envelope(c, m)];
      reached := reached + {c};
      pending := pending - {c};
    }
    assert reached == doctors.Keys;
  }

  /** The `patients.forEach` of a successful accept: the envelopes that send
      `m` to every patient connection registered under `patientId`. */
  method NotifyPatient(patients: map<Conn, Patient>, patientId: string, m: Msg) returns (batch: seq<Envelope>)
    ensures Broadcast(batch, PatientConnsOf(patients, patientId), m)
  {
    var pending := patients.Keys;
    batch := [];
    ghost var audience := PatientConnsOf(patients, patientId);
    ghost var reached: set<Conn> := {};
    while pending != {}
      invariant pending <= patients.Keys && reached == audience - pending
      invariant Broadcast(batch, reached, m)
      decreases pending
    {
      var c :| c in pending;
      if patients[c].id == patientId {
        ExtendBroadcast(batch, reached, m, c);
        batch := batch + [Envelope(c, m)];
        reached := reached + {c};
      }
      pending := pending - {c};
    }
    assert reached == audience;
  }

  /** The `doctors.forEach` of a successful accept: the envelopes that send
      `m` to every doctor connection whose id is not `doctorId`. */
  method NotifyOtherDoctors(doctors: map<Conn, Doctor>, doctorId: string, m: Msg) returns (batch: seq<Envelope>)
    ensures Broadcast(batch, OtherDoctorConns(doctors, doctorId), m)
  {
    var pending := doctors.Keys;
    batch := [];
    ghost var audience := OtherDoctorConns(doctors, doctorId);
    ghost var reached: set<Conn> := {};
    while pending != {}
      invariant pending <= doctors.Keys && reached == audience - pending
      invariant Broadcast(batch, reached, m)
      decreases pending
    {
      var c :| c in pending;
      if doctors[c].id != doctorId {
        ExtendBroadcast(batch, reached, m, c);
        batch := batch + [Envelope(c, m)];
        reached := reached + {c};
      }
      pending := pending - {c};
    }
    assert reached == audience;
  }
}
