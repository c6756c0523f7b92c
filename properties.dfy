/** What the broker promises: the effect of each event on the registries
    and the request slot, who receives which message, and, over whole runs,
    that each request is won by at most one doctor. */
module Properties {
  import opened Messages
  import opened BrokerSpec

  // ---------------------------------------------------------------------
  // Registration and disconnection
  // ---------------------------------------------------------------------

  /** Registering touches only the registry of the named role, answers the
      caller alone, and an unknown role changes nothing and sends nothing. */
  lemma RegistrationEffects(s: State, ws: Conn, role: string, id: string, name: string, location: string)
    ensures var t := RegisterNext(s, ws, role, id, name, location);
      && t.active == s.active && t.pendingClears == s.pendingClears
      && (role == "patient" ==>
            && t.patients.Keys == s.patients.Keys + {ws} && t.patients[ws] == Patient(id, name)
            && (forall c :: c in s.patients && c != ws ==> t.patients[c] == s.patients[c])
            && t.doctors == s.doctors
            && RegisterSends(ws, role) == [Envelope(ws, Registered(PatientRole))])
      && (role == "doctor" ==>
            && t.doctors.Keys == s.doctors.Keys + {ws} && t.doctors[ws] == Doctor(id, name, location)
            && (forall c :: c in s.doctors && c != ws ==> t.doctors[c] == s.doctors[c])
            && t.patients == s.patients
            && RegisterSends(ws, role) == [Envelope(ws, Registered(DoctorRole))])
      && (role != "patient" && role != "doctor" ==> t == s && RegisterSends(ws, role) == [])
  {
  }

  /** Registering under the other role keeps the earlier entry: one
      connection can sit in both registries. */
  lemma BothRolesOnOneConnection(s: State, ws: Conn, p: Patient, d: Doctor)
    ensures var t := RegisterNext(RegisterNext(s, ws, "patient", p.id, p.name, ""), ws, "doctor", d.id, d.name, d.location);
      && t.patients[ws] == p && t.doctors[ws] == d
  {
  }

  /** Closing removes the connection from both registries and nothing else. */
  lemma CloseEffects(s: State, ws: Conn)
    ensures var t := CloseNext(s, ws);
      && ws !in t.patients && ws !in t.doctors
      && t.patients.Keys == s.patients.Keys - {ws} && t.doctors.Keys == s.doctors.Keys - {ws}
      && (forall c :: c in t.patients ==> t.patients[c] == s.patients[c])
      && (forall c :: c in t.doctors ==> t.doctors[c] == s.doctors[c])
      && t.active == s.active && t.pendingClears == s.pendingClears
  {
  }

  /** Closing twice is closing once. */
  lemma CloseIsIdempotent(s: State, ws: Conn)
    ensures CloseNext(CloseNext(s, ws), ws) == CloseNext(s, ws)
  {
    assert CloseNext(s, ws).patients - {ws} == s.patients - {ws};
    assert CloseNext(s, ws).doctors - {ws} == s.doctors - {ws};
  }

  /** Closing a connection that registered on a fresh handle restores both
      registries. */
  lemma CloseUndoesRegistration(s: State, ws: Conn, role: string, id: string, name: string, location: string)
    requires ws !in s.patients && ws !in s.doctors
    ensures CloseNext(RegisterNext(s, ws, role, id, name, location), ws) == s
  {
    var t := RegisterNext(s, ws, role, id, name, location);
    assert t.patients - {ws} == s.patients;
    assert t.doctors - {ws} == s.doctors;
  }

  /** A connection in neither registry gets nothing from an event it did not
      send itself, and stays in neither registry: after a close, no later
      event delivers to that connection. */
  lemma ClosedConnectionGetsNothing(s: State, e: Event, c: Conn, sent: seq<Envelope>)
    requires c !in s.patients && c !in s.doctors
    requires !(e.Message? && e.from == c)
    requires Enabled(s, e) && Sends(s, e, sent)
    ensures forall env :: env in sent ==> env.to != c
    ensures c !in Next(s, e).patients && c !in Next(s, e).doctors
  {
    match e
    case Message(ws, PostRequirement(description, location), now) =>
      if ws in s.patients {
        PostDeliveries(s, ws, description, location, now, sent);
      }
    case Message(ws, AcceptRequest(requestId), _) =>
      if Decide(s, ws, requestId).Wins? {
        AcceptDeliveries(s, ws, requestId, sent);
      }
    case _ =>
  }

  // ---------------------------------------------------------------------
  // Posting a requirement
  // ---------------------------------------------------------------------

  /** A post from a connection that is not a registered patient changes
      nothing and answers the caller alone with one ERROR. */
  lemma PostByNonPatientIsRejected(s: State, ws: Conn, description: string, location: string, now: string,
                                   sent: seq<Envelope>)
    requires ws !in s.patients
    ensures PostNext(s, ws, description, location, now) == s
    ensures PostSends(s, ws, description, location, now, sent) <==>
            sent == [Envelope(ws, Error(NotRegisteredAsPatient))]
  {
  }

  /** A registered patient's post puts a fresh open record in the slot,
      whatever it held before (nothing, an open request or an accepted one),
      and leaves the registries alone. */
  lemma PostReplacesActiveRequest(s: State, ws: Conn, description: string, location: string, now: string)
    requires ws in s.patients
    ensures var t := PostNext(s, ws, description, location, now);
      && t.active.Some?
      && t.active.value.patientId == s.patients[ws].id
      && t.active.value.patientName == s.patients[ws].name
      && t.active.value.requestId == now
      && t.active.value.description == description && t.active.value.location == location
      && !t.active.value.accepted && t.active.value.acceptedBy == None
      && t.patients == s.patients && t.doctors == s.doctors && t.pendingClears == s.pendingClears
  {
  }

  /** After a registered patient's post, every doctor connection receives
      exactly one NEW_REQUEST carrying the new request id, the caller receives
      REQUEST_POSTED with that id as the last message, and nothing else is sent. */
  lemma PostDeliveries(s: State, ws: Conn, description: string, location: string, now: string,
                       sent: seq<Envelope>)
    requires ws in s.patients
    requires PostSends(s, ws, description, location, now, sent)
    ensures var m := NewRequest(now, s.patients[ws].name, description, location);
      && (forall c: Conn :: multiset(sent)[Envelope(c, m)] == if c in s.doctors then 1 else 0)
      && multiset(sent)[Envelope(ws, RequestPosted(now))] == 1
      && sent[|sent| - 1] == Envelope(ws, RequestPosted(now))
      && (forall e :: e in sent ==> (e.msg == m && e.to in s.doctors) || e == Envelope(ws, RequestPosted(now)))
  {
    var m := NewRequest(now, s.patients[ws].name, description, location);
    var k := |sent| - 1;
    BroadcastCounts(sent[..k], s.doctors.Keys, m);
    assert sent == sent[..k] + [sent[k]];
    assert multiset(sent) == multiset(sent[..k]) + multiset{sent[k]};
    forall e | e in sent
      ensures (e.msg == m && e.to in s.doctors) || e == Envelope(ws, RequestPosted(now))
    {
      if e != sent[k] {
        assert multiset(sent[..k])[e] > 0;
      }
    }
  }

  // ---------------------------------------------------------------------
  // Accepting a request
  // ---------------------------------------------------------------------

  /** Every rejection leaves the state as it was and answers the caller alone;
      an already-accepted request names the doctor stored with it. */
  lemma AcceptRejectionChangesNothing(s: State, ws: Conn, requestId: string, sent: seq<Envelope>)
    requires !Decide(s, ws, requestId).Wins?
    ensures AcceptNext(s, ws, requestId) == s
    ensures AcceptSends(s, ws, requestId, sent) <==>
            sent == [Envelope(ws, RejectionReply(Decide(s, ws, requestId)))]
    ensures Decide(s, ws, requestId).AlreadyAccepted? ==>
            RejectionReply(Decide(s, ws, requestId)) == RequestAlreadyAccepted(s.active.value.acceptedBy)
  {
  }

  /** A win flips `accepted` from false to true, records the winner's name,
      keeps every other field of the request, and schedules one clear. */
  lemma WinMarksRequestAccepted(s: State, ws: Conn, requestId: string)
    requires Decide(s, ws, requestId).Wins?
    ensures var t := AcceptNext(s, ws, requestId);
      var r := s.active.value;
      && !r.accepted
      && t.active == Some(Request(r.patientId, r.patientName, r.requestId, r.description, r.location,
                                  true, Some(s.doctors[ws].name)))
      && t.patients == s.patients && t.doctors == s.doctors
      && t.pendingClears == s.pendingClears + 1
  {
  }

  /** Once a request is won, every accept of it by any doctor is rejected
      and names the same winner; an accept of another id is a mismatch. */
  lemma SecondAcceptLoses(s: State, ws: Conn, requestId: string, ws2: Conn, requestId2: string)
    requires Decide(s, ws, requestId).Wins?
    requires ws2 in s.doctors
    ensures var t := AcceptNext(s, ws, requestId);
      Decide(t, ws2, requestId2) ==
        if requestId2 == requestId then AlreadyAccepted(Some(s.doctors[ws].name)) else IdMismatch
  {
  }

  /** The messages of a win: the caller first gets ACCEPTANCE_CONFIRMED with
      the patient's name; every patient connection registered under the
      request's patient id gets exactly one REQUEST_ACCEPTED and no other
      patient does; every doctor connection whose id differs from the
      winner's gets exactly one REQUEST_ALREADY_ACCEPTED naming the winner,
      and the winner's own connection gets none. Nothing else is sent. */
  lemma AcceptDeliveries(s: State, ws: Conn, requestId: string, sent: seq<Envelope>)
    requires Decide(s, ws, requestId).Wins?
    requires AcceptSends(s, ws, requestId, sent)
    ensures var d := s.doctors[ws];
      var r := s.active.value;
      var accepted := RequestAccepted(d.name, d.id);
      var taken := RequestAlreadyAccepted(Some(d.name));
      && sent[0] == Envelope(ws, AcceptanceConfirmed(r.patientName))
      && multiset(sent)[Envelope(ws, AcceptanceConfirmed(r.patientName))] == 1
      && (forall c: Conn :: multiset(sent)[Envelope(c, accepted)] ==
            if c in s.patients && s.patients[c].id == r.patientId then 1 else 0)
      && (forall c: Conn :: multiset(sent)[Envelope(c, taken)] ==
            if c in s.doctors && s.doctors[c].id != d.id then 1 else 0)
      && multiset(sent)[Envelope(ws, taken)] == 0
      && (forall e :: e in sent ==>
            || e == Envelope(ws, AcceptanceConfirmed(r.patientName))
            || (e.msg == accepted && e.to in s.patients && s.patients[e.to].id == r.patientId)
            || (e.msg == taken && e.to in s.doctors && s.doctors[e.to].id != d.id))
  {
    var d := s.doctors[ws];
    var r := s.active.value;
    WinCounts(s.patients, s.doctors, ws, d, r, sent);
    forall e | e in sent
      ensures || e == Envelope(ws, AcceptanceConfirmed(r.patientName))
              || (e.msg == RequestAccepted(d.name, d.id) && e.to in s.patients && s.patients[e.to].id == r.patientId)
              || (e.msg == RequestAlreadyAccepted(Some(d.name)) && e.to in s.doctors && s.doctors[e.to].id != d.id)
    {
      assert multiset(sent)[e] > 0;
    }
  }

  /** The messages of a win, counted: the confirmation once, and each
      broadcast once per connection of its audience. */
  lemma WinCounts(patients: map<Conn, Patient>, doctors: map<Conn, Doctor>, ws: Conn,
                  d: Doctor, r: Request, sent: seq<Envelope>)
    requires WinSends(patients, doctors, ws, d, r, sent)
    ensures forall e ::
              multiset(sent)[e] ==
                (if e == Envelope(ws, AcceptanceConfirmed(r.patientName)) then 1 else 0)
                + (if e.to in PatientConnsOf(patients, r.patientId) && e.msg == RequestAccepted(d.name, d.id) then 1 else 0)
                + (if e.to in OtherDoctorConns(doctors, d.id) && e.msg == RequestAlreadyAccepted(Some(d.name)) then 1 else 0)
  {
    var k := 1 + |PatientConnsOf(patients, r.patientId)|;
    var toPatients, toDoctors := sent[1..k], sent[k..];
    BroadcastCounts(toPatients, PatientConnsOf(patients, r.patientId), RequestAccepted(d.name, d.id));
    BroadcastCounts(toDoctors, OtherDoctorConns(doctors, d.id), RequestAlreadyAccepted(Some(d.name)));
    assert sent == [sent[0]] + toPatients + toDoctors;
    assert multiset(sent) == multiset{sent[0]} + multiset(toPatients) + multiset(toDoctors);
  }

  // ---------------------------------------------------------------------
  // The deferred clear and unrecognised messages
  // ---------------------------------------------------------------------

  /** When a clear fires the slot is emptied, whatever it holds: a request
      posted after the accept that scheduled the clear is dropped while
      still open. */
  lemma ClearDropsNewerRequest(s: State, ws: Conn, requestId: string, p: Conn,
                               description: string, location: string, now: string)
    requires Decide(s, ws, requestId).Wins?
    requires p in s.patients
    ensures var t := PostNext(AcceptNext(s, ws, requestId), p, description, location, now);
      && t.pendingClears > 0
      && t.active.Some? && t.active.value.requestId == now && !t.active.value.accepted
      && ClearNext(t).active == None
      && ClearNext(t).patients == t.patients && ClearNext(t).doctors == t.doctors
  {
  }

  /** Once the slot is clear, a registered patient's post opens a new
      request that any registered doctor can win. */
  lemma PostAfterClearCanBeWon(s: State, p: Conn, description: string, location: string, now: string,
                               ws: Conn)
    requires s.pendingClears > 0 && p in s.patients && ws in s.doctors
    ensures var t := PostNext(ClearNext(s), p, description, location, now);
      && t.active.Some? && t.active.value.requestId == now && !t.active.value.accepted
      && Decide(t, ws, now).Wins?
  {
  }

  /** A message with an unrecognised `type` changes nothing and gets no reply. */
  lemma UnrecognisedTypeIsIgnored(s: State, ws: Conn, kind: string, now: string, sent: seq<Envelope>)
    ensures Next(s, Message(ws, Unrecognised(kind), now)) == s
    ensures Sends(s, Message(ws, Unrecognised(kind), now), sent) <==> sent == []
  {
  }

  // ---------------------------------------------------------------------
  // A walkthrough
  // ---------------------------------------------------------------------

  /** The walkthrough's registrations: patient Alice (p1) on connection 1,
      doctors D1 (d1) and D2 (d2) on connections 2 and 3. */
  function Registered3(): State {
    var s1 := RegisterNext(Initial(), 1, "patient", "p1", "Alice", "");
    var s2 := RegisterNext(s1, 2, "doctor", "d1", "D1", "X");
    RegisterNext(s2, 3, "doctor", "d2", "D2", "Y")
  }

  /** Alice posts "fever" at X: both doctors get the same NEW_REQUEST, Alice
      herself gets none, and the last message is her REQUEST_POSTED. Any
      `sent` the handler may emit satisfies these facts. */
  lemma WalkthroughPost(sent: seq<Envelope>)
    requires PostSends(Registered3(), 1, "fever", "X", "t1", sent)
    ensures var request := NewRequest("t1", "Alice", "fever", "X");
      && multiset(sent)[Envelope(2, request)] == 1
      && multiset(sent)[Envelope(3, request)] == 1
      && multiset(sent)[Envelope(1, request)] == 0
      && sent[|sent| - 1] == Envelope(1, RequestPosted("t1"))
  {
    var s3 := Registered3();
    assert s3 == State(map[1 := Patient("p1", "Alice")],
                       map[2 := Doctor("d1", "D1", "X"), 3 := Doctor("d2", "D2", "Y")], None, 0);
    assert s3.doctors.Keys == {2, 3};
    PostDeliveries(s3, 1, "fever", "X", "t1", sent);
  }

  /** After Alice's post, D2 accepts first: D2 is confirmed with Alice's
      name, Alice learns D2 accepted, D1 learns the request is taken by D2
      and D2 gets no such notice. D1's own accept afterwards is rejected
      naming D2 and changes nothing. */
  lemma WalkthroughAccept(sent2: seq<Envelope>, sent3: seq<Envelope>)
    ensures var s4 := PostNext(Registered3(), 1, "fever", "X", "t1");
      var s5 := AcceptNext(s4, 3, "t1");
      && Decide(s4, 3, "t1").Wins?
      && (AcceptSends(s4, 3, "t1", sent2) ==>
            && sent2[0] == Envelope(3, AcceptanceConfirmed("Alice"))
            && multiset(sent2)[Envelope(1, RequestAccepted("D2", "d2"))] == 1
            && multiset(sent2)[Envelope(2, RequestAlreadyAccepted(Some("D2")))] == 1
            && multiset(sent2)[Envelope(3, RequestAlreadyAccepted(Some("D2")))] == 0)
      && AcceptNext(s5, 2, "t1") == s5
      && (AcceptSends(s5, 2, "t1", sent3) <==> sent3 == [Envelope(2, RequestAlreadyAccepted(Some("D2")))])
  {
    var alice := Patient("p1", "Alice");
    var d1, d2 := Doctor("d1", "D1", "X"), Doctor("d2", "D2", "Y");
    var s4 := PostNext(Registered3(), 1, "fever", "X", "t1");
    assert Registered3() == State(map[1 := alice], map[2 := d1, 3 := d2], None, 0);
    assert s4 == State(map[1 := alice], map[2 := d1, 3 := d2], Some(Opened(alice, "t1", "fever", "X")), 0);
    if AcceptSends(s4, 3, "t1", sent2) {
      AcceptDeliveries(s4, 3, "t1", sent2);
    }
  }

  // ---------------------------------------------------------------------
  // Runs of events
  // ---------------------------------------------------------------------

  /** Every event of `trace` can occur in turn from `s` (a clear fires only
      when one is scheduled). */
  predicate Runnable(s: State, trace: seq<Event>)
    decreases |trace|
  {
    trace == [] || (Enabled(s, trace[0]) && Runnable(Next(s, trace[0]), trace[1..]))
  }

  /** The state after the events of `trace`, from `s`. */
  function Run(s: State, trace: seq<Event>): State
    requires Runnable(s, trace)
    decreases |trace|
  {
    if trace == [] then s else Run(Next(s, trace[0]), trace[1..])
  }

  /** `e` is an accept of `requestId` that wins in state `s`. */
  predicate WinningAccept(s: State, e: Event, requestId: string) {
    e.Message? && e.body.AcceptRequest? && e.body.requestId == requestId
    && Decide(s, e.from, requestId).Wins?
  }

  /** How many accepts of `requestId` win during `trace`. */
  function WinsFor(s: State, trace: seq<Event>, requestId: string): nat
    requires Runnable(s, trace)
    decreases |trace|
  {
    if trace == [] then 0
    else (if WinningAccept(s, trace[0], requestId) then 1 else 0) + WinsFor(Next(s, trace[0]), trace[1..], requestId)
  }

  /** Every post in `trace` is stamped with an id outside `used`, and with
      an id no earlier post of `trace` had. */
  predicate FreshIds(used: set<string>, trace: seq<Event>)
    decreases |trace|
  {
    if trace == [] then true
    else if trace[0].Message? && trace[0].body.PostRequirement? then
      trace[0].now !in used && FreshIds(used + {trace[0].now}, trace[1..])
    else FreshIds(used, trace[1..])
  }

  /** The id of the request in the slot, if any. */
  function SlotId(s: State): set<string> {
    if s.active.Some? then {s.active.value.requestId} else {}
  }

  /** The slot holds `requestId`, still open. */
  predicate OpenFor(s: State, requestId: string) {
    s.active.Some? && s.active.value.requestId == requestId && !s.active.value.accepted
  }

  /** The induction behind AtMostOneWinnerPerRequest: an id can still be won
      only if it is open now or has never been used. */
  lemma {:induction false} WinsBound(s: State, trace: seq<Event>, requestId: string, used: set<string>)
    requires Runnable(s, trace) && SlotId(s) <= used && FreshIds(used, trace)
    ensures WinsFor(s, trace, requestId) <= if OpenFor(s, requestId) || requestId !in used then 1 else 0
    decreases |trace|
  {
    if trace != [] {
      var e := trace[0];
      var used' := if e.Message? && e.body.PostRequirement? then used + {e.now} else used;
      WinsBound(Next(s, e), trace[1..], requestId, used');
    }
  }

  /** At most one accept succeeds per request: in any run whose posts get
      fresh ids, each request id is won at most once, and a request already
      accepted when the run starts is never won again. */
  lemma AtMostOneWinnerPerRequest(s: State, trace: seq<Event>, requestId: string)
    requires Runnable(s, trace) && FreshIds(SlotId(s), trace)
    ensures WinsFor(s, trace, requestId) <= 1
    ensures s.active.Some? && s.active.value.accepted && s.active.value.requestId == requestId ==>
            WinsFor(s, trace, requestId) == 0
  {
    WinsBound(s, trace, requestId, SlotId(s));
  }

  /** No event of `trace` replaces or clears the slot. */
  predicate NoReset(trace: seq<Event>) {
    forall i :: 0 <= i < |trace| ==>
      !trace[i].ClearTimerFired? && !(trace[i].Message? && trace[i].body.PostRequirement?)
  }

  /** Until the next post or clear, an accepted request stays in the slot
      exactly as it is, whatever registrations, closes and accepts happen. */
  lemma {:induction false} AcceptedRequestIsStable(s: State, trace: seq<Event>)
    requires s.active.Some? && s.active.value.accepted && NoReset(trace)
    ensures Runnable(s, trace) && Run(s, trace).active == s.active
    decreases |trace|
  {
    if trace != [] {
      assert NoReset(trace[1..]) by {
        forall i | 0 <= i < |trace[1..]|
          ensures !trace[1..][i].ClearTimerFired? && !(trace[1..][i].Message? && trace[1..][i].body.PostRequirement?)
        {
          assert trace[1..][i] == trace[i + 1];
        }
      }
      assert !trace[0].ClearTimerFired?;
      AcceptedRequestIsStable(Next(s, trace[0]), trace[1..]);
    }
  }

  /** After a win, until the next post or clear, every accept of the same id
      by a registered doctor is rejected naming the same winner. */
  lemma LaterAcceptsNameWinner(s: State, ws: Conn, requestId: string, trace: seq<Event>, ws2: Conn)
    requires Decide(s, ws, requestId).Wins? && NoReset(trace)
    ensures Runnable(AcceptNext(s, ws, requestId), trace)
    ensures var t := Run(AcceptNext(s, ws, requestId), trace);
      ws2 in t.doctors ==> Decide(t, ws2, requestId) == AlreadyAccepted(Some(s.doctors[ws].name))
  {
    AcceptedRequestIsStable(AcceptNext(s, ws, requestId), trace);
  }

  /** Every event keeps the slot well formed. */
  lemma NextPreservesInv(s: State, e: Event)
    requires Inv(s) && Enabled(s, e)
    ensures Inv(Next(s, e))
  {
  }

  /** Every run keeps the slot well formed, so a REQUEST_ALREADY_ACCEPTED
      reply always names a doctor. */
  lemma {:induction false} RunPreservesInv(s: State, trace: seq<Event>)
    requires Inv(s) && Runnable(s, trace)
    ensures Inv(Run(s, trace))
    decreases |trace|
  {
    if trace != [] {
      NextPreservesInv(s, trace[0]);
      RunPreservesInv(Next(s, trace[0]), trace[1..]);
    }
  }

  /** After any run, an accept rejected as already accepted names the
      doctor who won. */
  lemma RejectionNamesDoctor(s: State, trace: seq<Event>, ws: Conn, requestId: string)
    requires Inv(s) && Runnable(s, trace)
    ensures var d := Decide(Run(s, trace), ws, requestId);
      d.AlreadyAccepted? ==> d.acceptedBy.Some?
  {
    RunPreservesInv(s, trace);
  }
}
