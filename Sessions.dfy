/**
  The per-user WhatsApp session registry of server/routes/whatsapp.js: the
  module-level dictionary `whatsappClients` from user id to `{ qr, ready }`.

  `init` adds an entry; the whatsapp-web.js client later fires `qr` and
  `ready`, which become the methods `OnQr` and `OnReady`. The client object
  itself, puppeteer and the session directory are not part of this model.
 */
module Sessions {
  import opened Optional
  import opened Http

  /**
    A user id. Request bodies carry numbers and URL parameters carry strings,
    and both become the same property name of a JavaScript object, so one key
    type serves both.
   */
  type UserId = nat

  /** An entry of `whatsappClients`, without the opaque client handle. */
  datatype Session = Session(qr: Option<string>, ready: bool)

  type Registry = map<UserId, Session>

  const ClientAlreadyInitialized := "Client already initialized"
  const FailedToInitialize := "Failed to initialize WhatsApp client"
  const Initializing := "WhatsApp client initializing. QR code will be generated shortly."
  const ClientNotFound := "Client not found"
  const QrNotGenerated := "QR code not generated yet"

  /** A session straight after `init` stored it. */
  const Fresh := Session(None, false)

  /**
    Where `init` can throw after its duplicate check: while setting up (the
    session directory, `userId.toString()`, constructing the client), which is
    before the entry is stored, or in `client.initialize()`, which is after.
   */
  datatype InitFault = NoFault | SetupFails | InitializeFails

  /**
    How the registry may evolve: entries are never removed, a QR code once
    received is never cleared, and a ready session never becomes unready.
   */
  ghost predicate Grows(before: Registry, after: Registry)
  {
    forall u | u in before ::
      && u in after
      && (before[u].qr.Some? ==> after[u].qr.Some?)
      && (before[u].ready ==> after[u].ready)
  }

  /** `POST /init`: the new registry and the response. */
  function InitStep(reg: Registry, userId: UserId, fault: InitFault): (r: (Registry, Response<()>))
    ensures userId in reg ==> r == (reg, Response(BadRequest, Error(ClientAlreadyInitialized)))
    // a new user gets exactly one fresh entry unless setup threw first; the entry survives a failing initialize()
    ensures userId !in reg && fault != SetupFails ==>
              && r.0.Keys == reg.Keys + {userId}
              && r.0[userId] == Fresh
              && (forall u | u in reg :: r.0[u] == reg[u])
    ensures fault == SetupFails ==> r.0 == reg
    ensures r.1.status == OK <==> userId !in reg && fault == NoFault
    ensures r.1.status == OK ==> r.1.body == Message(Initializing)
    ensures userId !in reg && fault != NoFault ==> r.1 == Response(InternalError, Error(FailedToInitialize))
    ensures r.1.status != OK ==> r.1.status in {BadRequest, InternalError} && r.1.body.Error?
    ensures Grows(reg, r.0)
  {
    if userId in reg then (reg, Response(BadRequest, Error(ClientAlreadyInitialized)))
    else
      match fault
      case SetupFails => (reg, Response(InternalError, Error(FailedToInitialize)))
      case InitializeFails => (reg[userId := Fresh], Response(InternalError, Error(FailedToInitialize)))
      case NoFault => (reg[userId := Fresh], Response(OK, Message(Initializing)))
  }

  /** The client's `qr` event: only that user's `qr` is overwritten. */
  function QrEvent(reg: Registry, userId: UserId, code: string): (r: Registry)
    requires userId in reg
    ensures r.Keys == reg.Keys
    ensures r[userId].qr == Some(code) && r[userId].ready == reg[userId].ready
    ensures forall u | u in reg && u != userId :: r[u] == reg[u]
    ensures Grows(reg, r)
  {
    reg[userId := reg[userId].(qr := Some(code))]
  }

  /** The client's `ready` event: only that user's `ready` is set. */
  function ReadyEvent(reg: Registry, userId: UserId): (r: Registry)
    requires userId in reg
    ensures r.Keys == reg.Keys
    ensures r[userId].ready && r[userId].qr == reg[userId].qr
    ensures forall u | u in reg && u != userId :: r[u] == reg[u]
    ensures Grows(reg, r)
  {
    reg[userId := reg[userId].(ready := true)]
  }

  /** Whether a stored QR code counts as present: JavaScript's `!clientData.qr` treats "" as absent. */
  predicate HasQr(s: Session)
  {
    s.qr.Some? && s.qr.value != ""
  }

  /** `GET /qr/:userId`, which only reads the registry. */
  function QrLookup(reg: Registry, userId: UserId): (r: Response<string>)
    ensures userId !in reg ==> r == Response(NotFound, Error(ClientNotFound))
    ensures userId in reg && !HasQr(reg[userId]) ==> r == Response(NotFound, Error(QrNotGenerated))
    ensures r.status == OK <==> userId in reg && HasQr(reg[userId])
    ensures r.status == OK ==> r.body == Data(reg[userId].qr.value)
  {
    if userId !in reg then Response(NotFound, Error(ClientNotFound))
    else if !HasQr(reg[userId]) then Response(NotFound, Error(QrNotGenerated))
    else Response(OK, Data(reg[userId].qr.value))
  }

  /** `Grows` is transitive, so it chains across any sequence of the operations above. */
  lemma GrowsTransitive(a: Registry, b: Registry, c: Registry)
    requires Grows(a, b) && Grows(b, c)
    ensures Grows(a, c)
  {
  }

  /**
    Once an `init` for a user has stored an entry, every later `init` for that
    user is refused, even when the first one answered 500.
   */
  lemma InitOnce(reg: Registry, userId: UserId, fault: InitFault, later: Registry, fault2: InitFault)
    requires fault != SetupFails
    requires Grows(InitStep(reg, userId, fault).0, later)
    ensures InitStep(later, userId, fault2) == (later, Response(BadRequest, Error(ClientAlreadyInitialized)))
  {
  }

  /** After a `qr` event the lookup hands out exactly that code, unless it is empty. */
  lemma QrEventThenLookup(reg: Registry, userId: UserId, code: string)
    requires userId in reg
    ensures QrLookup(QrEvent(reg, userId, code), userId)
              == if code == "" then Response(NotFound, Error(QrNotGenerated)) else Response(OK, Data(code))
  {
  }

  /** The imperative form: `whatsappClients` as a field updated in place. */
  class SessionRegistry {
    var clients: Registry

    constructor ()
      ensures clients == map[]
    {
      clients := map[];
    }

    method Init(userId: UserId, fault: InitFault) returns (r: Response<()>)
      modifies this
      ensures (clients, r) == InitStep(old(clients), userId, fault)
    {
      if userId in clients {
        return Response(BadRequest, Error(ClientAlreadyInitialized));
      }
      if fault.SetupFails? {
        return Response(InternalError, Error(FailedToInitialize));
      }
      clients := clients[userId := Fresh];
      if fault.InitializeFails? {
        return Response(InternalError, Error(FailedToInitialize));
      }
      return Response(OK, Message(Initializing));
    }

    /** The `qr` callback; it only fires for a client that `init` stored. */
    method OnQr(userId: UserId, code: string)
      requires userId in clients
      modifies this
      ensures clients == QrEvent(old(clients), userId, code)
    {
      clients := clients[userId := clients[userId].(qr := Some(code))];
    }

    /** The `ready` callback; it only fires for a client that `init` stored. */
    method OnReady(userId: UserId)
      requires userId in clients
      modifies this
      ensures clients == ReadyEvent(old(clients), userId)
    {
      clients := clients[userId := clients[userId].(ready := true)];
    }
  }
}
