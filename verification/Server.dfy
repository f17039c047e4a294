/** Many calls over one store. A run is any sequence of events, so a statement about all
    event sequences is a statement about every interleaving and every pattern of faults. */
module Server {
  import opened Wrappers
  import opened Primitives
  import opened BlobStore
  import opened Calls

  datatype Session = Session(request: Request, pc: Pc)

  /** `seen` is a history variable: every content the CAS has held. */
  datatype System = System(store: Store, sessions: map<nat, Session>, seen: set<Bytes>)

  /** A call arrives, or a call performs its next step; `fault` makes its store operation fail. */
  datatype Event = Begin(id: nat, request: Request) | Advance(id: nat, fault: bool)

  function CasContents(p: Primitives, store: Store): set<Bytes> {
    set k | k in store && k.kind == ContentAddressableStorage :: ContentOf(p, store[k])
  }

  const EMPTY_SYSTEM := System(map[], map[], {})

  function Apply(p: Primitives, s: System, e: Event): System {
    match e
    case Begin(id, request) =>
      if id in s.sessions then s else s.(sessions := s.sessions[id := Session(request, Start(p, request))])
    case Advance(id, fault) =>
      if id !in s.sessions then s
      else
        var session := s.sessions[id];
        var (pc, store) := Step(p, session.pc, s.store, fault);
        System(store, s.sessions[id := session.(pc := pc)], s.seen + CasContents(p, store))
  }

  /** The state after these events, from the empty store. */
  function Run(p: Primitives, events: seq<Event>): System {
    if events == [] then EMPTY_SYSTEM
    else Apply(p, Run(p, events[..|events| - 1]), events[|events| - 1])
  }
}
