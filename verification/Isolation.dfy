/** Instances do not see each other: a run restricted to the calls on one instance gives that
    instance the same replies and the same part of the store. */
module Isolation {
  import opened Wrappers
  import opened Primitives
  import opened ByteStreams
  import opened Calls
  import opened Server
  import BlobCodec

  /** The instance a request works on; None for a stream request that fails before the store. */
  function InstanceOf(p: Primitives, request: Request): Option<string> {
    match request
    case Read(name, offset, limit) =>
      var plan := PlanRead(name, offset, limit);
      if plan.Success? then Some(plan.value.key.instance) else None
    case Write(stream) =>
      var outcome := WriteOutcome(p, stream);
      if outcome.Success? then Some(outcome.value.key.instance) else None
    case FindMissing(instance, _, _) => Some(instance)
    case BatchRead(instance, _, _, _) => Some(instance)
    case BatchUpdate(instance, _, _) => Some(instance)
    case GetResult(instance, _, _) => Some(instance)
    case UpdateResult(instance, _, _, _) => Some(instance)
  }

  /** The instance a call will touch from here on. */
  function Touches(pc: Pc): Option<string> {
    match pc
    case Done(_) => None
    case Finding(scope, _, _, _) => Some(scope.instance)
    case Reading(scope, _, _, _, _) => Some(scope.instance)
    case Uploading(scope, _, _, _) => Some(scope.instance)
    case Fetching(plan) => Some(plan.key.instance)
    case Committing(commit) => Some(commit.key.instance)
    case LoadingResult(scope, _) => Some(scope.instance)
    case LoadingAction(scope, _, _) => Some(scope.instance)
    case CheckingCommand(scope, _, _, _) => Some(scope.instance)
    case CollectingTrees(job, _, _) => Some(job.scope.instance)
    case CheckingArtifacts(job, _, _) => Some(job.scope.instance)
    case Recording(scope, _, _) => Some(scope.instance)
  }

  predicate KeyOutside(op: Op, instance: string) {
    match op
    case Local => true
    case Get(key) => key.instance != instance
    case Put(key, _) => key.instance != instance
    case Contains(key) => key.instance != instance
  }

  /** The part of a store that belongs to an instance. */
  function StorePart(store: Store, instance: string): Store {
    map k | k in store && k.instance == instance :: store[k]
  }

  /** The calls on an instance. */
  function CallsPart(p: Primitives, sessions: map<nat, Session>, instance: string): map<nat, Session> {
    map id | id in sessions && InstanceOf(p, sessions[id].request) == Some(instance) :: sessions[id]
  }

  predicate StaysHome(p: Primitives, session: Session) {
    session.pc.Done? || Touches(session.pc) == InstanceOf(p, session.request)
  }

  lemma StartsAtHome(p: Primitives, request: Request)
    ensures StaysHome(p, Session(request, Start(p, request)))
  {
    hide PlanRead, WriteOutcome;
  }

  lemma ResumeKeepsInstance(p: Primitives, pc: Pc, answer: Answer)
    requires Answers(NextOp(p, pc), answer)
    ensures Resume(p, pc, answer).Done? || Touches(Resume(p, pc, answer)) == Touches(pc)
  {
    hide AdmitItem, RecordedBlob, ReadReply, ReadItem, TreeDigests, BlobCodec.IntoIdentityData, ResultDigests;
  }

  lemma OpsStayInside(p: Primitives, pc: Pc, instance: string)
    requires Touches(pc) != Some(instance)
    ensures KeyOutside(NextOp(p, pc), instance)
  {
    hide AdmitItem, RecordedBlob;
  }

  lemma OpsStayHome(p: Primitives, pc: Pc, instance: string)
    requires pc.Done? || Touches(pc) == Some(instance)
    ensures match NextOp(p, pc)
            case Local => true
            case Get(key) => key.instance == instance
            case Put(key, _) => key.instance == instance
            case Contains(key) => key.instance == instance
  {
    hide AdmitItem, RecordedBlob;
  }

  /** A call sees only its instance's part of the store, and changes only that. */
  lemma StepInside(p: Primitives, pc: Pc, store: Store, instance: string, fault: bool)
    requires pc.Done? || Touches(pc) == Some(instance)
    ensures var (next, after) := Step(p, pc, store, fault);
            Step(p, pc, StorePart(store, instance), fault) == (next, StorePart(after, instance))
  {
    OpsStayHome(p, pc, instance);
    hide NextOp, Resume;
    var op := NextOp(p, pc);
    if op.Put? {
      assert StorePart(store[op.key := op.blob], instance) == StorePart(store, instance)[op.key := op.blob];
    }
    var (answer, after) := Perform(op, store, fault);
    assert Perform(op, StorePart(store, instance), fault) == (answer, StorePart(after, instance));
  }

  lemma StepOutside(p: Primitives, pc: Pc, store: Store, instance: string, fault: bool)
    requires pc.Done? || Touches(pc) != Some(instance)
    ensures StorePart(Step(p, pc, store, fault).1, instance) == StorePart(store, instance)
  {
    OpsStayInside(p, pc, instance);
    hide NextOp, Resume;
  }

  lemma {:induction false} CallsStayHome(p: Primitives, events: seq<Event>)
    ensures forall id | id in Run(p, events).sessions :: StaysHome(p, Run(p, events).sessions[id])
  {
    if events == [] {
    } else {
      var last := |events| - 1;
      CallsStayHome(p, events[..last]);
      var before := Run(p, events[..last]);
      match events[last] {
        case Begin(id, request) =>
          StartsAtHome(p, request);
          hide InstanceOf, Start, Touches;
        case Advance(id, fault) =>
          if id in before.sessions {
            var pc := before.sessions[id].pc;
            var answer := Perform(NextOp(p, pc), before.store, fault).0;
            ResumeKeepsInstance(p, pc, answer);
            assert pc.Done? ==> Resume(p, pc, answer) == pc;
            hide InstanceOf, Touches, Resume, NextOp, Perform;
          }
      }
    }
  }

  /** The event does something to a call on this instance. */
  predicate Concerns(p: Primitives, s: System, e: Event, instance: string) {
    match e
    case Begin(id, request) => id !in s.sessions && InstanceOf(p, request) == Some(instance)
    case Advance(id, _) => id in s.sessions && InstanceOf(p, s.sessions[id].request) == Some(instance)
  }

  /** The run with every call on other instances deleted. */
  function Restricted(p: Primitives, events: seq<Event>, instance: string): seq<Event> {
    if events == [] then []
    else
      var last := |events| - 1;
      Restricted(p, events[..last], instance) +
      (if Concerns(p, Run(p, events[..last]), events[last], instance) then [events[last]] else [])
  }

  lemma OthersChangeNothing(p: Primitives, s: System, e: Event, instance: string)
    requires forall id | id in s.sessions :: StaysHome(p, s.sessions[id])
    requires !Concerns(p, s, e, instance)
    ensures StorePart(Apply(p, s, e).store, instance) == StorePart(s.store, instance)
    ensures CallsPart(p, Apply(p, s, e).sessions, instance) == CallsPart(p, s.sessions, instance)
  {
    match e
    case Begin(id, request) =>
      hide InstanceOf, Start;
    case Advance(id, fault) =>
      if id in s.sessions {
        assert StaysHome(p, s.sessions[id]);
        hide InstanceOf, Step, Touches, CasContents, StorePart;
        StepOutside(p, s.sessions[id].pc, s.store, instance, fault);
      }
  }

  lemma OwnStepsAgree(p: Primitives, s: System, t: System, e: Event, instance: string)
    requires forall id | id in s.sessions :: StaysHome(p, s.sessions[id])
    requires t.store == StorePart(s.store, instance) && t.sessions == CallsPart(p, s.sessions, instance)
    requires Concerns(p, s, e, instance)
    ensures Apply(p, t, e).store == StorePart(Apply(p, s, e).store, instance)
    ensures Apply(p, t, e).sessions == CallsPart(p, Apply(p, s, e).sessions, instance)
  {
    hide InstanceOf, Start, Step, CasContents, StorePart;
    match e
    case Begin(id, request) =>
      assert id !in t.sessions;
    case Advance(id, fault) =>
      assert StaysHome(p, s.sessions[id]);
      hide Touches;
      StepInside(p, s.sessions[id].pc, s.store, instance, fault);
  }

  /** Deleting every call on other instances from a run -- interleaved in any way, with any
      faults -- leaves this instance's calls, their replies and its part of the store as they were. */
  lemma {:induction false} InstancesAreIsolated(p: Primitives, events: seq<Event>, instance: string)
    ensures var alone, together := Run(p, Restricted(p, events, instance)), Run(p, events);
            && alone.store == StorePart(together.store, instance)
            && alone.sessions == CallsPart(p, together.sessions, instance)
  {
    if events == [] {
    } else {
      var last := |events| - 1;
      var rest := Restricted(p, events[..last], instance);
      var before := Run(p, events[..last]);
      InstancesAreIsolated(p, events[..last], instance);
      CallsStayHome(p, events[..last]);
      hide Apply, InstanceOf, StaysHome, StorePart, CallsPart;
      if Concerns(p, before, events[last], instance) {
        assert (rest + [events[last]])[..|rest|] == rest;
        OwnStepsAgree(p, before, Run(p, rest), events[last], instance);
      } else {
        OthersChangeNothing(p, before, events[last], instance);
        assert rest + [] == rest;
      }
    }
  }
}
