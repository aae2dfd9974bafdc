/** Entering a shift or an inventory on a station: a lease, asynchronous handlers, and what may retire them.

    JavaScript runs a handler without interruption up to its next await. Each event below is one such stretch; between
    two of them any other event may happen. */
module ShiftEntryLease {
  import opened Wrappers

  datatype Kind = ShiftTask | InventoryTask

  /** Who made a task active: the entry of a lease under a credential generation, or the reload at start. */
  datatype Author = Entry(lease: int, generation: Option<nat>) | Reload

  datatype Active = Active(kind: Kind, id: int, author: Author)

  /** Where the handler that owns a lease is waiting. `Held`: the page has the lease and has not called the entry
      handler; `Settled`: the handler is over and the page's `finally` has not run yet. */
  datatype Pc =
    | Cancelling
    | Held
    | CanEnter
    | RefreshingGrant
    | RefreshingAuthority
    | ReadingGrant
    | Projecting
    | Admitting
    | CanStillEnter
    | Settled
    | Over

  /** `generation` is what the handler captured when it was rendered, the newest or an older one. There is one only when
      the tenant, the device and the server are known. */
  datatype Handler = Handler(kind: Kind, task: int, generation: Option<nat>, pc: Pc)

  /** Credential generations are numbered as they are made: 0..issued-1 exist, and a made one never comes back. */
  datatype Station = Station(
    lease: Option<int>,
    released: set<int>,
    pending: bool,
    active: Option<Active>,
    entryGeneration: nat,
    credential: Option<nat>,
    issued: nat,
    sealed: set<nat>,
    handlers: map<int, Handler>)

  datatype Event =
    | Acquire(l: int, kind: Kind, task: int, generation: Option<nat>)
    | CancelSettled(l: int, ok: bool)
    | Enter(l: int)
    | Abandon(l: int)
    | Resume(l: int, answer: bool)
    | Throws(l: int)
    | Finally(l: int)
    | Drain
    | Seal(g: nat)
    | Rejected(g: nat)
    | NewCredential(complete: bool)
    | Leave
    | ResetCredential

  predicate IsCurrent(s: Station, l: int) { l !in s.released && s.lease == Some(l) }

  /** What the code calls current: not sealed. A generation that a newer one has replaced can be current. */
  predicate GenerationOk(s: Station, generation: Option<nat>) {
    generation.Some? ==> generation.value !in s.sealed
  }

  /** lease.release() */
  function Release(s: Station, l: int): Station {
    if l in s.released then s
    else
      var t := s.(released := s.released + {l});
      if s.lease == Some(l) then t.(lease := None, pending := false) else t
  }

  function At(s: Station, l: int, pc: Pc): Station
    requires l in s.handlers
  {
    s.(handlers := s.handlers[l := s.handlers[l].(pc := pc)])
  }

  /** The end of the entry handler: the last check, then everything at once. */
  function Publish(s: Station, l: int): Station
    requires l in s.handlers
  {
    var h := s.handlers[l];
    if !IsCurrent(s, l) || !GenerationOk(s, h.generation) then At(s, l, Settled)
    else
      var t := At(s, l, Settled).(active := Some(Active(h.kind, h.task, Entry(l, h.generation))));
      if h.kind == ShiftTask then t.(entryGeneration := s.entryGeneration + 1) else t
  }

  /** The check before the second look at the replacement state. */
  function Recheck(s: Station, l: int): Station
    requires l in s.handlers
  {
    At(s, l, if !IsCurrent(s, l) || !GenerationOk(s, s.handlers[l].generation) then Settled else CanStillEnter)
  }

  /** The awaited answer arrives: whether entry is allowed, whether there is a grant state, and so on. */
  function Resumed(s: Station, l: int, answer: bool): Station
    requires l in s.handlers
  {
    var h := s.handlers[l];
    match h.pc
    case CanEnter =>
      if !answer then At(s, l, Settled)
      else if h.generation.Some? then At(s, l, RefreshingGrant)
      else Recheck(s, l)
    case RefreshingGrant => At(s, l, RefreshingAuthority)
    case RefreshingAuthority => At(s, l, ReadingGrant)
    case ReadingGrant =>
      if !answer then Recheck(s, l) else At(s, l, if h.kind == ShiftTask then Projecting else Admitting)
    case Projecting => At(s, l, if !IsCurrent(s, l) || !GenerationOk(s, h.generation) then Settled else Admitting)
    case Admitting => if !answer then At(s, l, Settled) else Recheck(s, l)
    case CanStillEnter => if !answer then At(s, l, Settled) else Publish(s, l)
    case _ => s
  }

  /** Inside the entry handler: what it awaits may also be rejected. */
  predicate Awaiting(pc: Pc) {
    pc in {CanEnter, RefreshingGrant, RefreshingAuthority, ReadingGrant, Projecting, Admitting, CanStillEnter}
  }

  predicate Exists(s: Station, generation: Option<nat>) {
    generation.Some? ==> generation.value < s.issued
  }

  /** One event; an event that cannot happen changes nothing. Sealing a generation comes before reporting it. */
  function Apply(s: Station, e: Event): Station {
    match e
    case Acquire(l, kind, task, generation) =>
      if l in s.handlers || s.lease.Some? || s.active.Some? || !Exists(s, generation) then s
      else
        s.(lease := Some(l), pending := true,
           handlers := s.handlers[l := Handler(kind, task, generation, Cancelling)])
    case CancelSettled(l, ok) =>
      if l !in s.handlers || s.handlers[l].pc != Cancelling then s
      else if !ok || !IsCurrent(s, l) then Release(At(s, l, Over), l)
      else At(s, l, Held)
    case Enter(l) =>
      if l !in s.handlers || s.handlers[l].pc != Held then s
      else At(s, l, if !IsCurrent(s, l) || !GenerationOk(s, s.handlers[l].generation) then Settled else CanEnter)
    case Abandon(l) =>
      if l !in s.handlers || s.handlers[l].pc != Held then s else At(s, l, Settled)
    case Resume(l, answer) => if l !in s.handlers then s else Resumed(s, l, answer)
    case Throws(l) =>
      if l !in s.handlers || !Awaiting(s.handlers[l].pc) then s else At(s, l, Settled)
    case Finally(l) =>
      if l !in s.handlers || s.handlers[l].pc != Settled then s else Release(At(s, l, Over), l)
    case Drain => if s.lease.None? then s else Release(s, s.lease.value)
    case Seal(g) => if !Exists(s, Some(g)) then s else s.(sealed := s.sealed + {g})
    case Rejected(g) =>
      if g !in s.sealed || s.credential != Some(g) then s
      else s.(active := None, entryGeneration := s.entryGeneration + 1)
    case NewCredential(complete) =>
      if complete then s.(credential := Some(s.issued), issued := s.issued + 1) else s.(credential := None)
    case Leave =>
      if s.active.None? then s
      else s.(active := None, entryGeneration := s.entryGeneration + if s.active.value.kind == ShiftTask then 1 else 0)
    case ResetCredential => s.(active := None, entryGeneration := s.entryGeneration + 1)
  }

  function Reloaded(id: Option<int>): Option<Active> {
    if id.Some? then Some(Active(InventoryTask, id.value, Reload)) else None
  }

  /** A station that has just started, possibly with a task that was active when it stopped. */
  function Started(reloaded: Option<int>, credential: Option<nat>): Station {
    Station(None, {}, false, Reloaded(reloaded), 0, credential, if credential.Some? then credential.value + 1 else 0,
            {}, map[])
  }

  /** The station after a sequence of events: any interleaving of handlers. */
  function Replay(s: Station, events: seq<Event>): Station
    decreases |events|
  {
    if events == [] then s else Replay(Apply(s, events[0]), events[1..])
  }

  predicate Unfinished(h: Handler) { h.pc != Settled && h.pc != Over }

  ghost predicate Inv(s: Station) {
    && s.pending == s.lease.Some?
    && (s.lease.Some? ==> s.lease.value in s.handlers && s.lease.value !in s.released
                          && s.handlers[s.lease.value].pc != Over)
    && (s.lease.Some? && Unfinished(s.handlers[s.lease.value]) ==> s.active.None?)
    && (forall l :: l in s.released ==> l in s.handlers)
    && (forall l :: l in s.handlers && s.lease != Some(l) ==> l in s.released)
  }

  lemma ApplyKeepsInv(s: Station, e: Event)
    requires Inv(s)
    ensures Inv(Apply(s, e))
  {
    hide Resumed;
    if e.Resume? && e.l in s.handlers {
      ResumedKeepsInv(s, e.l, e.answer);
    }
  }

  lemma ResumedKeepsInv(s: Station, l: int, answer: bool)
    requires Inv(s) && l in s.handlers
    ensures Inv(Resumed(s, l, answer))
  {
  }

  lemma {:induction false} ReplayKeepsInv(s: Station, events: seq<Event>)
    requires Inv(s)
    ensures Inv(Replay(s, events))
    decreases |events|
  {
    if events == [] {
    } else {
      ApplyKeepsInv(s, events[0]);
      ReplayKeepsInv(Apply(s, events[0]), events[1..]);
    }
  }

  /** In every state that any interleaving reaches, a lease that was issued and not released is the one in the slot, so
      at most one is current, and the page shows an entry as pending exactly while one is. */
  lemma AtMostOneLease(reloaded: Option<int>, credential: Option<nat>, events: seq<Event>, l: int)
    ensures var s := Replay(Started(reloaded, credential), events);
      && (l in s.handlers && l !in s.released <==> s.lease == Some(l))
      && (IsCurrent(s, l) <==> s.lease == Some(l))
      && s.pending == s.lease.Some?
  {
    ReplayKeepsInv(Started(reloaded, credential), events);
  }

  /** No event of one handler, least of all a late release, retires the lease of another. Only its own handler or a
      drain does. */
  lemma StaleReleaseIsHarmless(reloaded: Option<int>, credential: Option<nat>, events: seq<Event>, e: Event, l: int)
    requires Replay(Started(reloaded, credential), events).lease == Some(l)
    ensures var s := Replay(Started(reloaded, credential), events);
      Apply(s, e).lease != Some(l) ==> e == Drain || e == Finally(l) || exists ok :: e == CancelSettled(l, ok)
  {
    ReplayKeepsInv(Started(reloaded, credential), events);
    var s := Replay(Started(reloaded, credential), events);
    if e.CancelSettled? && e.l == l {
      assert e == CancelSettled(l, e.ok);
    }
  }

  /** An event makes a floor task active only as the last stretch of the entry handler of the current lease, and only
      that handler's own, under a generation that is not sealed, and when none is active. */
  lemma PublishesOnlyUnderCurrentLease(reloaded: Option<int>, credential: Option<nat>, events: seq<Event>, e: Event)
    ensures var s := Replay(Started(reloaded, credential), events);
      var t := Apply(s, e);
      t.active != s.active && t.active.Some? ==>
        && e.Resume? && e.answer && e.l in s.handlers && s.handlers[e.l].pc == CanStillEnter
        && IsCurrent(s, e.l) && GenerationOk(s, s.handlers[e.l].generation)
        && t.active == Some(Active(s.handlers[e.l].kind, s.handlers[e.l].task, Entry(e.l, s.handlers[e.l].generation)))
        && s.active.None?
  {
    ReplayKeepsInv(Started(reloaded, credential), events);
  }

  /** Event e makes a task active on behalf of lease l. */
  predicate Publishes(s: Station, e: Event, l: int) {
    var t := Apply(s, e);
    t.active != s.active && t.active.Some? && t.active.value.author.Entry? && t.active.value.author.lease == l
  }

  /** A credential is made or lost somewhere along the events. */
  predicate Replaced(events: seq<Event>) {
    exists i :: 0 <= i < |events| && events[i].NewCredential?
  }

  /** The last of those changes is a loss. */
  predicate LostLast(events: seq<Event>) {
    exists i :: 0 <= i < |events| && events[i] == NewCredential(false)
      && forall j :: i < j < |events| ==> !events[j].NewCredential?
  }

  lemma ChangesCons(e: Event, rest: seq<Event>)
    ensures Replaced([e] + rest) <==> e.NewCredential? || Replaced(rest)
    ensures LostLast([e] + rest) <==> LostLast(rest) || (e == NewCredential(false) && !Replaced(rest))
  {
    var all := [e] + rest;
    assert all[0] == e;
    if Replaced(rest) {
      var i :| 0 <= i < |rest| && rest[i].NewCredential?;
      assert all[i + 1].NewCredential?;
    }
    if LostLast(rest) {
      LossStays(e, rest);
    }
    if LostLast(all) {
      LossWas(e, rest);
    }
  }

  lemma LossStays(e: Event, rest: seq<Event>)
    requires LostLast(rest)
    ensures LostLast([e] + rest)
  {
    var i :| 0 <= i < |rest| && rest[i] == NewCredential(false)
             && forall j :: i < j < |rest| ==> !rest[j].NewCredential?;
    assert ([e] + rest)[i + 1] == NewCredential(false);
  }

  lemma LossWas(e: Event, rest: seq<Event>)
    requires LostLast([e] + rest)
    ensures LostLast(rest) || (e == NewCredential(false) && !Replaced(rest))
  {
    var all := [e] + rest;
    var i :| 0 <= i < |all| && all[i] == NewCredential(false)
             && forall j :: i < j < |all| ==> !all[j].NewCredential?;
    forall j | i <= j < |rest| ensures !rest[j].NewCredential? {
      assert rest[j] == all[j + 1];
    }
    if i > 0 {
      assert rest[i - 1] == NewCredential(false);
    }
  }

  lemma {:induction false} CredentialAlong(s: Station, events: seq<Event>, g: nat)
    requires g < s.issued
    ensures Replay(s, events).credential == Some(g) <==> s.credential == Some(g) && !Replaced(events)
    decreases |events|
  {
    if events == [] {
    } else {
      hide Apply, Replaced, LostLast;
      CredentialStep(s, events[0]);
      CredentialAlong(Apply(s, events[0]), events[1..], g);
      ChangesCons(events[0], events[1..]);
      assert [events[0]] + events[1..] == events;
    }
  }

  lemma {:induction false} NoCredentialAlong(s: Station, events: seq<Event>)
    ensures Replay(s, events).credential.None? <==>
      LostLast(events) || (!Replaced(events) && s.credential.None?)
    decreases |events|
  {
    if events == [] {
    } else {
      hide Apply, Replaced, LostLast;
      CredentialStep(s, events[0]);
      NoCredentialAlong(Apply(s, events[0]), events[1..]);
      ChangesCons(events[0], events[1..]);
      assert [events[0]] + events[1..] == events;
    }
  }

  lemma CredentialStep(s: Station, e: Event)
    ensures s.issued <= Apply(s, e).issued
    ensures e.NewCredential? ==> Apply(s, e).credential == if e.complete then Some(s.issued) else None
    ensures !e.NewCredential? ==> Apply(s, e).credential == s.credential
  {
  }

  lemma {:induction false} HandlerKeeps(s: Station, events: seq<Event>, l: int)
    requires l in s.handlers
    ensures l in Replay(s, events).handlers
    ensures Replay(s, events).handlers[l].generation == s.handlers[l].generation
    decreases |events|
  {
    if events == [] {
    } else {
      HandlerStep(s, events[0], l);
      HandlerKeeps(Apply(s, events[0]), events[1..], l);
    }
  }

  lemma HandlerStep(s: Station, e: Event, l: int)
    requires l in s.handlers
    ensures l in Apply(s, e).handlers && Apply(s, e).handlers[l].generation == s.handlers[l].generation
  {
  }

  lemma PublishedGeneration(s: Station, e: Event, l: int)
    requires Publishes(s, e, l)
    ensures l in s.handlers && Apply(s, e).active.value.author.generation == s.handlers[l].generation
    ensures Apply(s, e).credential == s.credential
  {
  }

  /** When a task is entered under the very credential of the station, and not only under one that is not sealed: a
      handler that captured a generation, exactly when that was the credential as its lease was acquired and none has
      been made or lost since; a handler that captured none, exactly when the last change since was a loss, or there
      was none and no credential as its lease was acquired. */
  lemma PublishedUnderCredentialIff(s: Station, a: Event, after: seq<Event>, e: Event)
    requires a.Acquire? && Apply(s, a) != s && Publishes(Replay(Apply(s, a), after), e, a.l)
    ensures var t := Apply(Replay(Apply(s, a), after), e);
      && t.active.value.author.generation == a.generation
      && (a.generation.Some? ==>
            (t.credential == a.generation <==> s.credential == a.generation && !Replaced(after)))
      && (a.generation.None? ==>
            (t.credential == a.generation <==> LostLast(after) || (!Replaced(after) && s.credential.None?)))
  {
    hide Replay, Publishes;
    var acquired := Apply(s, a);
    HandlerKeeps(acquired, after, a.l);
    NoCredentialAlong(acquired, after);
    if a.generation.Some? {
      CredentialAlong(acquired, after, a.generation.value);
    }
    PublishedGeneration(Replay(acquired, after), e, a.l);
  }

  /** The station when its only handler, one with generation 0, waits at pc. */
  function Waits(pc: Pc): Station {
    Started(None, Some(0)).(lease := Some(0), pending := true,
                            handlers := map[0 := Handler(ShiftTask, 7, Some(0), pc)])
  }

  lemma Moves(from: Pc, to: Pc)
    ensures At(Waits(from), 0, to) == Waits(to)
  {
    var h := Handler(ShiftTask, 7, Some(0), from);
    assert map[0 := h][0 := h.(pc := to)] == map[0 := h.(pc := to)];
  }

  lemma Begins()
    ensures Apply(Apply(Started(None, Some(0)), Acquire(0, ShiftTask, 7, Some(0))), CancelSettled(0, true))
         == Waits(Held)
  {
    var s := Apply(Started(None, Some(0)), Acquire(0, ShiftTask, 7, Some(0)));
    assert s == Waits(Cancelling);
    Moves(Cancelling, Held);
  }

  lemma GoesOn()
    ensures Apply(Waits(Held), Enter(0)) == Waits(CanEnter)
    ensures Apply(Waits(CanEnter), Resume(0, true)) == Waits(RefreshingGrant)
    ensures Apply(Waits(ReadingGrant), Resume(0, false)) == Waits(CanStillEnter)
  {
    hide At;
    Moves(Held, CanEnter);
    Moves(CanEnter, RefreshingGrant);
    Moves(ReadingGrant, CanStillEnter);
  }

  lemma Refreshes()
    ensures Apply(Waits(RefreshingGrant), Resume(0, true)) == Waits(RefreshingAuthority)
    ensures Apply(Waits(RefreshingAuthority), Resume(0, true)) == Waits(ReadingGrant)
  {
    hide At;
    Moves(RefreshingGrant, RefreshingAuthority);
    Moves(RefreshingAuthority, ReadingGrant);
  }

  /** The difference is real: a handler goes on under a generation that has been replaced without being sealed, ... */
  lemma ReplacedGenerationPublishes()
    ensures var s := Replay(Started(None, Some(0)),
                            [Acquire(0, ShiftTask, 7, Some(0)), CancelSettled(0, true)]
                            + ([Enter(0), Resume(0, true)]
                               + ([Resume(0, true), Resume(0, true)]
                                  + ([Resume(0, false), NewCredential(true)] + [Resume(0, true)]))));
      s.active == Some(Active(ShiftTask, 7, Entry(0, Some(0)))) && s.credential == Some(1)
  {
    hide Replay, Apply, Waits;
    var rest3 := [Resume(0, false), NewCredential(true)] + [Resume(0, true)];
    var rest2 := [Resume(0, true), Resume(0, true)] + rest3;
    Begins();
    GoesOn();
    Refreshes();
    ReplayTwo(Started(None, Some(0)), Acquire(0, ShiftTask, 7, Some(0)), CancelSettled(0, true),
              [Enter(0), Resume(0, true)] + rest2);
    ReplayTwo(Waits(Held), Enter(0), Resume(0, true), rest2);
    ReplayTwo(Waits(RefreshingGrant), Resume(0, true), Resume(0, true), rest3);
    ReplayTwo(Waits(ReadingGrant), Resume(0, false), NewCredential(true), [Resume(0, true)]);
    ReplayCons(Apply(Waits(CanStillEnter), NewCredential(true)), Resume(0, true), []);
    assert [Resume(0, true)] + [] == [Resume(0, true)];
    ReplayNone(Apply(Apply(Waits(CanStillEnter), NewCredential(true)), Resume(0, true)));
    LastAnswer();
  }

  lemma LastAnswer()
    ensures var s := Apply(Apply(Waits(CanStillEnter), NewCredential(true)), Resume(0, true));
      s.active == Some(Active(ShiftTask, 7, Entry(0, Some(0)))) && s.credential == Some(1)
  {
  }

  /** ... and one that captured no generation goes on after a rejection. */
  lemma NoGenerationPublishes()
    ensures var s := Replay(Started(None, None),
                            [Acquire(0, ShiftTask, 7, None), CancelSettled(0, true)]
                            + ([NewCredential(true), Seal(0)]
                               + ([Rejected(0), Enter(0)] + ([Resume(0, true), Resume(0, true)] + []))));
      s.active == Some(Active(ShiftTask, 7, Entry(0, None))) && s.credential == Some(0) && 0 in s.sealed
  {
    hide Replay;
    var s1 := Apply(Apply(Started(None, None), Acquire(0, ShiftTask, 7, None)), CancelSettled(0, true));
    var s2 := Apply(Apply(s1, NewCredential(true)), Seal(0));
    var s3 := Apply(Apply(s2, Rejected(0)), Enter(0));
    var rest3 := [Resume(0, true), Resume(0, true)] + [];
    var rest2 := [Rejected(0), Enter(0)] + rest3;
    ReplayTwo(Started(None, None), Acquire(0, ShiftTask, 7, None), CancelSettled(0, true),
              [NewCredential(true), Seal(0)] + rest2);
    ReplayTwo(s1, NewCredential(true), Seal(0), rest2);
    ReplayTwo(s2, Rejected(0), Enter(0), rest3);
    ReplayTwo(s3, Resume(0, true), Resume(0, true), []);
    ReplayNone(Apply(Apply(s3, Resume(0, true)), Resume(0, true)));
  }

  lemma ReplayNone(s: Station)
    ensures Replay(s, []) == s
  {
  }

  lemma ReplayTwo(s: Station, a: Event, b: Event, rest: seq<Event>)
    ensures Replay(s, [a, b] + rest) == Replay(Apply(Apply(s, a), b), rest)
  {
    hide Apply;
    assert [a, b] + rest == [a] + ([b] + rest);
    ReplayCons(s, a, [b] + rest);
    ReplayCons(Apply(s, a), b, rest);
  }

  /** Whether a credential rejection of generation g took effect somewhere along the events. */
  predicate RejectedAlong(s: Station, events: seq<Event>, g: nat)
    decreases |events|
  {
    events != [] &&
    ((events[0] == Rejected(g) && g in s.sealed && s.credential == Some(g))
     || RejectedAlong(Apply(s, events[0]), events[1..], g))
  }

  predicate ActiveUnder(s: Station, g: nat) {
    s.active.Some? && s.active.value.author.Entry? && s.active.value.author.generation == Some(g)
  }

  lemma {:induction false} SealedStaysRetired(s: Station, events: seq<Event>, g: nat)
    requires g in s.sealed && !ActiveUnder(s, g)
    ensures !ActiveUnder(Replay(s, events), g)
    decreases |events|
  {
    if events == [] {
    } else {
      SealedStep(s, events[0], g);
      SealedStaysRetired(Apply(s, events[0]), events[1..], g);
    }
  }

  lemma SealedStep(s: Station, e: Event, g: nat)
    requires g in s.sealed && !ActiveUnder(s, g)
    ensures g in Apply(s, e).sealed && !ActiveUnder(Apply(s, e), g)
  {
  }

  /** Once the rejection of the current credential has taken effect, no task entered under that credential is active,
      and none becomes active, however many handlers are still on their way. */
  lemma {:induction false} RejectionIsFinal(s: Station, events: seq<Event>, g: nat)
    requires RejectedAlong(s, events, g)
    ensures !ActiveUnder(Replay(s, events), g)
    decreases |events|
  {
    if events[0] == Rejected(g) && g in s.sealed && s.credential == Some(g) {
      SealedStaysRetired(Apply(s, events[0]), events[1..], g);
    } else {
      RejectionIsFinal(Apply(s, events[0]), events[1..], g);
    }
  }

  /** How many times lease l makes a task active along the events. */
  function Publications(s: Station, events: seq<Event>, l: int): nat
    decreases |events|
  {
    if events == [] then 0
    else
      var t := Apply(s, events[0]);
      (if t.active != s.active && t.active.Some? && t.active.value.author.Entry? && t.active.value.author.lease == l
       then 1 else 0)
      + Publications(t, events[1..], l)
  }

  lemma {:induction false} NoPublicationAfterEnd(s: Station, events: seq<Event>, l: int)
    requires l in s.handlers && !Unfinished(s.handlers[l])
    ensures Publications(s, events, l) == 0
    decreases |events|
  {
    if events == [] {
    } else {
      EndedStep(s, events[0], l);
      NoPublicationAfterEnd(Apply(s, events[0]), events[1..], l);
    }
  }

  /** Lease l is over and the change from s to t is not its doing. */
  ghost predicate StaysEnded(s: Station, t: Station, l: int) {
    && l in t.handlers && !Unfinished(t.handlers[l])
    && (t.active != s.active && t.active.Some? && t.active.value.author.Entry? ==> t.active.value.author.lease != l)
  }

  lemma EndedStep(s: Station, e: Event, l: int)
    requires l in s.handlers && !Unfinished(s.handlers[l])
    ensures StaysEnded(s, Apply(s, e), l)
  {
    hide Resumed;
    if e.Resume? && e.l in s.handlers {
      ResumedElsewhere(s, e.l, e.answer, l);
    }
  }

  lemma ResumedElsewhere(s: Station, m: int, answer: bool, l: int)
    requires m in s.handlers && l in s.handlers && !Unfinished(s.handlers[l])
    ensures StaysEnded(s, Resumed(s, m, answer), l)
  {
  }

  /** A lease is good for one task at most. */
  lemma {:induction false} OnePublicationPerLease(s: Station, events: seq<Event>, l: int)
    ensures Publications(s, events, l) <= 1
    decreases |events|
  {
    if events == [] {
    } else {
      var t := Apply(s, events[0]);
      if t.active != s.active && t.active.Some? && t.active.value.author == Entry(l, t.active.value.author.generation) {
        NoPublicationAfterEnd(t, events[1..], l);
      } else {
        OnePublicationPerLease(t, events[1..], l);
      }
    }
  }

  lemma {:induction false} ReplayCons(s: Station, a: Event, rest: seq<Event>)
    ensures Replay(s, [a] + rest) == Replay(Apply(s, a), rest)
  {
    assert ([a] + rest)[1..] == rest;
  }

  /** No lease gets stuck: in every reachable state with a lease in the slot, the remaining stretches of its own handler
      free the slot, even if every answer it waits for is a refusal. */
  lemma NoLeaseIsStuck(reloaded: Option<int>, credential: Option<nat>, events: seq<Event>)
    requires Replay(Started(reloaded, credential), events).lease.Some?
    ensures var s := Replay(Started(reloaded, credential), events);
      exists rest :: Replay(s, rest).lease.None? && !Replay(s, rest).pending
  {
    ReplayKeepsInv(Started(reloaded, credential), events);
    var s := Replay(Started(reloaded, credential), events);
    var rest := WindsUp(s, s.lease.value);
    ReplayKeepsInv(s, rest);
  }

  lemma {:induction false} WindsUp(s: Station, l: int) returns (rest: seq<Event>)
    requires Inv(s) && s.lease == Some(l)
    ensures Replay(s, rest).lease.None?
    decreases PcRank(s.handlers[l].pc)
  {
    var e := match s.handlers[l].pc
             case Cancelling => CancelSettled(l, false)
             case Held => Abandon(l)
             case Settled => Finally(l)
             case _ => Resume(l, false);
    ApplyKeepsInv(s, e);
    var t := Apply(s, e);
    if t.lease.None? {
      rest := [e];
      ReplayCons(s, e, []);
      assert [e] + [] == [e];
    } else {
      var more := WindsUp(t, l);
      rest := [e] + more;
      ReplayCons(s, e, more);
    }
  }

  function PcRank(pc: Pc): nat {
    match pc
    case Cancelling => 10
    case Held => 9
    case CanEnter => 8
    case RefreshingGrant => 7
    case RefreshingAuthority => 6
    case ReadingGrant => 5
    case Projecting => 4
    case Admitting => 3
    case CanStillEnter => 2
    case Settled => 1
    case Over => 0
  }

  // What every event is for.

  /** Lease l is current and its handler may go on. */
  predicate Good(s: Station, l: int) {
    l in s.handlers && IsCurrent(s, l) && GenerationOk(s, s.handlers[l].generation)
  }

  /** Where the handler of a good lease goes when what it awaits answers. */
  function GoodNext(h: Handler, answer: bool): Pc {
    match h.pc
    case CanEnter => if h.generation.Some? then RefreshingGrant else CanStillEnter
    case RefreshingGrant => RefreshingAuthority
    case RefreshingAuthority => ReadingGrant
    case ReadingGrant => if !answer then CanStillEnter else if h.kind == ShiftTask then Projecting else Admitting
    case Projecting => Admitting
    case _ => CanStillEnter
  }

  /** The answers that let an entry through from where its handler stands; `granted` is whether there is a grant. */
  function Affirmative(h: Handler, granted: bool): seq<bool>
    decreases PcRank(h.pc)
  {
    if !Awaiting(h.pc) then []
    else if h.pc == CanStillEnter then [true]
    else
      var answer := h.pc == ReadingGrant ==> granted;
      [answer] + Affirmative(h.(pc := GoodNext(h, answer)), granted)
  }

  function Resumes(l: int, answers: seq<bool>): seq<Event> {
    if answers == [] then [] else [Resume(l, answers[0])] + Resumes(l, answers[1..])
  }

  /** The task of lease l is active, by its entry, and nothing else of the station has changed. */
  ghost predicate Entered(s: Station, t: Station, l: int) {
    l in s.handlers &&
    var h := s.handlers[l];
    t == At(s, l, Settled).(active := Some(Active(h.kind, h.task, Entry(l, h.generation))),
                            entryGeneration := s.entryGeneration + if h.kind == ShiftTask then 1 else 0)
  }

  lemma GoodStep(s: Station, l: int, answer: bool)
    requires Good(s, l) && Awaiting(s.handlers[l].pc) && s.handlers[l].pc != CanStillEnter
    requires answer || s.handlers[l].pc == ReadingGrant
    ensures Apply(s, Resume(l, answer)) == At(s, l, GoodNext(s.handlers[l], answer))
  {
  }

  lemma GoodStays(s: Station, l: int, pc: Pc)
    requires Good(s, l)
    ensures Good(At(s, l, pc), l) && At(s, l, pc).handlers[l] == s.handlers[l].(pc := pc)
    ensures At(At(s, l, pc), l, Settled) == At(s, l, Settled)
  {
    assert s.handlers[l := s.handlers[l].(pc := pc)][l := s.handlers[l].(pc := Settled)]
        == s.handlers[l := s.handlers[l].(pc := Settled)];
  }

  lemma LastStep(s: Station, l: int)
    requires Good(s, l) && s.handlers[l].pc == CanStillEnter
    ensures Entered(s, Apply(s, Resume(l, true)), l)
  {
  }

  lemma {:induction false} GoesThrough(s: Station, l: int, granted: bool)
    requires Good(s, l) && Awaiting(s.handlers[l].pc)
    ensures Entered(s, Replay(s, Resumes(l, Affirmative(s.handlers[l], granted))), l)
    decreases PcRank(s.handlers[l].pc)
  {
    var h := s.handlers[l];
    hide Apply, At, Replay, Good, GoodNext, Entered;
    if h.pc == CanStillEnter {
      assert Resumes(l, [true]) == [Resume(l, true)] + [];
      ReplayCons(s, Resume(l, true), []);
      ReplayNone(Apply(s, Resume(l, true)));
      LastStep(s, l);
    } else {
      var answer := h.pc == ReadingGrant ==> granted;
      var next := h.(pc := GoodNext(h, answer));
      GoodStep(s, l, answer);
      GoodStays(s, l, next.pc);
      NextAwaits(h, answer);
      var rest := Affirmative(next, granted);
      assert Affirmative(h, granted) == [answer] + rest && ([answer] + rest)[1..] == rest;
      ReplayCons(s, Resume(l, answer), Resumes(l, rest));
      GoesThrough(At(s, l, next.pc), l, granted);
      EnteredFrom(s, l, next.pc, Replay(At(s, l, next.pc), Resumes(l, rest)));
    }
  }

  lemma NextAwaits(h: Handler, answer: bool)
    requires Awaiting(h.pc) && h.pc != CanStillEnter
    ensures Awaiting(GoodNext(h, answer)) && PcRank(GoodNext(h, answer)) < PcRank(h.pc)
  {
  }

  lemma EnteredFrom(s: Station, l: int, pc: Pc, t: Station)
    requires Good(s, l) && Entered(At(s, l, pc), t, l)
    ensures Entered(s, t, l)
  {
    GoodStays(s, l, pc);
  }

  /** The answers spelled out. */
  lemma AffirmativeIs(h: Handler, granted: bool)
    requires h.pc == CanEnter
    ensures h.generation.None? ==> Affirmative(h, granted) == [true, true]
    ensures h.generation.Some? && !granted ==> Affirmative(h, granted) == [true, true, true, false, true]
    ensures h.generation.Some? && granted && h.kind == ShiftTask ==>
      Affirmative(h, granted) == [true, true, true, true, true, true, true]
    ensures h.generation.Some? && granted && h.kind == InventoryTask ==>
      Affirmative(h, granted) == [true, true, true, true, true, true]
  {
    hide Affirmative;
    AnswersOnce(h, granted);
    if h.generation.Some? {
      AnswersOnce(h.(pc := RefreshingGrant), granted);
      AnswersOnce(h.(pc := RefreshingAuthority), granted);
      AnswersOnce(h.(pc := ReadingGrant), granted);
      AnswersOnce(h.(pc := Projecting), granted);
      AnswersOnce(h.(pc := Admitting), granted);
    }
    AnswersOnce(h.(pc := CanStillEnter), granted);
  }

  lemma AnswersOnce(h: Handler, granted: bool)
    requires Awaiting(h.pc)
    ensures var answer := h.pc == ReadingGrant ==> granted;
      Affirmative(h, granted)
        == if h.pc == CanStillEnter then [true] else [answer] + Affirmative(h.(pc := GoodNext(h, answer)), granted)
  {
    if h.pc != CanStillEnter {
      NextAwaits(h, h.pc == ReadingGrant ==> granted);
    }
  }

  /** The answers that an entry of this kind needs, from its first question on. */
  function Wanted(kind: Kind, generation: Option<nat>, granted: bool): seq<bool> {
    if generation.None? then [true, true]
    else if !granted then [true, true, true, false, true]
    else if kind == ShiftTask then [true, true, true, true, true, true, true]
    else [true, true, true, true, true, true]
  }

  /** A task whose entry nothing refuses is entered: from every state in which lease l is current, its page holds it and
      its generation is none or not sealed, the entry with affirmative answers and no other event makes the task of the
      handler active, for shifts and inventories, with and without a generation and a grant; and the page's finally then
      frees the slot. */
  lemma EntryGoesThrough(s: Station, l: int, granted: bool)
    requires Good(s, l) && s.handlers[l].pc == Held
    ensures var h := s.handlers[l];
      var t := Replay(s, [Enter(l)] + Resumes(l, Wanted(h.kind, h.generation, granted)));
      && Entered(s, t, l)
      && t.active == Some(Active(h.kind, h.task, Entry(l, h.generation)))
      && t.entryGeneration == s.entryGeneration + (if h.kind == ShiftTask then 1 else 0)
      && Apply(t, Finally(l)).lease.None? && Apply(t, Finally(l)).active == t.active
  {
    var h := s.handlers[l];
    var events := Resumes(l, Wanted(h.kind, h.generation, granted));
    assert Apply(s, Enter(l)) == At(s, l, CanEnter);
    GoodStays(s, l, CanEnter);
    AffirmativeIs(h.(pc := CanEnter), granted);
    hide Replay, Resumes, Affirmative;
    ReplayCons(s, Enter(l), events);
    GoesThrough(At(s, l, CanEnter), l, granted);
    EnteredFrom(s, l, CanEnter, Replay(At(s, l, CanEnter), events));
  }

  /** A free station hands out the lease that the entry needs. */
  lemma FreeStationAdmits(s: Station, l: int, kind: Kind, task: int, generation: Option<nat>)
    requires s.lease.None? && s.active.None? && l !in s.handlers && l !in s.released
    requires Exists(s, generation) && GenerationOk(s, generation)
    ensures var t := Apply(Apply(s, Acquire(l, kind, task, generation)), CancelSettled(l, true));
      && t.pending && Good(t, l) && t.handlers[l] == Handler(kind, task, generation, Held)
  {
  }

  /** However the handler of the current lease ends, and also when the station drains, the slot is free at once. */
  lemma EveryEndFreesTheSlot(s: Station, l: int)
    requires l in s.handlers && IsCurrent(s, l)
    ensures var t := Apply(s, Drain); t.lease.None? && !t.pending && l in t.released
    ensures s.handlers[l].pc == Cancelling ==>
      var t := Apply(s, CancelSettled(l, false)); t.lease.None? && !t.pending && l in t.released
    ensures s.handlers[l].pc == Held ==>
      var t := Apply(Apply(s, Abandon(l)), Finally(l)); t.lease.None? && !t.pending && t.active == s.active
    ensures Awaiting(s.handlers[l].pc) ==>
      var t := Apply(Apply(s, Throws(l)), Finally(l)); t.lease.None? && !t.pending && t.active == s.active
    ensures s.handlers[l].pc == Settled ==>
      var t := Apply(s, Finally(l)); t.lease.None? && !t.pending && t.active == s.active
  {
  }

  /** A refusal ends the entry without a task, and so does, at the next check, the loss of the lease or of the
      generation. */
  lemma RefusedEntryEnds(s: Station, l: int, answer: bool)
    requires l in s.handlers
    requires (s.handlers[l].pc in {CanEnter, Admitting, CanStillEnter} && !answer)
             || (s.handlers[l].pc in {Projecting, Admitting, CanStillEnter} && !Good(s, l))
             || (s.handlers[l].pc == CanEnter && s.handlers[l].generation.None? && !Good(s, l))
             || (s.handlers[l].pc == ReadingGrant && !answer && !Good(s, l))
    ensures Apply(s, Resume(l, answer)) == At(s, l, Settled)
  {
  }

  /** A lease retired while the cancellation was awaited is not handed out, and one retired later is not entered. */
  lemma RetiredEntryDoesNotStart(s: Station, l: int, ok: bool)
    requires l in s.handlers
    ensures s.handlers[l].pc == Held && !Good(s, l) ==> Apply(s, Enter(l)) == At(s, l, Settled)
    ensures s.handlers[l].pc == Cancelling && !IsCurrent(s, l) ==>
      Apply(s, CancelSettled(l, ok)).handlers[l].pc == Over && l in Apply(s, CancelSettled(l, ok)).released
  {
  }

  /** What takes the floor task away, and which of it outdates work that was begun for the task. */
  lemma ClearingEvents(s: Station, g: nat)
    ensures g in s.sealed && s.credential == Some(g) ==>
      Apply(s, Rejected(g)) == s.(active := None, entryGeneration := s.entryGeneration + 1)
    ensures g !in s.sealed || s.credential != Some(g) ==> Apply(s, Rejected(g)) == s
    ensures Apply(s, ResetCredential).active.None? && Apply(s, ResetCredential).entryGeneration > s.entryGeneration
    ensures Apply(s, Leave).active.None?
    ensures Apply(s, Leave).entryGeneration > s.entryGeneration
            <==> s.active.Some? && s.active.value.kind == ShiftTask
  {
  }

  /** Leaving a reloaded task leaves the station as if nothing had been reloaded. */
  lemma ReloadLeavesNoTrace(id: int, credential: Option<nat>)
    ensures Started(Some(id), credential).active.Some?
    ensures Apply(Started(Some(id), credential), Leave) == Started(None, credential)
  {
  }

  /** The refs of the station, as the handlers read and write them. */
  class StationRefs {
    var shiftEntryLease: Option<int>
    var released: set<int>
    var shiftEntryPending: bool
    var activeTask: Option<Active>
    var shiftEntryGeneration: nat
    var credential: Option<nat>
    var issued: nat
    var sealed: set<nat>
    var handlers: map<int, Handler>

    function Snapshot(): Station
      reads this
    {
      Station(shiftEntryLease, released, shiftEntryPending, activeTask, shiftEntryGeneration, credential, issued,
              sealed, handlers)
    }

    constructor (reloaded: Option<int>, credential: Option<nat>)
      ensures Snapshot() == Started(reloaded, credential) && Inv(Snapshot())
    {
      shiftEntryLease := None;
      released := {};
      shiftEntryPending := false;
      activeTask := Reloaded(reloaded);
      shiftEntryGeneration := 0;
      this.credential := credential;
      issued := if credential.Some? then credential.value + 1 else 0;
      sealed := {};
      handlers := map[];
    }

    method ReleaseLease(l: int)
      modifies this
      ensures Snapshot() == Release(old(Snapshot()), l)
    {
      if l in released {
        return;
      }
      released := released + {l};
      if shiftEntryLease == Some(l) {
        shiftEntryLease := None;
        shiftEntryPending := false;
      }
    }

    /** Up to the await of cancelUpdate; false when an entry is already active. */
    method AcquireShiftEntry(l: int, kind: Kind, task: int, generation: Option<nat>)
      returns (ok: bool)
      requires Inv(Snapshot()) && l !in handlers && Exists(Snapshot(), generation)
      modifies this
      ensures Inv(Snapshot())
      ensures Snapshot() == Apply(old(Snapshot()), Acquire(l, kind, task, generation))
      ensures ok == (old(shiftEntryLease).None? && old(activeTask).None?)
    {
      if shiftEntryLease.Some? || activeTask.Some? {
        return false;
      }
      ApplyKeepsInv(Snapshot(), Acquire(l, kind, task, generation));
      handlers := handlers[l := Handler(kind, task, generation, Cancelling)];
      shiftEntryLease := Some(l);
      shiftEntryPending := true;
      return true;
    }

    /** After the await of cancelUpdate. */
    method CancelUpdateSettled(l: int, cancelled: bool) returns (ok: bool)
      requires Inv(Snapshot()) && l in handlers && handlers[l].pc == Cancelling
      modifies this
      ensures Inv(Snapshot()) && Snapshot() == Apply(old(Snapshot()), CancelSettled(l, cancelled))
      ensures ok == (cancelled && old(IsCurrent(Snapshot(), l)))
    {
      ApplyKeepsInv(Snapshot(), CancelSettled(l, cancelled));
      if !cancelled || !(l !in released && shiftEntryLease == Some(l)) {
        handlers := handlers[l := handlers[l].(pc := Over)];
        ReleaseLease(l);
        return false;
      }
      handlers := handlers[l := handlers[l].(pc := Held)];
      return true;
    }

    /** The first stretch of the entry handlers, up to the first replacement check. */
    method HandleEntered(l: int) returns (waiting: bool)
      requires Inv(Snapshot()) && l in handlers && handlers[l].pc == Held
      modifies this
      ensures Inv(Snapshot()) && Snapshot() == Apply(old(Snapshot()), Enter(l))
      ensures waiting == old(IsCurrent(Snapshot(), l) && GenerationOk(Snapshot(), handlers[l].generation))
    {
      ApplyKeepsInv(Snapshot(), Enter(l));
      var h := handlers[l];
      waiting := shiftEntryLease == Some(l) && l !in released && (h.generation.None? || h.generation.value !in sealed);
      handlers := handlers[l := h.(pc := if waiting then CanEnter else Settled)];
    }

    /** A stretch between two awaits inside the entry handlers, when what was awaited has answered. */
    method ContinueEntry(l: int, answer: bool)
      requires Inv(Snapshot()) && l in handlers && Awaiting(handlers[l].pc) && handlers[l].pc != CanStillEnter
      modifies this
      ensures Inv(Snapshot()) && Snapshot() == Apply(old(Snapshot()), Resume(l, answer))
    {
      ghost var was := Snapshot();
      ApplyKeepsInv(was, Resume(l, answer));
      var next := AfterAwait(l, answer);
      hide Inv, Apply;
      handlers := handlers[l := handlers[l].(pc := next)];
      assert Snapshot() == At(was, l, next);
    }

    method AfterAwait(l: int, answer: bool) returns (next: Pc)
      requires l in handlers && Awaiting(handlers[l].pc) && handlers[l].pc != CanStillEnter
      ensures Apply(Snapshot(), Resume(l, answer)) == At(Snapshot(), l, next)
    {
      var h := handlers[l];
      var current := l !in released && shiftEntryLease == Some(l);
      var retired := !current || (h.generation.Some? && h.generation.value in sealed);
      match h.pc {
        case CanEnter =>
          if !answer {
            return Settled;
          }
          if h.generation.Some? {
            return RefreshingGrant;
          }
        case RefreshingGrant =>
          return RefreshingAuthority;
        case RefreshingAuthority =>
          return ReadingGrant;
        case ReadingGrant =>
          if answer {
            return if h.kind == ShiftTask then Projecting else Admitting;
          }
        case Projecting =>
          return if retired then Settled else Admitting;
        case Admitting =>
          if !answer {
            return Settled;
          }
      }
      return if retired then Settled else CanStillEnter;
    }

    /** What the entry handlers await is rejected: the handler is over. */
    method AwaitRejected(l: int)
      requires Inv(Snapshot()) && l in handlers && Awaiting(handlers[l].pc)
      modifies this
      ensures Inv(Snapshot()) && Snapshot() == Apply(old(Snapshot()), Throws(l))
    {
      ApplyKeepsInv(Snapshot(), Throws(l));
      handlers := handlers[l := handlers[l].(pc := Settled)];
    }

    /** The exits of the shift screen and of the inventory screen. */
    method LeaveTask()
      requires Inv(Snapshot()) && activeTask.Some?
      modifies this
      ensures Inv(Snapshot()) && Snapshot() == Apply(old(Snapshot()), Leave)
    {
      ApplyKeepsInv(Snapshot(), Leave);
      if activeTask.value.kind == ShiftTask {
        shiftEntryGeneration := shiftEntryGeneration + 1;
      }
      activeTask := None;
    }

    /** The last stretch of the entry handlers, after the second replacement check. */
    method FinishEntry(l: int, canEnter: bool)
      requires Inv(Snapshot()) && l in handlers && handlers[l].pc == CanStillEnter
      modifies this
      ensures Inv(Snapshot()) && Snapshot() == Apply(old(Snapshot()), Resume(l, canEnter))
    {
      ApplyKeepsInv(Snapshot(), Resume(l, canEnter));
      var h := handlers[l];
      handlers := handlers[l := h.(pc := Settled)];
      if !canEnter {
        return;
      }
      if !(l !in released && shiftEntryLease == Some(l)) || (h.generation.Some? && h.generation.value in sealed) {
        return;
      }
      if h.kind == ShiftTask {
        shiftEntryGeneration := shiftEntryGeneration + 1;
      }
      activeTask := Some(Active(h.kind, h.task, Entry(l, h.generation)));
    }

    method OnCredentialRejected(g: nat)
      requires Inv(Snapshot()) && g in sealed
      modifies this
      ensures Inv(Snapshot()) && Snapshot() == Apply(old(Snapshot()), Rejected(g))
    {
      ApplyKeepsInv(Snapshot(), Rejected(g));
      if credential != Some(g) {
        return;
      }
      activeTask := None;
      shiftEntryGeneration := shiftEntryGeneration + 1;
    }

    method OnDrain()
      requires Inv(Snapshot())
      modifies this
      ensures Inv(Snapshot()) && Snapshot() == Apply(old(Snapshot()), Drain)
    {
      ApplyKeepsInv(Snapshot(), Drain);
      if shiftEntryLease.Some? {
        ReleaseLease(shiftEntryLease.value);
      }
    }
  }
}
