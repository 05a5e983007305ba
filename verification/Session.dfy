/** The session stand-in, with every await a point where others act: logins, entries, raises and closes of
    many requests, and revocations of their subjects. */
module Session {
  import opened Wrappers

  const LIFETIME_MS := 3600 * 1000

  datatype Phase = Open | Closing | Closed

  datatype Kept = Kept(subject: string, amr: seq<string>, phase: Phase, openedAt: int, until: int)

  /** What a cookie's secret opens, until the cookie ends. */
  datatype Cookie = Cookie(handle: string, until: int)

  datatype Stand = Stand(kept: map<string, Kept>, handles: map<string, Cookie>)

  function HandleOf(s: Stand, secret: string, now: int): Option<string> {
    if secret in s.handles && s.handles[secret].until > now then Some(s.handles[secret].handle) else None
  }

  /** Open and not ended: what is looked at before the subject's revocation is asked. */
  predicate Stands(s: Stand, handle: string, now: int) {
    handle in s.kept && s.kept[handle].phase.Open? && s.kept[handle].until > now
  }

  // ---- What the code does between two awaits ----

  function Saved(s: Stand, handle: string, subject: string, amr: seq<string>, now: int): Stand {
    s.(kept := s.kept[handle := Kept(subject, amr, Open, now, now + LIFETIME_MS)])
  }

  function Baked(s: Stand, handle: string, secret: string): Stand
    requires handle in s.kept
  {
    s.(handles := s.handles[secret := Cookie(handle, s.kept[handle].openedAt + LIFETIME_MS)])
  }

  function With(held: seq<string>, more: seq<string>): seq<string> {
    if more == [] then held
    else
      var init := With(held, more[..|more| - 1]);
      if more[|more| - 1] in init then init else init + [more[|more| - 1]]
  }

  function Rotated(s: Stand, secret: string, next: string, handle: string, amr: seq<string>): Stand
    requires handle in s.kept
  {
    var found := s.kept[handle];
    s.(handles := (s.handles - {secret})[next := Cookie(handle, found.until)],
       kept := s.kept[handle := found.(amr := With(With([], found.amr), amr))])
  }

  predicate Gone(s: Stand, handle: string, now: int) {
    handle !in s.kept || (!s.kept[handle].phase.Closing? && s.kept[handle].until <= now)
  }

  function CloseBegun(s: Stand, handle: string, now: int): Stand {
    if Gone(s, handle, now) || s.kept[handle].phase.Closed? then s
    else s.(kept := s.kept[handle := s.kept[handle].(phase := Closing)])
  }

  /** The participants answered: any of them failing leaves the close pending. */
  function CloseEnded(s: Stand, handle: string, failed: bool, now: int): Stand {
    if handle !in s.kept || failed then s
    else s.(kept := s.kept[handle := s.kept[handle].(phase := Closed, until := now + LIFETIME_MS)])
  }

  class SessionStandIn {
    var kept: map<string, Kept>
    /** The handle each cookie's secret opens, until the cookie ends. */
    var handles: map<string, Cookie>

    ghost function Here(): Stand
      reads this
    {
      Stand(kept, handles)
    }

    constructor ()
      ensures Here() == Stand(map[], map[])
    {
      kept, handles := map[], map[];
    }

    method LookUp(secret: string, now: int) returns (handle: Option<string>)
      ensures handle == HandleOf(Here(), secret, now)
    {
      if secret !in handles { return None; }
      var found := handles[secret];
      return if found.until > now then Some(found.handle) else None;
    }

    method LiveAt(handle: string, now: int) returns (live: bool)
      ensures live == Stands(Here(), handle, now)
    {
      if handle !in kept { return false; }
      var found := kept[handle];
      return found.phase.Open? && found.until > now;
    }

    /** A session saved stands until its lifetime has passed; no other session, and no cookie, changes. */
    method Save(handle: string, subject: string, amr: seq<string>, now: int)
      modifies this`kept
      ensures Here() == Saved(old(Here()), handle, subject, amr, now)
      ensures forall t :: Stands(Here(), handle, t) <==> t < now + LIFETIME_MS
      ensures kept - {handle} == old(kept) - {handle}
    {
      var openedAt := now;
      var until := openedAt + LIFETIME_MS;
      kept := kept[handle := Kept(subject, amr, Open, openedAt, until)];
    }

    /** A cookie made opens its session until the lifetime from the opening has passed. */
    method Bake(handle: string, secret: string)
      requires handle in kept
      modifies this`handles
      ensures Here() == Baked(old(Here()), handle, secret)
      ensures forall t ::
        HandleOf(Here(), secret, t) == if t < kept[handle].openedAt + LIFETIME_MS then Some(handle) else None
      ensures handles - {secret} == old(handles) - {secret}
    {
      handles := handles[secret := Cookie(handle, kept[handle].openedAt + LIFETIME_MS)];
    }

    /** A raise: the old secret opens nothing; the new one opens the session, to the same end; its amr holds each
        value of both lists, once; every other cookie and session is as it was. */
    method Rotate(secret: string, next: string, handle: string, amr: seq<string>)
      requires handle in kept && next != secret && next !in handles
      modifies this
      ensures Here() == Rotated(old(Here()), secret, next, handle, amr)
      ensures secret !in handles && forall t :: HandleOf(Here(), secret, t) == None
      ensures forall t :: HandleOf(Here(), next, t) == if t < old(kept)[handle].until then Some(handle) else None
      ensures handles - {next} == old(handles) - {secret} && kept - {handle} == old(kept) - {handle}
      ensures handle in kept && kept[handle] == old(kept)[handle].(amr := kept[handle].amr)
      ensures forall i, j :: 0 <= i < j < |kept[handle].amr| ==> kept[handle].amr[i] != kept[handle].amr[j]
      ensures forall x :: x in kept[handle].amr <==> x in old(kept)[handle].amr || x in amr
    {
      var found := kept[handle];
      handles := handles - {secret};
      handles := handles[next := Cookie(handle, found.until)];
      var raised := AddEach([], found.amr);
      WithEach([], found.amr);
      WithEach(raised, amr);
      raised := AddEach(raised, amr);
      kept := kept[handle := found.(amr := raised)];
    }

    /** Whether the participants are to be asked; then the session stands no more. */
    method BeginClose(handle: string, now: int) returns (ask: bool)
      modifies this`kept
      ensures Here() == CloseBegun(old(Here()), handle, now)
      ensures ask <==> !Gone(old(Here()), handle, now) && !old(kept)[handle].phase.Closed?
      ensures if ask then forall t :: !Stands(Here(), handle, t) else kept == old(kept)
      ensures kept - {handle} == old(kept) - {handle}
    {
      if handle !in kept { return false; }
      var found := kept[handle];
      if !found.phase.Closing? && found.until <= now { return false; }
      if found.phase.Closed? { return false; }
      kept := kept[handle := found.(phase := Closing)];
      return true;
    }

    /** The participants' answer: closed, it is kept for the lifetime from here; any of them failing leaves it. */
    method EndClose(handle: string, failed: bool, now: int)
      modifies this`kept
      ensures Here() == CloseEnded(old(Here()), handle, failed, now)
      ensures if failed then kept == old(kept) else forall t :: !Stands(Here(), handle, t)
      ensures kept - {handle} == old(kept) - {handle}
    {
      if failed || handle !in kept { return; }
      kept := kept[handle := kept[handle].(phase := Closed, until := now + LIFETIME_MS)];
    }
  }

  /** A set filled from a list, in order. */
  method AddEach(held: seq<string>, more: seq<string>) returns (all: seq<string>)
    ensures all == With(held, more)
  {
    all := held;
    var i := 0;
    while i < |more|
      invariant i <= |more| && all == With(held, more[..i])
    {
      assert more[..i + 1][..i] == more[..i];
      if more[i] !in all { all := all + [more[i]]; }
      i := i + 1;
    }
    assert more[..i] == more;
  }

  /** A raised session's amr holds each value of both lists, once. */
  lemma {:induction false} WithEach(held: seq<string>, more: seq<string>)
    requires forall i, j :: 0 <= i < j < |held| ==> held[i] != held[j]
    ensures forall i, j :: 0 <= i < j < |With(held, more)| ==> With(held, more)[i] != With(held, more)[j]
    ensures forall x :: x in With(held, more) <==> x in held || x in more
  {
    if more != [] {
      WithEach(held, more[..|more| - 1]);
      assert more == more[..|more| - 1] + [more[|more| - 1]];
    }
  }

  // ---- Requests, each going on from one await to the next ----

  datatype LoginAt = AwaitsComparison | Refused | Cleared | Opened | Failed

  /** A login whose proof began at `provenSince`, with the handle and the secret it drew. */
  datatype Login = Login(subject: string, provenSince: int, handle: string, secret: string, at: LoginAt)

  datatype EntryAt = AwaitsFirst | AwaitsJudge | AwaitsSecond(short: bool) | Entered | Short | Absent

  datatype Entry = Entry(handle: string, at: EntryAt)

  datatype Raise = Raise(handle: string, secret: string, done: bool)

  /** The stand-in, its subjects' revocation boundaries, the clock, and the requests under way. */
  datatype World = World(
    stand: Stand,
    boundary: map<string, int>,
    now: int,
    logins: map<string, Login>,
    entries: map<nat, Entry>,
    raises: map<nat, Raise>)

  datatype Step =
    | Pass(ms: nat)
    | Revoke(subject: string, time: int)
    | Save(subject: string, amr: seq<string>, provenSince: int, handle: string, secret: string)
    | CompareLogin(handle: string, revoked: bool)
    | FinishLogin(handle: string, listed: bool)
    | BeginClose(handle: string)
    | EndClose(handle: string, failed: bool)
    | BeginEntry(id: nat, secret: string)
    | CompareFirst(id: nat, revoked: bool)
    | JudgeEntry(id: nat, short: bool)
    | CompareSecond(id: nat, revoked: bool)
    | BeginRaise(id: nat, secret: string)
    | FinishRaise(id: nat, revoked: bool, next: string, amr: seq<string>)

  predicate Revoked(w: World, subject: string, time: int) {
    subject in w.boundary && time <= w.boundary[subject]
  }

  /** A boundary never moves back. */
  function BoundaryMoved(boundary: map<string, int>, subject: string, time: int): int {
    if subject in boundary && boundary[subject] > time then boundary[subject] else time
  }

  /** All that is known of a comparison: a time at or before the boundary is revoked. */
  predicate Compares(w: World, subject: string, time: int, revoked: bool) {
    Revoked(w, subject, time) ==> revoked
  }

  function EntryMoved(w: World, id: nat, at: EntryAt): World
    requires id in w.entries
  {
    w.(entries := w.entries[id := w.entries[id].(at := at)])
  }

  function LoginMoved(w: World, handle: string, at: LoginAt): World
    requires handle in w.logins
  {
    w.(logins := w.logins[handle := w.logins[handle].(at := at)])
  }

  /** What can happen next. Handles and secrets are drawn afresh; a comparison is made when it is answered. */
  predicate Enabled(w: World, step: Step) {
    match step
    case Pass(_) => true
    case Revoke(_, _) => true
    case Save(_, _, _, handle, _) => handle !in w.logins && handle !in w.stand.kept
    case CompareLogin(h, revoked) =>
      && h in w.logins && w.logins[h].at.AwaitsComparison?
      && Compares(w, w.logins[h].subject, w.logins[h].provenSince, revoked)
    case FinishLogin(h, _) => h in w.logins && w.logins[h].at.Cleared? && h in w.stand.kept
    case BeginClose(_) => true
    case EndClose(_, _) => true
    case BeginEntry(id, _) => id !in w.entries
    case CompareFirst(id, revoked) =>
      && id in w.entries && w.entries[id].at.AwaitsFirst? && w.entries[id].handle in w.stand.kept
      && var k := w.stand.kept[w.entries[id].handle]; Compares(w, k.subject, k.openedAt, revoked)
    case JudgeEntry(id, _) => id in w.entries && w.entries[id].at.AwaitsJudge?
    case CompareSecond(id, revoked) =>
      && id in w.entries && w.entries[id].at.AwaitsSecond? && w.entries[id].handle in w.stand.kept
      && var k := w.stand.kept[w.entries[id].handle]; Compares(w, k.subject, k.openedAt, revoked)
    case BeginRaise(id, _) => id !in w.raises
    case FinishRaise(id, revoked, next, _) =>
      && id in w.raises && !w.raises[id].done && w.raises[id].handle in w.stand.kept
      && next != w.raises[id].secret && next !in w.stand.handles
      && var k := w.stand.kept[w.raises[id].handle]; Compares(w, k.subject, k.openedAt, revoked)
  }

  function Next(w: World, step: Step): World
    requires Enabled(w, step)
  {
    match step
    case Pass(ms) => w.(now := w.now + ms)
    case Revoke(subject, time) => w.(boundary := w.boundary[subject := BoundaryMoved(w.boundary, subject, time)])
    case Save(subject, amr, provenSince, handle, secret) =>
      w.(stand := Saved(w.stand, handle, subject, amr, w.now),
         logins := w.logins[handle := Login(subject, provenSince, handle, secret, AwaitsComparison)])
    case CompareLogin(h, revoked) => LoginMoved(w, h, if revoked then Refused else Cleared)
    case FinishLogin(h, listed) =>
      if listed then LoginMoved(w.(stand := Baked(w.stand, h, w.logins[h].secret)), h, Opened)
      else LoginMoved(w, h, Failed)
    case BeginClose(h) => w.(stand := CloseBegun(w.stand, h, w.now))
    case EndClose(h, failed) => w.(stand := CloseEnded(w.stand, h, failed, w.now))
    case BeginEntry(id, secret) =>
      var handle := HandleOf(w.stand, secret, w.now);
      if handle.Some? && Stands(w.stand, handle.value, w.now)
      then w.(entries := w.entries[id := Entry(handle.value, AwaitsFirst)])
      else w.(entries := w.entries[id := Entry("", Absent)])
    case CompareFirst(id, revoked) => EntryMoved(w, id, if revoked then Absent else AwaitsJudge)
    case JudgeEntry(id, short) =>
      EntryMoved(w, id, if Stands(w.stand, w.entries[id].handle, w.now) then AwaitsSecond(short) else Absent)
    case CompareSecond(id, revoked) =>
      EntryMoved(w, id, if revoked then Absent else if w.entries[id].at.short then Short else Entered)
    case BeginRaise(id, secret) =>
      var handle := HandleOf(w.stand, secret, w.now);
      if handle.Some? && Stands(w.stand, handle.value, w.now)
      then w.(raises := w.raises[id := Raise(handle.value, secret, false)])
      else w.(raises := w.raises[id := Raise("", secret, true)])
    case FinishRaise(id, revoked, next, amr) =>
      var raise := w.raises[id];
      var done := w.(raises := w.raises[id := raise.(done := true)]);
      if revoked then done else done.(stand := Rotated(w.stand, raise.secret, next, raise.handle, amr))
  }

  /** The stand-in among its requests, as each goes on to its next await. */
  class Composition {
    const stand: SessionStandIn
    var boundary: map<string, int>
    var now: int
    var logins: map<string, Login>
    var entries: map<nat, Entry>
    var raises: map<nat, Raise>

    ghost function Here(): World
      reads this, stand
    {
      World(stand.Here(), boundary, now, logins, entries, raises)
    }

    constructor ()
      ensures Here() == START && fresh(stand)
    {
      stand := new SessionStandIn();
      boundary, now, logins, entries, raises := map[], 0, map[], map[], map[];
    }

    /** The handle a cookie's secret opens, of a session that stands. */
    method HandleIn(secret: string) returns (handle: Option<string>)
      ensures handle.Some? <==>
        HandleOf(stand.Here(), secret, now).Some?
        && Stands(stand.Here(), HandleOf(stand.Here(), secret, now).value, now)
      ensures handle.Some? ==> handle == HandleOf(stand.Here(), secret, now)
    {
      handle := stand.LookUp(secret, now);
      if handle.Some? {
        var live := stand.LiveAt(handle.value, now);
        if !live { handle := None; }
      }
    }

    method MoveEntry(id: nat, at: EntryAt)
      requires id in entries
      modifies this`entries
      ensures Here() == EntryMoved(old(Here()), id, at)
    {
      entries := entries[id := entries[id].(at := at)];
    }

    method MoveLogin(handle: string, at: LoginAt)
      requires handle in logins
      modifies this`logins
      ensures Here() == LoginMoved(old(Here()), handle, at)
    {
      logins := logins[handle := logins[handle].(at := at)];
    }

    method TakeLogin(step: Step)
      requires Enabled(Here(), step) && (step.Save? || step.CompareLogin? || step.FinishLogin?)
      modifies this`logins, stand
      ensures Here() == Next(old(Here()), step)
    {
      match step
      case Save(subject, amr, provenSince, handle, secret) =>
        stand.Save(handle, subject, amr, now);
        logins := logins[handle := Login(subject, provenSince, handle, secret, AwaitsComparison)];
      case CompareLogin(handle, revoked) => MoveLogin(handle, if revoked then Refused else Cleared);
      case FinishLogin(handle, listed) =>
        if listed { stand.Bake(handle, logins[handle].secret); }
        MoveLogin(handle, if listed then Opened else Failed);
    }

    method TakeEntry(step: Step)
      requires Enabled(Here(), step)
      requires step.BeginEntry? || step.CompareFirst? || step.JudgeEntry? || step.CompareSecond?
      modifies this`entries
      ensures Here() == Next(old(Here()), step)
    {
      match step
      case BeginEntry(id, secret) =>
        var handle := HandleIn(secret);
        entries := entries[id := if handle.Some? then Entry(handle.value, AwaitsFirst) else Entry("", Absent)];
      case CompareFirst(id, revoked) => MoveEntry(id, if revoked then Absent else AwaitsJudge);
      case JudgeEntry(id, short) =>
        var live := stand.LiveAt(entries[id].handle, now);
        MoveEntry(id, if live then AwaitsSecond(short) else Absent);
      case CompareSecond(id, revoked) =>
        MoveEntry(id, if revoked then Absent else if entries[id].at.short then Short else Entered);
    }

    method TakeRaise(step: Step)
      requires Enabled(Here(), step) && (step.BeginRaise? || step.FinishRaise?)
      modifies this`raises, stand
      ensures Here() == Next(old(Here()), step)
    {
      match step
      case BeginRaise(id, secret) =>
        var handle := HandleIn(secret);
        raises := raises[id := if handle.Some? then Raise(handle.value, secret, false) else Raise("", secret, true)];
      case FinishRaise(id, revoked, next, amr) =>
        var raise := raises[id];
        raises := raises[id := raise.(done := true)];
        if !revoked { stand.Rotate(raise.secret, next, raise.handle, amr); }
    }

    /** What can happen next, happening in place. */
    method Take(step: Step)
      requires Enabled(Here(), step)
      modifies this, stand
      ensures Here() == Next(old(Here()), step)
    {
      match step
      case Pass(ms) => now := now + ms;
      case Revoke(subject, time) => boundary := boundary[subject := BoundaryMoved(boundary, subject, time)];
      case BeginClose(handle) => var ask := stand.BeginClose(handle, now);
      case EndClose(handle, failed) => stand.EndClose(handle, failed, now);
      case Save(_, _, _, _, _) => TakeLogin(step);
      case CompareLogin(_, _) => TakeLogin(step);
      case FinishLogin(_, _) => TakeLogin(step);
      case BeginRaise(_, _) => TakeRaise(step);
      case FinishRaise(_, _, _, _) => TakeRaise(step);
      case _ => TakeEntry(step);
    }
  }

  const START := World(Stand(map[], map[]), map[], 0, map[], map[], map[])

  // ---- What every reachable world keeps ----

  predicate PastComparison(l: Login) { l.at.Cleared? || l.at.Opened? || l.at.Failed? }

  ghost predicate ReachedByCookie(w: World, h: string) { h in w.logins && PastComparison(w.logins[h]) }

  ghost predicate KeptWell(w: World, h: string) {
    && (h in w.logins ==> h in w.stand.kept && w.stand.kept[h].subject == w.logins[h].subject)
    && (h in w.stand.kept ==> w.stand.kept[h].openedAt <= w.now)
  }

  ghost predicate CookieWell(w: World, secret: string) {
    secret in w.stand.handles ==> ReachedByCookie(w, w.stand.handles[secret].handle)
  }

  ghost predicate EntryWell(w: World, id: nat) {
    id in w.entries && !w.entries[id].at.Absent? ==> ReachedByCookie(w, w.entries[id].handle)
  }

  ghost predicate RaiseWell(w: World, id: nat) {
    id in w.raises && !w.raises[id].done ==> ReachedByCookie(w, w.raises[id].handle)
  }

  /** A session is saved by its login, and reached by a cookie only past its comparison. */
  ghost predicate ByLogin(w: World) {
    && (forall h :: KeptWell(w, h)) && (forall x :: CookieWell(w, x))
    && (forall id :: EntryWell(w, id)) && (forall id :: RaiseWell(w, id))
  }

  /** Past its comparison, a login whose proof began by the boundary was opened by the boundary. */
  ghost predicate CoveredOne(w: World, h: string) {
    h in w.logins && h in w.stand.kept && PastComparison(w.logins[h])
    && Revoked(w, w.logins[h].subject, w.logins[h].provenSince)
    ==> Revoked(w, w.logins[h].subject, w.stand.kept[h].openedAt)
  }

  ghost predicate Covered(w: World) { forall h :: CoveredOne(w, h) }

  ghost predicate Inv(w: World) { ByLogin(w) && Covered(w) }

  ghost predicate SessionFixed(w: World, v: World, h: string) {
    h in w.stand.kept ==>
      && h in v.stand.kept && v.stand.kept[h].openedAt == w.stand.kept[h].openedAt
      && v.stand.kept[h].subject == w.stand.kept[h].subject
  }

  ghost predicate LoginFixed(w: World, v: World, h: string) {
    h in w.logins ==>
      && h in v.logins && v.logins[h].subject == w.logins[h].subject
      && v.logins[h].provenSince == w.logins[h].provenSince
      && (PastComparison(w.logins[h]) ==> PastComparison(v.logins[h]))
  }

  /** What a step leaves of a session: its opening, its login and every boundary stand. */
  ghost predicate Fixes(w: World, v: World) {
    && w.now <= v.now && (forall subject, t: int :: Revoked(w, subject, t) ==> Revoked(v, subject, t))
    && (forall h :: SessionFixed(w, v, h)) && (forall h :: LoginFixed(w, v, h))
  }

  /** A revocation is written with a time at most so far behind the clock at its write. */
  predicate OnTime(w: World, step: Step, lag: nat) { step.Revoke? ==> w.now - lag <= step.time }

  lemma StepFixes(w: World, step: Step)
    requires Enabled(w, step)
    ensures Fixes(w, Next(w, step))
  {
  }

  lemma StepCookie(w: World, step: Step, x: string)
    requires ByLogin(w) && Enabled(w, step)
    ensures CookieWell(Next(w, step), x)
  {
    StepFixes(w, step);
    assert CookieWell(w, x);
    if step.FinishRaise? { assert RaiseWell(w, step.id); }
    if x in w.stand.handles { assert LoginFixed(w, Next(w, step), w.stand.handles[x].handle); }
  }

  lemma StepEntry(w: World, step: Step, id: nat)
    requires ByLogin(w) && Enabled(w, step)
    ensures EntryWell(Next(w, step), id)
  {
    StepFixes(w, step);
    assert EntryWell(w, id);
    if id in w.entries { assert LoginFixed(w, Next(w, step), w.entries[id].handle); }
    if step.BeginEntry? { assert CookieWell(w, step.secret); }
  }

  lemma StepRaise(w: World, step: Step, id: nat)
    requires ByLogin(w) && Enabled(w, step)
    ensures RaiseWell(Next(w, step), id)
  {
    StepFixes(w, step);
    assert RaiseWell(w, id);
    if id in w.raises { assert LoginFixed(w, Next(w, step), w.raises[id].handle); }
    if step.BeginRaise? { assert CookieWell(w, step.secret); }
  }

  lemma StepKept(w: World, step: Step, h: string)
    requires ByLogin(w) && Enabled(w, step)
    ensures KeptWell(Next(w, step), h)
  {
    assert KeptWell(w, h);
  }

  lemma StepByLogin(w: World, step: Step)
    requires ByLogin(w) && Enabled(w, step)
    ensures ByLogin(Next(w, step))
  {
    var v := Next(w, step);
    forall h ensures KeptWell(v, h) { StepKept(w, step, h); }
    forall x ensures CookieWell(v, x) { StepCookie(w, step, x); }
    forall id ensures EntryWell(v, id) { StepEntry(w, step, id); }
    forall id ensures RaiseWell(v, id) { StepRaise(w, step, id); }
  }

  /** A login past its comparison before a step, or by it: by it, its proof is after the boundary. */
  lemma StepCovers(w: World, step: Step, h: string)
    requires ByLogin(w) && CoveredOne(w, h) && Enabled(w, step) && OnTime(w, step, 0)
    ensures CoveredOne(Next(w, step), h)
  {
    StepFixes(w, step);
    assert KeptWell(w, h) && SessionFixed(w, Next(w, step), h) && LoginFixed(w, Next(w, step), h);
  }

  lemma StepKeeps(w: World, step: Step)
    requires Inv(w) && Enabled(w, step) && OnTime(w, step, 0)
    ensures Inv(Next(w, step))
  {
    StepByLogin(w, step);
    forall h ensures CoveredOne(Next(w, step), h) { StepCovers(w, step, h); }
  }

  ghost predicate Walk(steps: seq<Step>, worlds: seq<World>) {
    && |worlds| == |steps| + 1 && worlds[0] == START
    && forall n: nat :: n < |steps| ==> Enabled(worlds[n], steps[n]) && worlds[n + 1] == Next(worlds[n], steps[n])
  }

  ghost predicate AllOnTime(steps: seq<Step>, worlds: seq<World>, lag: nat)
    requires |worlds| == |steps| + 1
  {
    forall n :: 0 <= n < |steps| ==> OnTime(worlds[n], steps[n], lag)
  }

  lemma {:induction false} AlwaysByLogin(steps: seq<Step>, worlds: seq<World>, n: nat)
    requires Walk(steps, worlds) && n <= |steps|
    ensures ByLogin(worlds[n])
  {
    if n > 0 {
      AlwaysByLogin(steps, worlds, n - 1);
      StepByLogin(worlds[n - 1], steps[n - 1]);
    }
  }

  lemma {:induction false} AlwaysKept(steps: seq<Step>, worlds: seq<World>, n: nat)
    requires Walk(steps, worlds) && AllOnTime(steps, worlds, 0) && n <= |steps|
    ensures Inv(worlds[n])
  {
    if n > 0 {
      AlwaysKept(steps, worlds, n - 1);
      StepKeeps(worlds[n - 1], steps[n - 1]);
    }
  }

  // ---- A revocation against a login and its session's entries ----

  lemma RevokedTurn(steps: seq<Step>, worlds: seq<World>, n: nat, subject: string, time: int)
    requires Walk(steps, worlds) && n < |steps|
    ensures Revoked(worlds[n], subject, time) ==> Revoked(worlds[n + 1], subject, time)
    ensures steps[n].Revoke? && steps[n].subject == subject && time <= steps[n].time ==>
      Revoked(worlds[n + 1], subject, time)
  {
    StepFixes(worlds[n], steps[n]);
  }

  /** Call `i` revokes the subject up to this time. */
  predicate RevokesAt(steps: seq<Step>, i: nat, subject: string, time: int) {
    i < |steps| && steps[i].Revoke? && steps[i].subject == subject && time <= steps[i].time
  }

  lemma {:induction false} RevokedSince(
    steps: seq<Step>, worlds: seq<World>, i: nat, j: nat, subject: string, time: int)
    requires Walk(steps, worlds) && i < j <= |steps| && RevokesAt(steps, i, subject, time)
    ensures Revoked(worlds[j], subject, time)
    decreases j
  {
    if j > i + 1 { RevokedSince(steps, worlds, i, j - 1, subject, time); }
    RevokedTurn(steps, worlds, j - 1, subject, time);
  }

  /** Reached by a cookie, a session whose proof began by the boundary was opened by it. */
  lemma OpenedByThen(w: World, h: string)
    requires Inv(w) && ReachedByCookie(w, h) && Revoked(w, w.logins[h].subject, w.logins[h].provenSince)
    ensures h in w.stand.kept && Revoked(w, w.stand.kept[h].subject, w.stand.kept[h].openedAt)
  {
    assert CoveredOne(w, h) && KeptWell(w, h);
  }

  /** Once a revocation is written, at a time the clock had not passed, no session whose proof began by that
      time is entered by a cookie, however the login and the entry came in among it; the last comparison of the
      entry answers it absent. */
  lemma NeverEnteredOnceRevoked(steps: seq<Step>, worlds: seq<World>, i: nat, j: nat, id: nat, revoked: bool)
    requires Walk(steps, worlds) && AllOnTime(steps, worlds, 0)
    requires i < j < |steps| && steps[j] == CompareSecond(id, revoked)
    requires var h := worlds[j].entries[id].handle;
      h in worlds[j].logins && RevokesAt(steps, i, worlds[j].logins[h].subject, worlds[j].logins[h].provenSince)
    ensures worlds[j + 1].entries[id].at == Absent
  {
    var w := worlds[j];
    var h := w.entries[id].handle;
    AlwaysKept(steps, worlds, j);
    RevokedSince(steps, worlds, i, j, w.logins[h].subject, w.logins[h].provenSince);
    assert EntryWell(w, id);
    OpenedByThen(w, h);
  }

  /** In every run whose revocations are written at most so late, none is entered so. */
  ghost predicate NeverEntered(lag: nat) {
    forall steps: seq<Step>, worlds: seq<World>, i: nat, j: nat, id: nat, revoked: bool ::
      Walk(steps, worlds) && AllOnTime(steps, worlds, lag) && RevokedEntry(steps, worlds, i, j, id, revoked)
      ==> worlds[j + 1].entries[id].at == Absent
  }

  /** Step `j` is the last comparison of an entry to a session whose proof step `i` revokes. */
  predicate RevokedEntry(steps: seq<Step>, worlds: seq<World>, i: nat, j: nat, id: nat, revoked: bool) {
    && i < j < |steps| && |worlds| == |steps| + 1 && steps[j] == CompareSecond(id, revoked) && id in worlds[j].entries
    && id in worlds[j + 1].entries && worlds[j].entries[id].handle in worlds[j].logins
    && var login := worlds[j].logins[worlds[j].entries[id].handle];
      RevokesAt(steps, i, login.subject, login.provenSince)
  }

  /** A login whose proof begins at 0 opens at 1; then its subject is revoked up to 0, and it is entered. */
  function LateSteps(): seq<Step> {
    [Pass(1), Step.Save("s", [], 0, "h", "c"), CompareLogin("h", false), FinishLogin("h", true), Revoke("s", 0),
     Step.BeginEntry(0, "c"), CompareFirst(0, false), JudgeEntry(0, false), CompareSecond(0, false)]
  }

  function LateKept(): Kept { Kept("s", [], Open, 1, 1 + LIFETIME_MS) }

  function LateWorld(n: nat): World
    requires n <= 9
  {
    if n == 0 then START
    else if n == 1 then START.(now := 1)
    else
      var at := if n == 2 then AwaitsComparison else if n == 3 then Cleared else Opened;
      World(
        Stand(map["h" := LateKept()], if n < 4 then map[] else map["c" := Cookie("h", 1 + LIFETIME_MS)]),
        if n < 5 then map[] else map["s" := 0], 1, map["h" := Login("s", 0, "h", "c", at)],
        if n < 6 then map[]
        else map[0 := Entry("h",
          if n == 6 then AwaitsFirst else if n == 7 then AwaitsJudge
          else if n == 8 then AwaitsSecond(false) else Entered)],
        map[])
  }

  lemma LateTurn(n: nat, lag: nat)
    requires n < 9 && lag >= 1
    ensures Enabled(LateWorld(n), LateSteps()[n]) && OnTime(LateWorld(n), LateSteps()[n], lag)
    ensures LateWorld(n + 1) == Next(LateWorld(n), LateSteps()[n])
  {
    var w := LateWorld(n);
    if n == 1 {
      assert Next(w, LateSteps()[n]).stand.kept == map["h" := LateKept()];
    } else if n == 3 {
      assert Next(w, LateSteps()[n]).stand.handles == map["c" := Cookie("h", 1 + LIFETIME_MS)];
    } else if n == 5 {
      assert HandleOf(w.stand, "c", 1) == Some("h") && Stands(w.stand, "h", 1);
    }
  }

  /** A revocation written with a time the clock had passed lets in a session opened between the two. */
  lemma LateLetsIn(lag: nat)
    requires lag >= 1
    ensures !NeverEntered(lag)
  {
    var worlds := seq(10, n requires 0 <= n < 10 => LateWorld(n));
    forall n: nat | n < 9
      ensures Enabled(worlds[n], LateSteps()[n]) && OnTime(worlds[n], LateSteps()[n], lag)
      ensures worlds[n + 1] == Next(worlds[n], LateSteps()[n])
    {
      LateTurn(n, lag);
    }
    assert Walk(LateSteps(), worlds) && AllOnTime(LateSteps(), worlds, lag);
    assert RevokedEntry(LateSteps(), worlds, 4, 8, 0, false);
  }

  /** None is ever entered exactly where no revocation is written with a time the clock had passed. */
  lemma NeverEnteredExactly(lag: nat)
    ensures NeverEntered(lag) <==> lag == 0
  {
    if lag == 0 {
      forall steps: seq<Step>, worlds: seq<World>, i: nat, j: nat, id: nat, revoked: bool |
        Walk(steps, worlds) && AllOnTime(steps, worlds, lag) && RevokedEntry(steps, worlds, i, j, id, revoked)
        ensures worlds[j + 1].entries[id].at == Absent
      {
        NeverEnteredOnceRevoked(steps, worlds, i, j, id, revoked);
      }
    } else {
      LateLetsIn(lag);
    }
  }

  /** Nor is its cookie raised to another. */
  lemma NeverRaisedOnceRevoked(
    steps: seq<Step>, worlds: seq<World>, i: nat, j: nat, id: nat, revoked: bool, next: string, amr: seq<string>)
    requires Walk(steps, worlds) && AllOnTime(steps, worlds, 0)
    requires i < j < |steps| && steps[j] == FinishRaise(id, revoked, next, amr)
    requires var h := worlds[j].raises[id].handle;
      h in worlds[j].logins && RevokesAt(steps, i, worlds[j].logins[h].subject, worlds[j].logins[h].provenSince)
    ensures worlds[j + 1].stand == worlds[j].stand
  {
    var w := worlds[j];
    var h := w.raises[id].handle;
    AlwaysKept(steps, worlds, j);
    RevokedSince(steps, worlds, i, j, w.logins[h].subject, w.logins[h].provenSince);
    assert RaiseWell(w, id);
    OpenedByThen(w, h);
  }

  lemma RefusedTurn(steps: seq<Step>, worlds: seq<World>, n: nat, h: string)
    requires Walk(steps, worlds) && n < |steps| && h in worlds[n].logins && worlds[n].logins[h].at.Refused?
    ensures h in worlds[n + 1].logins && worlds[n + 1].logins[h].at.Refused?
  {
  }

  lemma {:induction false} RefusedStays(steps: seq<Step>, worlds: seq<World>, i: nat, j: nat, h: string)
    requires Walk(steps, worlds) && i <= j <= |steps| && h in worlds[i].logins && worlds[i].logins[h].at.Refused?
    ensures h in worlds[j].logins && worlds[j].logins[h].at.Refused?
    decreases j
  {
    if i < j {
      RefusedStays(steps, worlds, i, j - 1, h);
      RefusedTurn(steps, worlds, j - 1, h);
    }
  }

  /** A login whose comparison saw the revocation leaves no cookie to its session, then or ever. */
  lemma NoCookieOnceSeen(steps: seq<Step>, worlds: seq<World>, i: nat, j: nat, h: string, revoked: bool)
    requires Walk(steps, worlds) && i < j <= |steps| && steps[i] == CompareLogin(h, revoked)
    requires Revoked(worlds[i], worlds[i].logins[h].subject, worlds[i].logins[h].provenSince)
    ensures forall x :: x in worlds[j].stand.handles ==> worlds[j].stand.handles[x].handle != h
  {
    assert Enabled(worlds[i], steps[i]);
    RefusedStays(steps, worlds, i + 1, j, h);
    AlwaysByLogin(steps, worlds, j);
    forall x | x in worlds[j].stand.handles ensures worlds[j].stand.handles[x].handle != h {
      assert CookieWell(worlds[j], x);
    }
  }
}
