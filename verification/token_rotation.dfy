/** Cross-process rotation of the host's refresh token (crates/host-core/src/auth.rs).

    Any number of processes share one state directory and one backend. The
    whole of `safe_refresh_if_needed` and `reauth_with_signing_key` is cut into
    atomic steps, one per lock operation, file operation or backend exchange,
    and the steps of all processes interleave freely with the clock, with
    crashes and with decisions of the backend. */
module TokenRotation {
  import opened Basics

  type Time = int

  /** Refresh tokens are named by the order in which the backend minted them. */
  type Token = nat

  /** `token_is_expiring(.., 60)`. */
  const MARGIN: Time := 60

  /** `refresh == None` is the empty string; `expiresAt == None` an undecodable expiry claim. */
  datatype Auth = Auth(refresh: Option<Token>, expiresAt: Option<Time>)

  datatype SigningKey = Absent | Undecodable | Usable

  /** The part of `AgentState` that matters here: `auth`, and the signing key of `host`. */
  datatype Store = Store(auth: Option<Auth>, host: Option<SigningKey>)

  /** `state.json`, and the refresh token kept beside it in the keyring. */
  datatype Disk = Disk(json: Store, ring: Option<Token>)

  /** One token pair handed out by the backend. */
  datatype Issue = Issue(token: Token, expiresAt: Option<Time>, at: Time)

  /** `presented` lists the refresh tokens the backend has processed, `revoked` the live
      tokens the backend itself has withdrawn. */
  datatype Server = Server(live: set<Token>, revoked: set<Token>, next: Token,
                           presented: seq<Token>, issues: seq<Issue>, keyAccepted: bool)

  datatype Error = NotLoggedIn | AuthRevoked | Transient | Io

  /** `Fine(asOf)`: the call returned `Ok`; the expiry it relies on was looked at or issued at `asOf`. */
  datatype Outcome = Fine(asOf: Time) | Failed(error: Error)

  /** Where a process stands in `safe_refresh_if_needed`. */
  datatype Pc =
    | Idle
    | Waiting                                // near expiry in memory; asks for the lock
    | Locked                                 // has the lock, before the reload
    | Reloaded(snap: Store)                  // the reloaded auth is near expiry as well
    | Refused(snap: Store)                   // the backend answered 401
    | Answered(snap: Store, pair: Auth, at: Time)  // a new pair, known to this process only
    | RingStored(snap: Store, pair: Auth, at: Time) // keyring written, state.json not yet
    | Done(outcome: Outcome)

  /** `entry` and `started` record the caller's store and the time when the call began. */
  datatype Proc = Proc(mem: Store, entry: Store, started: Time, pc: Pc)

  datatype State = State(now: Time, lock: Option<nat>, disk: Disk, server: Server, procs: seq<Proc>)

  datatype Label =
    | Tick(dt: nat)
    | Begin(p: nat)
    | LockFails(p: nat)
    | Acquire(p: nat)
    | LoadFails(p: nat)
    | Reload(p: nat)
    | SendRefresh(p: nat, expiresAt: Option<Time>)
    | RefreshUnreached(p: nat)
    | RefreshReplyLost(p: nat, expiresAt: Option<Time>)
    | SendReauth(p: nat, expiresAt: Option<Time>)
    | ReauthUnreached(p: nat)
    | ReauthReplyLost(p: nat, expiresAt: Option<Time>)
    | PutSecret(p: nat, ok: bool)
    | WriteState(p: nat, ok: bool)
    | Restart(p: nat)
    | OtherSave(p: nat)
    | Withdraw(t: Token)
    | AcceptKey(b: bool)

  predicate Expiring(expiresAt: Option<Time>, now: Time) {
    expiresAt.None? || expiresAt.value - MARGIN <= now
  }

  // ---------------------------------------------------------------- the disk

  /** `StateStore::load`: an empty refresh token is filled in from the keyring. */
  function Load(d: Disk): Store {
    if d.json.auth.Some? && d.json.auth.value.refresh.None?
    then d.json.(auth := Some(d.json.auth.value.(refresh := d.ring)))
    else d.json
  }

  /** First half of `StateStore::save`: the secret goes to the keyring. */
  function PutRing(d: Disk, s: Store): Disk {
    if s.auth.Some? && s.auth.value.refresh.Some? then d.(ring := s.auth.value.refresh) else d
  }

  /** Second half: state.json is replaced atomically by the redacted store. */
  function WriteJson(d: Disk, s: Store): Disk {
    d.(json := if s.auth.Some? then s.(auth := Some(s.auth.value.(refresh := None))) else s)
  }

  function TokensOf(a: Auth): set<Token> {
    if a.refresh.Some? then {a.refresh.value} else {}
  }

  /** The refresh token that a process loading the disk would find. */
  function DiskTokens(d: Disk): set<Token> {
    var s := Load(d);
    if s.auth.Some? then TokensOf(s.auth.value) else {}
  }

  // ------------------------------------------------------------- the backend

  function Mint(v: Server, expiresAt: Option<Time>, now: Time): Server {
    v.(live := v.live + {v.next}, next := v.next + 1, issues := v.issues + [Issue(v.next, expiresAt, now)])
  }

  /** `/token/refresh`: a live token is spent for a new pair; any other token is answered 401. */
  function Exchange(v: Server, t: Token, expiresAt: Option<Time>, now: Time): Server {
    var w := v.(presented := v.presented + [t]);
    if t in v.live then Mint(w.(live := w.live - {t}), expiresAt, now) else w
  }

  // --------------------------------------------------------------- the steps

  predicate InLock(pc: Pc) {
    pc.Locked? || pc.Reloaded? || pc.Refused? || pc.Answered? || pc.RingStored?
  }

  predicate InCall(pc: Pc) {
    pc.Waiting? || InLock(pc)
  }

  function At(s: State, p: nat, pc: Pc): State
    requires p < |s.procs|
  {
    s.(procs := s.procs[p := s.procs[p].(pc := pc)])
  }

  /** The call returns; the lock guard is dropped. */
  function Return(s: State, p: nat, o: Outcome): State
    requires p < |s.procs|
  {
    At(s, p, Done(o)).(lock := None)
  }

  function ReturnOk(s: State, p: nat, mem: Store, asOf: Time): State
    requires p < |s.procs|
  {
    s.(procs := s.procs[p := s.procs[p].(mem := mem, pc := Done(Fine(asOf)))], lock := None)
  }

  predicate Enabled(s: State, l: Label) {
    match l
    case Tick(_) => true
    case Withdraw(t) => t in s.server.live
    case AcceptKey(_) => true
    case Begin(p) => p < |s.procs| && !InCall(s.procs[p].pc)
    case LockFails(p) => p < |s.procs| && s.procs[p].pc.Waiting?
    case Acquire(p) => p < |s.procs| && s.procs[p].pc.Waiting? && s.lock.None?
    case LoadFails(p) => p < |s.procs| && s.procs[p].pc.Locked?
    case Reload(p) => p < |s.procs| && s.procs[p].pc.Locked?
    case SendRefresh(p, _) => CanSend(s, p)
    case RefreshUnreached(p) => p < |s.procs| && s.procs[p].pc.Reloaded?
    case RefreshReplyLost(p, _) => CanSend(s, p)
    case SendReauth(p, _) => p < |s.procs| && s.procs[p].pc.Refused?
    case ReauthUnreached(p) => CanSign(s, p)
    case ReauthReplyLost(p, _) => CanSign(s, p) && s.server.keyAccepted
    case PutSecret(p, _) => p < |s.procs| && s.procs[p].pc.Answered?
    case WriteState(p, _) => p < |s.procs| && s.procs[p].pc.RingStored?
    case Restart(p) => p < |s.procs|
    case OtherSave(p) => p < |s.procs| && !InCall(s.procs[p].pc)
  }

  predicate CanSend(s: State, p: nat) {
    p < |s.procs| && s.procs[p].pc.Reloaded? &&
    s.procs[p].pc.snap.auth.Some? && s.procs[p].pc.snap.auth.value.refresh.Some?
  }

  predicate CanSign(s: State, p: nat) {
    p < |s.procs| && s.procs[p].pc.Refused? && s.procs[p].pc.snap.host == Some(Usable)
  }

  function Sent(s: State, p: nat): Token
    requires CanSend(s, p)
  {
    s.procs[p].pc.snap.auth.value.refresh.value
  }

  function Next(s: State, l: Label): State
    requires Enabled(s, l)
  {
    match l
    case Tick(dt) => s.(now := s.now + dt)
    case Withdraw(t) => s.(server := s.server.(live := s.server.live - {t}, revoked := s.server.revoked + {t}))
    case AcceptKey(b) => s.(server := s.server.(keyAccepted := b))
    case Begin(p) => StepBegin(s, p)
    case LockFails(p) => At(s, p, Done(Failed(Io)))
    case Acquire(p) => At(s, p, Locked).(lock := Some(p))
    case LoadFails(p) => Return(s, p, Failed(Io))
    case Reload(p) => StepReload(s, p)
    case SendRefresh(p, e) => StepRefresh(s, p, e)
    case RefreshUnreached(p) => Return(s, p, Failed(Transient))
    case RefreshReplyLost(p, e) =>
      Return(s.(server := Exchange(s.server, Sent(s, p), e, s.now)), p, Failed(Transient))
    case SendReauth(p, e) => StepReauth(s, p, e)
    case ReauthUnreached(p) => Return(s, p, Failed(Transient))
    case ReauthReplyLost(p, e) => Return(s.(server := Mint(s.server, e, s.now)), p, Failed(Transient))
    case PutSecret(p, ok) => StepPut(s, p, ok)
    case WriteState(p, ok) => StepWrite(s, p, ok)
    case Restart(p) => StepRestart(s, p)
    case OtherSave(p) =>
      s.(disk := WriteJson(PutRing(s.disk, s.procs[p].mem), s.procs[p].mem))
  }

  /** Entry of the call: the login check, and the early return while memory is fresh. */
  function StepBegin(s: State, p: nat): State
    requires p < |s.procs|
  {
    var mem := s.procs[p].mem;
    var pc :=
      if mem.auth.None? || mem.host.None? then Done(Failed(NotLoggedIn))
      else if !Expiring(mem.auth.value.expiresAt, s.now) then Done(Fine(s.now))
      else Waiting;
    s.(procs := s.procs[p := Proc(mem, mem, s.now, pc)])
  }

  /** Reload inside the lock: adopt what another process wrote, or go on with its snapshot. */
  function StepReload(s: State, p: nat): State
    requires p < |s.procs|
  {
    var snap := Load(s.disk);
    if snap.auth.None? then Return(s, p, Failed(NotLoggedIn))
    else if !Expiring(snap.auth.value.expiresAt, s.now) then ReturnOk(s, p, snap, s.now)
    else if snap.auth.value.refresh.None? then Return(s, p, Failed(AuthRevoked))
    else At(s, p, Reloaded(snap))
  }

  function StepRefresh(s: State, p: nat, e: Option<Time>): State
    requires CanSend(s, p)
  {
    var snap := s.procs[p].pc.snap;
    var s' := s.(server := Exchange(s.server, Sent(s, p), e, s.now));
    if Sent(s, p) in s.server.live
    then At(s', p, Answered(snap, Auth(Some(s.server.next), e), s.now))
    else At(s', p, Refused(snap))
  }

  /** `reauth_with_signing_key` up to the backend's answer. */
  function StepReauth(s: State, p: nat, e: Option<Time>): State
    requires p < |s.procs| && s.procs[p].pc.Refused?
  {
    var snap := s.procs[p].pc.snap;
    if snap.host.None? then Return(s, p, Failed(NotLoggedIn))
    else if snap.host.value != Usable then Return(s, p, Failed(AuthRevoked))
    else if !s.server.keyAccepted then Return(s, p, Failed(AuthRevoked))
    else At(s.(server := Mint(s.server, e, s.now)), p, Answered(snap, Auth(Some(s.server.next), e), s.now))
  }

  function StepPut(s: State, p: nat, ok: bool): State
    requires p < |s.procs| && s.procs[p].pc.Answered?
  {
    var pc := s.procs[p].pc;
    if ok
    then At(s.(disk := PutRing(s.disk, pc.snap.(auth := Some(pc.pair)))), p, RingStored(pc.snap, pc.pair, pc.at))
    else Return(s, p, Failed(Io))
  }

  function StepWrite(s: State, p: nat, ok: bool): State
    requires p < |s.procs| && s.procs[p].pc.RingStored?
  {
    var pc := s.procs[p].pc;
    var saved := pc.snap.(auth := Some(pc.pair));
    if ok then ReturnOk(s.(disk := WriteJson(s.disk, saved)), p, saved, pc.at)
    else Return(s, p, Failed(Io))
  }

  /** The process dies wherever it is (the system drops its lock) and a new one loads the state. */
  function StepRestart(s: State, p: nat): State
    requires p < |s.procs|
  {
    var mem := Load(s.disk);
    s.(procs := s.procs[p := Proc(mem, mem, s.now, Idle)],
       lock := if s.lock == Some(p) then None else s.lock)
  }

  // -------------------------------------------------------------------- runs

  /** `states` is a run under `labels`: one state more than labels, each step enabled. */
  ghost predicate IsRun(states: seq<State>, labels: seq<Label>) {
    && |states| == |labels| + 1
    && forall i :: 0 <= i < |labels| ==> Enabled(states[i], labels[i]) && states[i + 1] == Next(states[i], labels[i])
  }

  /** Before anything happens: nobody is in a call and the backend knows every token about. */
  ghost predicate Initial(s: State) {
    && s.lock.None?
    && (forall p :: 0 <= p < |s.procs| ==> s.procs[p].pc.Idle? && s.procs[p].started <= s.now)
    && s.server.presented == [] && s.server.issues == [] && s.server.revoked == {}
    && (forall t :: t in s.server.live ==> t < s.server.next)
    && (forall t :: t in DiskTokens(s.disk) ==> t in s.server.live)
    && (s.disk.ring.Some? ==> s.disk.ring.value < s.server.next)
  }

  // ------------------------------------------- what holds under every fault

  ghost predicate LockOk(s: State) {
    forall p :: 0 <= p < |s.procs| ==> (InLock(s.procs[p].pc) <==> s.lock == Some(p))
  }

  ghost predicate ServerOk(v: Server) {
    && (forall t :: t in v.live ==> t < v.next && t !in v.presented && t !in v.revoked)
    && (forall t :: t in v.presented ==> t < v.next)
    && (forall t :: t in v.revoked ==> t < v.next)
  }

  ghost predicate TokensOk(s: State) {
    && ServerOk(s.server)
    && (forall t :: t in DiskTokens(s.disk) ==> t < s.server.next)
    && (s.disk.ring.Some? ==> s.disk.ring.value < s.server.next)
  }

  /** Neither spent nor lost: live, or withdrawn by the backend's own decision. */
  predicate Sound(v: Server, t: Token) {
    t in v.live || t in v.revoked
  }

  /** A burned token on disk always sits beside an expiry that is already within the margin. */
  ghost predicate BurnedIsExpiring(s: State) {
    forall t :: t in DiskTokens(s.disk) && !Sound(s.server, t)
      ==> Expiring(Load(s.disk).auth.value.expiresAt, s.now)
  }

  /** The backend has once issued a pair that was within the margin from the start. */
  ghost predicate ShortLived(v: Server) {
    exists i :: i in v.issues && Expiring(i.expiresAt, i.at)
  }

  /** What a process in the middle of a call may rely on. */
  ghost predicate ProcOk(s: State, r: Proc) {
    && r.started <= s.now
    && (InCall(r.pc) ==> r.mem == r.entry)
    && (r.pc.Done? && r.pc.outcome.Failed? ==> r.mem == r.entry)
    && (r.pc.Done? && r.pc.outcome.Fine? ==>
          && r.started <= r.pc.outcome.asOf <= s.now && r.mem.auth.Some?
          && (ShortLived(s.server) || !Expiring(r.mem.auth.value.expiresAt, r.pc.outcome.asOf)))
    && (r.pc.Reloaded? || r.pc.Refused? || r.pc.Answered? ==> r.pc.snap == Load(s.disk))
    && (r.pc.Reloaded? || r.pc.Refused? || r.pc.Answered? || r.pc.RingStored? ==>
          && r.pc.snap.auth.Some? && r.pc.snap.auth.value.refresh.Some?
          && Expiring(r.pc.snap.auth.value.expiresAt, s.now))
    && (r.pc.Answered? || r.pc.RingStored? ==>
          && r.started <= r.pc.at <= s.now
          && r.pc.pair.refresh.Some? && Sound(s.server, r.pc.pair.refresh.value)
          && Issue(r.pc.pair.refresh.value, r.pc.pair.expiresAt, r.pc.at) in s.server.issues)
    && (r.pc.RingStored? ==> s.disk.ring == r.pc.pair.refresh)
  }

  ghost predicate Inv(s: State) {
    && LockOk(s) && TokensOk(s) && BurnedIsExpiring(s)
    && forall p :: 0 <= p < |s.procs| ==> ProcOk(s, s.procs[p])
  }

  /** Only the two functions of this module write `auth`. */
  predicate Disciplined(l: Label) {
    !l.OtherSave?
  }

  /** A process outside the lock is not disturbed by a step that only lets time and the server go on. */
  lemma OthersKeep(s: State, s': State, r: Proc)
    requires ProcOk(s, r) && s.now <= s'.now
    requires forall t :: Sound(s.server, t) ==> Sound(s'.server, t)
    requires s.server.issues <= s'.server.issues
    requires InLock(r.pc) ==> s'.disk == s.disk
    ensures ProcOk(s', r)
  {
  }

  /** A step that changes one process and perhaps takes or drops the lock. */
  lemma LocalKeeps(s: State, p: nat, r: Proc, lock: Option<nat>)
    requires Inv(s) && p < |s.procs| && ProcOk(s, r)
    requires InLock(r.pc) <==> lock == Some(p)
    requires lock == s.lock || (s.lock.None? && lock == Some(p)) || (s.lock == Some(p) && lock.None?)
    ensures Inv(s.(procs := s.procs[p := r], lock := lock))
  {
    var s' := s.(procs := s.procs[p := r], lock := lock);
    forall q | 0 <= q < |s'.procs| ensures ProcOk(s', s'.procs[q]) {
      assert ProcOk(s, s'.procs[q]);
    }
  }

  lemma LocalStep(s: State, l: Label)
    requires Inv(s) && Enabled(s, l)
    requires l.Begin? || l.LockFails? || l.Acquire? || l.LoadFails?
             || l.Reload? || l.RefreshUnreached? || l.ReauthUnreached? || l.Restart?
    ensures Inv(Next(s, l))
  {
    var s' := Next(s, l);
    assert ProcOk(s, s.procs[l.p]);
    LocalKeeps(s, l.p, s'.procs[l.p], s'.lock);
    assert s' == s.(procs := s.procs[l.p := s'.procs[l.p]], lock := s'.lock);
  }

  /** Time passes, the backend withdraws a token or changes its mind about the host key. */
  lemma OutsideStep(s: State, l: Label)
    requires Inv(s) && Enabled(s, l) && (l.Tick? || l.Withdraw? || l.AcceptKey?)
    ensures Inv(Next(s, l))
  {
    var s' := Next(s, l);
    forall p | 0 <= p < |s.procs| ensures ProcOk(s', s.procs[p]) {
      OthersKeep(s, s', s.procs[p]);
    }
  }

  /** An exchange keeps every token sound except the one that is sent; a new one is sound. */
  lemma ExchangeKeeps(v: Server, t: Token, e: Option<Time>, now: Time)
    requires ServerOk(v) && t < v.next
    ensures var w := Exchange(v, t, e, now);
            && ServerOk(w) && v.next <= w.next
            && (forall u :: Sound(v, u) && u != t ==> Sound(w, u))
            && (t in v.live ==> Sound(w, v.next))
            && (t !in v.live && Sound(v, t) ==> Sound(w, t))
  {
  }

  lemma MintKeeps(v: Server, e: Option<Time>, now: Time)
    requires ServerOk(v)
    ensures var w := Mint(v, e, now);
            ServerOk(w) && v.next <= w.next && Sound(w, v.next) && forall u :: Sound(v, u) ==> Sound(w, u)
  {
  }

  /** Whoever exchanges a token holds the lock, so no other process relies on that token. */
  lemma ExchangeStep(s: State, l: Label)
    requires Inv(s) && Enabled(s, l) && (l.SendRefresh? || l.RefreshReplyLost?)
    ensures Inv(Next(s, l))
  {
    var s' := Next(s, l);
    var t := Sent(s, l.p);
    assert t in DiskTokens(s.disk);
    ExchangeKeeps(s.server, t, l.expiresAt, s.now);
    forall q | 0 <= q < |s.procs| && q != l.p ensures ProcOk(s', s.procs[q]) {
      assert !InLock(s.procs[q].pc);
    }
    assert BurnedIsExpiring(s');
    assert ProcOk(s', s'.procs[l.p]);
  }

  lemma MintStep(s: State, l: Label)
    requires Inv(s) && Enabled(s, l) && (l.SendReauth? || l.ReauthReplyLost?)
    ensures Inv(Next(s, l))
  {
    var s' := Next(s, l);
    assert ProcOk(s, s.procs[l.p]);
    if s'.server == s.server {
      LocalKeeps(s, l.p, s'.procs[l.p], None);
    } else {
      MintKeeps(s.server, l.expiresAt, s.now);
      assert s'.server == Mint(s.server, l.expiresAt, s.now) && s'.disk == s.disk;
      forall q | 0 <= q < |s.procs| && q != l.p ensures ProcOk(s', s.procs[q]) {
        OthersKeep(s, s', s.procs[q]);
      }
      assert ProcOk(s', s'.procs[l.p]);
      assert BurnedIsExpiring(s');
    }
  }

  /** The secret goes to the keyring; state.json still has the old auth beside it. */
  lemma PutStep(s: State, p: nat, ok: bool)
    requires Inv(s) && Enabled(s, PutSecret(p, ok))
    ensures Inv(Next(s, PutSecret(p, ok)))
  {
    var s', pair := Next(s, PutSecret(p, ok)), s.procs[p].pc.pair;
    assert ProcOk(s, s.procs[p]);
    if ok {
      assert s'.disk == s.disk.(ring := pair.refresh) && Sound(s.server, pair.refresh.value);
      assert DiskTokens(s'.disk) <= DiskTokens(s.disk) + {pair.refresh.value};
      forall q | 0 <= q < |s.procs| && q != p ensures ProcOk(s', s.procs[q]) {
        OthersKeep(s, s', s.procs[q]);
      }
      assert ProcOk(s', s'.procs[p]);
      assert TokensOk(s');
      assert BurnedIsExpiring(s');
    } else {
      LocalKeeps(s, p, s'.procs[p], None);
    }
  }

  lemma WriteStep(s: State, p: nat, ok: bool)
    requires Inv(s) && Enabled(s, WriteState(p, ok))
    ensures Inv(Next(s, WriteState(p, ok)))
  {
    var s', pc := Next(s, WriteState(p, ok)), s.procs[p].pc;
    assert ProcOk(s, s.procs[p]);
    if ok {
      assert Load(s'.disk) == pc.snap.(auth := Some(pc.pair));
      forall q | 0 <= q < |s.procs| && q != p ensures ProcOk(s', s.procs[q]) {
        OthersKeep(s, s', s.procs[q]);
      }
      assert ProcOk(s', s'.procs[p]);
      assert TokensOk(s');
      assert BurnedIsExpiring(s');
    } else {
      LocalKeeps(s, p, s'.procs[p], None);
    }
  }

  lemma InvStep(s: State, l: Label)
    requires Inv(s) && Enabled(s, l) && Disciplined(l)
    ensures Inv(Next(s, l))
  {
    if l.SendRefresh? || l.RefreshReplyLost? {
      ExchangeStep(s, l);
    } else if l.SendReauth? || l.ReauthReplyLost? {
      MintStep(s, l);
    } else if l.PutSecret? {
      PutStep(s, l.p, l.ok);
    } else if l.WriteState? {
      WriteStep(s, l.p, l.ok);
    } else if l.Tick? || l.Withdraw? || l.AcceptKey? {
      OutsideStep(s, l);
    } else {
      LocalStep(s, l);
    }
  }

  /** The invariant holds throughout every disciplined run, whatever crashes and failures it contains. */
  lemma {:induction false} InvAlways(states: seq<State>, labels: seq<Label>, i: nat)
    requires IsRun(states, labels) && Initial(states[0]) && i < |states|
    requires forall k :: 0 <= k < |labels| ==> Disciplined(labels[k])
    ensures Inv(states[i])
  {
    if i > 0 {
      InvAlways(states, labels, i - 1);
      InvStep(states[i - 1], labels[i - 1]);
    }
  }

  // ------------------------------------------------- what a caller can count on

  /** An error leaves the caller's store as it was at entry. A success leaves an auth that was not
      expiring at some moment of the call, unless the backend issues pairs shorter than the margin. */
  lemma CallOutcome(states: seq<State>, labels: seq<Label>, i: nat, p: nat)
    requires IsRun(states, labels) && Initial(states[0]) && i < |states| && p < |states[i].procs|
    requires forall k :: 0 <= k < |labels| ==> Disciplined(labels[k])
    requires states[i].procs[p].pc.Done?
    ensures var r := states[i].procs[p];
            match r.pc.outcome
            case Failed(_) => r.mem == r.entry
            case Fine(asOf) =>
              && r.started <= asOf <= states[i].now && r.mem.auth.Some?
              && (!ShortLived(states[i].server) ==> !Expiring(r.mem.auth.value.expiresAt, asOf))
  {
    InvAlways(states, labels, i);
    assert ProcOk(states[i], states[i].procs[p]);
  }

  /** Whenever a call that took the lock returns `Ok`, whatever went wrong before or around it, the
      token on disk is one the backend has not burned, and the caller's store is what is on disk. */
  lemma LockedCallRestores(states: seq<State>, labels: seq<Label>, i: nat, p: nat)
    requires IsRun(states, labels) && Initial(states[0]) && i < |labels| && p < |states[i].procs|
    requires forall k :: 0 <= k < |labels| ==> Disciplined(labels[k])
    requires InLock(states[i].procs[p].pc) && p < |states[i + 1].procs|
    requires states[i + 1].procs[p].pc.Done? && states[i + 1].procs[p].pc.outcome.Fine?
    ensures states[i + 1].lock.None?
    ensures states[i + 1].procs[p].mem == Load(states[i + 1].disk)
    ensures var s := states[i + 1]; forall t :: t in DiskTokens(s.disk) ==> Sound(s.server, t)
  {
    InvAlways(states, labels, i);
    LockedStepRestores(states[i], labels[i], p);
  }

  lemma LockedStepRestores(s: State, l: Label, p: nat)
    requires Inv(s) && Enabled(s, l) && p < |s.procs| && InLock(s.procs[p].pc)
    requires p < |Next(s, l).procs| && Next(s, l).procs[p].pc.Done? && Next(s, l).procs[p].pc.outcome.Fine?
    ensures var s' := Next(s, l);
            && s'.lock.None? && s'.procs[p].mem == Load(s'.disk)
            && forall t :: t in DiskTokens(s'.disk) ==> Sound(s'.server, t)
  {
    assert ProcOk(s, s.procs[p]);
    assert (l == Reload(p)) || (l == WriteState(p, true));
    if l == Reload(p) {
      assert Next(s, l).disk == s.disk && Next(s, l).server == s.server;
    }
  }

  /** The label that takes a call inside the lock one step further, without a fault. */
  function GoOn(pc: Pc, p: nat, e: Option<Time>): Label
    requires InLock(pc)
  {
    match pc
    case Locked => Reload(p)
    case Reloaded(_) => SendRefresh(p, e)
    case Refused(_) => SendReauth(p, e)
    case Answered(_, _, _) => PutSecret(p, true)
    case RingStored(_, _, _) => WriteState(p, true)
  }

  /** At most `n` such steps. */
  function Drive(s: State, p: nat, e: Option<Time>, n: nat): (r: State)
    ensures |r.procs| == |s.procs|
    decreases n
  {
    if n == 0 || p >= |s.procs| || !InLock(s.procs[p].pc) || !Enabled(s, GoOn(s.procs[p].pc, p, e)) then s
    else Drive(Next(s, GoOn(s.procs[p].pc, p, e)), p, e, n - 1)
  }

  predicate Recoverable(s: State) {
    s.server.keyAccepted && Load(s.disk).host == Some(Usable)
  }

  /** The two halves of the save, from a new pair in hand to the end of the call. */
  lemma DriveSaves(s: State, p: nat, e: Option<Time>, n: nat)
    requires p < |s.procs| && s.procs[p].pc.Answered? && s.procs[p].pc.pair.refresh.Some? && n >= 2
    ensures var r := Drive(s, p, e, n); var pc := s.procs[p].pc;
            && r.procs[p].pc == Done(Fine(pc.at)) && r.lock.None? && r.server == s.server
            && r.procs[p].mem == Load(r.disk) && Load(r.disk).auth == Some(pc.pair)
  {
    var s1 := Next(s, PutSecret(p, true));
    var s2 := Next(s1, WriteState(p, true));
    assert Drive(s, p, e, n) == Drive(s1, p, e, n - 1);
    assert Drive(s1, p, e, n - 1) == Drive(s2, p, e, n - 2) == s2;
  }

  /** After a 401: the signing key decides. */
  lemma DriveRefused(s: State, p: nat, e: Option<Time>, n: nat)
    requires p < |s.procs| && s.procs[p].pc.Refused? && n >= 3
    ensures var r := Drive(s, p, e, n); var v := s.server;
            && r.procs[p].pc.Done? && r.lock.None?
            && (if v.keyAccepted && s.procs[p].pc.snap.host == Some(Usable)
                then && r.procs[p].pc == Done(Fine(s.now)) && r.server == Mint(v, e, s.now)
                     && r.procs[p].mem == Load(r.disk) && Load(r.disk).auth == Some(Auth(Some(v.next), e))
                else && r.disk == s.disk && r.server == v && r.procs[p].mem == s.procs[p].mem
                     && r.procs[p].pc == Done(Failed(if s.procs[p].pc.snap.host.None? then NotLoggedIn else AuthRevoked)))
  {
    var s1 := Next(s, SendReauth(p, e));
    assert Drive(s, p, e, n) == Drive(s1, p, e, n - 1);
    if s1.procs[p].pc.Answered? {
      DriveSaves(s1, p, e, n - 1);
    }
  }

  /** From the reload on, with a token that is about to be sent. */
  lemma DriveReloaded(s: State, p: nat, e: Option<Time>, n: nat)
    requires CanSend(s, p) && s.procs[p].pc.snap == Load(s.disk) && n >= 4
    ensures var r := Drive(s, p, e, n); var t := Sent(s, p);
            && r.procs[p].pc.Done? && r.lock.None? && r.server.presented == s.server.presented + [t]
            && (if t in s.server.live || Recoverable(s)
                then && r.procs[p].pc.outcome.Fine? && r.procs[p].mem == Load(r.disk)
                     && Load(r.disk).auth == Some(Auth(Some(s.server.next), e))
                     && s.server.next in r.server.live
                else && r.disk == s.disk && r.procs[p].mem == s.procs[p].mem
                     && r.procs[p].pc == Done(Failed(if Load(s.disk).host.None? then NotLoggedIn else AuthRevoked)))
  {
    var s1 := Next(s, SendRefresh(p, e));
    assert Drive(s, p, e, n) == Drive(s1, p, e, n - 1);
    if s1.procs[p].pc.Answered? {
      DriveSaves(s1, p, e, n - 1);
    } else {
      DriveRefused(s1, p, e, n - 1);
    }
  }

  /** A call that is left alone after taking the lock returns, and it succeeds exactly when the disk
      holds a fresh auth, or a refresh token that is live or can be replaced by way of the signing key. */
  lemma UndisturbedCall(s: State, p: nat, e: Option<Time>)
    requires p < |s.procs| && s.procs[p].pc.Locked?
    ensures var r := Drive(s, p, e, 5); var a := Load(s.disk).auth;
            && r.procs[p].pc.Done? && r.lock.None?
            && (r.procs[p].pc.outcome.Fine? <==>
                  a.Some? && (!Expiring(a.value.expiresAt, s.now) ||
                              (a.value.refresh.Some? && (a.value.refresh.value in s.server.live || Recoverable(s)))))
            && (r.procs[p].pc.outcome.Fine? ==> r.procs[p].mem == Load(r.disk))
            && (r.procs[p].pc.outcome.Failed? ==>
                  && r.procs[p].mem == s.procs[p].mem && r.disk == s.disk
                  && r.procs[p].pc.outcome.error ==
                       if a.None? || (a.value.refresh.Some? && Load(s.disk).host.None?) then NotLoggedIn else AuthRevoked)
  {
    var s1 := Next(s, Reload(p));
    assert Drive(s, p, e, 5) == Drive(s1, p, e, 4);
    if s1.procs[p].pc.Reloaded? {
      DriveReloaded(s1, p, e, 4);
    }
  }

  /** A waiter that gets the lock after another process has saved a fresh pair adopts that pair and
      asks the backend for nothing; a burned or withdrawn token near expiry is replaced instead. */
  lemma AdoptOrRecover(s: State, p: nat, e: Option<Time>)
    requires p < |s.procs| && s.procs[p].pc.Locked? && Load(s.disk).auth.Some?
    ensures var r := Drive(s, p, e, 5); var a := Load(s.disk).auth.value;
            && (!Expiring(a.expiresAt, s.now) ==>
                  r.server == s.server && r.disk == s.disk && r.procs[p].mem == Load(s.disk))
            && (Expiring(a.expiresAt, s.now) && a.refresh.Some? && (a.refresh.value in s.server.live || Recoverable(s)) ==>
                  && Load(r.disk).auth == Some(Auth(Some(s.server.next), e)) && s.server.next in r.server.live
                  && r.server.presented == s.server.presented + [a.refresh.value])
  {
    var s1 := Next(s, Reload(p));
    assert Drive(s, p, e, 5) == Drive(s1, p, e, 4);
    if s1.procs[p].pc.Reloaded? {
      DriveReloaded(s1, p, e, 4);
    }
  }

  // ------------------------------------------------- the call from its beginning

  predicate LoggedIn(mem: Store) {
    mem.auth.Some? && mem.host.Some?
  }

  /** More than 60 seconds are left. */
  predicate TimeLeft(auth: Option<Auth>, now: Time) {
    auth.Some? && auth.value.expiresAt.Some? && auth.value.expiresAt.value > now + 60
  }

  /** What the entry of the call answers: at once, with nothing changed but the process's own position,
      if the store is not logged in or has time left, and otherwise it asks for the lock. */
  lemma EntryAnswers(s: State, p: nat)
    requires Enabled(s, Begin(p))
    ensures var s', mem := Next(s, Begin(p)), s.procs[p].mem;
            && s' == s.(procs := s.procs[p := Proc(mem, mem, s.now, s'.procs[p].pc)])
            && (s'.procs[p].pc == Done(Failed(NotLoggedIn)) <==> !LoggedIn(mem))
            && (s'.procs[p].pc == Done(Fine(s.now)) <==> LoggedIn(mem) && TimeLeft(mem.auth, s.now))
            && (s'.procs[p].pc == Waiting <==> LoggedIn(mem) && !TimeLeft(mem.auth, s.now))
  {
  }

  /** The whole call, left alone: the entry, the lock if it is asked for, and the rest. */
  function WholeCall(s: State, p: nat, e: Option<Time>): (r: State)
    requires Enabled(s, Begin(p)) && s.lock.None?
    ensures |r.procs| == |s.procs|
  {
    var s1 := Next(s, Begin(p));
    if s1.procs[p].pc.Waiting? then Drive(Next(s1, Acquire(p)), p, e, 5) else s1
  }

  /** A refresh token on disk that the backend takes, or that the signing key can replace. */
  predicate CanRotate(s: State) {
    && Load(s.disk).auth.Some? && Load(s.disk).auth.value.refresh.Some?
    && (Load(s.disk).auth.value.refresh.value in s.server.live || Recoverable(s))
  }

  /** What an undisturbed call answers, from its beginning: success exactly when the caller is logged in
      and the caller's auth or the disk's has time left or the disk's token can be exchanged or
      replaced; `NotLoggedIn` exactly when the caller's store lacks auth or host or the needed part
      is missing on disk; `AuthRevoked` otherwise. It is done, the lock is free, and a failure leaves
      memory and disk alone. */
  lemma UndisturbedWholeCall(s: State, p: nat, e: Option<Time>)
    requires Enabled(s, Begin(p)) && s.lock.None?
    ensures var r, mem, disk := WholeCall(s, p, e), s.procs[p].mem, Load(s.disk);
            && r.procs[p].pc.Done? && r.lock.None?
            && (r.procs[p].pc.outcome.Fine? <==>
                  LoggedIn(mem) && (TimeLeft(mem.auth, s.now) || TimeLeft(disk.auth, s.now) || CanRotate(s)))
            && (r.procs[p].pc.outcome == Failed(NotLoggedIn) <==>
                  || !LoggedIn(mem)
                  || (!r.procs[p].pc.outcome.Fine?
                      && (disk.auth.None? || (disk.auth.value.refresh.Some? && disk.host.None?))))
            && (r.procs[p].pc.outcome.Failed? ==>
                  && r.procs[p].pc.outcome.error in {NotLoggedIn, AuthRevoked}
                  && r.procs[p].mem == mem && r.disk == s.disk)
            && (TimeLeft(mem.auth, s.now) ==> r.procs[p].mem == mem && r.disk == s.disk && r.server == s.server)
  {
    EntryAnswers(s, p);
    var s1 := Next(s, Begin(p));
    if s1.procs[p].pc.Waiting? {
      UndisturbedCall(Next(s1, Acquire(p)), p, e);
    }
  }

  /** The step is the last one of process `p`'s call. */
  predicate EndsCall(s: State, l: Label, p: nat) {
    && Enabled(s, l) && p < |s.procs| && p < |Next(s, l).procs|
    && (InCall(s.procs[p].pc) || l == Begin(p)) && Next(s, l).procs[p].pc.Done?
  }

  /** The exact cause of every outcome, whatever else goes on. */
  lemma OutcomeCauses(s: State, l: Label, p: nat)
    requires EndsCall(s, l, p)
    ensures var out, r, disk := Next(s, l).procs[p].pc.outcome, s.procs[p], Load(s.disk);
            && (out == Failed(Io) <==> l in {LockFails(p), LoadFails(p), PutSecret(p, false), WriteState(p, false)})
            && (out == Failed(Transient) <==>
                  (l.RefreshUnreached? || l.RefreshReplyLost? || l.ReauthUnreached? || l.ReauthReplyLost?) && l.p == p)
            && (out == Failed(NotLoggedIn) <==>
                  || (l == Begin(p) && !LoggedIn(r.mem))
                  || (l == Reload(p) && disk.auth.None?)
                  || (l.SendReauth? && l.p == p && r.pc.snap.host.None?))
            && (out == Failed(AuthRevoked) <==>
                  || (l == Reload(p) && disk.auth.Some? && !TimeLeft(disk.auth, s.now) && disk.auth.value.refresh.None?)
                  || (l.SendReauth? && l.p == p && r.pc.snap.host.Some?
                      && (r.pc.snap.host.value != Usable || !s.server.keyAccepted)))
            && (out.Fine? <==>
                  || (l == Begin(p) && LoggedIn(r.mem) && TimeLeft(r.mem.auth, s.now))
                  || (l == Reload(p) && TimeLeft(disk.auth, s.now))
                  || l == WriteState(p, true))
  {
  }

  /** A crash loses what was in memory and frees the lock if it was held; whoever waits can take it. */
  lemma CrashFreesLock(s: State, p: nat, q: nat)
    requires Inv(s) && Enabled(s, Restart(p)) && q < |s.procs| && q != p && s.procs[q].pc.Waiting?
    ensures var s' := Next(s, Restart(p));
            && s'.procs[p] == Proc(Load(s.disk), Load(s.disk), s.now, Idle)
            && s'.disk == s.disk && s'.server == s.server && s'.procs[q] == s.procs[q]
            && (InLock(s.procs[p].pc) ==> Enabled(s', Acquire(q)))
            && (!InLock(s.procs[p].pc) ==> s'.lock == s.lock)
  {
  }

  /** An empty refresh token is reported as `AuthRevoked` although the signing key would be accepted. */
  lemma EmptyTokenSkipsRecovery()
    returns (s: State)
    ensures Inv(s) && Recoverable(s) && |s.procs| == 1 && s.procs[0].pc.Locked?
    ensures Drive(s, 0, Some(1000), 5).procs[0].pc == Done(Failed(AuthRevoked))
  {
    var st := Store(Some(Auth(None, None)), Some(Usable));
    s := State(0, Some(0), Disk(st, None), Server({}, {}, 0, [], [], true), [Proc(st, st, 0, Locked)]);
    assert Next(s, Reload(0)) == Return(s, 0, Failed(AuthRevoked));
  }

  // ---------------------------------------------------------- runs without loss

  predicate HoldsPair(pc: Pc) {
    pc.Answered? || pc.RingStored?
  }

  /** No answer is lost, no save fails, nobody dies while the new token is known to it alone, and
      the backend withdraws nothing. Crashes elsewhere, failed loads, failed locks and requests that
      never reach the backend are all allowed. */
  ghost predicate Lossless(s: State, l: Label) {
    match l
    case OtherSave(_) => false
    case Withdraw(_) => false
    case RefreshReplyLost(_, _) => false
    case ReauthReplyLost(_, _) => false
    case PutSecret(_, ok) => ok
    case WriteState(_, ok) => ok
    case Restart(p) =>
      p < |s.procs| && HoldsPair(s.procs[p].pc) ==> DiskTokens(s.disk) == TokensOf(s.procs[p].pc.pair)
    case _ => true
  }

  /** The live token is the one on disk, or the one in the hands of the process that holds the lock. */
  ghost predicate OneToken(s: State) {
    && (forall p :: 0 <= p < |s.procs| ==> !s.procs[p].pc.Refused?)
    && (forall p :: 0 <= p < |s.procs| && HoldsPair(s.procs[p].pc)
          ==> s.server.live == TokensOf(s.procs[p].pc.pair))
    && ((forall p :: 0 <= p < |s.procs| ==> !HoldsPair(s.procs[p].pc)) ==> s.server.live == DiskTokens(s.disk))
  }

  ghost predicate LosslessInv(s: State) {
    && Inv(s) && OneToken(s) && s.server.revoked == {}
    && Distinct(s.server.presented) && |s.server.presented| == |s.server.issues|
  }

  lemma LosslessRefresh(s: State, l: Label)
    requires LosslessInv(s) && Enabled(s, l) && l.SendRefresh?
    ensures LosslessInv(Next(s, l))
  {
    var s' := Next(s, l);
    InvStep(s, l);
    forall q | 0 <= q < |s.procs| && q != l.p ensures !InLock(s.procs[q].pc) {}
    assert Sent(s, l.p) in DiskTokens(s.disk) && s.server.live == {Sent(s, l.p)};
    assert s'.server.live == {s.server.next};
    assert s'.procs[l.p].pc.Answered?;
  }

  lemma LosslessStep(s: State, l: Label)
    requires LosslessInv(s) && Enabled(s, l) && Lossless(s, l)
    ensures LosslessInv(Next(s, l))
  {
    var s' := Next(s, l);
    InvStep(s, l);
    if l.SendRefresh? {
      LosslessRefresh(s, l);
    } else if l.PutSecret? || l.WriteState? || l.Restart? {
      LosslessSave(s, l);
    }
  }

  lemma LosslessSave(s: State, l: Label)
    requires LosslessInv(s) && Enabled(s, l) && Lossless(s, l) && (l.PutSecret? || l.WriteState? || l.Restart?)
    ensures OneToken(Next(s, l)) && Next(s, l).server == s.server
  {
    var s' := Next(s, l);
    InvStep(s, l);
    forall q | 0 <= q < |s.procs| && q != l.p && InLock(s.procs[l.p].pc) ensures !HoldsPair(s'.procs[q].pc) {}
  }

  ghost predicate LosslessRun(states: seq<State>, labels: seq<Label>) {
    && IsRun(states, labels) && Initial(states[0]) && states[0].server.live == DiskTokens(states[0].disk)
    && forall k :: 0 <= k < |labels| ==> Lossless(states[k], labels[k])
  }

  lemma {:induction false} LosslessAlways(states: seq<State>, labels: seq<Label>, i: nat)
    requires LosslessRun(states, labels) && i < |states|
    ensures LosslessInv(states[i])
  {
    if i > 0 {
      LosslessAlways(states, labels, i - 1);
      LosslessStep(states[i - 1], labels[i - 1]);
    }
  }

  /** Without loss, no refresh token reaches the backend twice and none that reaches it is refused,
      in any interleaving of any number of processes; and whenever the lock is free, the token on
      disk is the one live token. */
  lemma EachTokenPresentedOnce(states: seq<State>, labels: seq<Label>, i: nat)
    requires LosslessRun(states, labels) && i < |states|
    ensures Distinct(states[i].server.presented)
    ensures |states[i].server.presented| == |states[i].server.issues|
    ensures forall p :: 0 <= p < |states[i].procs| ==> !states[i].procs[p].pc.Refused?
    ensures states[i].lock.None? ==> states[i].server.live == DiskTokens(states[i].disk)
  {
    LosslessAlways(states, labels, i);
  }

  /** As above, and nobody dies at all between the backend's answer and the end of the save. */
  ghost predicate Calm(s: State, l: Label) {
    Lossless(s, l) && (l.Restart? && l.p < |s.procs| ==> !HoldsPair(s.procs[l.p].pc))
  }

  /** Every pair was asked for only after the pair before it had come within the margin. */
  ghost predicate Spaced(issues: seq<Issue>) {
    forall i :: 0 < i < |issues| ==> Expiring(issues[i - 1].expiresAt, issues[i].at)
  }

  /** The newest pair is in the hands of the process that asked for it, or else on disk. */
  ghost predicate NewestKnown(s: State) {
    s.server.issues != [] ==>
      var newest := s.server.issues[|s.server.issues| - 1].expiresAt;
      && (forall p :: 0 <= p < |s.procs| && HoldsPair(s.procs[p].pc) ==> s.procs[p].pc.pair.expiresAt == newest)
      && ((forall p :: 0 <= p < |s.procs| ==> !HoldsPair(s.procs[p].pc))
            ==> Load(s.disk).auth.Some? && Load(s.disk).auth.value.expiresAt == newest)
  }

  lemma SpacedRefresh(s: State, l: Label)
    requires LosslessInv(s) && Spaced(s.server.issues) && NewestKnown(s)
    requires Enabled(s, l) && l.SendRefresh?
    ensures Spaced(Next(s, l).server.issues) && NewestKnown(Next(s, l))
  {
    var s' := Next(s, l);
    forall q | 0 <= q < |s.procs| ensures !HoldsPair(s.procs[q].pc) && (q != l.p ==> s'.procs[q] == s.procs[q]) {
      assert q != l.p ==> !InLock(s.procs[q].pc);
    }
    assert ProcOk(s, s.procs[l.p]);
    assert Sent(s, l.p) in DiskTokens(s.disk);
    assert s'.procs[l.p].pc.Answered?;
  }

  lemma SpacedSave(s: State, l: Label)
    requires LosslessInv(s) && NewestKnown(s)
    requires Enabled(s, l) && Lossless(s, l) && (l.PutSecret? || l.WriteState?)
    ensures NewestKnown(Next(s, l)) && Next(s, l).server == s.server
  {
    var s' := Next(s, l);
    forall q | 0 <= q < |s.procs| && q != l.p ensures !HoldsPair(s'.procs[q].pc) {
      assert !InLock(s.procs[q].pc);
    }
    assert ProcOk(s, s.procs[l.p]);
    assert HoldsPair(s.procs[l.p].pc);
    if l.PutSecret? {
      assert HoldsPair(s'.procs[l.p].pc);
    }
  }

  lemma SpacedQuiet(s: State, l: Label)
    requires NewestKnown(s) && Enabled(s, l) && Calm(s, l) && !l.SendRefresh? && !l.PutSecret? && !l.WriteState?
    requires forall p :: 0 <= p < |s.procs| ==> !s.procs[p].pc.Refused?
    ensures NewestKnown(Next(s, l)) && Next(s, l).server.issues == s.server.issues
  {
    var s' := Next(s, l);
    assert s'.disk == s.disk && s'.server.issues == s.server.issues && |s'.procs| == |s.procs|;
    forall q | 0 <= q < |s.procs|
      ensures HoldsPair(s'.procs[q].pc) <==> HoldsPair(s.procs[q].pc)
      ensures HoldsPair(s.procs[q].pc) ==> s'.procs[q].pc == s.procs[q].pc
    {}
  }

  lemma SpacedStep(s: State, l: Label)
    requires LosslessInv(s) && Spaced(s.server.issues) && NewestKnown(s)
    requires Enabled(s, l) && Calm(s, l)
    ensures Spaced(Next(s, l).server.issues) && NewestKnown(Next(s, l))
  {
    if l.SendRefresh? {
      SpacedRefresh(s, l);
    } else if l.PutSecret? || l.WriteState? {
      SpacedSave(s, l);
    } else {
      SpacedQuiet(s, l);
    }
  }

  /** However many processes wait for the lock together, one expiry causes one rotation: between
      two rotations the first one's pair has run down to the margin. */
  lemma {:induction false} OneRotationPerExpiry(states: seq<State>, labels: seq<Label>, i: nat)
    requires LosslessRun(states, labels) && i < |states|
    requires forall k :: 0 <= k < |labels| ==> Calm(states[k], labels[k])
    ensures Spaced(states[i].server.issues) && NewestKnown(states[i])
  {
    if i > 0 {
      OneRotationPerExpiry(states, labels, i - 1);
      LosslessAlways(states, labels, i - 1);
      SpacedStep(states[i - 1], labels[i - 1]);
    }
  }

  // -------------------------------------------- why only these functions may write `auth`

  /** The tokens a process loading the disk would find after this store is saved. */
  function TokensAfterSave(d: Disk, mem: Store): set<Token> {
    if mem.auth.None? then {}
    else if mem.auth.value.refresh.None? then (if d.ring.Some? then {d.ring.value} else {})
    else {mem.auth.value.refresh.value}
  }

  /** Another save of a process's own store, made while nobody holds a pair that is not yet on disk,
      keeps "the token on disk is the live one" exactly when that store carries the token that is
      already on disk. The lock may be taken. */
  lemma OtherSaveKeepsIff(s: State, p: nat)
    requires LosslessInv(s) && Enabled(s, OtherSave(p))
    requires forall q :: 0 <= q < |s.procs| ==> !HoldsPair(s.procs[q].pc)
    ensures var s' := Next(s, OtherSave(p));
            s'.server.live == DiskTokens(s'.disk) <==> TokensAfterSave(s.disk, s.procs[p].mem) == DiskTokens(s.disk)
  {
  }

  /** Such a save between the two halves of another process's save: the new expiry ends up beside the
      live token exactly if the store carries no token of its own or that very one, and otherwise
      beside the store's token, which no reload will take for expiring. */
  lemma SaveBetweenHalves(s: State, p: nat, q: nat)
    requires LosslessInv(s) && Enabled(s, OtherSave(p)) && q < |s.procs| && s.procs[q].pc.RingStored?
    ensures var mem := s.procs[p].mem; var s1 := Next(s, OtherSave(p));
            && Enabled(s1, WriteState(q, true))
            && var s2 := Next(s1, WriteState(q, true));
               && s2.lock.None? && s2.disk.json.auth == Some(s.procs[q].pc.pair.(refresh := None))
               && (s2.server.live == DiskTokens(s2.disk) <==>
                     mem.auth.None? || mem.auth.value.refresh.None? || mem.auth.value.refresh == s.disk.ring)
               && (s2.server.live != DiskTokens(s2.disk) ==> DiskTokens(s2.disk) == TokensAfterSave(s.disk, mem))
  {
    assert ProcOk(s, s.procs[q]) && HoldsPair(s.procs[q].pc);
    assert s.server.live == TokensOf(s.procs[q].pc.pair);
  }

  /** Before the first half it does no harm: both halves are still to come. */
  lemma SaveBeforePair(s: State, p: nat, q: nat)
    requires LosslessInv(s) && Enabled(s, OtherSave(p)) && q < |s.procs| && s.procs[q].pc.Answered?
    ensures var s1 := Next(s, OtherSave(p));
            && Enabled(s1, PutSecret(q, true))
            && var s2 := Next(s1, PutSecret(q, true));
               && Enabled(s2, WriteState(q, true))
               && var s3 := Next(s2, WriteState(q, true)); s3.lock.None? && s3.server.live == DiskTokens(s3.disk)
  {
    assert ProcOk(s, s.procs[q]) && HoldsPair(s.procs[q].pc);
    assert s.server.live == TokensOf(s.procs[q].pc.pair);
  }

  ghost predicate Leads(s: State, l: Label, s': State) {
    Enabled(s, l) && s' == Next(s, l)
  }

  const OLD := Store(Some(Auth(Some(0), Some(10))), Some(Usable))
  const PAIR := Auth(Some(1), Some(1000))

  /** Two processes that have loaded token 0; the first stands at `pc`. */
  function TwoProcs(lock: Option<nat>, d: Disk, v: Server, mem: Store, pc: Pc): State {
    State(0, lock, d, v, [Proc(mem, OLD, 0, pc), Proc(OLD, OLD, 0, Idle)])
  }

  function DiskWith(expiresAt: Time, t: Token): Disk {
    Disk(Store(Some(Auth(None, Some(expiresAt))), Some(Usable)), Some(t))
  }

  const BEFORE := Server({0}, {}, 1, [], [], true)
  const AFTER := Server({1}, {}, 2, [0], [Issue(1, Some(1000), 0)], true)

  lemma StaleFirstHalf()
    ensures var d := DiskWith(10, 0);
            && Leads(TwoProcs(None, d, BEFORE, OLD, Idle), Begin(0), TwoProcs(None, d, BEFORE, OLD, Waiting))
            && Leads(TwoProcs(None, d, BEFORE, OLD, Waiting), Acquire(0), TwoProcs(Some(0), d, BEFORE, OLD, Locked))
            && Leads(TwoProcs(Some(0), d, BEFORE, OLD, Locked), Reload(0),
                     TwoProcs(Some(0), d, BEFORE, OLD, Reloaded(OLD)))
  {
  }

  lemma StaleExchange()
    ensures var d := DiskWith(10, 0);
            Leads(TwoProcs(Some(0), d, BEFORE, OLD, Reloaded(OLD)), SendRefresh(0, Some(1000)),
                  TwoProcs(Some(0), d, AFTER, OLD, Answered(OLD, PAIR, 0)))
  {
    assert {0} - {0} + {1} == {1};
    assert Exchange(BEFORE, 0, Some(1000), 0) == AFTER;
  }

  lemma StaleSecondHalf()
    ensures var d := DiskWith(10, 0); var saved := OLD.(auth := Some(PAIR)); var done := Done(Fine(0));
            && Leads(TwoProcs(Some(0), d, AFTER, OLD, Answered(OLD, PAIR, 0)), PutSecret(0, true),
                     TwoProcs(Some(0), DiskWith(10, 1), AFTER, OLD, RingStored(OLD, PAIR, 0)))
            && Leads(TwoProcs(Some(0), DiskWith(10, 1), AFTER, OLD, RingStored(OLD, PAIR, 0)), WriteState(0, true),
                     TwoProcs(None, DiskWith(1000, 1), AFTER, saved, done))
            && Leads(TwoProcs(None, DiskWith(1000, 1), AFTER, saved, done), OtherSave(1),
                     TwoProcs(None, d, AFTER, saved, done))
  {
  }

  /** A run of two processes in which a save of a stale store puts a spent token back on disk. */
  lemma StaleSaveBurnsDisk() returns (states: seq<State>, labels: seq<Label>)
    ensures IsRun(states, labels) && Initial(states[0]) && states[0].server.live == DiskTokens(states[0].disk)
    ensures labels == [Begin(0), Acquire(0), Reload(0), SendRefresh(0, Some(1000)), PutSecret(0, true),
                       WriteState(0, true), OtherSave(1)]
    ensures states[7].lock.None? && DiskTokens(states[7].disk) == {0} && states[7].server.presented == [0]
  {
    var d, saved, done := DiskWith(10, 0), OLD.(auth := Some(PAIR)), Done(Fine(0));
    states := [TwoProcs(None, d, BEFORE, OLD, Idle), TwoProcs(None, d, BEFORE, OLD, Waiting),
               TwoProcs(Some(0), d, BEFORE, OLD, Locked), TwoProcs(Some(0), d, BEFORE, OLD, Reloaded(OLD)),
               TwoProcs(Some(0), d, AFTER, OLD, Answered(OLD, PAIR, 0)),
               TwoProcs(Some(0), DiskWith(10, 1), AFTER, OLD, RingStored(OLD, PAIR, 0)),
               TwoProcs(None, DiskWith(1000, 1), AFTER, saved, done), TwoProcs(None, d, AFTER, saved, done)];
    labels := [Begin(0), Acquire(0), Reload(0), SendRefresh(0, Some(1000)), PutSecret(0, true), WriteState(0, true),
               OtherSave(1)];
    StaleFirstHalf();
    StaleExchange();
    StaleSecondHalf();
    forall i | 0 <= i < |labels| ensures Leads(states[i], labels[i], states[i + 1]) {}
  }

  /** Nothing holds the surroundings back: time passes, a process may die anywhere, locks and loads may
      fail, requests and answers may be lost, the backend may withdraw any live token and change its
      mind about the host key, and what it does shows. */
  lemma SurroundingsAreFree(s: State, p: nat, t: Token, dt: nat, b: bool, e: Option<Time>)
    ensures Enabled(s, Tick(dt)) && Next(s, Tick(dt)) == s.(now := s.now + dt)
    ensures Enabled(s, AcceptKey(b)) && Next(s, AcceptKey(b)).server.keyAccepted == b
    ensures t in s.server.live ==>
              Enabled(s, Withdraw(t)) && t !in Next(s, Withdraw(t)).server.live && t in Next(s, Withdraw(t)).server.revoked
    ensures p < |s.procs| ==>
              var pc := s.procs[p].pc;
              && Enabled(s, Restart(p))
              && (InCall(pc) || (Enabled(s, Begin(p)) && Enabled(s, OtherSave(p))))
              && (pc.Waiting? ==> Enabled(s, LockFails(p)) && (s.lock.None? ==> Enabled(s, Acquire(p))))
              && (pc.Locked? ==> Enabled(s, LoadFails(p)) && Enabled(s, Reload(p)))
              && (pc.Reloaded? ==> Enabled(s, RefreshUnreached(p)) && (CanSend(s, p) ==> Enabled(s, RefreshReplyLost(p, e))))
              && (pc.Refused? && CanSign(s, p) ==>
                    Enabled(s, ReauthUnreached(p)) && (s.server.keyAccepted ==> Enabled(s, ReauthReplyLost(p, e))))
              && (pc.Answered? ==> Enabled(s, PutSecret(p, b)))
              && (pc.RingStored? ==> Enabled(s, WriteState(p, b)))
  {
  }
}
