/** The worker pool of c_dispatch/src/engine.c as a state machine: one dispatching thread and one
  * worker share a mutex, two condition variables and the fields of g_pool.  A move is one action
  * of one thread between two points where the other can interfere, or a spurious wakeup. */
module Pool {
  import opened Basics
  import opened Engine

  /** Where the dispatching thread is; the number is the line of its next action. */
  datatype MainPc =
    | MIdle | MLock | MSetWork | MClearResult | MClearDone | MSetHasWork | MSignal | MUnlock // 389-397
    | MEcdh | MLockAgain | MTest | MWait | MWoken | MUnlockAgain // 400-407
    | MCopy | MCopyLen | MCopyOk // 410-413
    | MShutLock | MShutSet | MShutSignal | MShutUnlock | MJoin | MStopped // 309-314

  datatype WorkerPc =
    | WLock | WTest | WWait | WWoken | WUnlock | WCheck // 163-169
    | WClearOk | WClearLen | WKem | WCopy | WLen | WOk // 77-129
    | WLockDone | WSetDone | WClearWork | WSignal | WUnlockDone | WExited // 179-186

  datatype Thread = Main | Worker

  /** What the libraries answer, call by call: every KEM run and every request makes new keys, so
    * the same arguments may get another answer each time. */
  type Calls = nat -> Oracles

  /** A request that is handed over. */
  datatype Request = Request(combo: Combo, role: Role)

  /** The pool's fields, the threads' positions and their local variables.  The dispatching thread
    * has started the first next requests of its program, and served holds what it returned; the
    * worker has run the KEM kemRuns times. */
  datatype State = State(
    mpc: MainPc, wpc: WorkerPc, owner: Option<Thread>,
    hasWork: bool, workDone: bool, shutdown: bool,
    name: string, role: Role, kemOk: bool, kemLen: nat, kemBuf: Secret64,
    secret: Option<seq<byte>>, kemRuns: nat,
    next: nat, result: Result, served: seq<Outcome>)

  datatype Move = MainMoves | WorkerMoves | MainWakes | WorkerWakes

  /** After engine_init: the worker is about to lock the mutex for the first time. */
  function Init(name: string, role: Role): State {
    State(MIdle, WLock, None, false, false, false, name, role, false, 0, Zeros(64), None, 0, 0, CLEARED, [])
  }

  // Moves

  predicate MainEnabled(s: State) {
    match s.mpc
    case MLock | MLockAgain | MWoken | MShutLock => s.owner.None?
    case MWait | MStopped => false
    case MJoin => s.wpc == WExited
    case _ => true
  }

  predicate WorkerEnabled(s: State) {
    match s.wpc
    case WLock | WWoken | WLockDone => s.owner.None?
    case WWait | WExited => false
    case _ => true
  }

  predicate Enabled(s: State, m: Move) {
    match m
    case MainMoves => MainEnabled(s)
    case WorkerMoves => WorkerEnabled(s)
    case MainWakes => s.mpc == MWait
    case WorkerWakes => s.wpc == WWait
  }

  /** pthread_cond_signal wakes a thread that waits, and is lost otherwise. */
  function WokenWorker(s: State): WorkerPc {
    if s.wpc == WWait then WWoken else s.wpc
  }

  function WokenMain(s: State): MainPc {
    if s.mpc == MWait then MWoken else s.mpc
  }

  /** memcpy of the first kemLen bytes of the pool's buffer. */
  function CopyStart(to: Secret64, from: Secret64, n: nat): Secret64
    requires n <= 64
  {
    from[..n] + to[n..]
  }

  /** Taking the mutex and announcing a request. */
  function AnnounceMove(reqs: seq<Request>, s: State): State
    requires 0 < s.next <= |reqs|
  {
    match s.mpc
    case MLock => s.(mpc := MSetWork, owner := Some(Main))
    case MSetWork =>
      s.(mpc := MClearResult, name := reqs[s.next - 1].combo.pqcName, role := reqs[s.next - 1].role)
    case MClearResult => s.(mpc := MClearDone, kemOk := false, kemLen := 0)
    case MClearDone => s.(mpc := MSetHasWork, workDone := false)
    case MSetHasWork => s.(mpc := MSignal, hasWork := true)
    case _ => s
  }

  /** Waking the worker, the ECDH in the meantime, and waiting. */
  function AwaitMove(o: Calls, reqs: seq<Request>, s: State): State
    requires 0 < s.next <= |reqs|
  {
    match s.mpc
    case MSignal => s.(mpc := MUnlock, wpc := WokenWorker(s))
    case MUnlock => s.(mpc := MEcdh, owner := None)
    case MEcdh => s.(mpc := MLockAgain, result := WithEcdh(s.result, o(s.next - 1).ecdh(reqs[s.next - 1].combo.curve)))
    case MLockAgain => s.(mpc := MTest, owner := Some(Main))
    case MTest => if s.workDone then s.(mpc := MUnlockAgain) else s.(mpc := MWait, owner := None)
    case MWoken => s.(mpc := MTest, owner := Some(Main))
    case _ => s
  }

  /** Copying the worker's result and returning. */
  function CollectMove(s: State): State
    requires s.kemLen <= 64
  {
    match s.mpc
    case MUnlockAgain => s.(mpc := MCopy, owner := None)
    case MCopy =>
      s.(mpc := MCopyLen, result := s.result.(kemSecret := CopyStart(s.result.kemSecret, s.kemBuf, s.kemLen)))
    case MCopyLen => s.(mpc := MCopyOk, result := s.result.(kemLen := s.kemLen))
    case MCopyOk =>
      var r := s.result.(kemOk := s.kemOk);
      s.(mpc := MIdle, result := r, served := s.served + [Outcome(if r.ecdhOk && r.kemOk then OK else FAILED, r)])
    case _ => s
  }

  /** The next request, or else shutting down. */
  function NextRequestMove(reqs: seq<Request>, s: State): State {
    match s.mpc
    case MIdle =>
      if s.next < |reqs| then s.(mpc := MLock, next := s.next + 1, result := CLEARED) else s.(mpc := MShutLock)
    case MShutLock => s.(mpc := MShutSet, owner := Some(Main))
    case MShutSet => s.(mpc := MShutSignal, shutdown := true)
    case MShutSignal => s.(mpc := MShutUnlock, wpc := WokenWorker(s))
    case MShutUnlock => s.(mpc := MJoin, owner := None)
    case MJoin => s.(mpc := MStopped)
    case _ => s
  }

  function MainMove(o: Calls, reqs: seq<Request>, s: State): State
    requires s.next <= |reqs| && s.kemLen <= 64 && (InFlight(s.mpc) ==> s.next > 0)
  {
    if Announcing(s.mpc) then AnnounceMove(reqs, s)
    else if Awaiting(s.mpc) then AwaitMove(o, reqs, s)
    else if Collecting(s.mpc) then CollectMove(s)
    else NextRequestMove(reqs, s)
  }

  /** The worker's loop up to where it looks at shutdown. */
  function RestMove(s: State): State {
    match s.wpc
    case WLock => s.(wpc := WTest, owner := Some(Worker))
    case WTest => if s.hasWork || s.shutdown then s.(wpc := WUnlock) else s.(wpc := WWait, owner := None)
    case WWoken => s.(wpc := WTest, owner := Some(Worker))
    case WUnlock => s.(wpc := WCheck, owner := None)
    case WCheck => if s.shutdown then s.(wpc := WExited) else s.(wpc := WClearOk)
    case _ => s
  }

  /** perform_kem_operation. */
  function KemMove(o: Calls, s: State): State {
    match s.wpc
    case WClearOk => s.(wpc := WClearLen, kemOk := false)
    case WClearLen => s.(wpc := WKem, kemLen := 0)
    case WKem =>
      var k := o(s.kemRuns).kem(s.name, s.role);
      s.(wpc := if k.None? then WLockDone else WCopy, secret := k, kemRuns := s.kemRuns + 1)
    case WCopy => s.(wpc := WLen, kemBuf := if s.secret.Some? then Splice(s.kemBuf, s.secret.value) else s.kemBuf)
    case WLen => s.(wpc := WOk, kemLen := if s.secret.Some? then Kept(s.secret.value) else 0)
    case WOk => s.(wpc := WLockDone, kemOk := true)
    case _ => s
  }

  /** Announcing that the result is there. */
  function ReportMove(s: State): State {
    match s.wpc
    case WLockDone => s.(wpc := WSetDone, owner := Some(Worker))
    case WSetDone => s.(wpc := WClearWork, workDone := true)
    case WClearWork => s.(wpc := WSignal, hasWork := false)
    case WSignal => s.(wpc := WUnlockDone, mpc := WokenMain(s))
    case WUnlockDone => s.(wpc := WLock, owner := None)
    case _ => s
  }

  function WorkerMove(o: Calls, s: State): State {
    if Computing(s.wpc) then KemMove(o, s) else if Reporting(s.wpc) then ReportMove(s) else RestMove(s)
  }

  function Next(o: Calls, reqs: seq<Request>, s: State, m: Move): State
    requires Inv(o, reqs, s)
  {
    match m
    case MainMoves => MainMove(o, reqs, s)
    case WorkerMoves => WorkerMove(o, s)
    case MainWakes => s.(mpc := WokenMain(s))
    case WorkerWakes => s.(wpc := WokenWorker(s))
  }

  // The invariant

  predicate MainHolds(pc: MainPc) {
    pc.MSetWork? || pc.MClearResult? || pc.MClearDone? || pc.MSetHasWork? || pc.MSignal? || pc.MUnlock?
    || pc.MTest? || pc.MUnlockAgain? || pc.MShutSet? || pc.MShutSignal? || pc.MShutUnlock?
  }

  predicate WorkerHolds(pc: WorkerPc) {
    pc.WTest? || pc.WUnlock? || pc.WSetDone? || pc.WClearWork? || pc.WSignal? || pc.WUnlockDone?
  }

  predicate Locks(s: State) {
    (s.owner == Some(Main) <==> MainHolds(s.mpc)) && (s.owner == Some(Worker) <==> WorkerHolds(s.wpc))
  }

  /** The dispatching thread has announced work and not yet seen it done. */
  predicate Awaiting(pc: MainPc) {
    pc.MSignal? || pc.MUnlock? || pc.MEcdh? || pc.MLockAgain? || pc.MTest? || pc.MWait? || pc.MWoken?
  }

  predicate Collecting(pc: MainPc) {
    pc.MUnlockAgain? || pc.MCopy? || pc.MCopyLen? || pc.MCopyOk?
  }

  predicate Announcing(pc: MainPc) {
    pc.MLock? || pc.MSetWork? || pc.MClearResult? || pc.MClearDone? || pc.MSetHasWork?
  }

  /** Between taking a request and returning its result. */
  predicate InFlight(pc: MainPc) {
    Announcing(pc) || Awaiting(pc) || Collecting(pc)
  }

  predicate MayShut(pc: MainPc) {
    pc.MShutLock? || pc.MShutSet? || Stopping(pc)
  }

  predicate Stopping(pc: MainPc) {
    pc.MShutSignal? || pc.MShutUnlock? || pc.MJoin? || pc.MStopped?
  }

  predicate Resting(pc: WorkerPc) {
    pc.WLock? || pc.WTest? || pc.WWait? || pc.WWoken?
  }

  predicate Computing(pc: WorkerPc) {
    pc.WClearOk? || pc.WClearLen? || pc.WKem? || pc.WCopy? || pc.WLen? || pc.WOk?
  }

  predicate Reporting(pc: WorkerPc) {
    pc.WLockDone? || pc.WSetDone? || pc.WClearWork? || pc.WSignal? || pc.WUnlockDone?
  }

  predicate Working(pc: WorkerPc) {
    pc.WUnlock? || pc.WCheck? || Computing(pc) || pc.WLockDone? || pc.WSetDone?
  }

  /** Who may be where, and what the flags say. */
  predicate Control(s: State) {
    if Awaiting(s.mpc) then
      && !s.shutdown
      && (s.hasWork <==> Working(s.wpc) || s.wpc.WClearWork? || (Resting(s.wpc) && !s.workDone))
      && (s.workDone ==> !Working(s.wpc))
      && (s.wpc.WClearWork? || s.wpc.WSignal? || s.wpc.WUnlockDone? ==> s.workDone)
      && (s.wpc.WWait? && s.hasWork ==> s.mpc.MSignal?)
      && (s.mpc.MWait? && s.workDone ==> s.wpc.WClearWork? || s.wpc.WSignal?)
      && !s.wpc.WExited?
    else if Stopping(s.mpc) then
      && s.shutdown && !s.hasWork
      && (Resting(s.wpc) || s.wpc.WUnlock? || s.wpc.WCheck? || s.wpc.WExited?)
      && (s.wpc.WWait? ==> s.mpc.MShutSignal?)
      && (s.mpc.MStopped? ==> s.wpc.WExited?)
    else
      !s.shutdown && !s.hasWork && Resting(s.wpc) && (s.mpc.MSetHasWork? ==> !s.workDone)
  }

  /** The pool's fields hold the outcome k of the KEM. */
  predicate Delivered(s: State, k: Option<seq<byte>>) {
    && s.kemLen <= 64 && s.kemOk == k.Some?
    && s.kemLen == (if k.Some? then Kept(k.value) else 0)
    && (k.Some? ==> s.kemBuf[..s.kemLen] == k.value[..s.kemLen])
  }

  /** How far the worker has come with a KEM whose outcome is k. */
  predicate Progress(s: State, k: Option<seq<byte>>) {
    match s.wpc
    case WClearLen => !s.kemOk
    case WKem => !s.kemOk && s.kemLen == 0
    case WCopy => !s.kemOk && s.kemLen == 0 && s.secret == k && k.Some?
    case WLen => !s.kemOk && s.kemLen == 0 && s.secret == k && k.Some? && s.kemBuf[..Kept(k.value)] == k.value[..Kept(k.value)]
    case WOk =>
      !s.kemOk && s.secret == k && k.Some? && s.kemLen == Kept(k.value) && s.kemBuf[..s.kemLen] == k.value[..s.kemLen]
    case WLockDone | WSetDone => Delivered(s, k)
    case _ => true
  }

  predicate Described(s: State, r: Request) {
    s.name == r.combo.pqcName && s.role == r.role
  }

  predicate Data(o: Oracles, s: State, r: Request) {
    && (s.mpc.MClearResult? || s.mpc.MClearDone? || s.mpc.MSetHasWork? || Awaiting(s.mpc) ==> Described(s, r))
    && (Awaiting(s.mpc) ==> Progress(s, o.kem(r.combo.pqcName, r.role)))
    && ((Awaiting(s.mpc) && s.workDone) || Collecting(s.mpc) ==> Delivered(s, o.kem(r.combo.pqcName, r.role)))
  }

  /** The result struct of the request in flight. */
  predicate Filled(o: Oracles, s: State, r: Request) {
    var d, k := o.ecdh(r.combo.curve), o.kem(r.combo.pqcName, r.role);
    match s.mpc
    case MLock | MSetWork | MClearResult | MClearDone | MSetHasWork | MSignal | MUnlock | MEcdh => s.result == CLEARED
    case MLockAgain | MTest | MWait | MWoken | MUnlockAgain | MCopy => s.result == WithEcdh(CLEARED, d)
    case MCopyLen => s.result == WithKem(WithEcdh(CLEARED, d), k).(kemLen := 0, kemOk := false)
    case MCopyOk => s.result == WithKem(WithEcdh(CLEARED, d), k).(kemOk := false)
    case _ => true
  }

  predicate Served(o: Calls, reqs: seq<Request>, s: State) {
    Counts(reqs, s) && AllJoined(o, reqs, s.served)
  }

  /** Every outcome returned so far is that of its own request. */
  predicate AllJoined(o: Calls, reqs: seq<Request>, served: seq<Outcome>) {
    |served| <= |reqs| && forall i :: 0 <= i < |served| ==> served[i] == Joined(o(i), reqs[i].combo, reqs[i].role)
  }

  /** The KEM of the request in flight has been run. */
  predicate Ran(s: State) {
    Collecting(s.mpc)
    || (Awaiting(s.mpc) && (s.workDone || s.wpc.WCopy? || s.wpc.WLen? || s.wpc.WOk? || s.wpc.WLockDone? || s.wpc.WSetDone?))
  }

  /** One KEM run for each request, and none for a request before it is announced. */
  predicate OneEach(s: State) {
    s.kemRuns == (if InFlight(s.mpc) && !Ran(s) then s.next - 1 else s.next)
  }

  /** Counting requests started and served. */
  predicate Counts(reqs: seq<Request>, s: State) {
    && s.next <= |reqs| && s.kemLen <= 64
    && (InFlight(s.mpc) ==> s.next > 0)
    && |s.served| == (if InFlight(s.mpc) then s.next - 1 else s.next)
    && (MayShut(s.mpc) ==> s.next == |reqs|)
  }

  predicate Inv(o: Calls, reqs: seq<Request>, s: State) {
    && Locks(s) && Control(s) && Served(o, reqs, s) && OneEach(s)
    && (InFlight(s.mpc) ==> Data(o(s.next - 1), s, reqs[s.next - 1]) && Filled(o(s.next - 1), s, reqs[s.next - 1]))
  }

  lemma InitInv(o: Calls, reqs: seq<Request>, name: string, role: Role)
    ensures Inv(o, reqs, Init(name, role))
  {
  }

  /** A move keeps the mutex and the counts right and returns nothing. */
  predicate Steady(reqs: seq<Request>, s: State, s': State) {
    Locks(s') && Counts(reqs, s') && s'.served == s.served
  }

  lemma AnnounceSteady(reqs: seq<Request>, s: State)
    requires Locks(s) && Counts(reqs, s) && MainEnabled(s) && Announcing(s.mpc)
    ensures Steady(reqs, s, AnnounceMove(reqs, s))
  {
  }

  lemma AwaitSteady(o: Calls, reqs: seq<Request>, s: State)
    requires Locks(s) && Counts(reqs, s) && MainEnabled(s) && Awaiting(s.mpc)
    ensures Steady(reqs, s, AwaitMove(o, reqs, s))
  {
    hide WithEcdh;
  }

  lemma CollectLocks(s: State)
    requires Locks(s) && s.kemLen <= 64 && Collecting(s.mpc)
    ensures Locks(CollectMove(s))
  {
    hide CopyStart;
  }

  lemma CollectCounts(reqs: seq<Request>, s: State)
    requires Counts(reqs, s) && Collecting(s.mpc) && !s.mpc.MCopyOk?
    ensures Counts(reqs, CollectMove(s)) && CollectMove(s).served == s.served
  {
    hide CopyStart;
  }

  lemma CollectSteady(reqs: seq<Request>, s: State)
    requires Locks(s) && Counts(reqs, s) && Collecting(s.mpc)
    ensures Locks(CollectMove(s)) && (!s.mpc.MCopyOk? ==> Steady(reqs, s, CollectMove(s)))
  {
    hide CollectMove, Locks;
    CollectLocks(s);
    if !s.mpc.MCopyOk? {
      CollectCounts(reqs, s);
    }
  }

  lemma NextRequestSteady(reqs: seq<Request>, s: State)
    requires Locks(s) && Counts(reqs, s) && s.mpc.MIdle?
    ensures Steady(reqs, s, NextRequestMove(reqs, s))
  {
  }

  lemma ShutdownLocks(reqs: seq<Request>, s: State)
    requires Locks(s) && MainEnabled(s) && MayShut(s.mpc)
    ensures Locks(NextRequestMove(reqs, s))
  {
  }

  lemma ShutdownSteady(reqs: seq<Request>, s: State)
    requires Locks(s) && Counts(reqs, s) && MainEnabled(s) && MayShut(s.mpc)
    ensures Steady(reqs, s, NextRequestMove(reqs, s))
  {
    hide Locks;
    ShutdownLocks(reqs, s);
  }

  lemma MainSteady(o: Calls, reqs: seq<Request>, s: State)
    requires Locks(s) && Counts(reqs, s) && MainEnabled(s)
    ensures Locks(MainMove(o, reqs, s)) && (!s.mpc.MCopyOk? ==> Steady(reqs, s, MainMove(o, reqs, s)))
  {
    hide AnnounceMove, AwaitMove, CollectMove, NextRequestMove;
    if Announcing(s.mpc) {
      AnnounceSteady(reqs, s);
    } else if Awaiting(s.mpc) {
      AwaitSteady(o, reqs, s);
    } else if Collecting(s.mpc) {
      CollectSteady(reqs, s);
    } else if s.mpc.MIdle? {
      NextRequestSteady(reqs, s);
    } else {
      ShutdownSteady(reqs, s);
    }
  }

  lemma AnnounceControl(reqs: seq<Request>, s: State)
    requires Locks(s) && Control(s) && Counts(reqs, s) && Announcing(s.mpc)
    ensures Control(AnnounceMove(reqs, s)) && (OneEach(s) ==> OneEach(AnnounceMove(reqs, s)))
  {
  }

  lemma AwaitControl(o: Calls, reqs: seq<Request>, s: State)
    requires Locks(s) && Control(s) && Counts(reqs, s) && MainEnabled(s) && Awaiting(s.mpc)
    ensures Control(AwaitMove(o, reqs, s)) && (OneEach(s) ==> OneEach(AwaitMove(o, reqs, s)))
  {
    hide WithEcdh;
  }

  lemma CollectControl(reqs: seq<Request>, s: State)
    requires Locks(s) && Control(s) && Counts(reqs, s) && Collecting(s.mpc)
    ensures Control(CollectMove(s)) && (OneEach(s) ==> OneEach(CollectMove(s)))
  {
    hide CopyStart;
  }

  lemma NextRequestControl(reqs: seq<Request>, s: State)
    requires Locks(s) && Control(s) && Counts(reqs, s) && MainEnabled(s) && !InFlight(s.mpc)
    ensures Control(NextRequestMove(reqs, s)) && (OneEach(s) ==> OneEach(NextRequestMove(reqs, s)))
  {
  }

  lemma MainKeepsControl(o: Calls, reqs: seq<Request>, s: State)
    requires Locks(s) && Control(s) && Counts(reqs, s) && MainEnabled(s) && OneEach(s)
    ensures Control(MainMove(o, reqs, s)) && OneEach(MainMove(o, reqs, s))
  {
    hide AnnounceMove, AwaitMove, CollectMove, NextRequestMove, Control, OneEach;
    if Announcing(s.mpc) {
      AnnounceControl(reqs, s);
    } else if Awaiting(s.mpc) {
      AwaitControl(o, reqs, s);
    } else if Collecting(s.mpc) {
      CollectControl(reqs, s);
    } else {
      NextRequestControl(reqs, s);
    }
  }

  lemma RestControl(s: State)
    requires Locks(s) && Control(s) && WorkerEnabled(s) && !Computing(s.wpc) && !Reporting(s.wpc)
    ensures Locks(RestMove(s)) && Control(RestMove(s))
  {
  }

  lemma KemControl(o: Calls, s: State)
    requires Locks(s) && Control(s) && Computing(s.wpc)
    ensures Locks(KemMove(o, s)) && Control(KemMove(o, s))
  {
    hide Splice, Kept;
  }

  lemma ReportControl(s: State)
    requires Locks(s) && Control(s) && WorkerEnabled(s) && Reporting(s.wpc)
    ensures Locks(ReportMove(s)) && Control(ReportMove(s))
  {
  }

  lemma WorkerKeepsControl(o: Calls, s: State)
    requires Locks(s) && Control(s) && WorkerEnabled(s)
    ensures Locks(WorkerMove(o, s)) && Control(WorkerMove(o, s))
  {
    hide Locks, Control, KemMove, ReportMove, RestMove;
    if Computing(s.wpc) {
      KemControl(o, s);
    } else if Reporting(s.wpc) {
      ReportControl(s);
    } else {
      RestControl(s);
    }
  }

  lemma CopiedAll(to: Secret64, from: Secret64, k: Option<seq<byte>>, n: nat)
    requires n <= 64 && n == (if k.Some? then Kept(k.value) else 0)
    requires k.Some? ==> from[..n] == k.value[..n]
    ensures CopyStart(to, from, n) == if k.Some? then Splice(to, k.value) else to
  {
  }

  /** The last move of a request returns its outcome. */
  lemma ReturnServes(o: Calls, reqs: seq<Request>, s: State)
    requires Inv(o, reqs, s) && s.mpc.MCopyOk?
    ensures Served(o, reqs, MainMove(o, reqs, s))
  {
    var r := reqs[s.next - 1];
    var s' := MainMove(o, reqs, s);
    assert s'.result == Joined(o(s.next - 1), r.combo, r.role).result;
    assert s'.served[s.next - 1] == Joined(o(s.next - 1), r.combo, r.role);
  }

  lemma MainKeepsData(o: Calls, reqs: seq<Request>, s: State, r: Request)
    requires Control(s) && s.next <= |reqs| && s.kemLen <= 64 && MainEnabled(s)
    requires InFlight(s.mpc) && s.next > 0 && r == reqs[s.next - 1] && Data(o(s.next - 1), s, r)
    ensures Data(o(s.next - 1), MainMove(o, reqs, s), r)
  {
    if Announcing(s.mpc) {
      hide AwaitMove, CollectMove, NextRequestMove;
    } else if Awaiting(s.mpc) {
      hide AnnounceMove, CollectMove, NextRequestMove;
    } else {
      hide AnnounceMove, AwaitMove, NextRequestMove;
    }
  }

  lemma CollectFills(o: Oracles, s: State, r: Request)
    requires Collecting(s.mpc) && Data(o, s, r) && Filled(o, s, r)
    ensures Filled(o, CollectMove(s), r)
  {
    if s.mpc.MCopy? {
      CopiedAll(s.result.kemSecret, s.kemBuf, o.kem(r.combo.pqcName, r.role), s.kemLen);
    }
  }

  lemma MainFills(o: Calls, reqs: seq<Request>, s: State)
    requires Counts(reqs, s) && MainEnabled(s) && InFlight(s.mpc)
    requires Data(o(s.next - 1), s, reqs[s.next - 1]) && Filled(o(s.next - 1), s, reqs[s.next - 1])
    ensures Filled(o(s.next - 1), MainMove(o, reqs, s), reqs[s.next - 1])
  {
    if Announcing(s.mpc) {
      hide AwaitMove, CollectMove, NextRequestMove, Data, WithEcdh, WithKem;
    } else if Awaiting(s.mpc) {
      hide AnnounceMove, CollectMove, NextRequestMove, Data, WithEcdh, WithKem;
    } else {
      hide AnnounceMove, AwaitMove, NextRequestMove, CollectMove, Data, Filled;
      CollectFills(o(s.next - 1), s, reqs[s.next - 1]);
    }
  }

  lemma Spliced(buf: Secret64, secret: seq<byte>)
    ensures Splice(buf, secret)[..Kept(secret)] == secret[..Kept(secret)]
  {
  }

  lemma KemData(o: Calls, s: State, r: Request)
    requires Control(s) && Computing(s.wpc) && InFlight(s.mpc) && s.kemLen <= 64 && s.next > 0 && OneEach(s)
    requires Data(o(s.next - 1), s, r)
    ensures Data(o(s.next - 1), KemMove(o, s), r)
  {
    if s.wpc.WCopy? && s.secret.Some? {
      Spliced(s.kemBuf, s.secret.value);
    }
  }

  lemma ReportData(o: Oracles, s: State, r: Request)
    requires Control(s) && Reporting(s.wpc) && InFlight(s.mpc) && s.kemLen <= 64 && Data(o, s, r)
    ensures Data(o, ReportMove(s), r)
  {
    hide Kept;
  }

  lemma RestData(o: Oracles, s: State, r: Request)
    requires !Computing(s.wpc) && !Reporting(s.wpc) && InFlight(s.mpc) && Data(o, s, r)
    ensures Data(o, RestMove(s), r)
  {
    hide Kept;
  }

  lemma WorkerKeepsData(o: Calls, s: State, r: Request)
    requires Control(s) && WorkerEnabled(s) && InFlight(s.mpc) && s.kemLen <= 64 && s.next > 0 && OneEach(s)
    requires Data(o(s.next - 1), s, r)
    ensures Data(o(s.next - 1), WorkerMove(o, s), r)
  {
    hide KemMove, ReportMove, RestMove, Data, Control, OneEach;
    if Computing(s.wpc) {
      KemData(o, s, r);
    } else if Reporting(s.wpc) {
      ReportData(o(s.next - 1), s, r);
    } else {
      RestData(o(s.next - 1), s, r);
    }
  }

  lemma WorkerKeepsCount(o: Calls, s: State)
    requires Control(s) && OneEach(s) && WorkerEnabled(s) && (InFlight(s.mpc) ==> s.next > 0)
    ensures OneEach(WorkerMove(o, s))
  {
    hide Splice, Kept, Locks;
    if Computing(s.wpc) {
      hide ReportMove, RestMove;
    } else if Reporting(s.wpc) {
      hide KemMove, RestMove;
    } else {
      hide KemMove, ReportMove;
    }
  }

  lemma WorkerKeepsLength(o: Calls, s: State)
    requires s.kemLen <= 64
    ensures WorkerMove(o, s).kemLen <= 64
  {
    hide Splice;
    if Computing(s.wpc) {
      hide ReportMove, RestMove;
    } else if Reporting(s.wpc) {
      hide KemMove, RestMove;
    } else {
      hide KemMove, ReportMove;
    }
  }

  /** The worker does not touch what the dispatching thread has, and at most wakes it. */
  predicate Elsewhere(s: State, s': State) {
    && s'.next == s.next && s'.served == s.served && s'.result == s.result
    && (s'.mpc == s.mpc || (s.mpc.MWait? && s'.mpc.MWoken?))
  }

  lemma KemElsewhere(o: Calls, s: State)
    ensures Elsewhere(s, KemMove(o, s))
  {
  }

  lemma ReportElsewhere(s: State)
    ensures Elsewhere(s, ReportMove(s))
  {
  }

  lemma RestElsewhere(s: State)
    ensures Elsewhere(s, RestMove(s))
  {
  }

  lemma WorkerElsewhere(o: Calls, s: State)
    ensures Elsewhere(s, WorkerMove(o, s))
  {
    hide Elsewhere, KemMove, ReportMove, RestMove;
    if Computing(s.wpc) {
      KemElsewhere(o, s);
    } else if Reporting(s.wpc) {
      ReportElsewhere(s);
    } else {
      RestElsewhere(s);
    }
  }

  lemma WorkerKeepsRest(o: Calls, reqs: seq<Request>, s: State)
    requires Inv(o, reqs, s) && WorkerEnabled(s)
    ensures var s' := WorkerMove(o, s);
            && Served(o, reqs, s') && OneEach(s') && s'.next == s.next
            && (InFlight(s'.mpc) ==> InFlight(s.mpc) && Filled(o(s.next - 1), s', reqs[s.next - 1]))
  {
    hide WorkerMove, Control, Data, OneEach, AllJoined, WithEcdh, WithKem;
    WorkerKeepsCount(o, s);
    WorkerKeepsLength(o, s);
    WorkerElsewhere(o, s);
  }

  lemma WakingKeepsInv(o: Calls, reqs: seq<Request>, s: State)
    requires Inv(o, reqs, s)
    ensures s.mpc.MWait? ==> Inv(o, reqs, s.(mpc := MWoken))
    ensures s.wpc.WWait? ==> Inv(o, reqs, s.(wpc := WWoken))
  {
    hide AllJoined, WithEcdh, WithKem;
  }

  lemma MainKeepsInv(o: Calls, reqs: seq<Request>, s: State)
    requires Inv(o, reqs, s) && MainEnabled(s)
    ensures Inv(o, reqs, MainMove(o, reqs, s))
  {
    MainSteady(o, reqs, s);
    MainKeepsControl(o, reqs, s);
    if s.mpc.MCopyOk? {
      ReturnServes(o, reqs, s);
    }
    if InFlight(s.mpc) {
      MainKeepsData(o, reqs, s, reqs[s.next - 1]);
      MainFills(o, reqs, s);
    }
  }

  /** Every move of either thread, and every spurious wakeup, keeps the invariant. */
  lemma NextKeepsInv(o: Calls, reqs: seq<Request>, s: State, m: Move)
    requires Inv(o, reqs, s) && Enabled(s, m)
    ensures Inv(o, reqs, Next(o, reqs, s, m))
  {
    match m
    case MainMoves =>
      MainKeepsInv(o, reqs, s);
    case WorkerMoves =>
      WorkerKeepsControl(o, s);
      WorkerKeepsRest(o, reqs, s);
      if InFlight(s.mpc) {
        WorkerKeepsData(o, s, reqs[s.next - 1]);
      }
    case MainWakes => WakingKeepsInv(o, reqs, s);
    case WorkerWakes => WakingKeepsInv(o, reqs, s);
  }
}
