/** Whole runs of the worker pool: what every interleaving returns, that the two threads never
  * block each other, and how long a run can be. */
module PoolRuns {
  import opened Basics
  import opened Engine
  import opened Pool

  // Single states

  /** has_work and work_done are never seen set together: only between the worker's two stores,
    * while it holds the mutex, are both of them set. */
  lemma FlagsExclude(o: Calls, reqs: seq<Request>, s: State)
    requires Inv(o, reqs, s)
    ensures s.hasWork && s.workDone <==> s.wpc.WClearWork?
    ensures s.hasWork && s.workDone ==> s.owner == Some(Worker)
  {
  }

  datatype Field = Name | KemOk | KemLen | KemBuf

  /** The plain fields of g_pool that a thread's next action reads or writes. */
  function MainReads(pc: MainPc): set<Field> {
    match pc
    case MCopy => {KemBuf, KemLen}
    case MCopyLen => {KemLen}
    case MCopyOk => {KemOk}
    case _ => {}
  }

  function MainWrites(pc: MainPc): set<Field> {
    match pc
    case MSetWork => {Name}
    case MClearResult => {KemOk, KemLen}
    case _ => {}
  }

  function WorkerReads(pc: WorkerPc): set<Field> {
    if pc.WKem? then {Name} else {}
  }

  function WorkerWrites(pc: WorkerPc): set<Field> {
    match pc
    case WClearOk | WOk => {KemOk}
    case WClearLen | WLen => {KemLen}
    case WCopy => {KemBuf}
    case _ => {}
  }

  /** A move leaves a field as it was, unless the table says that it writes it. */
  predicate Leaves(s: State, s': State, written: set<Field>) {
    && (Name !in written ==> s'.name == s.name && s'.role == s.role)
    && (KemOk !in written ==> s'.kemOk == s.kemOk)
    && (KemLen !in written ==> s'.kemLen == s.kemLen)
    && (KemBuf !in written ==> s'.kemBuf == s.kemBuf)
  }

  lemma AnnounceLeaves(reqs: seq<Request>, s: State)
    requires Counts(reqs, s) && Announcing(s.mpc)
    ensures Leaves(s, AnnounceMove(reqs, s), MainWrites(s.mpc))
  {
  }

  lemma AwaitLeaves(o: Calls, reqs: seq<Request>, s: State)
    requires Counts(reqs, s) && Awaiting(s.mpc)
    ensures Leaves(s, AwaitMove(o, reqs, s), MainWrites(s.mpc))
  {
    hide WithEcdh;
  }

  lemma CollectLeaves(s: State)
    requires s.kemLen <= 64 && Collecting(s.mpc)
    ensures Leaves(s, CollectMove(s), MainWrites(s.mpc))
  {
    hide CopyStart;
  }

  lemma NextRequestLeaves(reqs: seq<Request>, s: State)
    requires !InFlight(s.mpc)
    ensures Leaves(s, NextRequestMove(reqs, s), MainWrites(s.mpc))
  {
  }

  lemma MainLeaves(o: Calls, reqs: seq<Request>, s: State)
    requires Counts(reqs, s)
    ensures Leaves(s, MainMove(o, reqs, s), MainWrites(s.mpc))
  {
    hide AnnounceMove, AwaitMove, CollectMove, NextRequestMove, Leaves, MainWrites;
    if Announcing(s.mpc) {
      AnnounceLeaves(reqs, s);
    } else if Awaiting(s.mpc) {
      AwaitLeaves(o, reqs, s);
    } else if Collecting(s.mpc) {
      CollectLeaves(s);
    } else {
      NextRequestLeaves(reqs, s);
    }
  }

  lemma RestLeaves(s: State)
    requires !Computing(s.wpc) && !Reporting(s.wpc)
    ensures Leaves(s, RestMove(s), WorkerWrites(s.wpc))
  {
  }

  lemma KemLeaves(o: Calls, s: State)
    requires Computing(s.wpc)
    ensures Leaves(s, KemMove(o, s), WorkerWrites(s.wpc))
  {
    hide Splice, Kept;
  }

  lemma ReportLeaves(s: State)
    requires Reporting(s.wpc)
    ensures Leaves(s, ReportMove(s), WorkerWrites(s.wpc))
  {
  }

  lemma WorkerLeaves(o: Calls, s: State)
    ensures Leaves(s, WorkerMove(o, s), WorkerWrites(s.wpc))
  {
    hide RestMove, KemMove, ReportMove, Leaves, WorkerWrites;
    if Computing(s.wpc) {
      KemLeaves(o, s);
    } else if Reporting(s.wpc) {
      ReportLeaves(s);
    } else {
      RestLeaves(s);
    }
  }

  /** No state lets one thread write a field that the other is about to use, although the worker
    * computes and the dispatcher collects without the mutex; and the writes are all there are. */
  lemma NoDataRace(o: Calls, reqs: seq<Request>, s: State)
    requires Inv(o, reqs, s)
    ensures Leaves(s, MainMove(o, reqs, s), MainWrites(s.mpc)) && Leaves(s, WorkerMove(o, s), WorkerWrites(s.wpc))
    ensures MainWrites(s.mpc) !! (WorkerReads(s.wpc) + WorkerWrites(s.wpc))
    ensures WorkerWrites(s.wpc) !! (MainReads(s.mpc) + MainWrites(s.mpc))
  {
    hide Leaves, MainMove, WorkerMove;
    MainLeaves(o, reqs, s);
    WorkerLeaves(o, s);
  }

  predicate Finished(s: State) {
    s.mpc.MStopped? && s.wpc.WExited?
  }

  /** Until both threads are through, one of them can move, without any spurious wakeup: no wakeup
    * is ever lost. */
  lemma NoDeadlock(o: Calls, reqs: seq<Request>, s: State)
    requires Inv(o, reqs, s)
    ensures Finished(s) <==> !MainEnabled(s) && !WorkerEnabled(s)
  {
    match s.owner
    case None =>
    case Some(Main) =>
    case Some(Worker) =>
  }

  // Progress

  function MainRank(pc: MainPc): nat {
    match pc
    case MLock => 900 case MSetWork => 850 case MClearResult => 800 case MClearDone => 750 case MSetHasWork => 700
    case MSignal => 600 case MUnlock => 550 case MEcdh => 500 case MLockAgain => 450
    case MWoken => 402 case MTest => 401 case MWait => 400
    case MUnlockAgain => 350 case MCopy => 300 case MCopyLen => 275 case MCopyOk => 250 case MIdle => 200
    case MShutLock => 180 case MShutSet => 150 case MShutSignal => 100 case MShutUnlock => 50 case MJoin => 20
    case MStopped => 0
  }

  function WorkerRank(pc: WorkerPc): nat {
    match pc
    case WUnlock => 29 case WCheck => 28 case WClearOk => 27 case WClearLen => 26 case WKem => 25 case WCopy => 24
    case WLen => 23 case WOk => 22 case WLockDone => 21 case WSetDone => 20 case WClearWork => 19 case WSignal => 18
    case WUnlockDone => 9 case WLock => 8 case WWoken => 7 case WTest => 6 case WWait => 5 case WExited => 0
  }

  /** Work that the worker has not picked up yet. */
  function Pending(s: State): nat {
    if (s.hasWork || s.shutdown) && Resting(s.wpc) then 30 else 0
  }

  function Rank(reqs: seq<Request>, s: State): nat
    requires s.next <= |reqs|
  {
    1000 * (|reqs| - s.next) + MainRank(s.mpc) + WorkerRank(s.wpc) + Pending(s)
  }

  predicate Spurious(m: Move) {
    m.MainWakes? || m.WorkerWakes?
  }

  predicate Descends(reqs: seq<Request>, s: State, s': State)
    requires s.next <= |reqs|
  {
    s'.next <= |reqs| && Rank(reqs, s') < Rank(reqs, s)
  }

  lemma AnnounceDescends(reqs: seq<Request>, s: State)
    requires Control(s) && Counts(reqs, s) && Announcing(s.mpc)
    ensures Descends(reqs, s, AnnounceMove(reqs, s))
  {
  }

  lemma AwaitDescends(o: Calls, reqs: seq<Request>, s: State)
    requires Control(s) && Counts(reqs, s) && MainEnabled(s) && Awaiting(s.mpc)
    ensures Descends(reqs, s, AwaitMove(o, reqs, s))
  {
    hide WithEcdh;
  }

  lemma CollectDescends(reqs: seq<Request>, s: State)
    requires Counts(reqs, s) && Collecting(s.mpc)
    ensures Descends(reqs, s, CollectMove(s))
  {
    hide CopyStart;
  }

  lemma NextRequestDescends(reqs: seq<Request>, s: State)
    requires Control(s) && Counts(reqs, s) && MainEnabled(s) && !InFlight(s.mpc)
    ensures Descends(reqs, s, NextRequestMove(reqs, s))
  {
  }

  lemma MainDescends(o: Calls, reqs: seq<Request>, s: State)
    requires Inv(o, reqs, s) && MainEnabled(s)
    ensures Descends(reqs, s, MainMove(o, reqs, s))
  {
    hide AnnounceMove, AwaitMove, CollectMove, NextRequestMove, Data, Filled, AllJoined;
    if Announcing(s.mpc) {
      AnnounceDescends(reqs, s);
    } else if Awaiting(s.mpc) {
      AwaitDescends(o, reqs, s);
    } else if Collecting(s.mpc) {
      CollectDescends(reqs, s);
    } else {
      NextRequestDescends(reqs, s);
    }
  }

  lemma RestDescends(reqs: seq<Request>, s: State)
    requires Control(s) && Counts(reqs, s) && WorkerEnabled(s) && !Computing(s.wpc) && !Reporting(s.wpc)
    ensures Descends(reqs, s, RestMove(s))
  {
  }

  lemma KemDescends(o: Calls, reqs: seq<Request>, s: State)
    requires Counts(reqs, s) && Computing(s.wpc)
    ensures Descends(reqs, s, KemMove(o, s))
  {
    hide Splice, Kept;
  }

  lemma ReportDescends(reqs: seq<Request>, s: State)
    requires Control(s) && Counts(reqs, s) && Reporting(s.wpc)
    ensures Descends(reqs, s, ReportMove(s))
  {
  }

  lemma WorkerDescends(o: Calls, reqs: seq<Request>, s: State)
    requires Inv(o, reqs, s) && WorkerEnabled(s)
    ensures Descends(reqs, s, WorkerMove(o, s))
  {
    hide RestMove, KemMove, ReportMove, Descends, Data, Filled, AllJoined, OneEach, Control, Counts, Locks;
    if Computing(s.wpc) {
      KemDescends(o, reqs, s);
    } else if Reporting(s.wpc) {
      ReportDescends(reqs, s);
    } else {
      RestDescends(reqs, s);
    }
  }

  /** Every move of a thread descends, and a spurious wakeup climbs by two at most. */
  lemma NextDescends(o: Calls, reqs: seq<Request>, s: State, m: Move)
    requires Inv(o, reqs, s) && Enabled(s, m)
    ensures Next(o, reqs, s, m).next <= |reqs|
    ensures Rank(reqs, Next(o, reqs, s, m)) + 1 <= Rank(reqs, s) + (if Spurious(m) then 3 else 0)
  {
    match m
    case MainMoves => MainDescends(o, reqs, s);
    case WorkerMoves => WorkerDescends(o, reqs, s);
    case MainWakes =>
    case WorkerWakes =>
  }

  // Runs

  /** Every move of the run is possible where it is made. */
  predicate Legal(o: Calls, reqs: seq<Request>, s: State, moves: seq<Move>)
    requires Inv(o, reqs, s)
    decreases |moves|
  {
    moves == [] ||
    (Enabled(s, moves[0]) && (NextKeepsInv(o, reqs, s, moves[0]); Legal(o, reqs, Next(o, reqs, s, moves[0]), moves[1..])))
  }

  function After(o: Calls, reqs: seq<Request>, s: State, moves: seq<Move>): (r: State)
    requires Inv(o, reqs, s) && Legal(o, reqs, s, moves)
    ensures Inv(o, reqs, r)
    decreases |moves|
  {
    if moves == [] then s
    else
      NextKeepsInv(o, reqs, s, moves[0]);
      After(o, reqs, Next(o, reqs, s, moves[0]), moves[1..])
  }

  function Wakeups(moves: seq<Move>): nat {
    if moves == [] then 0 else (if Spurious(moves[0]) then 1 else 0) + Wakeups(moves[1..])
  }

  /** A run is no longer than its start allows, plus three moves for each spurious wakeup. */
  lemma {:induction false} RunLength(o: Calls, reqs: seq<Request>, s: State, moves: seq<Move>)
    requires Inv(o, reqs, s) && Legal(o, reqs, s, moves)
    ensures |moves| + Rank(reqs, After(o, reqs, s, moves)) <= Rank(reqs, s) + 3 * Wakeups(moves)
    decreases |moves|
  {
    if moves != [] {
      NextKeepsInv(o, reqs, s, moves[0]);
      NextDescends(o, reqs, s, moves[0]);
      RunLength(o, reqs, Next(o, reqs, s, moves[0]), moves[1..]);
    }
  }

  /** A run of the pool from its initialisation, by any interleaving. */
  predicate IsRun(o: Calls, reqs: seq<Request>, name: string, role: Role, moves: seq<Move>) {
    InitInv(o, reqs, name, role);
    Legal(o, reqs, Init(name, role), moves)
  }

  /** Where a run has come to. */
  function Reached(o: Calls, reqs: seq<Request>, name: string, role: Role, moves: seq<Move>): (s: State)
    requires IsRun(o, reqs, name, role, moves)
    ensures Inv(o, reqs, s)
  {
    InitInv(o, reqs, name, role);
    After(o, reqs, Init(name, role), moves)
  }

  /** However the threads interleave and however often they wake for nothing, the i-th request
    * returned what the parallel engine is specified to return for it when the libraries answer as
    * in its own, the i-th, KEM run and ECDH: nothing of an earlier one, not even of one with the
    * same arguments, and not even in the bytes beyond a shorter secret. */
  lemma EveryRunServes(o: Calls, reqs: seq<Request>, name: string, role: Role, moves: seq<Move>, before: Result, i: nat)
    requires forall r :: r in reqs ==> Handed(r.combo)
    requires IsRun(o, reqs, name, role, moves) && i < |Reached(o, reqs, name, role, moves).served|
    ensures i < |reqs|
    ensures Reached(o, reqs, name, role, moves).served[i] == Parallel(o(i), reqs[i].combo, reqs[i].role, true, before)
  {
    var s := Reached(o, reqs, name, role, moves);
    assert Served(o, reqs, s);
    assert reqs[i] in reqs;
  }

  /** So the i-th request returns status 0 exactly if its own ECDH and its own KEM run succeed, and
    * then the 48 bytes of the one and the secret of the other, with zeros behind it. */
  lemma EveryRunDelivers(o: Calls, reqs: seq<Request>, name: string, role: Role, moves: seq<Move>, i: nat)
    requires IsRun(o, reqs, name, role, moves) && i < |Reached(o, reqs, name, role, moves).served|
    ensures i < |reqs|
    ensures BothServed(Reached(o, reqs, name, role, moves).served[i], o(i).ecdh(reqs[i].combo.curve),
                       o(i).kem(reqs[i].combo.pqcName, reqs[i].role))
  {
    hide BothServed, Joined;
    assert Served(o, reqs, Reached(o, reqs, name, role, moves));
    JoinedServesBoth(o(i), reqs[i].combo, reqs[i].role);
  }

  /** The worker runs the KEM once for each request, and never ahead of one. */
  lemma EveryRunCounts(o: Calls, reqs: seq<Request>, name: string, role: Role, moves: seq<Move>)
    requires IsRun(o, reqs, name, role, moves)
    ensures var s := Reached(o, reqs, name, role, moves);
            |s.served| <= s.kemRuns <= s.next && (!InFlight(s.mpc) ==> s.kemRuns == |s.served|)
  {
    var s := Reached(o, reqs, name, role, moves);
    assert OneEach(s) && Counts(reqs, s);
  }

  lemma FinishedServes(o: Calls, reqs: seq<Request>, s: State)
    requires Inv(o, reqs, s) && Finished(s)
    ensures s.kemRuns == |reqs|
    ensures s.served == seq(|reqs|, i requires 0 <= i < |reqs| => Joined(o(i), reqs[i].combo, reqs[i].role))
  {
    hide Locks, Control, Data, Filled, Joined;
  }

  lemma WorkerGone(s: State)
    requires Finished(s)
    ensures s.wpc.WExited?
  {
  }

  lemma RunBound(o: Calls, reqs: seq<Request>, name: string, role: Role, moves: seq<Move>)
    requires IsRun(o, reqs, name, role, moves)
    ensures |moves| <= 1000 * |reqs| + 208 + 3 * Wakeups(moves)
  {
    InitInv(o, reqs, name, role);
    RunLength(o, reqs, Init(name, role), moves);
  }

  /** A run of n requests makes at most 1000 n + 208 moves and three more per spurious wakeup; when
    * no thread can move any more, every request has been served by a KEM run of its own and the
    * worker has exited. */
  lemma EveryRunEnds(o: Calls, reqs: seq<Request>, name: string, role: Role, moves: seq<Move>)
    requires IsRun(o, reqs, name, role, moves)
    ensures |moves| <= 1000 * |reqs| + 208 + 3 * Wakeups(moves)
    ensures var s := Reached(o, reqs, name, role, moves);
            !MainEnabled(s) && !WorkerEnabled(s) ==>
              && s.wpc.WExited? && s.kemRuns == |reqs|
              && s.served == seq(|reqs|, i requires 0 <= i < |reqs| => Joined(o(i), reqs[i].combo, reqs[i].role))
  {
    hide Inv, Reached, IsRun, Finished, Joined, MainEnabled, WorkerEnabled;
    var s := Reached(o, reqs, name, role, moves);
    RunBound(o, reqs, name, role, moves);
    NoDeadlock(o, reqs, s);
    if Finished(s) {
      FinishedServes(o, reqs, s);
      WorkerGone(s);
    }
  }

  // From one initialisation to the next

  /** The requests between one engine_init and its engine_shutdown, and the run that the two threads
    * make of them. */
  datatype Cycle = Cycle(reqs: seq<Request>, name: string, role: Role, moves: seq<Move>)

  /** The calls that remain after the first n. */
  function From(o: Calls, n: nat): Calls {
    (i: nat) => o(n + i)
  }

  predicate CycleRuns(o: Calls, c: Cycle) {
    IsRun(o, c.reqs, c.name, c.role, c.moves)
  }

  function CycleEnd(o: Calls, c: Cycle): State
    requires CycleRuns(o, c)
  {
    Reached(o, c.reqs, c.name, c.role, c.moves)
  }

  /** The engine is initialised again only when engine_shutdown has returned, and the libraries go on
    * where the KEM runs of the earlier cycles left them. */
  predicate AreCycles(o: Calls, cycles: seq<Cycle>)
    decreases |cycles|
  {
    cycles == [] ||
    (&& CycleRuns(o, cycles[0])
     && (|cycles| > 1 ==> CycleEnd(o, cycles[0]).mpc.MStopped?)
     && AreCycles(From(o, CycleEnd(o, cycles[0]).kemRuns), cycles[1..]))
  }

  function AllRequests(cycles: seq<Cycle>): seq<Request> {
    if cycles == [] then [] else cycles[0].reqs + AllRequests(cycles[1..])
  }

  function AllServed(o: Calls, cycles: seq<Cycle>): seq<Outcome>
    requires AreCycles(o, cycles)
    decreases |cycles|
  {
    if cycles == [] then []
    else
      var s := CycleEnd(o, cycles[0]);
      s.served + AllServed(From(o, s.kemRuns), cycles[1..])
  }

  lemma StoppedServes(o: Calls, c: Cycle)
    requires CycleRuns(o, c)
    ensures var s := CycleEnd(o, c);
            AllJoined(o, c.reqs, s.served) && (s.mpc.MStopped? ==> s.kemRuns == |s.served| == |c.reqs| && s.wpc.WExited?)
  {
    var s := CycleEnd(o, c);
    assert Served(o, c.reqs, s);
    if s.mpc.MStopped? {
      assert Control(s);
      FinishedServes(o, c.reqs, s);
    }
  }

  lemma JoinedOn(o: Calls, reqs: seq<Request>, served: seq<Outcome>, moreReqs: seq<Request>, more: seq<Outcome>)
    requires AllJoined(o, reqs, served) && AllJoined(From(o, |reqs|), moreReqs, more) && |served| == |reqs|
    ensures AllJoined(o, reqs + moreReqs, served + more)
  {
    forall i | 0 <= i < |served + more|
      ensures (served + more)[i] == Joined(o(i), (reqs + moreReqs)[i].combo, (reqs + moreReqs)[i].role)
    {
      JoinedThere(o, reqs, served, moreReqs, more, i);
    }
  }

  lemma JoinedThere(o: Calls, reqs: seq<Request>, served: seq<Outcome>, moreReqs: seq<Request>, more: seq<Outcome>, i: nat)
    requires AllJoined(o, reqs, served) && AllJoined(From(o, |reqs|), moreReqs, more) && |served| == |reqs|
    requires i < |served + more|
    ensures (served + more)[i] == Joined(o(i), (reqs + moreReqs)[i].combo, (reqs + moreReqs)[i].role)
  {
    hide Joined;
    if i < |served| {
      assert served[i] == Joined(o(i), reqs[i].combo, reqs[i].role);
    } else {
      var j := i - |reqs|;
      assert more[j] == Joined(From(o, |reqs|)(j), moreReqs[j].combo, moreReqs[j].role);
    }
  }

  predicate AllStopped(o: Calls, cycles: seq<Cycle>)
    requires AreCycles(o, cycles)
    decreases |cycles|
  {
    cycles == [] ||
    (CycleEnd(o, cycles[0]).mpc.MStopped? && AllStopped(From(o, CycleEnd(o, cycles[0]).kemRuns), cycles[1..]))
  }

  /** Over any number of initialisations and shutdowns the i-th request of all is served by the i-th
    * KEM run of all and its own ECDH, and nothing is left of an earlier cycle; when the last shutdown
    * has returned, every request has been served. */
  lemma {:induction false} EveryCycleServes(o: Calls, cycles: seq<Cycle>)
    requires AreCycles(o, cycles)
    ensures AllJoined(o, AllRequests(cycles), AllServed(o, cycles))
    ensures AllStopped(o, cycles) ==> |AllServed(o, cycles)| == |AllRequests(cycles)|
    decreases |cycles|
  {
    hide CycleEnd, CycleRuns, AllJoined;
    if cycles == [] {
      NoneJoined(o);
    } else {
      var c := cycles[0];
      var s := CycleEnd(o, c);
      var later := From(o, s.kemRuns);
      StoppedServes(o, c);
      EveryCycleServes(later, cycles[1..]);
      if |cycles| == 1 {
        assert s.served + [] == s.served && c.reqs + [] == c.reqs;
      } else {
        JoinedOn(o, c.reqs, s.served, AllRequests(cycles[1..]), AllServed(later, cycles[1..]));
      }
    }
  }

  lemma EveryCycleDelivers(o: Calls, cycles: seq<Cycle>, i: nat)
    requires AreCycles(o, cycles) && i < |AllServed(o, cycles)|
    ensures var reqs := AllRequests(cycles);
      && i < |reqs|
      && BothServed(AllServed(o, cycles)[i], o(i).ecdh(reqs[i].combo.curve), o(i).kem(reqs[i].combo.pqcName, reqs[i].role))
  {
    hide BothServed, Joined, AllServed, AllRequests, AreCycles;
    EveryCycleServes(o, cycles);
    var reqs := AllRequests(cycles);
    JoinedServesBoth(o(i), reqs[i].combo, reqs[i].role);
  }

  lemma NoneJoined(o: Calls)
    ensures AllJoined(o, [], [])
  {
  }
}
