/**
 The lock-free interlock between Write, Close and CloseWrite.  Each thread runs
 one call at a time; a step is one atomic access to the shared state, and a run
 is any interleaving of steps.
 */
module Interlock {

  datatype Event = Application | CloseNotify

  /** Where a thread stands in the call it is making. */
  datatype Place =
    | Idle
    | WriteLoad                  // about to load the counter
    | WriteSwap(x: int)          // about to compare and swap what it loaded
    | WriteShake                 // running the handshake
    | WriteLock                  // waiting for the write lock
    | WriteSend                  // holds the lock and has passed the checks
    | WriteUnlock                // about to release the lock
    | WriteLeave                 // about to take itself off the counter
    | CloseLoad
    | CloseSwap(x: int)
    | CloseBegin                 // won; looks whether the handshake is complete
    | NotifyLock(closing: bool)  // waiting for the lock to send close_notify
    | NotifyHold(closing: bool)  // holds the lock
    | NotifyUnlock(closing: bool)
    | CloseConn                  // closes the transport
    | HalfBegin                  // CloseWrite looks whether the handshake is complete

  /** The shared state; `wins` counts the Close calls that set the bit, `log` what went on the wire. */
  datatype Shared = Shared(active: int, sent: bool, complete: bool, lock: int, wins: nat, log: seq<Event>,
                           threads: seq<Place>)

  const FREE := -1

  /** What the scheduler and the environment decide in a step. */
  datatype Choice = StartWrite | StartClose | StartCloseWrite | Succeed | Fail | HandshakeDone

  function At(s: Shared, t: nat, p: Place): Shared
    requires t < |s.threads|
  {
    s.(threads := s.threads[t := p])
  }

  /** One step of thread `t`; a thread that cannot move leaves the state as it is. */
  function Next(s: Shared, t: nat, c: Choice): Shared
  {
    if c == HandshakeDone then s.(complete := true)
    else if t >= |s.threads| then s
    else match s.threads[t]
      case Idle =>
        At(s, t, if c == StartWrite then WriteLoad else if c == StartClose then CloseLoad
                 else if c == StartCloseWrite then HalfBegin else Idle)
      case WriteLoad => At(s, t, if s.active % 2 != 0 then Idle else WriteSwap(s.active))
      case WriteSwap(x) =>
        if s.active == x then At(s.(active := x + 2), t, WriteShake) else At(s, t, WriteLoad)
      case WriteShake =>
        if c == Succeed then At(s.(complete := true), t, WriteLock) else At(s, t, WriteLeave)
      case WriteLock =>
        if s.lock != FREE then s
        else At(s.(lock := t), t, if c == Fail || !s.complete || s.sent then WriteUnlock else WriteSend)
      case WriteSend =>
        // One record; the call goes on until it succeeds or fails.
        At(s.(log := s.log + [Application]), t, if c == Succeed || c == Fail then WriteUnlock else WriteSend)
      case WriteUnlock => At(s.(lock := FREE), t, WriteLeave)
      case WriteLeave => At(s.(active := s.active - 2), t, Idle)
      case CloseLoad => At(s, t, if s.active % 2 != 0 then Idle else CloseSwap(s.active))
      case CloseSwap(x) =>
        if s.active != x then At(s, t, CloseLoad)
        else At(s.(active := x + 1, wins := s.wins + 1), t, if x != 0 then CloseConn else CloseBegin)
      case CloseBegin => At(s, t, if s.complete then NotifyLock(true) else CloseConn)
      case NotifyLock(closing) =>
        if s.lock != FREE then s else At(s.(lock := t), t, NotifyHold(closing))
      case NotifyHold(closing) =>
        if s.sent then At(s, t, NotifyUnlock(closing))
        else At(s.(sent := true, log := s.log + [CloseNotify]), t, NotifyUnlock(closing))
      case NotifyUnlock(closing) => At(s.(lock := FREE), t, if closing then CloseConn else Idle)
      case CloseConn => At(s, t, Idle)
      case HalfBegin => At(s, t, if s.complete then NotifyLock(false) else Idle)
  }

  // ----- The invariant -----

  /** Inside a Write call, past the compare and swap. */
  predicate Writing(p: Place)
  {
    p.WriteShake? || p.WriteLock? || p.WriteSend? || p.WriteUnlock? || p.WriteLeave?
  }

  predicate Holds(p: Place)
  {
    p.WriteSend? || p.WriteUnlock? || p.NotifyHold? || p.NotifyUnlock?
  }

  function Writers(ps: seq<Place>): nat
  {
    if ps == [] then 0 else (if Writing(ps[0]) then 1 else 0) + Writers(ps[1..])
  }

  /** No application record behind a close_notify, and at most one of those. */
  predicate Orderly(log: seq<Event>)
  {
    forall i :: 0 <= i < |log| - 1 ==> log[i] != CloseNotify
  }

  predicate Counted(s: Shared)
  {
    s.active == 2 * Writers(s.threads) + s.wins && s.wins <= 1
  }

  predicate Logged(s: Shared)
  {
    Orderly(s.log) && (s.sent <==> CloseNotify in s.log)
  }

  /** The thread's place agrees with the lock, and it sends only while no close_notify has gone out. */
  predicate Sane(s: Shared, t: nat, p: Place)
  {
    (Holds(p) <==> s.lock == t) && (p.WriteSend? ==> !s.sent) && Loaded(p)
  }

  predicate Inv(s: Shared)
  {
    && Counted(s) && Logged(s) && s.lock >= FREE
    && forall t :: 0 <= t < |s.threads| ==> Sane(s, t, s.threads[t])
  }

  /** A value loaded for a swap had its low bit clear. */
  predicate Loaded(p: Place)
  {
    (p.WriteSwap? ==> p.x % 2 == 0) && (p.CloseSwap? ==> p.x % 2 == 0)
  }

  lemma {:induction false} WritersUpdate(ps: seq<Place>, t: nat, p: Place)
    requires t < |ps|
    ensures Writers(ps[t := p]) ==
            Writers(ps) - (if Writing(ps[t]) then 1 else 0) + (if Writing(p) then 1 else 0)
    decreases |ps|
  {
    if t == 0 {
      assert ps[0 := p][1..] == ps[1..];
    } else {
      assert ps[t := p][1..] == ps[1..][t - 1 := p];
      WritersUpdate(ps[1..], t - 1, p);
    }
  }

  /** A step changes no other thread's place. */
  lemma OthersStay(s: Shared, t: nat, c: Choice)
    requires t < |s.threads| && c != HandshakeDone
    ensures |Next(s, t, c).threads| == |s.threads|
    ensures Next(s, t, c).threads == s.threads[t := Next(s, t, c).threads[t]]
  {
  }

  lemma CountKept(s: Shared, t: nat, c: Choice)
    requires Counted(s) && t < |s.threads| && c != HandshakeDone && Loaded(s.threads[t])
    ensures Counted(Next(s, t, c))
  {
    hide Writers;
    OthersStay(s, t, c);
    WritersUpdate(s.threads, t, Next(s, t, c).threads[t]);
  }

  lemma LogKept(s: Shared, t: nat, c: Choice)
    requires Logged(s) && t < |s.threads| && c != HandshakeDone && Sane(s, t, s.threads[t])
    ensures Logged(Next(s, t, c))
    ensures s.sent ==> Next(s, t, c).sent
  {
    assert (s.log + [CloseNotify])[|s.log|] == CloseNotify;
  }

  /** The moving thread stays sane. */
  lemma PlaceKept(s: Shared, t: nat, c: Choice)
    requires t < |s.threads| && c != HandshakeDone && Sane(s, t, s.threads[t]) && s.lock >= FREE
    ensures var n := Next(s, t, c); |n.threads| == |s.threads| && Sane(n, t, n.threads[t])
  {
    hide Next;
    if Writing(s.threads[t]) {
      WriterKept(s, t, c);
    } else {
      OtherKept(s, t, c);
    }
  }

  lemma WriterKept(s: Shared, t: nat, c: Choice)
    requires t < |s.threads| && c != HandshakeDone && Sane(s, t, s.threads[t]) && s.lock >= FREE
    requires Writing(s.threads[t])
    ensures var n := Next(s, t, c); |n.threads| == |s.threads| && Sane(n, t, n.threads[t])
  {
  }

  lemma OtherKept(s: Shared, t: nat, c: Choice)
    requires t < |s.threads| && c != HandshakeDone && Sane(s, t, s.threads[t]) && s.lock >= FREE
    requires !Writing(s.threads[t])
    ensures var n := Next(s, t, c); |n.threads| == |s.threads| && Sane(n, t, n.threads[t])
  {
    hide Next;
    var p := s.threads[t];
    if p.NotifyLock? || p.NotifyHold? || p.NotifyUnlock? {
      NotifierKept(s, t, c);
    } else {
      LoaderKept(s, t, c);
    }
  }

  lemma NotifierKept(s: Shared, t: nat, c: Choice)
    requires t < |s.threads| && c != HandshakeDone && Sane(s, t, s.threads[t]) && s.lock >= FREE
    requires s.threads[t].NotifyLock? || s.threads[t].NotifyHold? || s.threads[t].NotifyUnlock?
    ensures var n := Next(s, t, c); |n.threads| == |s.threads| && Sane(n, t, n.threads[t])
  {
  }

  lemma LoaderKept(s: Shared, t: nat, c: Choice)
    requires t < |s.threads| && c != HandshakeDone && Sane(s, t, s.threads[t]) && s.lock >= FREE
    requires !Writing(s.threads[t]) && !s.threads[t].NotifyLock? && !Holds(s.threads[t])
    ensures var n := Next(s, t, c); |n.threads| == |s.threads| && Sane(n, t, n.threads[t])
  {
  }

  /** Only a free lock is taken, only the holder gives it back, and only the holder marks the alert as sent. */
  lemma LockMoves(s: Shared, t: nat, c: Choice)
    requires t < |s.threads| && c != HandshakeDone && Sane(s, t, s.threads[t])
    ensures var n := Next(s, t, c);
            && (n.lock == s.lock || (s.lock == FREE && n.lock == t) || (s.lock == t && n.lock == FREE))
            && (n.sent == s.sent || s.lock == t)
  {
  }

  lemma NextKeeps(s: Shared, t: nat, c: Choice)
    requires Inv(s)
    ensures Inv(Next(s, t, c)) && |Next(s, t, c).threads| == |s.threads|
  {
    if t < |s.threads| && c != HandshakeDone {
      assert Sane(s, t, s.threads[t]);
      StepKeeps(s, t, c);
    } else {
      assert forall u :: 0 <= u < |s.threads| ==> Sane(s, u, s.threads[u]);
    }
  }

  lemma StepKeeps(s: Shared, t: nat, c: Choice)
    requires Inv(s) && t < |s.threads| && c != HandshakeDone && Sane(s, t, s.threads[t])
    ensures Inv(Next(s, t, c)) && |Next(s, t, c).threads| == |s.threads|
  {
    hide Next, Counted, Logged, Writers, Loaded;
    assert Loaded(s.threads[t]);
    CountKept(s, t, c);
    LogKept(s, t, c);
    PlaceKept(s, t, c);
    OthersStay(s, t, c);
    LockMoves(s, t, c);
    var n := Next(s, t, c);
    forall u | 0 <= u < |n.threads| ensures Sane(n, u, n.threads[u]) {
      assert Sane(s, u, s.threads[u]);
    }
  }

  // ----- Whole runs -----

  datatype Move = Move(thread: nat, choice: Choice)

  function Run(s: Shared, moves: seq<Move>): Shared
    decreases |moves|
  {
    if moves == [] then s else Run(Next(s, moves[0].thread, moves[0].choice), moves[1..])
  }

  /** A new connection used by `n` threads. */
  function Start(n: nat): Shared
  {
    Shared(0, false, false, FREE, 0, [], seq(n, i => Idle))
  }

  lemma {:induction false} NoWriters(ps: seq<Place>)
    requires forall i :: 0 <= i < |ps| ==> ps[i].Idle?
    ensures Writers(ps) == 0
  {
    if ps != [] {
      NoWriters(ps[1..]);
    }
  }

  lemma {:induction false} RunKeeps(s: Shared, moves: seq<Move>)
    requires Inv(s)
    ensures Inv(Run(s, moves))
    decreases |moves|
  {
    hide Next, Inv;
    if moves != [] {
      NextKeeps(s, moves[0].thread, moves[0].choice);
      RunKeeps(Next(s, moves[0].thread, moves[0].choice), moves[1..]);
    }
  }

  /**
   In every interleaving the counter is twice the writers in flight plus the
   close bit, at most one Close wins, and the wire carries at most one
   close_notify with no application record behind it.
   */
  lemma EveryRun(n: nat, moves: seq<Move>)
    ensures var s := Run(Start(n), moves);
            && s.active == 2 * Writers(s.threads) + s.wins && s.wins <= 1
            && Orderly(s.log) && (s.sent <==> CloseNotify in s.log)
  {
    hide Next, Run, Writers;
    StartKeeps(n);
    RunKeeps(Start(n), moves);
  }

  lemma StartKeeps(n: nat)
    ensures Inv(Start(n))
  {
    NoWriters(Start(n).threads);
  }

  /** Once a Close has won, no step starts a Write. */
  lemma NoWriteAfterClose(s: Shared, t: nat, c: Choice)
    requires Inv(s) && s.wins == 1
    ensures Writers(Next(s, t, c).threads) <= Writers(s.threads) && Next(s, t, c).wins == 1
  {
    hide Writers;
    var n := Next(s, t, c);
    NextKeeps(s, t, c);
    if t < |s.threads| && c != HandshakeDone {
      OthersStay(s, t, c);
      WritersUpdate(s.threads, t, n.threads[t]);
      assert Sane(s, t, s.threads[t]);
    }
  }

  lemma {:induction false} SenderWrites(ps: seq<Place>, t: nat)
    requires t < |ps| && Writing(ps[t])
    ensures Writers(ps) > 0
    decreases |ps|
  {
    if t > 0 {
      SenderWrites(ps[1..], t - 1);
    }
  }

  /** When Close wins with no Write in flight, no application record is written in any continuation. */
  lemma {:induction false} QuietAfterClose(s: Shared, moves: seq<Move>)
    requires Inv(s) && s.wins == 1 && Writers(s.threads) == 0
    ensures var r := Run(s, moves);
            && |s.log| <= |r.log| && r.log[..|s.log|] == s.log
            && Application !in r.log[|s.log|..] && Writers(r.threads) == 0
    decreases |moves|
  {
    hide Inv, Next;
    if moves != [] {
      var t, c := moves[0].thread, moves[0].choice;
      NoWriteAfterClose(s, t, c);
      NextKeeps(s, t, c);
      QuietStep(s, t, c);
      var n := Next(s, t, c);
      QuietAfterClose(n, moves[1..]);
      var r := Run(s, moves);
      assert r.log[|s.log|..] == n.log[|s.log|..] + r.log[|n.log|..];
      assert r.log[..|s.log|] == r.log[..|n.log|][..|s.log|];
    }
  }

  lemma QuietStep(s: Shared, t: nat, c: Choice)
    requires Inv(s) && Writers(s.threads) == 0
    ensures var n := Next(s, t, c);
            |s.log| <= |n.log| && n.log[..|s.log|] == s.log && Application !in n.log[|s.log|..]
  {
    if t < |s.threads| && Writing(s.threads[t]) {
      SenderWrites(s.threads, t);
    }
  }

  /** A close_notify has gone out, or thread `t` is on its way to send it. */
  predicate Owing(s: Shared, t: nat)
    requires t < |s.threads|
  {
    var p := s.threads[t];
    s.sent || (s.complete && (p.CloseBegin? || p.HalfBegin? || p.NotifyLock? || p.NotifyHold?))
  }

  lemma OwingStep(s: Shared, t: nat, u: nat, c: Choice)
    requires t < |s.threads| && Owing(s, t)
    ensures |Next(s, u, c).threads| == |s.threads| && Owing(Next(s, u, c), t)
  {
  }

  /**
   A Close that wins with no Write in flight, and a CloseWrite, on a completed handshake: in every continuation,
   once the thread is past its alert, be it by its own sending or by another's, a close_notify is on the wire.
   */
  lemma {:induction false} NotifySent(s: Shared, t: nat, moves: seq<Move>)
    requires Inv(s) && t < |s.threads| && Owing(s, t)
    ensures var r := Run(s, moves);
            && |r.threads| == |s.threads| && Inv(r)
            && (r.threads[t].NotifyUnlock? || r.threads[t].CloseConn? || r.threads[t].Idle? ==> CloseNotify in r.log)
    decreases |moves|
  {
    if moves == [] {
      assert Logged(s);
    } else {
      hide Inv, Next, Owing;
      NextKeeps(s, moves[0].thread, moves[0].choice);
      OwingStep(s, t, moves[0].thread, moves[0].choice);
      NotifySent(Next(s, moves[0].thread, moves[0].choice), t, moves[1..]);
    }
  }

  /** A winning Close goes straight for the transport exactly when a Write is in flight; else it owes the alert. */
  lemma CloseSkipsNotify(s: Shared, t: nat, c: Choice)
    requires Inv(s) && t < |s.threads| && c != HandshakeDone && s.threads[t].CloseSwap?
    ensures var n := Next(s, t, c);
            && (n.wins > s.wins <==> s.threads[t] == CloseSwap(s.active))
            && (n.wins > s.wins ==>
                  if Writers(s.threads) > 0 then n.threads[t].CloseConn?
                  else n.threads[t].CloseBegin? && (s.complete ==> Owing(n, t)))
  {
    hide Writers;
    assert Sane(s, t, s.threads[t]) && Counted(s);
  }

  function Records(log: seq<Event>): nat
  {
    if log == [] then 0 else (if log[0] == Application then 1 else 0) + Records(log[1..])
  }

  lemma {:induction false} RecordsAppend(log: seq<Event>, e: Event)
    ensures Records(log + [e]) == Records(log) + if e == Application then 1 else 0
    decreases |log|
  {
    if log == [] {
      assert log + [e] == [e];
    } else {
      assert (log + [e])[1..] == log[1..] + [e];
      RecordsAppend(log[1..], e);
    }
  }

  /** The move lets a Write that holds the lock send a record. */
  predicate Sends(s: Shared, m: Move)
  {
    m.choice != HandshakeDone && m.thread < |s.threads| && s.threads[m.thread].WriteSend?
  }

  /** How many records the Writes of a run send. */
  function SentIn(s: Shared, moves: seq<Move>): nat
    decreases |moves|
  {
    if moves == [] then 0 else
    (if Sends(s, moves[0]) then 1 else 0) + SentIn(Next(s, moves[0].thread, moves[0].choice), moves[1..])
  }

  /** Every record that a Write sends goes on the wire once, and no other application record does. */
  lemma {:induction false} EveryRecordSent(s: Shared, moves: seq<Move>)
    ensures Records(Run(s, moves).log) == Records(s.log) + SentIn(s, moves)
    decreases |moves|
  {
    if moves != [] {
      RecordStep(s, moves[0]);
      EveryRecordSent(Next(s, moves[0].thread, moves[0].choice), moves[1..]);
    }
  }

  lemma RecordStep(s: Shared, m: Move)
    ensures Records(Next(s, m.thread, m.choice).log) == Records(s.log) + if Sends(s, m) then 1 else 0
  {
    RecordsAppend(s.log, Application);
    RecordsAppend(s.log, CloseNotify);
  }
}
