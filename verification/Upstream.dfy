/**
 Establishing the upstream connection: candidates tried in order, one retry in
 place after a rejected ECH, and one fallback to another mode.  Every attempt
 consults the environment once; connection `n` is the one opened by attempt `n`.
 */
module Upstream {

  datatype Shake = Done | EchRejected | Broken

  /** What the network and the resolver answer to one attempt. */
  datatype Answer = Answer(dial: bool, shake: Shake, refresh: bool)

  type Environment = nat -> Answer

  datatype Rule = Rule(mode: string, fallback: string, echEnabled: bool, usePool: bool)

  datatype Event =
    | Dialled(addr: string, mode: string, n: nat, ok: bool)
    | Closed(n: nat)
    | Failure(addr: string)
    | Success(addr: string)

  /** What does not change while connecting: the resolver and the host part of an address. */
  datatype Setup = Setup(env: Environment, resolver: bool, hostOf: string -> string)

  /** The pool hears about an address when it is in use and the address has a host. */
  predicate Reports(u: Setup, rule: Rule, addr: string)
  {
    rule.usePool && u.hostOf(addr) != ""
  }

  function Failed(u: Setup, rule: Rule, addr: string): seq<Event>
  {
    if Reports(u, rule, addr) then [Failure(addr)] else []
  }

  // ----- One candidate -----

  datatype Tried = Tried(events: seq<Event>, attempts: nat, conn: int)

  const NO_CONN := -1

  /** The handshake failed in the one way that is retried in place. */
  predicate Retries(u: Setup, rule: Rule, n: nat, attempt: nat)
  {
    attempt == 0 && u.env(n).shake.EchRejected? && rule.echEnabled && u.resolver && u.env(n).refresh
  }

  datatype Verdict = Won | Lost | Again

  /** One attempt: what happens, and whether it wins, loses or is repeated. */
  datatype Single = Single(events: seq<Event>, verdict: Verdict)

  function Once(u: Setup, rule: Rule, addr: string, n: nat, attempt: nat): Single
  {
    var a := u.env(n);
    var dialled := Dialled(addr, rule.mode, n, a.dial);
    if !a.dial then Single([dialled] + Failed(u, rule, addr), Lost)
    else if a.shake.Done? then Single([dialled] + (if Reports(u, rule, addr) then [Success(addr)] else []), Won)
    else if Retries(u, rule, n, attempt) then Single([dialled, Closed(n)], Again)
    else Single([dialled, Closed(n)] + Failed(u, rule, addr), Lost)
  }

  function Try(u: Setup, rule: Rule, addr: string, n: nat, attempt: nat): Tried
    requires attempt < 2
    decreases 2 - attempt
  {
    var s := Once(u, rule, addr, n, attempt);
    if s.verdict.Again? then
      var r := Try(u, rule, addr, n + 1, attempt + 1);
      Tried(s.events + r.events, 1 + r.attempts, r.conn)
    else Tried(s.events, 1, if s.verdict.Won? then n else NO_CONN)
  }

  // ----- All candidates -----

  /** What was done for each candidate that was tried, in order. */
  datatype Round = Round(mode: string, groups: seq<seq<Event>>, attempts: nat, conn: int)

  function TryAll(u: Setup, rule: Rule, addrs: seq<string>, n: nat): Round
    decreases |addrs|
  {
    if addrs == [] then Round(rule.mode, [], 0, NO_CONN) else
    var t := Try(u, rule, addrs[0], n, 0);
    if t.conn != NO_CONN then Round(rule.mode, [t.events], t.attempts, t.conn) else
    var r := TryAll(u, rule, addrs[1..], n + t.attempts);
    Round(rule.mode, [t.events] + r.groups, t.attempts + r.attempts, r.conn)
  }

  predicate FallsBack(rule: Rule)
  {
    rule.fallback in {"tls-rf", "quic"} && rule.fallback != rule.mode
  }

  function Fallback(rule: Rule): Rule
  {
    rule.(mode := rule.fallback, echEnabled := false)
  }

  function Candidates(host: string, addrs: seq<string>): seq<string>
  {
    if addrs == [] then [host + ":443"] else addrs
  }

  function Establish(u: Setup, rule: Rule, host: string, addrs: seq<string>, n: nat): seq<Round>
    decreases if FallsBack(rule) then 1 else 0
  {
    var r := TryAll(u, rule, Candidates(host, addrs), n);
    if r.conn != NO_CONN || !FallsBack(rule) then [r]
    else [r] + Establish(u, Fallback(rule), host, addrs, n + r.attempts)
  }

  // ----- What one candidate costs -----

  function Dials(es: seq<Event>): nat
  {
    if es == [] then 0 else (if es[0].Dialled? then 1 else 0) + Dials(es[1..])
  }

  function Failures(es: seq<Event>): nat
  {
    if es == [] then 0 else (if es[0].Failure? then 1 else 0) + Failures(es[1..])
  }

  lemma {:induction false} CountsConcat(a: seq<Event>, b: seq<Event>)
    ensures Dials(a + b) == Dials(a) + Dials(b) && Failures(a + b) == Failures(a) + Failures(b)
    decreases |a|
  {
    if a == [] {
      assert a + b == b;
    } else {
      assert (a + b)[1..] == a[1..] + b;
      CountsConcat(a[1..], b);
    }
  }

  /** A connection is opened by a successful dial and closed by its own event; only `conn` may stay open. */
  predicate Tidy(es: seq<Event>, conn: int)
  {
    && (forall e :: e in es && e.Dialled? && e.ok && e.n != conn ==> Closed(e.n) in es)
    && (forall e :: e in es && e.Closed? ==> e.n != conn)
  }

  /** Everything in the list concerns one address and mode. */
  predicate About(es: seq<Event>, addr: string, mode: string)
  {
    forall e :: e in es ==> (e.Dialled? ==> e.addr == addr && e.mode == mode)
                            && (e.Failure? ==> e.addr == addr) && (e.Success? ==> e.addr == addr)
  }

  /** The connections opened and closed are those of attempts `n` to `m`. */
  predicate Within(es: seq<Event>, n: nat, m: nat)
  {
    forall e :: e in es ==> (e.Dialled? ==> n <= e.n < m) && (e.Closed? ==> n <= e.n < m)
  }

  ghost predicate GoodGroup(u: Setup, rule: Rule, addr: string, t: Tried, n: nat, left: nat)
  {
    && 1 <= Dials(t.events) <= left && t.attempts == Dials(t.events)
    && About(t.events, addr, rule.mode) && Within(t.events, n, n + t.attempts) && Tidy(t.events, t.conn)
    && (t.conn == NO_CONN || (n <= t.conn < n + t.attempts && Dialled(addr, rule.mode, t.conn, true) in t.events))
    && Failures(t.events) == if t.conn == NO_CONN && Reports(u, rule, addr) then 1 else 0
  }

  ghost predicate GoodOnce(u: Setup, rule: Rule, addr: string, s: Single, n: nat)
  {
    && Dials(s.events) == 1 && About(s.events, addr, rule.mode) && Within(s.events, n, n + 1)
    && Tidy(s.events, if s.verdict.Won? then n else NO_CONN)
    && (s.verdict.Won? ==> Dialled(addr, rule.mode, n, true) in s.events)
    && Failures(s.events) == if s.verdict.Lost? && Reports(u, rule, addr) then 1 else 0
  }

  /** An attempt that never connects, or that wins. */
  lemma OnceSimple(u: Setup, rule: Rule, addr: string, n: nat, attempt: nat)
    requires !u.env(n).dial || u.env(n).shake.Done?
    ensures GoodOnce(u, rule, addr, Once(u, rule, addr, n, attempt), n)
  {
    var dialled := Dialled(addr, rule.mode, n, u.env(n).dial);
    CountsConcat([dialled], [Success(addr)]);
    CountsConcat([dialled], Failed(u, rule, addr));
  }

  /** An attempt whose handshake fails, so that the connection is closed. */
  lemma OnceClosed(u: Setup, rule: Rule, addr: string, n: nat, attempt: nat)
    requires u.env(n).dial && !u.env(n).shake.Done?
    ensures GoodOnce(u, rule, addr, Once(u, rule, addr, n, attempt), n)
  {
    var dialled := Dialled(addr, rule.mode, n, true);
    CountsConcat([dialled], [Closed(n)]);
    assert [dialled] + [Closed(n)] == [dialled, Closed(n)];
    CountsConcat([dialled, Closed(n)], Failed(u, rule, addr));
    assert ([dialled, Closed(n)] + Failed(u, rule, addr))[1] == Closed(n);
    assert [dialled, Closed(n)][1] == Closed(n);
  }

  /** One attempt dials once, reports a failure exactly when it loses, and closes what it does not hand on. */
  lemma OnceGood(u: Setup, rule: Rule, addr: string, n: nat, attempt: nat)
    ensures GoodOnce(u, rule, addr, Once(u, rule, addr, n, attempt), n)
  {
    hide Once, GoodOnce;
    if u.env(n).dial && !u.env(n).shake.Done? {
      OnceClosed(u, rule, addr, n, attempt);
    } else {
      OnceSimple(u, rule, addr, n, attempt);
    }
  }

  lemma RetryGood(u: Setup, rule: Rule, addr: string, s: Single, r: Tried, n: nat)
    requires GoodOnce(u, rule, addr, s, n) && s.verdict.Again? && GoodGroup(u, rule, addr, r, n + 1, 1)
    ensures GoodGroup(u, rule, addr, Tried(s.events + r.events, 1 + r.attempts, r.conn), n, 2)
  {
    hide Dials, Failures, Tidy, Within;
    CountsConcat(s.events, r.events);
    JoinTidy(s.events, r.events, r.conn, n, n + 1, n + 1 + r.attempts);
    assert About(s.events + r.events, addr, rule.mode);
  }

  lemma SingleGood(u: Setup, rule: Rule, addr: string, s: Single, n: nat, left: nat)
    requires GoodOnce(u, rule, addr, s, n) && !s.verdict.Again? && left >= 1
    ensures GoodGroup(u, rule, addr, Tried(s.events, 1, if s.verdict.Won? then n else NO_CONN), n, left)
  {
    hide Dials, Failures, About, Tidy, Within;
  }

  /** One candidate: at most two dials, exactly one failure report when it fails, nothing left open. */
  lemma {:induction false} TryGood(u: Setup, rule: Rule, addr: string, n: nat, attempt: nat)
    requires attempt < 2
    ensures GoodGroup(u, rule, addr, Try(u, rule, addr, n, attempt), n, 2 - attempt)
    decreases 2 - attempt
  {
    hide Once, GoodOnce, GoodGroup;
    var s := Once(u, rule, addr, n, attempt);
    OnceGood(u, rule, addr, n, attempt);
    if s.verdict.Again? {
      OnlyFirstAgain(u, rule, addr, n, attempt);
      TryGood(u, rule, addr, n + 1, attempt + 1);
      RetryGood(u, rule, addr, s, Try(u, rule, addr, n + 1, attempt + 1), n);
    } else {
      SingleGood(u, rule, addr, s, n, 2 - attempt);
    }
  }

  lemma OnlyFirstAgain(u: Setup, rule: Rule, addr: string, n: nat, attempt: nat)
    requires Once(u, rule, addr, n, attempt).verdict.Again?
    ensures attempt == 0
  {
  }

  // ----- What a round does -----

  function Joined(groups: seq<seq<Event>>): seq<Event>
  {
    if groups == [] then [] else groups[0] + Joined(groups[1..])
  }

  /** The number of failure reports owed for candidate `i` of a round. */
  predicate Owes(u: Setup, rule: Rule, addrs: seq<string>, r: Round, i: nat)
    requires i < |addrs|
  {
    Reports(u, rule, addrs[i]) && !(r.conn != NO_CONN && i == |r.groups| - 1)
  }

  /** Candidate `i` was dialled once or twice under the round's mode, and reported exactly as it fared. */
  ghost predicate GoodTurn(u: Setup, rule: Rule, addrs: seq<string>, r: Round, i: nat)
    requires i < |r.groups| <= |addrs|
  {
    && 1 <= Dials(r.groups[i]) <= 2 && About(r.groups[i], addrs[i], rule.mode)
    && Failures(r.groups[i]) == if Owes(u, rule, addrs, r, i) then 1 else 0
  }

  ghost predicate GoodRound(u: Setup, rule: Rule, addrs: seq<string>, r: Round, n: nat)
  {
    && r.mode == rule.mode && |r.groups| <= |addrs| && (r.conn == NO_CONN ==> |r.groups| == |addrs|)
    && (forall i :: 0 <= i < |r.groups| ==> GoodTurn(u, rule, addrs, r, i))
    && Tidy(Joined(r.groups), r.conn) && Within(Joined(r.groups), n, n + r.attempts)
    && (r.conn != NO_CONN ==>
          && r.groups != [] && n <= r.conn < n + r.attempts
          && Dialled(addrs[|r.groups| - 1], rule.mode, r.conn, true) in r.groups[|r.groups| - 1])
  }

  lemma WonRound(u: Setup, rule: Rule, addrs: seq<string>, t: Tried, n: nat)
    requires addrs != [] && GoodGroup(u, rule, addrs[0], t, n, 2) && t.conn != NO_CONN
    ensures GoodRound(u, rule, addrs, Round(rule.mode, [t.events], t.attempts, t.conn), n)
  {
    hide Dials, Failures, About, Tidy, Within;
    var all := Round(rule.mode, [t.events], t.attempts, t.conn);
    assert !Owes(u, rule, addrs, all, 0);
    assert Joined(all.groups) == t.events by {
      assert all.groups[1..] == [];
      assert t.events + [] == t.events;
    }
  }

  lemma LostRound(u: Setup, rule: Rule, addrs: seq<string>, t: Tried, r: Round, n: nat)
    requires addrs != [] && GoodGroup(u, rule, addrs[0], t, n, 2) && t.conn == NO_CONN
    requires GoodRound(u, rule, addrs[1..], r, n + t.attempts)
    ensures GoodRound(u, rule, addrs, Round(rule.mode, [t.events] + r.groups, t.attempts + r.attempts, r.conn), n)
  {
    hide Dials, Failures, About, Tidy, Within;
    var all := Round(rule.mode, [t.events] + r.groups, t.attempts + r.attempts, r.conn);
    assert all.groups[1..] == r.groups;
    JoinTidy(t.events, Joined(r.groups), r.conn, n, n + t.attempts, n + all.attempts);
    forall i | 0 <= i < |all.groups| ensures GoodTurn(u, rule, addrs, all, i) {
      assert i > 0 ==> Owes(u, rule, addrs, all, i) == Owes(u, rule, addrs[1..], r, i - 1);
      assert i == 0 ==> Owes(u, rule, addrs, all, i) == Reports(u, rule, addrs[0]);
      if i > 0 {
        assert all.groups[i] == r.groups[i - 1] && GoodTurn(u, rule, addrs[1..], r, i - 1);
      }
    }
    if all.conn != NO_CONN {
      assert all.groups[|all.groups| - 1] == r.groups[|r.groups| - 1];
    }
  }

  lemma {:induction false} TryAllGood(u: Setup, rule: Rule, addrs: seq<string>, n: nat)
    ensures GoodRound(u, rule, addrs, TryAll(u, rule, addrs, n), n)
    decreases |addrs|
  {
    hide Try, GoodGroup;
    if addrs == [] {
      assert Tidy([], NO_CONN) && Within([], n, n);
    } else {
      hide GoodRound;
      var t := Try(u, rule, addrs[0], n, 0);
      TryGood(u, rule, addrs[0], n, 0);
      if t.conn != NO_CONN {
        WonRound(u, rule, addrs, t, n);
      } else {
        TryAllGood(u, rule, addrs[1..], n + t.attempts);
        LostRound(u, rule, addrs, t, TryAll(u, rule, addrs[1..], n + t.attempts), n);
      }
    }
  }

  /** Tidy lists with different connections stay tidy side by side. */
  lemma JoinTidy(a: seq<Event>, b: seq<Event>, conn: int, n: nat, m: nat, k: nat)
    requires Tidy(a, NO_CONN) && Tidy(b, conn) && Within(a, n, m) && Within(b, m, k) && n <= m <= k
    requires conn == NO_CONN || m <= conn < k
    ensures Tidy(a + b, conn) && Within(a + b, n, k)
  {
  }

  // ----- What a call does -----

  function AllEvents(rounds: seq<Round>): seq<Event>
  {
    if rounds == [] then [] else Joined(rounds[0].groups) + AllEvents(rounds[1..])
  }

  function Winner(rounds: seq<Round>): int
  {
    if rounds == [] then NO_CONN else rounds[|rounds| - 1].conn
  }

  /**
   At most two rounds: the first under the rule's own mode and, only when it
   failed and another secure mode is set, a second one under that mode.  In
   each round candidates are tried in order.  The connection handed back is the
   only one left open.
   */
  lemma EstablishGood(u: Setup, rule: Rule, host: string, addrs: seq<string>, n: nat)
    ensures var rs, all := Establish(u, rule, host, addrs, n), Candidates(host, addrs);
            && 1 <= |rs| <= 2 && GoodRound(u, rule, all, rs[0], n)
            && (|rs| == 2 <==> rs[0].conn == NO_CONN && FallsBack(rule))
            && (|rs| == 2 ==> GoodRound(u, Fallback(rule), all, rs[1], n + rs[0].attempts))
            && Tidy(AllEvents(rs), Winner(rs))
  {
    hide TryAll, Candidates, GoodTurn;
    var all := Candidates(host, addrs);
    TryAllGood(u, rule, all, n);
    var r := TryAll(u, rule, all, n);
    var rs := Establish(u, rule, host, addrs, n);
    assert !FallsBack(Fallback(rule));
    if r.conn != NO_CONN || !FallsBack(rule) {
      assert rs[1..] == [];
      assert Joined(r.groups) + [] == Joined(r.groups);
    } else {
      TryAllGood(u, Fallback(rule), all, n + r.attempts);
      var q := TryAll(u, Fallback(rule), all, n + r.attempts);
      assert rs == [r, q];
      assert rs[1..] == [q] && [q][1..] == [];
      assert AllEvents([q]) == Joined(q.groups) by { assert Joined(q.groups) + [] == Joined(q.groups); }
      JoinTidy(Joined(r.groups), Joined(q.groups), q.conn, n, n + r.attempts, n + r.attempts + q.attempts);
    }
  }

  // ----- Which connection it is -----

  /** Attempt `n` connects and its handshake succeeds. */
  predicate Succeeds(u: Setup, n: nat)
  {
    u.env(n).dial && u.env(n).shake.Done?
  }

  /** Of the attempts from `n` on, the last is the first to succeed and gives the connection, or none succeeds. */
  ghost predicate FirstSuccess(u: Setup, n: nat, attempts: nat, conn: int)
  {
    if conn == NO_CONN then forall k :: n <= k < n + attempts ==> !Succeeds(u, k)
    else n <= conn == n + attempts - 1 && Succeeds(u, conn) && forall k :: n <= k < conn ==> !Succeeds(u, k)
  }

  lemma JoinFirst(u: Setup, n: nat, a: nat, b: nat, conn: int)
    requires FirstSuccess(u, n, a, NO_CONN) && FirstSuccess(u, n + a, b, conn)
    ensures FirstSuccess(u, n, a + b, conn)
  {
  }

  /** A candidate is dialled twice exactly when its first handshake was rejected for ECH and the key was renewed. */
  lemma TryFirst(u: Setup, rule: Rule, addr: string, n: nat)
    ensures var t := Try(u, rule, addr, n, 0);
            && FirstSuccess(u, n, t.attempts, t.conn) && 1 <= t.attempts <= 2
            && (t.attempts == 2 <==>
                u.env(n).dial && u.env(n).shake.EchRejected? && rule.echEnabled && u.resolver && u.env(n).refresh)
            && (Success(addr) in t.events <==> t.conn != NO_CONN && Reports(u, rule, addr))
  {
    var again := Try(u, rule, addr, n + 1, 1);
    assert FirstSuccess(u, n + 1, again.attempts, again.conn);
  }

  lemma {:induction false} TryAllFirst(u: Setup, rule: Rule, addrs: seq<string>, n: nat)
    ensures var r := TryAll(u, rule, addrs, n); FirstSuccess(u, n, r.attempts, r.conn)
    decreases |addrs|
  {
    hide Try, FirstSuccess;
    if addrs == [] {
      assert FirstSuccess(u, n, 0, NO_CONN) by { NoneTried(u, n); }
    } else {
      var t := Try(u, rule, addrs[0], n, 0);
      TryFirst(u, rule, addrs[0], n);
      if t.conn == NO_CONN {
        TryAllFirst(u, rule, addrs[1..], n + t.attempts);
        JoinFirst(u, n, t.attempts, TryAll(u, rule, addrs[1..], n + t.attempts).attempts,
                  TryAll(u, rule, addrs[1..], n + t.attempts).conn);
      }
    }
  }

  lemma SomeTried(u: Setup, rule: Rule, addrs: seq<string>, n: nat)
    requires addrs != []
    ensures TryAll(u, rule, addrs, n).attempts > 0
  {
    hide Try;
    TryFirst(u, rule, addrs[0], n);
  }

  lemma NoneTried(u: Setup, n: nat)
    ensures FirstSuccess(u, n, 0, NO_CONN)
  {
  }

  /** Without ECH nothing is retried in place: every candidate is dialled once. */
  lemma {:induction false} TryAllOnce(u: Setup, rule: Rule, addrs: seq<string>, n: nat)
    requires !rule.echEnabled
    ensures forall g :: g in TryAll(u, rule, addrs, n).groups ==> Dials(g) == 1
    decreases |addrs|
  {
    hide Try, Dials;
    if addrs != [] {
      var t := Try(u, rule, addrs[0], n, 0);
      TryFirst(u, rule, addrs[0], n);
      TryGood(u, rule, addrs[0], n, 0);
      assert Dials(t.events) == 1;
      if t.conn == NO_CONN {
        TryAllOnce(u, rule, addrs[1..], n + t.attempts);
      }
    }
  }

  /** The second round runs under the other secure mode, without ECH and so without a retry in place. */
  lemma FallbackPlain(u: Setup, rule: Rule, host: string, addrs: seq<string>, n: nat)
    ensures var rs := Establish(u, rule, host, addrs, n);
            |rs| == 2 ==>
              && rs[1].mode == rule.fallback && rule.fallback in {"tls-rf", "quic"} && rule.fallback != rule.mode
              && forall g :: g in rs[1].groups ==> Dials(g) == 1
  {
    hide TryAll, Candidates, Dials;
    EstablishGood(u, rule, host, addrs, n);
    var all, r := Candidates(host, addrs), TryAll(u, rule, Candidates(host, addrs), n);
    TryAllOnce(u, Fallback(rule), all, n + r.attempts);
    assert !FallsBack(Fallback(rule));
    var rs := Establish(u, rule, host, addrs, n);
    assert |rs| == 2 ==> rs[1] == TryAll(u, Fallback(rule), all, n + r.attempts);
  }

  // ----- The loops -----

  /** The proxy while it connects: what happened, and how many attempts were made. */
  class Proxy {
    const setup: Setup
    var attempts: nat
    var log: seq<Event>

    constructor (setup: Setup)
      ensures this.setup == setup && attempts == 0 && log == []
    {
      this.setup, attempts, log := setup, 0, [];
    }

    method ReportFailure(rule: Rule, addr: string)
      modifies this`log
      ensures log == old(log) + Failed(setup, rule, addr)
    {
      if rule.usePool {
        var h := setup.hostOf(addr);
        if h != "" {
          log := log + [Failure(addr)];
        }
      }
    }

    /** Dials and shakes hands once. */
    method TryOnce(rule: Rule, addr: string, attempt: nat) returns (verdict: Verdict)
      modifies this
      ensures var s := Once(setup, rule, addr, old(attempts), attempt);
              verdict == s.verdict && attempts == old(attempts) + 1 && log == old(log) + s.events
    {
      var n := attempts;
      var a := setup.env(n);
      attempts := attempts + 1;
      log := log + [Dialled(addr, rule.mode, n, a.dial)];
      if !a.dial {
        ReportFailure(rule, addr);
        return Lost;
      }
      if a.shake.Done? {
        if rule.usePool && setup.hostOf(addr) != "" {
          log := log + [Success(addr)];
        }
        return Won;
      }
      log := log + [Closed(n)];
      if a.shake.EchRejected? && attempt == 0 && rule.echEnabled && setup.resolver && a.refresh {
        return Again;
      }
      ReportFailure(rule, addr);
      return Lost;
    }

    /** Up to two attempts at one candidate. */
    method TryCandidate(rule: Rule, addr: string) returns (conn: int)
      modifies this
      ensures var t := Try(setup, rule, addr, old(attempts), 0);
              conn == t.conn && attempts == old(attempts) + t.attempts && log == old(log) + t.events
    {
      hide Once;
      ghost var t := Try(setup, rule, addr, attempts, 0);
      var attempt := 0;
      while attempt < 2
        invariant 0 <= attempt < 2
        invariant var r := Try(setup, rule, addr, attempts, attempt);
                  && t.conn == r.conn && old(attempts) + t.attempts == attempts + r.attempts
                  && old(log) + t.events == log + r.events
        decreases 2 - attempt
      {
        var n := attempts;
        ghost var start, s := log, Once(setup, rule, addr, n, attempt);
        var verdict := TryOnce(rule, addr, attempt);
        if !verdict.Again? {
          return if verdict.Won? then n else NO_CONN;
        }
        OnlyFirstAgain(setup, rule, addr, n, attempt);
        attempt := attempt + 1;
        ghost var more := Try(setup, rule, addr, attempts, attempt).events;
        assert start + (s.events + more) == log + more;
      }
    }

    method TryCandidates(rule: Rule, addrs: seq<string>) returns (conn: int)
      modifies this
      ensures var r := TryAll(setup, rule, addrs, old(attempts));
              conn == r.conn && attempts == old(attempts) + r.attempts && log == old(log) + Joined(r.groups)
    {
      hide Try;
      ghost var all := TryAll(setup, rule, addrs, attempts);
      assert addrs[0..] == addrs;
      for i := 0 to |addrs|
        invariant var r := TryAll(setup, rule, addrs[i..], attempts);
                  && all.conn == r.conn && old(attempts) + all.attempts == attempts + r.attempts
                  && old(log) + Joined(all.groups) == log + Joined(r.groups)
      {
        ghost var r := TryAll(setup, rule, addrs[i..], attempts);
        ghost var start := log;
        assert addrs[i..][1..] == addrs[i + 1..];
        conn := TryCandidate(rule, addrs[i]);
        if conn != NO_CONN {
          assert r.groups[1..] == [];
          assert Joined(r.groups) == r.groups[0] + [];
          return;
        }
        assert r.groups[1..] == TryAll(setup, rule, addrs[i + 1..], attempts).groups;
        assert start + (r.groups[0] + Joined(r.groups[1..])) == log + Joined(r.groups[1..]);
      }
      assert log + [] == log;
      conn := NO_CONN;
    }

    /** The whole call, with its bounded recursion into the fallback mode. */
    method EstablishUpstreamConn(rule: Rule, host: string, addrs: seq<string>) returns (conn: int)
      modifies this
      ensures var rs := Establish(setup, rule, host, addrs, old(attempts));
              conn == Winner(rs) && log == old(log) + AllEvents(rs)
      ensures attempts > old(attempts) && FirstSuccess(setup, old(attempts), attempts - old(attempts), conn)
      decreases if FallsBack(rule) then 1 else 0
    {
      hide TryAll, FirstSuccess;
      var ordered := addrs;
      if |ordered| == 0 {
        ordered := [host + ":443"];
      }
      ghost var n := attempts;
      conn := TryCandidates(rule, ordered);
      ghost var r := TryAll(setup, rule, ordered, n);
      TryAllFirst(setup, rule, ordered, n);
      SomeTried(setup, rule, ordered, n);
      if conn != NO_CONN || !FallsBack(rule) {
        assert AllEvents([r]) == Joined(r.groups) by {
          assert [r][1..] == [];
          assert Joined(r.groups) + [] == Joined(r.groups);
        }
        return;
      }
      ghost var rest := Establish(setup, Fallback(rule), host, addrs, attempts);
      assert ([r] + rest)[1..] == rest;
      assert rest != [];
      ghost var m := attempts;
      conn := EstablishUpstreamConn(Fallback(rule), host, addrs);
      JoinFirst(setup, n, r.attempts, attempts - m, conn);
      assert old(log) + Joined(r.groups) + AllEvents(rest) == old(log) + (Joined(r.groups) + AllEvents(rest));
    }
  }
}
