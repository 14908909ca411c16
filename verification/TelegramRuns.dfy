/** Any number of Telegram deliveries over one KV namespace, in any
    interleaving, with time passing in between and Workers stopped anywhere. */
module TelegramRuns {
  import opened Common
  import opened WorkerTelegram
  import opened TelegramAlone

  datatype Delivery = Delivery(job: Job, pc: Pc)

  datatype Telegram = Telegram(kv: Kv, now: int, deliveries: seq<Delivery>, log: seq<Event>)

  datatype Action =
    | Arrive(job: Job)
    | Wait(seconds: nat)
    | Run(d: nat, out: Outcome)
    | Kill(d: nat)

  predicate Enabled(s: Telegram, a: Action) {
    match a
    case Arrive(job) => job.cacheId != ""
    case Wait(_) => true
    case Run(d, _) => d < |s.deliveries| && !Over(s.deliveries[d].pc)
    case Kill(d) => d < |s.deliveries| && !Over(s.deliveries[d].pc)
  }

  function Next(ttl: nat, s: Telegram, a: Action): Telegram
    requires Enabled(s, a)
  {
    match a
    case Arrive(job) => s.(deliveries := s.deliveries + [Delivery(job, StartOf(job))])
    case Wait(seconds) => s.(now := s.now + seconds)
    case Run(d, out) =>
      var (kv, pc, es) := Step(d, s.deliveries[d].job, s.deliveries[d].pc, s.kv, s.now, ttl, out);
      s.(kv := kv, deliveries := s.deliveries[d := s.deliveries[d].(pc := pc)], log := s.log + es)
    case Kill(d) => s.(deliveries := s.deliveries[d := s.deliveries[d].(pc := Killed)])
  }

  predicate Execution(ttl: nat, s: Telegram, acts: seq<Action>, s': Telegram)
    decreases |acts|
  {
    if acts == [] then s' == s
    else Enabled(s, acts[0]) && Execution(ttl, Next(ttl, s, acts[0]), acts[1..], s')
  }

  /** Nothing has been delivered yet; KV may hold anything. */
  function Fresh(kv: Kv, now: int): Telegram {
    Telegram(kv, now, [], [])
  }

  // ---------------------------------------------------------------------
  // What one delivery did, from its place and from its lookup
  // ---------------------------------------------------------------------

  /** The answers of the lookups of delivery `d`: found or not. */
  function Lookups(log: seq<Event>, d: nat): seq<bool> {
    if log == [] then []
    else
      var e := log[|log| - 1];
      Lookups(log[..|log| - 1], d) + if e.Looked? && e.d == d then [e.hit] else []
  }

  /** A delivery that has not looked yet, or has missed the marker, has contacted
      a prefix of its chats; one that has found it contacted nobody. */
  predicate InOrder(log: seq<Event>, d: nat, dl: Delivery) {
    var sent, looked := Contacted(log, d), Lookups(log, d);
    match dl.pc
    case Digest => sent == [] && looked == []
    case Lookup => sent == [] && looked == []
    case Render => sent == [] && looked == [false]
    case Sending(next, _) => next < |dl.job.chats| && sent == dl.job.chats[..next] && looked == [false]
    case Marking => sent == dl.job.chats && looked == [false]
    case Finished => (looked == [true] && sent == []) || (looked == [false] && sent == dl.job.chats)
    case Aborted => sent == [] && (looked == [] || looked == [false])
    case Killed => sent <= dl.job.chats && (looked == [] || looked == [false])
  }

  lemma LogSnoc(log: seq<Event>, e: Event, d: nat)
    ensures Contacted(log + [e], d) == Contacted(log, d) + if e.Sent? && e.d == d then [e.chat] else []
    ensures Lookups(log + [e], d) == Lookups(log, d) + if e.Looked? && e.d == d then [e.hit] else []
  {
    assert (log + [e])[..|log|] == log;
  }

  ghost predicate AllInOrder(s: Telegram) {
    && (forall d :: 0 <= d < |s.deliveries| ==> InOrder(s.log, d, s.deliveries[d]))
    && (forall i :: 0 <= i < |s.log| && !s.log[i].Marked? ==> s.log[i].d < |s.deliveries|)
  }

  lemma {:induction false} NothingYet(log: seq<Event>, d: nat)
    requires forall i :: 0 <= i < |log| && !log[i].Marked? ==> log[i].d != d
    ensures Contacted(log, d) == [] && Lookups(log, d) == []
  {
    if log != [] {
      NothingYet(log[..|log| - 1], d);
    }
  }

  /** The step's event, if any, is the only new one. */
  lemma OneEvent(ttl: nat, s: Telegram, d: nat, out: Outcome)
    requires Enabled(s, Run(d, out))
    ensures var s' := Next(ttl, s, Run(d, out));
      || s'.log == s.log
      || (s'.log == s.log + [s'.log[|s.log|]] && |s'.log| == |s.log| + 1
          && s'.log[|s.log|].d == d && s'.log[|s.log|].key == s.deliveries[d].job.key)
  {
    var es := Step(d, s.deliveries[d].job, s.deliveries[d].pc, s.kv, s.now, ttl, out).2;
    if es == [] {
      assert s.log + es == s.log;
    } else {
      assert es == [es[0]];
    }
  }

  lemma SendInOrder(log: seq<Event>, d: nat, job: Job, next: nat, anyOk: bool, out: Outcome)
    requires next < |job.chats| && Contacted(log, d) == job.chats[..next] && Lookups(log, d) == [false]
    ensures var e := Sent(d, job.key, job.chats[next], out == Ok);
      InOrder(log + [e], d, Delivery(job, AfterSends(job, next + 1, anyOk)))
  {
    var e, chats := Sent(d, job.key, job.chats[next], out == Ok), job.chats;
    LogSnoc(log, e, d);
    assert Contacted(log + [e], d) == chats[..next + 1];
    assert chats[..|chats|] == chats;
  }

  lemma LookInOrder(log: seq<Event>, d: nat, job: Job, e: Event)
    requires Contacted(log, d) == [] && Lookups(log, d) == [] && e.Looked? && e.d == d
    ensures InOrder(log + [e], d, Delivery(job, if e.hit then Finished else Render))
  {
    LogSnoc(log, e, d);
  }

  lemma OwnStepInOrder(log: seq<Event>, d: nat, job: Job, pc: Pc, kv: Kv, now: int, ttl: nat, out: Outcome)
    requires InOrder(log, d, Delivery(job, pc)) && !Over(pc)
    ensures var (_, pc', es) := Step(d, job, pc, kv, now, ttl, out);
      InOrder(log + es, d, Delivery(job, pc'))
  {
    match pc
    case Digest => assert log + [] == log;
    case Lookup =>
      LookInOrder(log, d, job, Looked(d, job.key, now, out == Ok, out == Ok && Hit(kv, job.key, now)));
    case Render =>
      assert log + [] == log && job.chats[..0] == [];
    case Sending(next, anyOk) =>
      SendInOrder(log, d, job, next, anyOk || out == Ok, out);
    case Marking =>
      LogSnoc(log, Marked(d, job.key, now), d);
      assert log + [] == log;
  }

  lemma OtherInOrder(log: seq<Event>, e: Event, x: nat, dl: Delivery)
    requires InOrder(log, x, dl) && e.d != x
    ensures InOrder(log + [e], x, dl)
  {
    LogSnoc(log, e, x);
    assert Contacted(log, x) + [] == Contacted(log, x) && Lookups(log, x) + [] == Lookups(log, x);
  }

  lemma StepInOrder(ttl: nat, s: Telegram, d: nat, out: Outcome, x: nat)
    requires AllInOrder(s) && Enabled(s, Run(d, out)) && x < |s.deliveries|
    ensures var s' := Next(ttl, s, Run(d, out));
      InOrder(s'.log, x, s'.deliveries[x])
  {
    var s' := Next(ttl, s, Run(d, out));
    assert InOrder(s.log, x, s.deliveries[x]);
    if x == d {
      OwnStepInOrder(s.log, d, s.deliveries[d].job, s.deliveries[d].pc, s.kv, s.now, ttl, out);
    } else {
      OneEvent(ttl, s, d, out);
      if s'.log != s.log {
        OtherInOrder(s.log, s'.log[|s.log|], x, s.deliveries[x]);
      }
    }
  }

  lemma KillInOrder(log: seq<Event>, d: nat, dl: Delivery)
    requires InOrder(log, d, dl) && !Over(dl.pc)
    ensures InOrder(log, d, dl.(pc := Killed))
  {
  }

  lemma ActionInOrder(ttl: nat, s: Telegram, a: Action)
    requires AllInOrder(s) && Enabled(s, a)
    ensures AllInOrder(Next(ttl, s, a))
  {
    var s' := Next(ttl, s, a);
    match a
    case Run(d, out) =>
      forall x | 0 <= x < |s'.deliveries| ensures InOrder(s'.log, x, s'.deliveries[x]) {
        StepInOrder(ttl, s, d, out, x);
      }
      OneEvent(ttl, s, d, out);
    case Arrive(_) => NothingYet(s.log, |s.deliveries|);
    case Kill(d) => KillInOrder(s.log, d, s.deliveries[d]);
    case Wait(_) =>
  }

  lemma {:induction false} ExecutionInOrder(ttl: nat, s: Telegram, acts: seq<Action>, s': Telegram)
    requires AllInOrder(s) && Execution(ttl, s, acts, s')
    ensures AllInOrder(s')
    decreases |acts|
  {
    if acts != [] {
      ActionInOrder(ttl, s, acts[0]);
      ExecutionInOrder(ttl, Next(ttl, s, acts[0]), acts[1..], s');
    }
  }

  lemma {:induction false} LookupIn(log: seq<Event>, l: nat)
    requires l < |log| && log[l].Looked?
    ensures log[l].hit in Lookups(log, log[l].d)
  {
    if l < |log| - 1 {
      LookupIn(log[..|log| - 1], l);
    }
  }

  lemma {:induction false} LookupFrom(log: seq<Event>, d: nat) returns (l: nat)
    requires Lookups(log, d) != []
    ensures l < |log| && log[l].Looked? && log[l].d == d
  {
    var e := log[|log| - 1];
    if e.Looked? && e.d == d {
      l := |log| - 1;
    } else {
      l := LookupFrom(log[..|log| - 1], d);
    }
  }

  /** In every interleaving each delivery has contacted a prefix of its chats in
      order. Once it has come to its regular end it has looked for the marker, and
      it contacted nobody if it found it and everybody otherwise. */
  lemma ContactsInOrder(ttl: nat, kv: Kv, now: int, acts: seq<Action>, s: Telegram, d: nat)
    requires Execution(ttl, Fresh(kv, now), acts, s) && d < |s.deliveries|
    ensures Contacted(s.log, d) <= s.deliveries[d].job.chats
    ensures s.deliveries[d].pc.Finished? ==> exists l: nat :: l < |s.log| && s.log[l].Looked? && s.log[l].d == d
    ensures forall l: nat :: l < |s.log| && s.log[l].Looked? && s.log[l].d == d ==>
              && (s.log[l].hit ==> Contacted(s.log, d) == [])
              && (s.deliveries[d].pc.Finished? ==>
                    (Contacted(s.log, d) == [] <==> s.log[l].hit || s.deliveries[d].job.chats == [])
                    && (!s.log[l].hit ==> Contacted(s.log, d) == s.deliveries[d].job.chats))
  {
    ExecutionInOrder(ttl, Fresh(kv, now), acts, s);
    assert InOrder(s.log, d, s.deliveries[d]);
    if s.deliveries[d].pc.Finished? {
      var l := LookupFrom(s.log, d);
    }
    forall l: nat | l < |s.log| && s.log[l].Looked? && s.log[l].d == d
      ensures s.log[l].hit in Lookups(s.log, d)
    {
      LookupIn(s.log, l);
    }
  }
}
