/** A Telegram delivery that nothing interrupts, from start to end: whom it
    contacts and what it leaves in KV. */
module TelegramAlone {
  import opened Common
  import opened WorkerTelegram

  /** The chats delivery `d` contacted, in order. */
  function Contacted(log: seq<Event>, d: nat): seq<string> {
    if log == [] then []
    else
      var e := log[|log| - 1];
      Contacted(log[..|log| - 1], d) + if e.Sent? && e.d == d then [e.chat] else []
  }

  lemma {:induction false} ContactedConcat(a: seq<Event>, b: seq<Event>, d: nat)
    ensures Contacted(a + b, d) == Contacted(a, d) + Contacted(b, d)
    decreases |b|
  {
    if b == [] {
      assert a + b == a;
    } else {
      ContactedConcat(a, b[..|b| - 1], d);
      assert (a + b)[..|a + b| - 1] == a + b[..|b| - 1];
    }
  }

  lemma First(d: nat, e: Event, rest: seq<Event>)
    ensures Contacted([e] + rest, d) == (if e.Sent? && e.d == d then [e.chat] else []) + Contacted(rest, d)
    ensures Contacted([], d) == [] && Contacted([e], d) == if e.Sent? && e.d == d then [e.chat] else []
  {
    ContactedConcat([e], rest, d);
    assert [e][..0] == [];
  }

  /** How a delivery that stands at `pc` goes on. */
  ghost predicate Ends(d: nat, job: Job, pc: Pc, kv: Kv, ttl: nat, io: nat -> Outcome, time: nat -> int, t: nat,
                       end: (Kv, seq<Event>, Pc))
  {
    RunAlone(d, job, pc, kv, ttl, io, time, t) == end
  }

  /** A call that leaves `es` and leads to `pc'`, where the delivery goes on. */
  lemma OneStep(d: nat, job: Job, pc: Pc, kv: Kv, ttl: nat, io: nat -> Outcome, time: nat -> int, t: nat,
                pc': Pc, es: seq<Event>, end: (Kv, seq<Event>, Pc))
    requires !Over(pc) && Step(d, job, pc, kv, time(t), ttl, io(t)) == (kv, pc', es)
    requires Ends(d, job, pc', kv, ttl, io, time, t + 1, end)
    ensures Ends(d, job, pc, kv, ttl, io, time, t, (end.0, es + end.1, end.2))
  {
  }

  lemma OverNow(d: nat, job: Job, pc: Pc, kv: Kv, ttl: nat, io: nat -> Outcome, time: nat -> int, t: nat)
    requires Over(pc)
    ensures Ends(d, job, pc, kv, ttl, io, time, t, (kv, [], pc))
  {
  }

  /** One of the calls `from .. to - 1` succeeds. */
  ghost predicate SomeOk(io: nat -> Outcome, from: nat, to: nat) {
    exists i: nat :: from <= i < to && io(i) == Ok
  }

  lemma SomeOkFrom(io: nat -> Outcome, from: nat, to: nat)
    requires from < to
    ensures SomeOk(io, from, to) <==> io(from) == Ok || SomeOk(io, from + 1, to)
  {
    if SomeOk(io, from, to) {
      var i: nat :| from <= i < to && io(i) == Ok;
      assert i == from || from + 1 <= i;
    }
  }

  /** KV once the marker, if there is reason for one, has been written. */
  function WithMarker(job: Job, kv: Kv, ttl: nat, told: bool, out: Outcome, now: int): Kv {
    if told && out != Fault then kv[job.key := Entry(job.cacheId, now + ttl)] else kv
  }

  lemma MarkStep(d: nat, job: Job, pc: Pc, kv: Kv, ttl: nat, io: nat -> Outcome, time: nat -> int, t: nat)
    returns (end: (Kv, seq<Event>, Pc))
    requires pc.Marking?
    ensures Ends(d, job, pc, kv, ttl, io, time, t, end)
    ensures end.2 == Finished && Contacted(end.1, d) == []
    ensures end.0 == WithMarker(job, kv, ttl, true, io(t), time(t))
  {
    end := RunAlone(d, job, pc, kv, ttl, io, time, t);
    assert [Marked(d, job.key, time(t))] + [] == [Marked(d, job.key, time(t))];
    First(d, Marked(d, job.key, time(t)), []);
  }

  lemma Prepend(d: nat, chats: seq<string>, next: nat, e: Event, rest: seq<Event>)
    requires next < |chats| && e.Sent? && e.d == d && e.chat == chats[next] && Contacted(rest, d) == chats[next + 1..]
    ensures Contacted([e] + rest, d) == chats[next..]
  {
    First(d, e, rest);
  }

  /** The sends from the one to chat `next` on. */
  lemma {:induction false} SendsTheRest(
      d: nat, job: Job, pc: Pc, next: nat, anyOk: bool, kv: Kv, ttl: nat, io: nat -> Outcome, time: nat -> int, t: nat)
    returns (end: (Kv, seq<Event>, Pc))
    requires next <= |job.chats| && pc == AfterSends(job, next, anyOk)
    ensures Ends(d, job, pc, kv, ttl, io, time, t, end)
    ensures var put := t + |job.chats| - next;
      && Contacted(end.1, d) == job.chats[next..] && end.2 == Finished
      && end.0 == WithMarker(job, kv, ttl, anyOk || SomeOk(io, t, put), io(put), time(put))
    decreases |job.chats| - next
  {
    if next < |job.chats| {
      var e, ok := Sent(d, job.key, job.chats[next], io(t) == Ok), anyOk || io(t) == Ok;
      var pc' := AfterSends(job, next + 1, ok);
      var rest := SendsTheRest(d, job, pc', next + 1, ok, kv, ttl, io, time, t + 1);
      SomeOkFrom(io, t, t + |job.chats| - next);
      OneStep(d, job, pc, kv, ttl, io, time, t, pc', [e], rest);
      Prepend(d, job.chats, next, e, rest.1);
      end := (rest.0, [e] + rest.1, rest.2);
    } else if anyOk {
      end := MarkStep(d, job, pc, kv, ttl, io, time, t);
    } else {
      end := (kv, [], pc);
      OverNow(d, job, pc, kv, ttl, io, time, t);
    }
  }

  /** Rendering worked at `l + 1`. */
  lemma RenderWorks(d: nat, job: Job, pc: Pc, kv: Kv, ttl: nat, io: nat -> Outcome, time: nat -> int, l: nat)
    returns (end: (Kv, seq<Event>, Pc))
    requires pc.Render? && io(l + 1) == Ok
    ensures Ends(d, job, pc, kv, ttl, io, time, l + 1, end)
    ensures var put := l + 2 + |job.chats|;
      && Contacted(end.1, d) == job.chats && end.2 == Finished
      && end.0 == WithMarker(job, kv, ttl, SomeOk(io, l + 2, put), io(put), time(put))
  {
    var pc' := AfterSends(job, 0, false);
    end := SendsTheRest(d, job, pc', 0, false, kv, ttl, io, time, l + 2);
    OneStep(d, job, pc, kv, ttl, io, time, l + 1, pc', [], end);
    assert [] + end.1 == end.1 && job.chats[0..] == job.chats;
  }

  /** After a lookup at `l` that found nothing. */
  lemma FromRender(d: nat, job: Job, pc: Pc, kv: Kv, ttl: nat, io: nat -> Outcome, time: nat -> int, l: nat)
    returns (end: (Kv, seq<Event>, Pc))
    requires pc.Render?
    ensures Ends(d, job, pc, kv, ttl, io, time, l + 1, end)
    ensures var broken, put := io(l + 1) != Ok, l + 2 + |job.chats|;
      && Contacted(end.1, d) == (if broken then [] else job.chats)
      && end.2 == (if broken then Aborted else Finished)
      && end.0 == WithMarker(job, kv, ttl, !broken && SomeOk(io, l + 2, put), io(put), time(put))
  {
    if io(l + 1) == Ok {
      end := RenderWorks(d, job, pc, kv, ttl, io, time, l);
    } else {
      end := Throws(d, job, pc, kv, ttl, io, time, l + 1);
    }
  }

  /** A computation that throws ends the delivery. */
  lemma Throws(d: nat, job: Job, pc: Pc, kv: Kv, ttl: nat, io: nat -> Outcome, time: nat -> int, t: nat)
    returns (end: (Kv, seq<Event>, Pc))
    requires (pc.Render? || pc.Digest?) && io(t) != Ok
    ensures Ends(d, job, pc, kv, ttl, io, time, t, end) && end == (kv, [], Aborted)
  {
    end := (kv, [], Aborted);
    OverNow(d, job, end.2, kv, ttl, io, time, t + 1);
    OneStep(d, job, pc, kv, ttl, io, time, t, end.2, [], end);
    assert [] + end.1 == end.1;
  }

  lemma FromLookup(d: nat, job: Job, pc: Pc, kv: Kv, ttl: nat, io: nat -> Outcome, time: nat -> int, l: nat)
    returns (end: (Kv, seq<Event>, Pc))
    requires pc.Lookup?
    ensures Ends(d, job, pc, kv, ttl, io, time, l, end)
    ensures var hit, broken, put := io(l) == Ok && Hit(kv, job.key, time(l)), io(l + 1) != Ok, l + 2 + |job.chats|;
      && Contacted(end.1, d) == (if hit || broken then [] else job.chats)
      && end.2 == (if !hit && broken then Aborted else Finished)
      && end.0 == WithMarker(job, kv, ttl, !hit && !broken && SomeOk(io, l + 2, put), io(put), time(put))
  {
    var hit := io(l) == Ok && Hit(kv, job.key, time(l));
    var e := Looked(d, job.key, time(l), io(l) == Ok, hit);
    if hit {
      end := (kv, [], Finished);
      OverNow(d, job, end.2, kv, ttl, io, time, l + 1);
      OneStep(d, job, pc, kv, ttl, io, time, l, end.2, [e], end);
      end := (kv, [e] + [], Finished);
      First(d, e, []);
    } else {
      var next := Render;
      var rest := FromRender(d, job, next, kv, ttl, io, time, l);
      OneStep(d, job, pc, kv, ttl, io, time, l, next, [e], rest);
      end := (rest.0, [e] + rest.1, rest.2);
      First(d, e, rest.1);
    }
  }

  /** Hashing worked. */
  lemma Digested(d: nat, job: Job, kv: Kv, ttl: nat, io: nat -> Outcome, time: nat -> int, t: nat)
    returns (end: (Kv, seq<Event>, Pc))
    requires job.digested && io(t) == Ok
    ensures Ends(d, job, StartOf(job), kv, ttl, io, time, t, end)
    ensures var hit, broken := io(t + 1) == Ok && Hit(kv, job.key, time(t + 1)), io(t + 1 + 1) != Ok;
      var put := t + 1 + 2 + |job.chats|;
      && Contacted(end.1, d) == (if hit || broken then [] else job.chats)
      && end.2 == (if !hit && broken then Aborted else Finished)
      && end.0 == WithMarker(job, kv, ttl, !hit && !broken && SomeOk(io, t + 1 + 2, put), io(put), time(put))
  {
    var look, first := Lookup, StartOf(job);
    end := FromLookup(d, job, look, kv, ttl, io, time, t + 1);
    OneStep(d, job, first, kv, ttl, io, time, t, look, [], end);
    assert [] + end.1 == end.1;
  }

  lemma FromStart(d: nat, job: Job, kv: Kv, ttl: nat, io: nat -> Outcome, time: nat -> int, t: nat)
    returns (end: (Kv, seq<Event>, Pc))
    ensures Ends(d, job, StartOf(job), kv, ttl, io, time, t, end)
    ensures var noKey, l := job.digested && io(t) != Ok, if job.digested then t + 1 else t;
      var hit, broken := io(l) == Ok && Hit(kv, job.key, time(l)), io(l + 1) != Ok;
      var silent, put := noKey || hit || broken, l + 2 + |job.chats|;
      && Contacted(end.1, d) == (if silent then [] else job.chats)
      && end.2 == (if noKey || (!hit && broken) then Aborted else Finished)
      && end.0 == WithMarker(job, kv, ttl, !silent && SomeOk(io, l + 2, put), io(put), time(put))
  {
    var look := Lookup;
    if !job.digested {
      end := FromLookup(d, job, look, kv, ttl, io, time, t);
    } else if io(t) == Ok {
      end := Digested(d, job, kv, ttl, io, time, t);
    } else {
      end := Throws(d, job, StartOf(job), kv, ttl, io, time, t);
    }
  }

  /** What a delivery that began at call `t` with `kv` leaves. It contacts all of
      its chats, in order, unless hashing throws, it finds the marker, or rendering
      throws. It ends with an exception exactly when hashing throws, or the marker
      is not found and rendering throws. It changes KV exactly when a send was
      confirmed and the marker could be written: then the key holds the cache id
      until `ttl` after that write. */
  ghost predicate Delivers(d: nat, key: string, digested: bool, chats: seq<string>, cacheId: string, kv: Kv,
                           ttl: nat, io: nat -> Outcome, time: nat -> int, t: nat,
                           kv': Kv, es: seq<Event>, threw: bool)
  {
    var noKey, l := digested && io(t) != Ok, if digested then t + 1 else t;
    var hit, broken := io(l) == Ok && Hit(kv, key, time(l)), io(l + 1) != Ok;
    var silent, put := noKey || hit || broken, l + 2 + |chats|;
    && Contacted(es, d) == (if silent then [] else chats)
    && threw == (noKey || (!hit && broken))
    && kv' == if !silent && SomeOk(io, l + 2, put) && io(put) != Fault
              then kv[key := Entry(cacheId, time(put) + ttl)] else kv
  }

  /** Every delivery that nothing interrupts. */
  lemma AloneContacts(d: nat, job: Job, kv: Kv, ttl: nat, io: nat -> Outcome, time: nat -> int, t: nat)
    ensures var (kv', es, end) := RunAlone(d, job, StartOf(job), kv, ttl, io, time, t);
      && (end.Finished? || end.Aborted?)
      && Delivers(d, job.key, job.digested, job.chats, job.cacheId, kv, ttl, io, time, t, kv', es, end.Aborted?)
  {
    var end := FromStart(d, job, kv, ttl, io, time, t);
  }
}
