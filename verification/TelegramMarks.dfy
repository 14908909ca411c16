/** The `tg-sent:` marker over whole runs: exactly when a lookup finds it, and
    what that means for the chats. */
module TelegramMarks {
  import opened Common
  import opened WorkerTelegram
  import opened TelegramAlone
  import opened TelegramRuns

  predicate MarkAt(log: seq<Event>, m: nat, key: string) {
    m < |log| && log[m].Marked? && log[m].key == key
  }

  ghost predicate HasMark(log: seq<Event>, key: string) {
    exists m: nat :: MarkAt(log, m, key)
  }

  predicate LookAt(log: seq<Event>, l: nat) {
    l < |log| && log[l].Looked?
  }

  /** The lookup `log[l]` works and comes after the marker `log[m]` of its key,
      within the marker's lifetime. */
  predicate SeesMark(ttl: nat, log: seq<Event>, m: nat, l: nat) {
    m < l && LookAt(log, l) && MarkAt(log, m, log[l].key) && log[l].answered && log[l].time < log[m].time + ttl
  }

  ghost predicate MarkBefore(log: seq<Event>, l: nat, key: string) {
    exists m: nat :: m < l && MarkAt(log, m, key)
  }

  /** The lookup `log[l]` found the marker exactly if it worked and the last marker
      before it was alive or, with none before it, the entry that KV began with. */
  ghost predicate HitExact(ttl: nat, kv0: Kv, log: seq<Event>, l: nat)
    requires LookAt(log, l)
  {
    var e := log[l];
    e.hit <==> if MarkBefore(log, l, e.key) then exists m: nat :: SeesMark(ttl, log, m, l)
               else e.answered && Hit(kv0, e.key, e.time)
  }

  // ---------------------------------------------------------------------
  // Where the entries of KV come from
  // ---------------------------------------------------------------------

  /** The entry of `key` is that of the marker that lives longest or, with no
      marker, the one that KV began with. */
  ghost predicate Origin(ttl: nat, kv0: Kv, s: Telegram, key: string) {
    if HasMark(s.log, key) then
      && key in s.kv && s.kv[key].value != ""
      && (exists m: nat :: MarkAt(s.log, m, key) && s.kv[key].expires == s.log[m].time + ttl)
      && (forall m: nat :: MarkAt(s.log, m, key) ==> s.log[m].time + ttl <= s.kv[key].expires && s.log[m].time <= s.now)
    else (key in s.kv <==> key in kv0) && (key in kv0 ==> s.kv[key] == kv0[key])
  }

  ghost predicate MarkInv(ttl: nat, kv0: Kv, s: Telegram) {
    && (forall key :: Origin(ttl, kv0, s, key))
    && (forall l: nat :: LookAt(s.log, l) ==> HitExact(ttl, kv0, s.log, l))
    && forall d :: 0 <= d < |s.deliveries| ==> s.deliveries[d].job.cacheId != ""
  }

  lemma MarkSnoc(log: seq<Event>, e: Event, key: string)
    ensures forall m: nat ::
              MarkAt(log + [e], m, key) <==> MarkAt(log, m, key) || (m == |log| && e.Marked? && e.key == key)
    ensures HasMark(log + [e], key) <==> HasMark(log, key) || (e.Marked? && e.key == key)
  {
    assert e.Marked? && e.key == key ==> MarkAt(log + [e], |log|, key);
    assert forall m: nat :: MarkAt(log, m, key) ==> MarkAt(log + [e], m, key);
  }

  /** A log that did not gain a marker of the key, and the same entry. */
  lemma SameOrigin(ttl: nat, kv0: Kv, s: Telegram, s': Telegram, key: string)
    requires Origin(ttl, kv0, s, key) && s'.now >= s.now
    requires key in s.kv <==> key in s'.kv
    requires key in s.kv ==> s'.kv[key] == s.kv[key]
    requires s'.log == s.log
          || exists e :: s'.log == s.log + [e] && !(e.Marked? && e.key == key)
    ensures Origin(ttl, kv0, s', key)
  {
    if s'.log != s.log {
      var e :| s'.log == s.log + [e] && !(e.Marked? && e.key == key);
      MarkSnoc(s.log, e, key);
    }
  }

  /** A new marker outlives all others of its key. */
  lemma NewOrigin(ttl: nat, kv0: Kv, s: Telegram, s': Telegram, d: nat, job: Job)
    requires Origin(ttl, kv0, s, job.key) && job.cacheId != "" && s'.now == s.now
    requires s'.kv == s.kv[job.key := Entry(job.cacheId, s.now + ttl)]
    requires s'.log == s.log + [Marked(d, job.key, s.now)]
    ensures Origin(ttl, kv0, s', job.key)
  {
    MarkSnoc(s.log, Marked(d, job.key, s.now), job.key);
    assert MarkAt(s'.log, |s.log|, job.key);
    forall m: nat | MarkAt(s'.log, m, job.key) ensures s'.log[m].time <= s.now {
      assert m < |s.log| ==> MarkAt(s.log, m, job.key) && HasMark(s.log, job.key);
    }
  }

  lemma RunKeepsOrigin(ttl: nat, kv0: Kv, s: Telegram, d: nat, out: Outcome, key: string)
    requires MarkInv(ttl, kv0, s) && Enabled(s, Run(d, out))
    ensures Origin(ttl, kv0, Next(ttl, s, Run(d, out)), key)
  {
    var s', job := Next(ttl, s, Run(d, out)), s.deliveries[d].job;
    assert Origin(ttl, kv0, s, key);
    OneEvent(ttl, s, d, out);
    if s.deliveries[d].pc.Marking? && out != Fault && key == job.key {
      NewOrigin(ttl, kv0, s, s', d, job);
    } else {
      if s'.log != s.log {
        var e := s'.log[|s.log|];
        assert s'.log == s.log + [e] && !(e.Marked? && e.key == key);
      }
      SameOrigin(ttl, kv0, s, s', key);
    }
  }

  lemma OldLook(ttl: nat, kv0: Kv, log: seq<Event>, e: Event, l: nat)
    requires LookAt(log, l) && HitExact(ttl, kv0, log, l)
    ensures LookAt(log + [e], l) && HitExact(ttl, kv0, log + [e], l)
  {
    var more := log + [e];
    assert more[l] == log[l];
    assert forall m: nat :: m < l ==> (MarkAt(more, m, log[l].key) <==> MarkAt(log, m, log[l].key));
    assert forall m: nat :: SeesMark(ttl, more, m, l) <==> SeesMark(ttl, log, m, l);
  }

  lemma NewLook(ttl: nat, kv0: Kv, s: Telegram, d: nat, key: string, answered: bool)
    requires Origin(ttl, kv0, s, key)
    ensures var e := Looked(d, key, s.now, answered, answered && Hit(s.kv, key, s.now));
      LookAt(s.log + [e], |s.log|) && HitExact(ttl, kv0, s.log + [e], |s.log|)
  {
    var e := Looked(d, key, s.now, answered, answered && Hit(s.kv, key, s.now));
    var l, more := |s.log|, s.log + [e];
    assert more[l] == e;
    assert forall m: nat :: m < l ==> (MarkAt(more, m, key) <==> MarkAt(s.log, m, key));
    assert MarkBefore(more, l, key) <==> HasMark(s.log, key);
    if HasMark(s.log, key) {
      var m: nat :| MarkAt(s.log, m, key) && s.kv[key].expires == s.log[m].time + ttl;
      assert e.hit ==> SeesMark(ttl, more, m, l);
      assert forall n: nat :: SeesMark(ttl, more, n, l) ==> MarkAt(s.log, n, key);
    }
  }

  lemma RunKeepsLooks(ttl: nat, kv0: Kv, s: Telegram, d: nat, out: Outcome, l: nat)
    requires MarkInv(ttl, kv0, s) && Enabled(s, Run(d, out)) && LookAt(Next(ttl, s, Run(d, out)).log, l)
    ensures HitExact(ttl, kv0, Next(ttl, s, Run(d, out)).log, l)
  {
    var s' := Next(ttl, s, Run(d, out));
    OneEvent(ttl, s, d, out);
    if s'.log != s.log {
      if l < |s.log| {
        assert LookAt(s.log, l);
        OldLook(ttl, kv0, s.log, s'.log[|s.log|], l);
      } else {
        assert Origin(ttl, kv0, s, s.deliveries[d].job.key);
        NewLook(ttl, kv0, s, d, s.deliveries[d].job.key, out == Ok);
      }
    }
  }

  lemma ActionKeepsMarks(ttl: nat, kv0: Kv, s: Telegram, a: Action)
    requires MarkInv(ttl, kv0, s) && Enabled(s, a)
    ensures MarkInv(ttl, kv0, Next(ttl, s, a))
  {
    var s' := Next(ttl, s, a);
    forall key ensures Origin(ttl, kv0, s', key) {
      assert Origin(ttl, kv0, s, key);
      if a.Run? {
        RunKeepsOrigin(ttl, kv0, s, a.d, a.out, key);
      } else {
        SameOrigin(ttl, kv0, s, s', key);
      }
    }
    if a.Run? {
      forall l: nat | LookAt(s'.log, l) ensures HitExact(ttl, kv0, s'.log, l) {
        RunKeepsLooks(ttl, kv0, s, a.d, a.out, l);
      }
    }
  }

  lemma {:induction false} ExecutionKeepsMarks(ttl: nat, kv0: Kv, s: Telegram, acts: seq<Action>, s': Telegram)
    requires MarkInv(ttl, kv0, s) && Execution(ttl, s, acts, s')
    ensures MarkInv(ttl, kv0, s')
    decreases |acts|
  {
    if acts != [] {
      ActionKeepsMarks(ttl, kv0, s, acts[0]);
      ExecutionKeepsMarks(ttl, kv0, Next(ttl, s, acts[0]), acts[1..], s');
    }
  }

  lemma FreshInv(ttl: nat, kv: Kv, now: int)
    ensures MarkInv(ttl, kv, Fresh(kv, now))
  {
    assert forall key :: !HasMark([], key);
  }

  // ---------------------------------------------------------------------
  // Exactly when the marker is found
  // ---------------------------------------------------------------------

  /** In every interleaving, with any faults and Workers stopped anywhere: a lookup
      finds the marker if and only if it works and comes after a marker of its key
      within that marker's lifetime; an entry that KV began with counts until the
      first marker. */
  lemma LookupHitsIff(ttl: nat, kv: Kv, now: int, acts: seq<Action>, s: Telegram, l: nat)
    requires Execution(ttl, Fresh(kv, now), acts, s) && LookAt(s.log, l)
    ensures var e := s.log[l];
      e.hit <==> || (exists m: nat :: SeesMark(ttl, s.log, m, l))
                 || (e.answered && !MarkBefore(s.log, l, e.key) && Hit(kv, e.key, e.time))
  {
    FreshInv(ttl, kv, now);
    ExecutionKeepsMarks(ttl, kv, Fresh(kv, now), acts, s);
    assert HitExact(ttl, kv, s.log, l);
    assert forall m: nat :: SeesMark(ttl, s.log, m, l) ==> m < l && MarkAt(s.log, m, s.log[l].key);
  }

  /** Whatever KV began with: who looks after a living marker contacts nobody. */
  lemma NoSendAfterMark(ttl: nat, kv: Kv, now: int, acts: seq<Action>, s: Telegram, m: nat, l: nat)
    requires Execution(ttl, Fresh(kv, now), acts, s) && SeesMark(ttl, s.log, m, l)
    ensures s.log[l].hit && Contacted(s.log, s.log[l].d) == []
  {
    LookupHitsIff(ttl, kv, now, acts, s, l);
    ExecutionInOrder(ttl, Fresh(kv, now), acts, s);
    ContactsInOrder(ttl, kv, now, acts, s, s.log[l].d);
  }

  /** Without an old entry: a finished delivery contacted its chats if and only if
      its lookup saw no living marker. No notification is dropped for any other
      reason, and none is repeated in spite of a living marker. */
  lemma FinishedContactsIff(ttl: nat, kv: Kv, now: int, acts: seq<Action>, s: Telegram, l: nat)
    requires Execution(ttl, Fresh(kv, now), acts, s) && LookAt(s.log, l) && s.log[l].key !in kv
    ensures var d := s.log[l].d;
      && d < |s.deliveries|
      && ((exists m: nat :: SeesMark(ttl, s.log, m, l)) ==> Contacted(s.log, d) == [])
      && (s.deliveries[d].pc.Finished? && !(exists m: nat :: SeesMark(ttl, s.log, m, l)) ==>
            Contacted(s.log, d) == s.deliveries[d].job.chats)
  {
    LookupHitsIff(ttl, kv, now, acts, s, l);
    ExecutionInOrder(ttl, Fresh(kv, now), acts, s);
    ContactsInOrder(ttl, kv, now, acts, s, s.log[l].d);
  }

  /** Two finished deliveries of one message both contact every chat if and only
      if neither lookup saw a living marker. */
  lemma BothContactIff(ttl: nat, kv: Kv, now: int, acts: seq<Action>, s: Telegram, l: nat, l': nat)
    requires Execution(ttl, Fresh(kv, now), acts, s) && LookAt(s.log, l) && LookAt(s.log, l')
    requires s.log[l].key !in kv && s.log[l'].key !in kv
    ensures var d, d' := s.log[l].d, s.log[l'].d;
      && d < |s.deliveries| && d' < |s.deliveries|
      && (s.deliveries[d].pc.Finished? && s.deliveries[d'].pc.Finished?
          && s.deliveries[d].job.chats != [] && s.deliveries[d'].job.chats != [] ==>
            (Contacted(s.log, d) == s.deliveries[d].job.chats && Contacted(s.log, d') == s.deliveries[d'].job.chats
             <==> forall m: nat :: !SeesMark(ttl, s.log, m, l) && !SeesMark(ttl, s.log, m, l')))
  {
    FinishedContactsIff(ttl, kv, now, acts, s, l);
    FinishedContactsIff(ttl, kv, now, acts, s, l');
  }

  /** In particular, deliveries that both look before the first marker is written
      both contact every chat. */
  lemma OverlapContactsTwice(ttl: nat, kv: Kv, now: int, acts: seq<Action>, s: Telegram, l: nat, l': nat)
    requires Execution(ttl, Fresh(kv, now), acts, s) && LookAt(s.log, l) && LookAt(s.log, l')
    requires s.log[l].key !in kv && s.log[l'].key == s.log[l].key
    requires !MarkBefore(s.log, l, s.log[l].key) && !MarkBefore(s.log, l', s.log[l].key)
    ensures var d, d' := s.log[l].d, s.log[l'].d;
      && d < |s.deliveries| && d' < |s.deliveries|
      && (s.deliveries[d].pc.Finished? ==> Contacted(s.log, d) == s.deliveries[d].job.chats)
      && (s.deliveries[d'].pc.Finished? ==> Contacted(s.log, d') == s.deliveries[d'].job.chats)
  {
    assert forall m: nat :: !SeesMark(ttl, s.log, m, l) && !SeesMark(ttl, s.log, m, l');
    FinishedContactsIff(ttl, kv, now, acts, s, l);
    FinishedContactsIff(ttl, kv, now, acts, s, l');
  }
}
