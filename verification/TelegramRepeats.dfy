/** How often a chat is told: redeliveries that do not overlap, and overlapping
    ones. */
module TelegramRepeats {
  import opened Common
  import opened WorkerTelegram
  import opened TelegramAlone
  import opened TelegramRuns
  import opened TelegramMarks

  // ---------------------------------------------------------------------
  // Deliveries that do not overlap
  // ---------------------------------------------------------------------

  function Count(chats: seq<string>, chat: string): nat {
    if chats == [] then 0
    else Count(chats[..|chats| - 1], chat) + if chats[|chats| - 1] == chat then 1 else 0
  }

  /** Confirmed sends to `chat` under `key`. */
  function Confirmed(log: seq<Event>, key: string, chat: string): nat {
    if log == [] then 0
    else
      var e := log[|log| - 1];
      Confirmed(log[..|log| - 1], key, chat) + if e.Sent? && e.key == key && e.chat == chat && e.confirmed then 1 else 0
  }

  /** Deliveries under `key` that were killed in the middle. */
  function Kills(deliveries: seq<Delivery>, key: string): nat {
    if deliveries == [] then 0
    else
      var dl := deliveries[|deliveries| - 1];
      Kills(deliveries[..|deliveries| - 1], key) + if dl.job.key == key && dl.pc.Killed? then 1 else 0
  }

  /** One confirmed send per occurrence, `times` times. */
  function Allowance(chats: seq<string>, chat: string, times: nat): nat {
    if times == 0 then 0 else Allowance(chats, chat, times - 1) + Count(chats, chat)
  }

  lemma {:induction false} AllowanceIs(chats: seq<string>, chat: string, times: nat)
    ensures Allowance(chats, chat, times) == Count(chats, chat) * times
  {
    if times > 0 {
      AllowanceIs(chats, chat, times - 1);
      assert Count(chats, chat) * times == Count(chats, chat) * (times - 1) + Count(chats, chat);
    }
  }

  lemma AllowanceGrows(chats: seq<string>, chat: string, times: nat)
    ensures Allowance(chats, chat, times + 1) == Allowance(chats, chat, times) + Count(chats, chat)
  {
  }

  /** Past its lookup and not over. */
  predicate Active(s: Telegram, d: nat, key: string) {
    && d < |s.deliveries| && s.deliveries[d].job.key == key
    && (s.deliveries[d].pc.Render? || s.deliveries[d].pc.Sending? || s.deliveries[d].pc.Marking?)
  }

  /** An action of a run in which KV works, the markers of `key` have not
      expired, and no delivery under `key` looks while another is active. Workers
      may be killed anywhere, and everything else may fail. */
  ghost predicate Orderly(ttl: nat, s: Telegram, key: string, chats: seq<string>, a: Action) {
    && Enabled(s, a)
    && match a
       case Arrive(job) => job.key == key ==> job.chats == chats
       case Run(d, out) =>
         s.deliveries[d].job.key == key ==>
           && (s.deliveries[d].pc.Lookup? ==>
                 && out == Ok
                 && (forall x: nat :: !Active(s, x, key))
                 && (forall m: nat :: MarkAt(s.log, m, key) ==> s.now < s.log[m].time + ttl))
           && (s.deliveries[d].pc.Marking? ==> out != Fault)
       case _ => true
  }

  ghost predicate OrderlyRun(ttl: nat, key: string, chats: seq<string>, s: Telegram, acts: seq<Action>, s': Telegram)
    decreases |acts|
  {
    if acts == [] then s' == s
    else Orderly(ttl, s, key, chats, acts[0]) && OrderlyRun(ttl, key, chats, Next(ttl, s, acts[0]), acts[1..], s')
  }

  /** What may have been sent when `spent` deliveries were killed before, and the
      active delivery is at `pc`. */
  predicate SentSoFar(log: seq<Event>, key: string, chats: seq<string>, pc: Pc, chat: string, spent: nat) {
    var n, before := Confirmed(log, key, chat), Allowance(chats, chat, spent);
    match pc
    case Sending(next, anyOk) => next < |chats| && n <= before + if anyOk then Count(chats[..next], chat) else 0
    case Marking => n <= before + Count(chats, chat)
    case _ => n <= before
  }

  ghost predicate OrderInv(s: Telegram, key: string, chats: seq<string>, chat: string) {
    var kills := Kills(s.deliveries, key);
    && (forall d :: 0 <= d < |s.deliveries| && s.deliveries[d].job.key == key ==> s.deliveries[d].job.chats == chats)
    && (forall x: nat, y: nat :: Active(s, x, key) && Active(s, y, key) ==> x == y)
    && (HasMark(s.log, key) ==>
          (forall x: nat :: !Active(s, x, key)) && Confirmed(s.log, key, chat) <= Allowance(chats, chat, kills + 1))
    && (!HasMark(s.log, key) && (forall x: nat :: !Active(s, x, key)) ==>
          Confirmed(s.log, key, chat) <= Allowance(chats, chat, kills))
    && (forall x: nat :: Active(s, x, key) ==> SentSoFar(s.log, key, chats, s.deliveries[x].pc, chat, kills))
  }

  lemma ConfirmedSnoc(log: seq<Event>, e: Event, key: string, chat: string)
    ensures Confirmed(log + [e], key, chat)
         == Confirmed(log, key, chat) + if e.Sent? && e.key == key && e.chat == chat && e.confirmed then 1 else 0
  {
    assert (log + [e])[..|log|] == log;
  }

  lemma {:induction false} CountPrefix(chats: seq<string>, n: nat, c: string)
    requires n <= |chats|
    ensures Count(chats[..n], c) <= Count(chats, c)
    ensures n < |chats| ==> Count(chats[..n + 1], c) == Count(chats[..n], c) + if chats[n] == c then 1 else 0
    decreases |chats| - n
  {
    if n == |chats| {
      assert chats[..n] == chats;
    } else {
      assert chats[..n + 1][..n] == chats[..n];
      CountPrefix(chats, n + 1, c);
    }
  }

  lemma {:induction false} KillsUpdate(deliveries: seq<Delivery>, d: nat, pc: Pc, key: string)
    requires d < |deliveries| && !deliveries[d].pc.Killed?
    ensures Kills(deliveries[d := deliveries[d].(pc := pc)], key)
         == Kills(deliveries, key) + if deliveries[d].job.key == key && pc.Killed? then 1 else 0
  {
    var n, changed := |deliveries| - 1, deliveries[d := deliveries[d].(pc := pc)];
    if d == n {
      assert changed[..n] == deliveries[..n];
    } else {
      KillsUpdate(deliveries[..n], d, pc, key);
      assert changed[..n] == deliveries[..n][d := deliveries[d].(pc := pc)];
    }
  }

  /** Steps never kill. */
  lemma RunKeepsKills(ttl: nat, s: Telegram, d: nat, out: Outcome, key: string)
    requires Enabled(s, Run(d, out))
    ensures Kills(Next(ttl, s, Run(d, out)).deliveries, key) == Kills(s.deliveries, key)
  {
    KillsUpdate(s.deliveries, d, Next(ttl, s, Run(d, out)).deliveries[d].pc, key);
  }

  lemma SameCounts(log: seq<Event>, e: Event, key: string, chat: string)
    requires e.key != key || e.Looked?
    ensures HasMark(log + [e], key) <==> HasMark(log, key)
    ensures Confirmed(log + [e], key, chat) == Confirmed(log, key, chat)
  {
    MarkSnoc(log, e, key);
    ConfirmedSnoc(log, e, key, chat);
  }

  /** A step that changes neither counts, marks, kills nor who is active, and lets
      the active one stay where it is. */
  lemma SameOrder(s: Telegram, s': Telegram, key: string, chats: seq<string>, chat: string)
    requires OrderInv(s, key, chats, chat)
    requires forall d :: 0 <= d < |s'.deliveries| && s'.deliveries[d].job.key == key ==>
               s'.deliveries[d].job.chats == chats
    requires forall x: nat :: Active(s', x, key) <==> Active(s, x, key)
    requires forall x: nat :: Active(s', x, key) ==> s'.deliveries[x].pc == s.deliveries[x].pc
    requires HasMark(s'.log, key) <==> HasMark(s.log, key)
    requires Confirmed(s'.log, key, chat) == Confirmed(s.log, key, chat)
    requires Kills(s'.deliveries, key) == Kills(s.deliveries, key)
    ensures OrderInv(s', key, chats, chat)
  {
  }

  lemma OtherKeyKeeps(ttl: nat, s: Telegram, key: string, chats: seq<string>, chat: string, d: nat, out: Outcome)
    requires OrderInv(s, key, chats, chat) && Enabled(s, Run(d, out)) && s.deliveries[d].job.key != key
    ensures OrderInv(Next(ttl, s, Run(d, out)), key, chats, chat)
  {
    var s' := Next(ttl, s, Run(d, out));
    OneEvent(ttl, s, d, out);
    RunKeepsKills(ttl, s, d, out, key);
    if s'.log != s.log {
      SameCounts(s.log, s'.log[|s.log|], key, chat);
    }
    SameOrder(s, s', key, chats, chat);
  }

  lemma DigestKeeps(ttl: nat, s: Telegram, key: string, chats: seq<string>, chat: string, d: nat, out: Outcome)
    requires OrderInv(s, key, chats, chat) && Enabled(s, Run(d, out)) && s.deliveries[d].pc.Digest?
    ensures OrderInv(Next(ttl, s, Run(d, out)), key, chats, chat)
  {
    var s' := Next(ttl, s, Run(d, out));
    RunKeepsKills(ttl, s, d, out, key);
    assert s'.log == s.log;
    SameOrder(s, s', key, chats, chat);
  }

  /** With a living marker, a lookup that works finds it. */
  lemma MarkIsFound(ttl: nat, kv0: Kv, s: Telegram, key: string)
    requires MarkInv(ttl, kv0, s) && HasMark(s.log, key)
    requires forall m: nat :: MarkAt(s.log, m, key) ==> s.now < s.log[m].time + ttl
    ensures Hit(s.kv, key, s.now)
  {
    assert Origin(ttl, kv0, s, key);
    var m: nat :| MarkAt(s.log, m, key);
  }

  lemma LookupKeeps(ttl: nat, kv0: Kv, s: Telegram, key: string, chats: seq<string>, chat: string, d: nat)
    requires MarkInv(ttl, kv0, s) && OrderInv(s, key, chats, chat) && Orderly(ttl, s, key, chats, Run(d, Ok))
    requires s.deliveries[d].job.key == key && s.deliveries[d].pc.Lookup?
    ensures OrderInv(Next(ttl, s, Run(d, Ok)), key, chats, chat)
  {
    var s' := Next(ttl, s, Run(d, Ok));
    var e := Looked(d, key, s.now, true, Hit(s.kv, key, s.now));
    assert s'.log == s.log + [e];
    SameCounts(s.log, e, key, chat);
    RunKeepsKills(ttl, s, d, Ok, key);
    if HasMark(s.log, key) {
      MarkIsFound(ttl, kv0, s, key);
    }
    OnlyActive(s, s', key, d);
  }

  /** Nobody but `d` can have become active. */
  lemma OnlyActive(s: Telegram, s': Telegram, key: string, d: nat)
    requires forall x: nat :: Active(s, x, key) ==> x == d
    requires |s'.deliveries| == |s.deliveries|
    requires forall x :: 0 <= x < |s.deliveries| && x != d ==> s'.deliveries[x] == s.deliveries[x]
    ensures forall x: nat :: Active(s', x, key) ==> x == d
  {
    forall x: nat | Active(s', x, key) ensures x == d {
      if x != d {
        assert s'.deliveries[x] == s.deliveries[x];
        assert Active(s, x, key);
      }
    }
  }

  lemma RenderKeeps(ttl: nat, s: Telegram, key: string, chats: seq<string>, chat: string, d: nat, out: Outcome)
    requires OrderInv(s, key, chats, chat) && Enabled(s, Run(d, out))
    requires s.deliveries[d].job.key == key && s.deliveries[d].pc.Render?
    ensures OrderInv(Next(ttl, s, Run(d, out)), key, chats, chat)
  {
    var s' := Next(ttl, s, Run(d, out));
    assert Active(s, d, key);
    assert SentSoFar(s.log, key, chats, Render, chat, Kills(s.deliveries, key));
    RunKeepsKills(ttl, s, d, out, key);
    assert s'.log == s.log;
    StillActive(s, s', key, chats, chat, d);
  }

  /** The active delivery moved on, without writing the marker. */
  lemma StillActive(s: Telegram, s': Telegram, key: string, chats: seq<string>, chat: string, d: nat)
    requires OrderInv(s, key, chats, chat) && Active(s, d, key)
    requires |s'.deliveries| == |s.deliveries| && s'.deliveries[d].job == s.deliveries[d].job
    requires forall x :: 0 <= x < |s.deliveries| && x != d ==> s'.deliveries[x] == s.deliveries[x]
    requires !HasMark(s'.log, key) && Kills(s'.deliveries, key) == Kills(s.deliveries, key)
    requires SentSoFar(s'.log, key, chats, s'.deliveries[d].pc, chat, Kills(s.deliveries, key))
    requires !Active(s', d, key) ==> Confirmed(s'.log, key, chat) <= Allowance(chats, chat, Kills(s.deliveries, key))
    ensures OrderInv(s', key, chats, chat)
  {
    OnlyActive(s, s', key, d);
  }

  /** The step that sends: one more chat, one more confirmation at most. */
  lemma SendKeepsCount(log: seq<Event>, key: string, job: Job, d: nat, next: nat, anyOk: bool, out: Outcome,
                       chat: string, spent: nat)
    requires job.key == key && SentSoFar(log, key, job.chats, Sending(next, anyOk), chat, spent)
    ensures var pc := AfterSends(job, next + 1, anyOk || out == Ok);
      SentSoFar(log + [Sent(d, key, job.chats[next], out == Ok)], key, job.chats, pc, chat, spent)
  {
    ConfirmedSnoc(log, Sent(d, key, job.chats[next], out == Ok), key, chat);
    CountPrefix(job.chats, next, chat);
    assert next + 1 == |job.chats| ==> job.chats[..next + 1] == job.chats;
  }

  lemma SendNext(ttl: nat, s: Telegram, d: nat, out: Outcome)
    requires AtSend(s, d)
    ensures var s', job, pc := Next(ttl, s, Run(d, out)), s.deliveries[d].job, s.deliveries[d].pc;
      && s'.log == s.log + [Sent(d, job.key, job.chats[pc.next], out == Ok)]
      && s'.deliveries == s.deliveries[d := Delivery(job, AfterSends(job, pc.next + 1, pc.anyOk || out == Ok))]
  {
  }

  predicate AtSend(s: Telegram, d: nat) {
    && d < |s.deliveries| && s.deliveries[d].pc.Sending?
    && s.deliveries[d].pc.next < |s.deliveries[d].job.chats|
  }

  lemma SentAndCounted(ttl: nat, s: Telegram, key: string, chats: seq<string>, chat: string, d: nat, out: Outcome,
                       spent: nat)
    requires AtSend(s, d) && s.deliveries[d].job.key == key && s.deliveries[d].job.chats == chats
    requires SentSoFar(s.log, key, chats, s.deliveries[d].pc, chat, spent)
    ensures var s' := Next(ttl, s, Run(d, out));
      && |s'.deliveries| == |s.deliveries| && s'.deliveries[d].job == s.deliveries[d].job
      && SentSoFar(s'.log, key, chats, s'.deliveries[d].pc, chat, spent)
      && (HasMark(s'.log, key) <==> HasMark(s.log, key))
      && (!Active(s', d, key) ==> Confirmed(s'.log, key, chat) <= Allowance(chats, chat, spent))
  {
    var pc := s.deliveries[d].pc;
    SendKeepsCount(s.log, key, s.deliveries[d].job, d, pc.next, pc.anyOk, out, chat, spent);
    SendNext(ttl, s, d, out);
    MarkSnoc(s.log, Sent(d, key, chats[pc.next], out == Ok), key);
  }

  lemma SendKeeps(ttl: nat, s: Telegram, key: string, chats: seq<string>, chat: string, d: nat, out: Outcome)
    requires OrderInv(s, key, chats, chat) && Enabled(s, Run(d, out))
    requires s.deliveries[d].job.key == key && s.deliveries[d].pc.Sending?
    ensures OrderInv(Next(ttl, s, Run(d, out)), key, chats, chat)
  {
    assert Active(s, d, key);
    SentAndCounted(ttl, s, key, chats, chat, d, out, Kills(s.deliveries, key));
    RunKeepsKills(ttl, s, d, out, key);
    StillActive(s, Next(ttl, s, Run(d, out)), key, chats, chat, d);
  }

  lemma MarkNext(ttl: nat, s: Telegram, d: nat, out: Outcome)
    requires d < |s.deliveries| && s.deliveries[d].pc.Marking? && out != Fault
    ensures var s', job := Next(ttl, s, Run(d, out)), s.deliveries[d].job;
      && s'.log == s.log + [Marked(d, job.key, s.now)]
      && s'.deliveries == s.deliveries[d := Delivery(job, Finished)]
  {
  }

  /** The active delivery has written the marker and is over. */
  lemma NowMarked(s: Telegram, s': Telegram, key: string, chats: seq<string>, chat: string, d: nat)
    requires OrderInv(s, key, chats, chat) && Active(s, d, key)
    requires |s'.deliveries| == |s.deliveries| && s'.deliveries[d] == Delivery(s.deliveries[d].job, Finished)
    requires forall x :: 0 <= x < |s.deliveries| && x != d ==> s'.deliveries[x] == s.deliveries[x]
    requires HasMark(s'.log, key) && Kills(s'.deliveries, key) == Kills(s.deliveries, key)
    requires Confirmed(s'.log, key, chat) <= Allowance(chats, chat, Kills(s.deliveries, key) + 1)
    ensures OrderInv(s', key, chats, chat)
  {
    OnlyActive(s, s', key, d);
    assert !Active(s', d, key);
  }

  lemma MarkKeeps(ttl: nat, s: Telegram, key: string, chats: seq<string>, chat: string, d: nat, out: Outcome)
    requires OrderInv(s, key, chats, chat) && Enabled(s, Run(d, out)) && out != Fault
    requires s.deliveries[d].job.key == key && s.deliveries[d].pc.Marking?
    ensures OrderInv(Next(ttl, s, Run(d, out)), key, chats, chat)
  {
    assert Active(s, d, key);
    SpentIsAllowed(s.log, key, chats, s.deliveries[d].pc, chat, Kills(s.deliveries, key));
    MarkNext(ttl, s, d, out);
    MarkSnoc(s.log, Marked(d, key, s.now), key);
    ConfirmedSnoc(s.log, Marked(d, key, s.now), key, chat);
    RunKeepsKills(ttl, s, d, out, key);
    NowMarked(s, Next(ttl, s, Run(d, out)), key, chats, chat, d);
  }

  lemma SpentIsAllowed(log: seq<Event>, key: string, chats: seq<string>, pc: Pc, chat: string, spent: nat)
    requires SentSoFar(log, key, chats, pc, chat, spent)
    ensures Confirmed(log, key, chat) <= Allowance(chats, chat, spent + 1)
  {
    AllowanceGrows(chats, chat, spent);
    if pc.Sending? {
      CountPrefix(chats, pc.next, chat);
    }
  }

  /** In any case what was sent is allowed once more. */
  lemma SentIsAllowed(s: Telegram, key: string, chats: seq<string>, chat: string)
    requires OrderInv(s, key, chats, chat)
    ensures Confirmed(s.log, key, chat) <= Allowance(chats, chat, Kills(s.deliveries, key) + 1)
  {
    AllowanceGrows(chats, chat, Kills(s.deliveries, key));
    if x: nat :| Active(s, x, key) {
      SpentIsAllowed(s.log, key, chats, s.deliveries[x].pc, chat, Kills(s.deliveries, key));
    }
  }

  lemma SpendMore(log: seq<Event>, key: string, chats: seq<string>, pc: Pc, chat: string, spent: nat)
    requires SentSoFar(log, key, chats, pc, chat, spent)
    ensures SentSoFar(log, key, chats, pc, chat, spent + 1)
  {
    AllowanceGrows(chats, chat, spent);
  }

  lemma KillKeeps(ttl: nat, s: Telegram, key: string, chats: seq<string>, chat: string, d: nat)
    requires OrderInv(s, key, chats, chat) && Enabled(s, Kill(d))
    ensures OrderInv(Next(ttl, s, Kill(d)), key, chats, chat)
  {
    var s', kills := Next(ttl, s, Kill(d)), Kills(s.deliveries, key);
    KillsUpdate(s.deliveries, d, Killed, key);
    if s.deliveries[d].job.key != key {
      SameOrder(s, s', key, chats, chat);
    } else {
      SentIsAllowed(s, key, chats, chat);
      AllowanceGrows(chats, chat, kills + 1);
      forall x: nat | Active(s', x, key)
        ensures Active(s, x, key) && SentSoFar(s'.log, key, chats, s'.deliveries[x].pc, chat, kills + 1)
      {
        assert x != d && s'.deliveries[x] == s.deliveries[x];
        assert Active(s, x, key);
        SpendMore(s.log, key, chats, s.deliveries[x].pc, chat, kills);
      }
    }
  }

  lemma ArriveKeeps(ttl: nat, s: Telegram, key: string, chats: seq<string>, chat: string, a: Action)
    requires OrderInv(s, key, chats, chat) && Orderly(ttl, s, key, chats, a) && (a.Arrive? || a.Wait?)
    ensures OrderInv(Next(ttl, s, a), key, chats, chat)
  {
    var s' := Next(ttl, s, a);
    if a.Arrive? {
      assert s'.deliveries[..|s'.deliveries| - 1] == s.deliveries;
    }
    assert forall x: nat :: Active(s', x, key) <==> Active(s, x, key);
    SameOrder(s, s', key, chats, chat);
  }

  lemma OrderlyKeeps(ttl: nat, kv0: Kv, s: Telegram, key: string, chats: seq<string>, chat: string, a: Action)
    requires MarkInv(ttl, kv0, s) && OrderInv(s, key, chats, chat) && Orderly(ttl, s, key, chats, a)
    ensures OrderInv(Next(ttl, s, a), key, chats, chat)
  {
    match a
    case Run(d, out) =>
      if s.deliveries[d].job.key != key {
        OtherKeyKeeps(ttl, s, key, chats, chat, d, out);
      } else {
        match s.deliveries[d].pc
        case Digest => DigestKeeps(ttl, s, key, chats, chat, d, out);
        case Lookup => LookupKeeps(ttl, kv0, s, key, chats, chat, d);
        case Render => RenderKeeps(ttl, s, key, chats, chat, d, out);
        case Sending(_, _) => SendKeeps(ttl, s, key, chats, chat, d, out);
        case Marking => MarkKeeps(ttl, s, key, chats, chat, d, out);
      }
    case Kill(d) => KillKeeps(ttl, s, key, chats, chat, d);
    case _ => ArriveKeeps(ttl, s, key, chats, chat, a);
  }

  lemma {:induction false} OrderlyRunKeeps(ttl: nat, kv0: Kv, key: string, chats: seq<string>, chat: string,
                                           s: Telegram, acts: seq<Action>, s': Telegram)
    requires MarkInv(ttl, kv0, s) && OrderInv(s, key, chats, chat) && OrderlyRun(ttl, key, chats, s, acts, s')
    ensures OrderInv(s', key, chats, chat)
    decreases |acts|
  {
    if acts != [] {
      OrderlyKeeps(ttl, kv0, s, key, chats, chat, acts[0]);
      ActionKeepsMarks(ttl, kv0, s, acts[0]);
      OrderlyRunKeeps(ttl, kv0, key, chats, chat, Next(ttl, s, acts[0]), acts[1..], s');
    }
  }

  /** However often a message is redelivered, as long as its deliveries do not
      overlap, KV works and the marker lives: each chat gets at most one confirmed
      send per occurrence in TELEGRAM_ID, and one more for each Worker that was
      killed in the middle, whatever Telegram, hashing and rendering do. */
  lemma OncePerOccurrence(ttl: nat, kv: Kv, now: int, key: string, chats: seq<string>, acts: seq<Action>, s: Telegram,
                          chat: string)
    requires OrderlyRun(ttl, key, chats, Fresh(kv, now), acts, s)
    ensures Confirmed(s.log, key, chat) <= Count(chats, chat) * (Kills(s.deliveries, key) + 1)
  {
    FreshInv(ttl, kv, now);
    OrderlyRunKeeps(ttl, kv, key, chats, chat, Fresh(kv, now), acts, s);
    var kills := Kills(s.deliveries, key);
    AllowanceIs(chats, chat, kills + 1);
    SentIsAllowed(s, key, chats, chat);
  }

  // ---------------------------------------------------------------------
  // Overlapping deliveries do occur
  // ---------------------------------------------------------------------

  lemma {:induction false} ExecutionConcat(ttl: nat, s: Telegram, a: seq<Action>, s': Telegram, b: seq<Action>,
                                           s2: Telegram)
    requires Execution(ttl, s, a, s') && Execution(ttl, s', b, s2)
    ensures Execution(ttl, s, a + b, s2)
    decreases |a|
  {
    if a == [] {
      assert a + b == b;
    } else {
      ExecutionConcat(ttl, Next(ttl, s, a[0]), a[1..], s', b, s2);
      assert (a + b)[1..] == a[1..] + b;
    }
  }

  /** Both deliveries of a pair take their next step. */
  lemma BothStep(ttl: nat, s: Telegram) returns (acts: seq<Action>, s': Telegram)
    requires |s.deliveries| == 2 && !Over(s.deliveries[0].pc) && !Over(s.deliveries[1].pc)
    ensures Enabled(s, Run(0, Ok)) && Enabled(Next(ttl, s, Run(0, Ok)), Run(1, Ok))
    ensures s' == Next(ttl, Next(ttl, s, Run(0, Ok)), Run(1, Ok)) && Execution(ttl, s, acts, s')
  {
    var s1 := Next(ttl, s, Run(0, Ok));
    s' := Next(ttl, s1, Run(1, Ok));
    acts := [Run(0, Ok), Run(1, Ok)];
    assert acts[1..] == [Run(1, Ok)] && acts[1..][1..] == [];
    assert Execution(ttl, s1, acts[1..], s');
  }

  /** Two deliveries of one message, with nothing failing: the only chat gets two
      confirmed sends, although it occurs once. */
  lemma OverlapSendsTwice(ttl: nat, job: Job) returns (acts: seq<Action>, s: Telegram)
    requires job.cacheId != "" && |job.chats| == 1 && !job.digested
    ensures Execution(ttl, Fresh(map[], 0), acts, s)
    ensures Confirmed(s.log, job.key, job.chats[0]) == 2 && Count(job.chats, job.chats[0]) == 1
  {
    var key, chat := job.key, job.chats[0];
    var s0 := Fresh(map[], 0);
    var s1 := Next(ttl, s0, Arrive(job));
    var s2 := Next(ttl, s1, Arrive(job));
    assert s2.deliveries == [Delivery(job, Lookup), Delivery(job, Lookup)];
    var arrive := [Arrive(job), Arrive(job)];
    assert arrive[1..] == [Arrive(job)] && arrive[1..][1..] == [];
    assert Execution(ttl, s1, arrive[1..], s2);
    var look, s3 := BothStep(ttl, s2);
    assert s3.deliveries == [Delivery(job, Render), Delivery(job, Render)];
    var l0, l1 := Looked(0, key, 0, true, false), Looked(1, key, 0, true, false);
    assert s3.log == [] + [l0] + [l1];
    var render, s4 := BothStep(ttl, s3);
    assert s4.deliveries == [Delivery(job, Sending(0, false)), Delivery(job, Sending(0, false))];
    assert s4.log == s3.log;
    var send, s5 := BothStep(ttl, s4);
    var e0, e1 := Sent(0, key, chat, true), Sent(1, key, chat, true);
    assert s5.log == s3.log + [e0] + [e1];
    ConfirmedSnoc([], l0, key, chat);
    ConfirmedSnoc([] + [l0], l1, key, chat);
    ConfirmedSnoc(s3.log, e0, key, chat);
    ConfirmedSnoc(s3.log + [e0], e1, key, chat);
    ExecutionConcat(ttl, s0, arrive, s2, look, s3);
    ExecutionConcat(ttl, s0, arrive + look, s3, render, s4);
    ExecutionConcat(ttl, s0, arrive + look + render, s4, send, s5);
    acts, s := arrive + look + render + send, s5;
    assert job.chats[..0] == [];
  }
}
