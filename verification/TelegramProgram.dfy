/** sendTelegramForCache as the program it is, in a world of KV and Telegram. */
module TelegramProgram {
  import opened Common
  import opened Strings
  import opened WorkerParse
  import opened WorkerTelegram
  import opened TelegramAlone
  import opened TelegramRuns

  /** From the start of the delivery, `pc` is reached with `kv` after `es`. */
  ghost predicate Reached(d: nat, job: Job, ttl: nat, io: nat -> Outcome, time: nat -> int, kv0: Kv, t0: nat,
                          pc: Pc, kv: Kv, es: seq<Event>, t: nat)
  {
    var (k, rest, end) := RunAlone(d, job, pc, kv, ttl, io, time, t);
    RunAlone(d, job, StartOf(job), kv0, ttl, io, time, t0) == (k, es + rest, end)
  }

  lemma ReachedStep(d: nat, job: Job, ttl: nat, io: nat -> Outcome, time: nat -> int, kv0: Kv, t0: nat,
                    pc: Pc, kv: Kv, es: seq<Event>, t: nat)
    requires Reached(d, job, ttl, io, time, kv0, t0, pc, kv, es, t) && !Over(pc)
    ensures var (kv', pc', made) := Step(d, job, pc, kv, time(t), ttl, io(t));
      Reached(d, job, ttl, io, time, kv0, t0, pc', kv', es + made, t + 1)
  {
    var (kv', pc', made) := Step(d, job, pc, kv, time(t), ttl, io(t));
    var (k, rest, end) := RunAlone(d, job, pc', kv', ttl, io, time, t + 1);
    assert es + (made + rest) == (es + made) + rest;
  }

  /** The KV namespace and the Telegram API as one delivery meets them. */
  class World {
    const io: nat -> Outcome
    const time: nat -> int
    var clock: nat
    var kv: Kv
    var log: seq<Event>

    constructor (io: nat -> Outcome, time: nat -> int, kv: Kv)
      ensures this.io == io && this.time == time && this.kv == kv && log == [] && clock == 0
    {
      this.io, this.time, this.kv, this.log, this.clock := io, time, kv, [], 0;
    }

    /** A call that leaves nothing behind: crypto.subtle.digest or renderEmail. */
    method Compute() returns (threw: bool)
      modifies `clock
      ensures clock == old(clock) + 1 && threw == (io(old(clock)) != Ok)
    {
      threw := io(clock) != Ok;
      clock := clock + 1;
    }

    /** Dao.saveMailCache. */
    method Save(key: string, value: string, ttl: nat) returns (threw: bool)
      modifies `clock, `kv
      ensures clock == old(clock) + 1 && threw == (io(old(clock)) != Ok)
      ensures kv == if io(old(clock)) == Fault then old(kv)
                    else old(kv)[key := Entry(value, time(old(clock)) + ttl)]
    {
      threw := io(clock) != Ok;
      if io(clock) != Fault {
        kv := kv[key := Entry(value, time(clock) + ttl)];
      }
      clock := clock + 1;
    }

    method Get(d: nat, key: string) returns (threw: bool, found: bool)
      modifies `clock, `log
      ensures clock == old(clock) + 1
      ensures threw <==> io(old(clock)) != Ok
      ensures found <==> !threw && Hit(kv, key, time(old(clock)))
      ensures log == old(log) + [Looked(d, key, time(old(clock)), !threw, found)]
    {
      threw := io(clock) != Ok;
      found := !threw && key in kv && time(clock) < kv[key].expires && kv[key].value != "";
      log := log + [Looked(d, key, time(clock), !threw, found)];
      clock := clock + 1;
    }

    method SendMessage(d: nat, key: string, chat: string) returns (threw: bool)
      modifies `clock, `log
      ensures clock == old(clock) + 1 && threw == (io(old(clock)) != Ok)
      ensures log == old(log) + [Sent(d, key, chat, !threw)]
    {
      threw := io(clock) != Ok;
      log := log + [Sent(d, key, chat, !threw)];
      clock := clock + 1;
    }

    method Put(d: nat, key: string, value: string, ttl: nat) returns (threw: bool)
      modifies this
      ensures clock == old(clock) + 1 && threw == (io(old(clock)) != Ok)
      ensures io(old(clock)) == Fault ==> kv == old(kv) && log == old(log)
      ensures io(old(clock)) != Fault ==>
                kv == old(kv)[key := Entry(value, time(old(clock)) + ttl)]
                && log == old(log) + [Marked(d, key, time(old(clock)))]
    {
      threw := io(clock) != Ok;
      if io(clock) != Fault {
        kv := kv[key := Entry(value, time(clock) + ttl)];
        log := log + [Marked(d, key, time(clock))];
      }
      clock := clock + 1;
    }
  }

  lemma {:induction false} ChatsSoFar(items: seq<string>, i: nat)
    requires i <= |items|
    ensures Chats(items[..i]) <= Chats(items)
    decreases |items| - i
  {
    if i == |items| {
      assert items[..i] == items;
    } else {
      assert items[..i + 1][..i] == items[..i];
      ChatsSoFar(items, i + 1);
    }
  }

  /** The delivery `d` of `job`, begun with `kv0` at `t0`, stands at `pc` and
      has added `es` to the log. */
  ghost predicate At(w: World, d: nat, job: Job, ttl: nat, kv0: Kv, t0: nat, log0: seq<Event>, pc: Pc)
    reads w
  {
    && log0 <= w.log
    && Reached(d, job, ttl, w.io, w.time, kv0, t0, pc, w.kv, w.log[|log0|..], w.clock)
  }

  lemma Begin(w: World, d: nat, job: Job, ttl: nat)
    ensures At(w, d, job, ttl, w.kv, w.clock, w.log, StartOf(job))
  {
    var (k, rest, end) := RunAlone(d, job, StartOf(job), w.kv, ttl, w.io, w.time, w.clock);
    assert w.log[|w.log|..] + rest == rest;
  }

  lemma Moves(w: World, d: nat, job: Job, ttl: nat, kv0: Kv, t0: nat, log0: seq<Event>,
              kv: Kv, log: seq<Event>, t: nat, pc: Pc, pc': Pc, made: seq<Event>)
    requires log0 <= log && !Over(pc)
    requires Reached(d, job, ttl, w.io, w.time, kv0, t0, pc, kv, log[|log0|..], t)
    requires Step(d, job, pc, kv, w.time(t), ttl, w.io(t)) == (w.kv, pc', made)
    requires w.log == log + made && w.clock == t + 1
    ensures At(w, d, job, ttl, kv0, t0, log0, pc')
  {
    ReachedStep(d, job, ttl, w.io, w.time, kv0, t0, pc, kv, log[|log0|..], t);
    assert w.log[|log0|..] == log[|log0|..] + made;
  }

  /** telegramSentKey, called with await. */
  method ComputeKey(w: World, d: nat, ghost job: Job, sha256Hex: Bytes -> string, cache: EmailCache, raw: Bytes,
                    ttl: nat, ghost kv0: Kv, ghost t0: nat, ghost log0: seq<Event>)
    returns (key: Option<string>)
    requires job.key == TelegramSentKey(sha256Hex, cache, raw) && job.digested == NeedsDigest(cache)
    requires At(w, d, job, ttl, kv0, t0, log0, StartOf(job))
    modifies w
    ensures At(w, d, job, ttl, kv0, t0, log0, if key.Some? then Lookup else Aborted)
    ensures key.Some? ==> key.value == job.key
  {
    var id := Trim(JsSpace, cache.messageId);
    if |id| > 0 && id != cache.id && id != UNKNOWN {
      return Some(PREFIX + id);
    }
    var threw := w.Compute();
    assert old(w.log) + [] == old(w.log);
    Moves(w, d, job, ttl, kv0, t0, log0, old(w.kv), old(w.log), old(w.clock),
          Digest, if threw then Aborted else Lookup, []);
    key := if threw then None else Some(HashKey(sha256Hex, raw));
  }

  method LookUp(w: World, d: nat, ghost job: Job, key: string, ttl: nat,
                ghost kv0: Kv, ghost t0: nat, ghost log0: seq<Event>)
    returns (found: bool)
    requires key == job.key && At(w, d, job, ttl, kv0, t0, log0, Lookup)
    modifies w
    ensures At(w, d, job, ttl, kv0, t0, log0, if found then Finished else Render)
  {
    var threw;
    threw, found := w.Get(d, key);
    ghost var pc := if found then Finished else Render;
    Moves(w, d, job, ttl, kv0, t0, log0, old(w.kv), old(w.log), old(w.clock), Lookup, pc,
          [Looked(d, key, w.time(old(w.clock)), !threw, found)]);
    assert At(w, d, job, ttl, kv0, t0, log0, pc);
  }

  method RenderEmail(w: World, d: nat, ghost job: Job, ttl: nat,
                     ghost kv0: Kv, ghost t0: nat, ghost log0: seq<Event>)
    returns (threw: bool)
    requires At(w, d, job, ttl, kv0, t0, log0, Render)
    modifies w
    ensures At(w, d, job, ttl, kv0, t0, log0, if threw then Aborted else AfterSends(job, 0, false))
  {
    threw := w.Compute();
    ghost var pc := if threw then Aborted else AfterSends(job, 0, false);
    assert old(w.log) + [] == old(w.log);
    Moves(w, d, job, ttl, kv0, t0, log0, old(w.kv), old(w.log), old(w.clock), Render, pc, []);
    assert At(w, d, job, ttl, kv0, t0, log0, pc);
  }

  method SendOne(w: World, d: nat, ghost job: Job, key: string, chat: string, ttl: nat, ghost n: nat, anyOk: bool,
                 ghost kv0: Kv, ghost t0: nat, ghost log0: seq<Event>)
    returns (anyOk': bool)
    requires key == job.key && n < |job.chats| && job.chats[n] == chat
    requires At(w, d, job, ttl, kv0, t0, log0, AfterSends(job, n, anyOk))
    modifies w
    ensures At(w, d, job, ttl, kv0, t0, log0, AfterSends(job, n + 1, anyOk'))
  {
    var threw := w.SendMessage(d, key, chat);
    anyOk' := anyOk || !threw;
    Moves(w, d, job, ttl, kv0, t0, log0, old(w.kv), old(w.log), old(w.clock),
          Sending(n, anyOk), AfterSends(job, n + 1, anyOk'), [Sent(d, key, chat, !threw)]);
  }

  /** One item of TELEGRAM_ID. */
  method SendItem(w: World, d: nat, ghost job: Job, key: string, item: string, ttl: nat, ghost n: nat, anyOk: bool,
                  ghost kv0: Kv, ghost t0: nat, ghost log0: seq<Event>)
    returns (anyOk': bool)
    requires key == job.key && (Trim(JsSpace, item) != "" ==> n < |job.chats| && job.chats[n] == Trim(JsSpace, item))
    requires At(w, d, job, ttl, kv0, t0, log0, AfterSends(job, n, anyOk))
    modifies w
    ensures At(w, d, job, ttl, kv0, t0, log0, AfterSends(job, if Trim(JsSpace, item) == "" then n else n + 1, anyOk'))
  {
    var chatId := Trim(JsSpace, item);
    if chatId == "" {
      return anyOk;
    }
    anyOk' := SendOne(w, d, job, key, chatId, ttl, n, anyOk, kv0, t0, log0);
  }

  lemma NextChat(items: seq<string>, i: nat)
    requires i < |items|
    ensures var n, chat := |Chats(items[..i])|, Trim(JsSpace, items[i]);
      && |Chats(items[..i + 1])| == (if chat == "" then n else n + 1)
      && (chat != "" ==> n < |Chats(items)| && Chats(items)[n] == chat)
  {
    assert items[..i + 1][..i] == items[..i];
    ChatsSoFar(items, i + 1);
    var n := |Chats(items[..i])|;
    assert Trim(JsSpace, items[i]) != "" ==> Chats(items[..i + 1])[n] == Chats(items)[n];
  }

  method SendAll(w: World, d: nat, ghost job: Job, key: string, items: seq<string>, ttl: nat,
                 ghost kv0: Kv, ghost t0: nat, ghost log0: seq<Event>)
    returns (anyOk: bool)
    requires key == job.key && job.chats == Chats(items)
    requires At(w, d, job, ttl, kv0, t0, log0, AfterSends(job, 0, false))
    modifies w
    ensures At(w, d, job, ttl, kv0, t0, log0, if anyOk then Marking else Finished)
  {
    anyOk := false;
    assert items[..0] == [];
    for i := 0 to |items|
      invariant At(w, d, job, ttl, kv0, t0, log0, AfterSends(job, |Chats(items[..i])|, anyOk))
    {
      NextChat(items, i);
      anyOk := SendItem(w, d, job, key, items[i], ttl, |Chats(items[..i])|, anyOk, kv0, t0, log0);
    }
    assert items[..|items|] == items;
  }

  /** sendTelegramForCache runs the delivery to its end, which may be an
      exception; without a token or chat ids it does nothing. `es` is what it adds
      to the log. */
  method SendTelegramForCache(w: World, d: nat, sha256Hex: Bytes -> string, token: string, ids: string,
                              cache: EmailCache, raw: Bytes, ttl: nat)
    returns (threw: bool, ghost es: seq<Event>)
    modifies w
    ensures w.log == old(w.log) + es
    ensures token == "" || ids == "" ==> !threw && es == [] && w.kv == old(w.kv) && w.clock == old(w.clock)
    ensures token != "" && ids != "" ==>
      var job := JobOf(sha256Hex, ids, cache, raw);
      Ends(d, job, StartOf(job), old(w.kv), ttl, w.io, w.time, old(w.clock),
           (w.kv, es, if threw then Aborted else Finished))
    ensures token != "" && ids != "" ==>
      Delivers(d, TelegramSentKey(sha256Hex, cache, raw), NeedsDigest(cache), Chats(Split(ids, ',')), cache.id,
               old(w.kv), ttl, w.io, w.time, old(w.clock), w.kv, es, threw)
  {
    if token == "" || ids == "" {
      return false, [];
    }
    ghost var job := JobOf(sha256Hex, ids, cache, raw);
    ghost var kv0, t0, log0 := w.kv, w.clock, w.log;
    AloneContacts(d, job, kv0, ttl, w.io, w.time, t0);
    Begin(w, d, job, ttl);
    var sentKey := ComputeKey(w, d, job, sha256Hex, cache, raw, ttl, kv0, t0, log0);
    if sentKey.None? {
      threw := true;
    } else {
      threw := SendUnlessSent(w, d, job, sentKey.value, Split(ids, ','), cache.id, ttl, kv0, t0, log0);
    }
    AtEnd(w, d, job, ttl, kv0, t0, log0, if threw then Aborted else Finished);
    es := w.log[|log0|..];
  }

  method SendUnlessSent(w: World, d: nat, ghost job: Job, key: string, items: seq<string>, value: string, ttl: nat,
                        ghost kv0: Kv, ghost t0: nat, ghost log0: seq<Event>)
    returns (threw: bool)
    requires key == job.key && job.chats == Chats(items) && value == job.cacheId
    requires At(w, d, job, ttl, kv0, t0, log0, Lookup)
    modifies w
    ensures At(w, d, job, ttl, kv0, t0, log0, if threw then Aborted else Finished)
  {
    var found := LookUp(w, d, job, key, ttl, kv0, t0, log0);
    if found {
      return false;
    }
    threw := RenderEmail(w, d, job, ttl, kv0, t0, log0);
    if threw {
      return;
    }
    var anyOk := SendAll(w, d, job, key, items, ttl, kv0, t0, log0);
    if anyOk {
      Mark(w, d, job, key, value, ttl, kv0, t0, log0);
    }
  }

  method Mark(w: World, d: nat, ghost job: Job, key: string, value: string, ttl: nat,
              ghost kv0: Kv, ghost t0: nat, ghost log0: seq<Event>)
    requires key == job.key && value == job.cacheId
    requires At(w, d, job, ttl, kv0, t0, log0, Marking)
    modifies w
    ensures At(w, d, job, ttl, kv0, t0, log0, Finished)
  {
    var threw := w.Put(d, key, value, ttl);
    assert old(w.log) + [] == old(w.log);
    Moves(w, d, job, ttl, kv0, t0, log0, old(w.kv), old(w.log), old(w.clock), Marking, Finished, w.log[|old(w.log)|..]);
  }

  lemma AtEnd(w: World, d: nat, job: Job, ttl: nat, kv0: Kv, t0: nat, log0: seq<Event>, pc: Pc)
    requires At(w, d, job, ttl, kv0, t0, log0, pc) && Over(pc)
    ensures RunAlone(d, job, StartOf(job), kv0, ttl, w.io, w.time, t0) == (w.kv, w.log[|log0|..], pc)
    ensures w.log == log0 + w.log[|log0|..]
  {
    assert w.log[|log0|..] + [] == w.log[|log0|..];
  }

  // ---------------------------------------------------------------------
  // What one delivery does for the next
  // ---------------------------------------------------------------------

  /** Two deliveries under one key, begun at calls `t` and `t'`; the first leaves
      `kept` and `es`, the second `kv` and `es'`. If the first contacted somebody,
      got a confirmed send and wrote its marker, the key is found at exactly the
      moments before the marker's end; and if the second looks then, and its
      lookup works, it contacts nobody and leaves KV alone. */
  ghost predicate StopsNext(key: string, n: nat, io: nat -> Outcome, time: nat -> int, ttl: nat,
                            digested: bool, t: nat, kept: Kv, es: seq<Event>,
                            digested': bool, t': nat, kv: Kv, es': seq<Event>)
  {
    var l, look := if digested then t + 1 else t, if digested' then t' + 1 else t';
    var put := l + 2 + n;
    Contacted(es, 0) != [] && SomeOk(io, l + 2, put) && io(put) != Fault ==>
      && (forall now :: now < time(put) + ttl <==> Hit(kept, key, now))
      && (io(look) == Ok && time(look) < time(put) + ttl ==> Contacted(es', 1) == [] && kv == kept)
  }

  lemma MarkerStopsNext(key: string, chats: seq<string>, io: nat -> Outcome, time: nat -> int, ttl: nat,
                        digested: bool, cacheId: string, kv: Kv, t: nat, kept: Kv, es: seq<Event>, threw: bool,
                        digested': bool, cacheId': string, t': nat, kv': Kv, es': seq<Event>, threw': bool)
    requires cacheId != ""
    requires Delivers(0, key, digested, chats, cacheId, kv, ttl, io, time, t, kept, es, threw)
    requires Delivers(1, key, digested', chats, cacheId', kept, ttl, io, time, t', kv', es', threw')
    ensures StopsNext(key, |chats|, io, time, ttl, digested, t, kept, es, digested', t', kv', es')
  {
  }

  /** Both deliveries as calls of the program, whatever time lies between them.
      The first adds `es` to the log and leaves `kept` in KV after `began` calls. */
  method SendTwice(w: World, sha256Hex: Bytes -> string, token: string, ids: string, cache: EmailCache, raw: Bytes,
                   again: EmailCache, rawAgain: Bytes, ttl: nat, ghost key: string)
    returns (began: nat, kept: Kv, ghost es: seq<Event>, ghost es': seq<Event>)
    requires token != "" && ids != "" && cache.id != ""
    requires TelegramSentKey(sha256Hex, cache, raw) == key == TelegramSentKey(sha256Hex, again, rawAgain)
    modifies w
    ensures w.log == old(w.log) + es + es'
    ensures StopsNext(key, |Chats(Split(ids, ','))|, w.io, w.time, ttl,
                      NeedsDigest(cache), old(w.clock), kept, es, NeedsDigest(again), began, w.kv, es')
  {
    var threw, threwAgain;
    threw, es := SendTelegramForCache(w, 0, sha256Hex, token, ids, cache, raw, ttl);
    began, kept := w.clock, w.kv;
    threwAgain, es' := SendTelegramForCache(w, 1, sha256Hex, token, ids, again, rawAgain, ttl);
    MarkerStopsNext(key, Chats(Split(ids, ',')), w.io, w.time, ttl,
                    NeedsDigest(cache), cache.id, old(w.kv), old(w.clock), kept, es, threw,
                    NeedsDigest(again), again.id, began, w.kv, es', threwAgain);
  }

  // ---------------------------------------------------------------------
  // The program's delivery is a delivery of the interleaved system
  // ---------------------------------------------------------------------

  lemma TwoActions(ttl: nat, s: Telegram, a: Action, b: Action, rest: seq<Action>, s': Telegram)
    requires Enabled(s, a) && Enabled(Next(ttl, s, a), b)
    requires Execution(ttl, Next(ttl, Next(ttl, s, a), b), rest, s')
    ensures Execution(ttl, s, [a, b] + rest, s')
  {
    var acts := [a, b] + rest;
    assert acts[1..] == [b] + rest && acts[1..][1..] == rest;
    assert Execution(ttl, Next(ttl, s, a), acts[1..], s');
  }

  /** Delivery `d` goes on to its end, each call at its time. */
  lemma {:induction false} GoesOn(s: Telegram, d: nat, ttl: nat, io: nat -> Outcome, time: nat -> int, t: nat)
    returns (acts: seq<Action>, s': Telegram)
    requires d < |s.deliveries| && s.now <= time(t)
    requires forall i: nat, j: nat :: i <= j ==> time(i) <= time(j)
    ensures Execution(ttl, s, acts, s')
    ensures var dl := s.deliveries[d];
      var (kv, es, end) := RunAlone(d, dl.job, dl.pc, s.kv, ttl, io, time, t);
      s'.kv == kv && s'.log == s.log + es && s'.deliveries == s.deliveries[d := Delivery(dl.job, end)]
    decreases Calls(s.deliveries[d].job, s.deliveries[d].pc)
  {
    var dl := s.deliveries[d];
    if Over(dl.pc) {
      acts, s' := [], s;
      assert s.log + [] == s.log;
    } else {
      var wait, run := Wait(time(t) - s.now), Run(d, io(t));
      var s1 := Next(ttl, Next(ttl, s, wait), run);
      var rest;
      rest, s' := GoesOn(s1, d, ttl, io, time, t + 1);
      acts := [wait, run] + rest;
      TwoActions(ttl, s, wait, run, rest, s');
      var (kv', pc', made) := Step(d, dl.job, dl.pc, s.kv, time(t), ttl, io(t));
      var later := RunAlone(d, dl.job, pc', kv', ttl, io, time, t + 1).1;
      assert s.log + made + later == s.log + (made + later);
    }
  }

  /** The job of a cache entry with an id may arrive at any moment, and running it
      to its end there is what sendTelegramForCache does. */
  lemma ProgramIsRun(s: Telegram, sha256Hex: Bytes -> string, ids: string, cache: EmailCache, raw: Bytes, ttl: nat,
                     io: nat -> Outcome, time: nat -> int, t: nat)
    returns (acts: seq<Action>, s': Telegram)
    requires cache.id != "" && s.now <= time(t)
    requires forall i: nat, j: nat :: i <= j ==> time(i) <= time(j)
    ensures Enabled(s, Arrive(JobOf(sha256Hex, ids, cache, raw)))
    ensures Execution(ttl, s, [Arrive(JobOf(sha256Hex, ids, cache, raw))] + acts, s')
    ensures var d, es := |s.deliveries|, s'.log[if |s.log| <= |s'.log| then |s.log| else 0..];
      && s.log <= s'.log && |s'.deliveries| == d + 1 && s'.deliveries[..d] == s.deliveries
      && Over(s'.deliveries[d].pc)
      && Delivers(d, TelegramSentKey(sha256Hex, cache, raw), NeedsDigest(cache), Chats(Split(ids, ',')), cache.id,
                  s.kv, ttl, io, time, t, s'.kv, es, s'.deliveries[d].pc.Aborted?)
  {
    var job := JobOf(sha256Hex, ids, cache, raw);
    var d, s1 := |s.deliveries|, Next(ttl, s, Arrive(job));
    acts, s' := GoesOn(s1, d, ttl, io, time, t);
    AloneContacts(d, job, s.kv, ttl, io, time, t);
    assert ([Arrive(job)] + acts)[1..] == acts;
    assert s'.log[|s.log|..] == RunAlone(d, job, StartOf(job), s.kv, ttl, io, time, t).1;
  }
}
