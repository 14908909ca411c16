/** email() of worker/src/index.ts: the preview path and the ingest path run
    concurrently in one world, and only the ingest path decides about setReject,
    whatever is thrown on the preview path. */
module WorkerEmail {
  import opened Common
  import opened Strings
  import opened Streams
  import opened WorkerIngest
  import opened WorkerParse
  import T = WorkerTelegram
  import D = TelegramAlone
  import P = TelegramProgram

  // ---------------------------------------------------------------------
  // The world the two paths share
  // ---------------------------------------------------------------------

  /** The network, the KV calls and the clock: how the n-th awaited call of either
      path ends. A call may be anyone's, so what one path gets depends on how many
      calls the other one made before. */
  datatype Net = Net(replies: nat -> NetReply, io: nat -> Outcome, time: nat -> int)

  /** What the outside sees of one email(). */
  datatype Effect =
    | Posted(body: Bytes)                     // POST to the ingest endpoint
    | CachePut(key: string, expires: int)     // preview cache written to KV
    | Telegram(event: T.Event)                // KV lookup, Telegram send, KV marker
    | Caught                                  // "Telegram dispatch failed unexpectedly"

  /** How one call of the preview path ended, and when. */
  datatype Answer = Answer(out: Outcome, time: int)

  /** What the ingest path works with. */
  datatype Durable = Durable(rawMime: Bytes, configured: bool)

  /** What the preview path works with. A job is absent when the token or the chat
      ids are missing. */
  datatype Show = Show(cacheId: string, job: Option<T.Job>, ttl: nat)

  datatype IngestPc = First | Second | Ended(reject: Option<Reason>)

  /** The promise of deliverPreviewAndTelegram: running, resolved, or rejected by
      an exception that nothing caught. */
  datatype PreviewPc = SaveCache | Notify(pc: T.Pc) | Resolved | Rejected

  /** Both paths in their world. `got` and `answers` record what each was given;
      `trace` holds the effects in the order in which they happened. */
  datatype Both = Both(kv: T.Kv, clock: nat, ingest: IngestPc, preview: PreviewPc,
                       got: seq<NetReply>, answers: seq<Answer>, trace: seq<Effect>)

  function Start(x: Durable, kv: T.Kv): Both {
    Both(kv, 0, if x.configured then First else Ended(Some(Misconfigured)), SaveCache, [], [], [])
  }

  /** The next POST and its reply. */
  function IngestStep(x: Durable, net: Net, s: Both): Both {
    if s.ingest.Ended? then s
    else
      var reply := net.replies(s.clock);
      s.(clock := s.clock + 1, got := s.got + [reply], trace := s.trace + [Posted(x.rawMime)],
         ingest := if s.ingest.First? && Is5xx(reply) then Second else Ended(RejectReason(reply)))
  }

  function Wrap(es: seq<T.Event>): (r: seq<Effect>)
    ensures |r| == |es| && forall i :: 0 <= i < |r| ==> r[i].Telegram?
  {
    seq(|es|, i requires 0 <= i < |es| => Telegram(es[i]))
  }

  predicate Waiting(pc: PreviewPc) {
    pc.SaveCache? || (pc.Notify? && !pc.pc.Aborted?)
  }

  /** One awaited call of deliverPreviewAndTelegram: the preview write, whose failure
      is caught, then the calls of sendTelegramForCache. */
  function PreviewCall(y: Show, pc: PreviewPc, kv: T.Kv, a: Answer): (PreviewPc, T.Kv, seq<Effect>)
    requires Waiting(pc)
  {
    match pc
    case SaveCache =>
      var expires := a.time + y.ttl;
      (if y.job.Some? then Notify(T.StartOf(y.job.value)) else Resolved,
       if a.out == Fault then kv else kv[y.cacheId := T.Entry(y.cacheId, expires)],
       if a.out == Fault then [] else [CachePut(y.cacheId, expires)])
    case Notify(tg) =>
      if y.job.None? then (Resolved, kv, [])
      else
        var (kv', tg', es) := T.Step(0, y.job.value, tg, kv, a.time, y.ttl, a.out);
        (if T.Over(tg') && !tg'.Aborted? then Resolved else Notify(tg'), kv', Wrap(es))
  }

  /** The preview path goes on. An exception out of sendTelegramForCache meets the
      catch clause around it; without that clause the promise would be rejected. */
  function PreviewStep(y: Show, net: Net, s: Both): Both {
    if s.preview == Notify(T.Aborted) then s.(preview := Resolved, trace := s.trace + [Caught])
    else if !Waiting(s.preview) then s
    else
      var a := Answer(net.io(s.clock), net.time(s.clock));
      var (pc, kv, es) := PreviewCall(y, s.preview, s.kv, a);
      s.(clock := s.clock + 1, answers := s.answers + [a], preview := pc, kv := kv, trace := s.trace + es)
  }

  /** The event loop lets one of the paths go on. */
  function Step(x: Durable, y: Show, net: Net, s: Both, ingestMoves: bool): Both {
    if ingestMoves then IngestStep(x, net, s) else PreviewStep(y, net, s)
  }

  function Run(x: Durable, y: Show, net: Net, s: Both, schedule: seq<bool>): Both
    decreases |schedule|
  {
    if schedule == [] then s else Run(x, y, net, Step(x, y, net, s, schedule[0]), schedule[1..])
  }

  /** How email() ends: Promise.all waits for both paths, and throws at once, with no
      setReject, if the promise of the preview path is rejected. */
  datatype Ending = Pending | Crashed | Settled(reject: Option<Reason>)

  function EndOf(s: Both): Ending {
    if s.preview.Rejected? then Crashed
    else if s.preview.Resolved? && s.ingest.Ended? then Settled(s.ingest.reject)
    else Pending
  }

  // ---------------------------------------------------------------------
  // Independence
  // ---------------------------------------------------------------------

  /** The reason to reject, from the replies to this delivery's POSTs. */
  function Decision(configured: bool, got: seq<NetReply>): Option<Reason> {
    if !configured then Some(Misconfigured)
    else if got == [] then None
    else RejectReason(got[|got| - 1])
  }

  /** All the POSTs that have to be made: none, one, or two if the first reply is a
      5xx. */
  predicate AllPosted(configured: bool, got: seq<NetReply>) {
    if !configured then got == []
    else (|got| == 1 && !Is5xx(got[0])) || (|got| == 2 && Is5xx(got[0]))
  }

  /** It is the decision of deliverToGo. */
  lemma DecisionIsDelivered(configured: bool, first: NetReply, second: NetReply)
    ensures var got := if !configured then [] else if Is5xx(first) then [first, second] else [first];
      AllPosted(configured, got) && Decision(configured, got) == Delivered(configured, first, second)
    ensures forall got ::
              AllPosted(configured, got) && (got != [] ==> got[0] == first) && (|got| == 2 ==> got[1] == second)
              ==> Decision(configured, got) == Delivered(configured, first, second)
  {
  }

  function Copies(body: Bytes, n: nat): seq<Effect> {
    seq(n, i => Posted(body))
  }

  /** The ingest path is where its own replies have brought it. */
  predicate IngestInv(x: Durable, s: Both) {
    && Only(true, s.trace) == Copies(x.rawMime, |s.got|)
    && match s.ingest
       case First => x.configured && s.got == []
       case Second => x.configured && |s.got| == 1 && Is5xx(s.got[0])
       case Ended(reject) => AllPosted(x.configured, s.got) && reject == Decision(x.configured, s.got)
  }

  /** The preview path fed with these answers, without any ingest path: its end, the
      KV contents and its effects. An exception is caught before anything else. */
  function Replay(y: Show, kv: T.Kv, answers: seq<Answer>): (PreviewPc, T.Kv, seq<Effect>) {
    if answers == [] then (SaveCache, kv, [])
    else
      var (pc, now, es) := Replay(y, kv, answers[..|answers| - 1]);
      if !Waiting(pc) then (pc, now, es)
      else
        var (pc', now', made) := PreviewCall(y, pc, now, answers[|answers| - 1]);
        if pc' == Notify(T.Aborted) then (Resolved, now', es + made + [Caught]) else (pc', now', es + made)
  }

  /** The preview path is where its own answers have brought it; an exception may
      not have reached the catch clause yet. */
  predicate PreviewInv(y: Show, kv: T.Kv, s: Both) {
    var (pc, now, es) := Replay(y, kv, s.answers);
    && s.kv == now && !s.preview.Rejected?
    && if s.preview == Notify(T.Aborted) then pc == Resolved && Only(false, s.trace) + [Caught] == es
       else s.preview == pc && Only(false, s.trace) == es
  }

  predicate Inv(x: Durable, y: Show, kv: T.Kv, s: Both) {
    IngestInv(x, s) && PreviewInv(y, kv, s)
  }

  /** The POSTs in a trace, or all the rest of it. */
  function Only(posts: bool, trace: seq<Effect>): seq<Effect> {
    if trace == [] then []
    else Only(posts, trace[..|trace| - 1]) + if trace[|trace| - 1].Posted? == posts then [trace[|trace| - 1]] else []
  }

  lemma {:induction false} OnlyConcat(posts: bool, a: seq<Effect>, b: seq<Effect>)
    ensures Only(posts, a + b) == Only(posts, a) + Only(posts, b)
    decreases |b|
  {
    if b == [] {
      assert a + b == a;
    } else {
      OnlyConcat(posts, a, b[..|b| - 1]);
      assert (a + b)[..|a + b| - 1] == a + b[..|b| - 1];
    }
  }

  lemma {:induction false} OneKind(posts: bool, es: seq<Effect>, own: bool)
    requires forall i :: 0 <= i < |es| ==> es[i].Posted? == own
    ensures Only(posts, es) == if posts == own then es else []
  {
    if es != [] {
      OneKind(posts, es[..|es| - 1], own);
    }
  }

  /** Adding effects of one kind to a trace. */
  lemma Extend(trace: seq<Effect>, es: seq<Effect>, own: bool)
    requires forall i :: 0 <= i < |es| ==> es[i].Posted? == own
    ensures Only(own, trace + es) == Only(own, trace) + es
    ensures Only(!own, trace + es) == Only(!own, trace)
  {
    OnlyConcat(own, trace, es);
    OnlyConcat(!own, trace, es);
    OneKind(own, es, own);
    OneKind(!own, es, own);
  }

  lemma OneMorePost(body: Bytes, n: nat)
    ensures Copies(body, n + 1) == Copies(body, n) + [Posted(body)]
  {
  }

  lemma IngestMoveKeeps(x: Durable, y: Show, net: Net, kv: T.Kv, s: Both)
    requires Inv(x, y, kv, s)
    ensures Inv(x, y, kv, IngestStep(x, net, s))
  {
    if !s.ingest.Ended? {
      Extend(s.trace, [Posted(x.rawMime)], true);
      OneMorePost(x.rawMime, |s.got|);
    }
  }

  /** None of what a call of the preview path leaves is a POST. */
  lemma NoPosts(y: Show, pc: PreviewPc, kv: T.Kv, a: Answer)
    requires Waiting(pc)
    ensures forall i :: 0 <= i < |PreviewCall(y, pc, kv, a).2| ==> !PreviewCall(y, pc, kv, a).2[i].Posted?
    ensures !PreviewCall(y, pc, kv, a).0.Rejected?
  {
  }

  lemma ReplaySnoc(y: Show, kv: T.Kv, answers: seq<Answer>, a: Answer)
    ensures var (pc, now, es) := Replay(y, kv, answers);
      Replay(y, kv, answers + [a])
      == if !Waiting(pc) then (pc, now, es)
         else
           var (pc', now', made) := PreviewCall(y, pc, now, a);
           if pc' == Notify(T.Aborted) then (Resolved, now', es + made + [Caught]) else (pc', now', es + made)
  {
    assert (answers + [a])[..|answers|] == answers;
  }

  lemma PreviewMoveKeeps(x: Durable, y: Show, net: Net, kv: T.Kv, s: Both)
    requires Inv(x, y, kv, s)
    ensures Inv(x, y, kv, PreviewStep(y, net, s))
  {
    if s.preview == Notify(T.Aborted) {
      Extend(s.trace, [Caught], false);
    } else if Waiting(s.preview) {
      var a := Answer(net.io(s.clock), net.time(s.clock));
      NoPosts(y, s.preview, s.kv, a);
      Extend(s.trace, PreviewCall(y, s.preview, s.kv, a).2, false);
      ReplaySnoc(y, kv, s.answers, a);
    }
  }

  lemma StepKeeps(x: Durable, y: Show, net: Net, kv: T.Kv, s: Both, ingestMoves: bool)
    requires Inv(x, y, kv, s)
    ensures Inv(x, y, kv, Step(x, y, net, s, ingestMoves))
  {
    if ingestMoves {
      IngestMoveKeeps(x, y, net, kv, s);
    } else {
      PreviewMoveKeeps(x, y, net, kv, s);
    }
  }

  lemma {:induction false} RunKeeps(x: Durable, y: Show, net: Net, kv: T.Kv, s: Both, schedule: seq<bool>)
    requires Inv(x, y, kv, s)
    ensures Inv(x, y, kv, Run(x, y, net, s, schedule))
    decreases |schedule|
  {
    if schedule != [] {
      StepKeeps(x, y, net, kv, s, schedule[0]);
      RunKeeps(x, y, net, kv, Step(x, y, net, s, schedule[0]), schedule[1..]);
    }
  }

  /** Under every interleaving in every world: email() never ends by an exception of
      the preview path; if it ends, it rejects with the reason given by the replies
      to its own POSTs, of which there are two exactly if the first got a 5xx; and
      KV contents, lookups, sends and writes are those of the preview path alone,
      given the same answers. */
  lemma PathsDoNotInterfere(x: Durable, y: Show, net: Net, kv: T.Kv, schedule: seq<bool>)
    ensures var s := Run(x, y, net, Start(x, kv), schedule);
      && !EndOf(s).Crashed?
      && Only(true, s.trace) == Copies(x.rawMime, |s.got|) && |s.got| <= 2 && (|s.got| == 2 ==> Is5xx(s.got[0]))
      && (EndOf(s).Settled? ==>
            && AllPosted(x.configured, s.got) && EndOf(s).reject == Decision(x.configured, s.got)
            && (s.preview, s.kv, Only(false, s.trace)) == Replay(y, kv, s.answers))
  {
    assert Copies(x.rawMime, 0) == [];
    assert Inv(x, y, kv, Start(x, kv));
    RunKeeps(x, y, net, kv, Start(x, kv), schedule);
  }

  /** Two deliveries in two worlds, with different preview paths, that got the same
      replies to their POSTs end with the same rejection: no exception and no answer
      of KV or Telegram changes or suppresses it. */
  lemma OnlyRepliesDecide(x: Durable, y: Show, net: Net, kv: T.Kv, a: seq<bool>,
                          y': Show, net': Net, kv': T.Kv, b: seq<bool>)
    ensures var s, s' := Run(x, y, net, Start(x, kv), a), Run(x, y', net', Start(x, kv'), b);
      EndOf(s).Settled? && EndOf(s').Settled? && s.got == s'.got ==> EndOf(s) == EndOf(s')
  {
    PathsDoNotInterfere(x, y, net, kv, a);
    PathsDoNotInterfere(x, y', net', kv', b);
  }

  /** And with the same answers of KV and Telegram they end with the same KV
      contents, lookups, sends and writes, whatever happened to the POSTs. */
  lemma OnlyAnswersNotify(x: Durable, y: Show, net: Net, kv: T.Kv, a: seq<bool>,
                          x': Durable, net': Net, b: seq<bool>)
    ensures var s, s' := Run(x, y, net, Start(x, kv), a), Run(x', y, net', Start(x', kv), b);
      EndOf(s).Settled? && EndOf(s').Settled? && s.answers == s'.answers ==>
        s.kv == s'.kv && Only(false, s.trace) == Only(false, s'.trace)
  {
    PathsDoNotInterfere(x, y, net, kv, a);
    PathsDoNotInterfere(x', y, net', kv, b);
  }

  // ---------------------------------------------------------------------
  // The preview path alone is the program deliverPreviewAndTelegram
  // ---------------------------------------------------------------------

  /** How the n-th call of the preview path ended, and when. */
  function Outs(answers: seq<Answer>): nat -> Outcome {
    (n: nat) => if n < |answers| then answers[n].out else Ok
  }

  function Times(answers: seq<Answer>): nat -> int {
    (n: nat) => if n < |answers| then answers[n].time else 0
  }

  /** KV after the preview write, and what the outside sees of it. */
  function Kept(y: Show, kv: T.Kv, first: Answer): T.Kv {
    if first.out == Fault then kv else kv[y.cacheId := T.Entry(y.cacheId, first.time + y.ttl)]
  }

  function Put(y: Show, first: Answer): seq<Effect> {
    if first.out == Fault then [] else [CachePut(y.cacheId, first.time + y.ttl)]
  }

  function IfCaught(caught: bool): seq<Effect> {
    if caught then [Caught] else []
  }

  /** After the answers `seen`, of `all` in the end, the preview path has done the
      first calls of the delivery, which left `made`. */
  ghost predicate Along(y: Show, kv: T.Kv, seen: seq<Answer>, all: seq<Answer>, made: seq<T.Event>)
    requires y.job.Some? && seen != []
  {
    var (pc, now, es) := Replay(y, kv, seen);
    var job, kept := y.job.value, Kept(y, kv, seen[0]);
    match pc
    case Notify(tg) =>
      && !T.Over(tg) && es == Put(y, seen[0]) + Wrap(made)
      && P.Reached(0, job, y.ttl, Outs(all), Times(all), kept, 1, tg, now, made, |seen|)
    case Resolved =>
      var end := T.RunAlone(0, job, T.StartOf(job), kept, y.ttl, Outs(all), Times(all), 1);
      end.0 == now && end.1 == made && es == Put(y, seen[0]) + Wrap(made) + IfCaught(end.2.Aborted?)
    case _ => false
  }

  lemma WrapConcat(a: seq<T.Event>, b: seq<T.Event>)
    ensures Wrap(a + b) == Wrap(a) + Wrap(b)
  {
  }

  lemma AlongStart(y: Show, kv: T.Kv, first: Answer, all: seq<Answer>)
    requires y.job.Some?
    ensures Along(y, kv, [first], all, [])
  {
    assert [first][..0] == [];
    var job := y.job.value;
    var rest := T.RunAlone(0, job, T.StartOf(job), Kept(y, kv, first), y.ttl, Outs(all), Times(all), 1).1;
    assert [] + rest == rest;
    assert Put(y, first) + Wrap([]) == Put(y, first);
  }

  lemma EffectsAssoc(a: seq<Effect>, b: seq<Effect>, c: seq<Effect>)
    ensures a + b + c == a + (b + c)
  {
  }

  /** The step that ends the delivery. */
  lemma AlongEnd(y: Show, kept: T.Kv, all: seq<Answer>, pc: T.Pc, kv: T.Kv, made: seq<T.Event>, t: nat)
    requires y.job.Some? && T.Over(pc)
    requires P.Reached(0, y.job.value, y.ttl, Outs(all), Times(all), kept, 1, pc, kv, made, t)
    ensures T.RunAlone(0, y.job.value, T.StartOf(y.job.value), kept, y.ttl, Outs(all), Times(all), 1) == (kv, made, pc)
  {
    assert made + [] == made;
  }

  lemma AlongStep(y: Show, kv: T.Kv, seen: seq<Answer>, a: Answer, all: seq<Answer>, made: seq<T.Event>)
    returns (made': seq<T.Event>)
    requires y.job.Some? && seen != [] && Along(y, kv, seen, all, made)
    requires |seen| < |all| && all[|seen|] == a
    ensures Along(y, kv, seen + [a], all, made')
  {
    var (pc, now, es) := Replay(y, kv, seen);
    var job, kept := y.job.value, Kept(y, kv, seen[0]);
    ReplaySnoc(y, kv, seen, a);
    made' := made;
    if pc.Notify? {
      var (kv', tg, new') := T.Step(0, job, pc.pc, now, a.time, y.ttl, a.out);
      P.ReachedStep(0, job, y.ttl, Outs(all), Times(all), kept, 1, pc.pc, now, made, |seen|);
      made' := made + new';
      WrapConcat(made, new');
      EffectsAssoc(Put(y, seen[0]), Wrap(made), Wrap(new'));
      if T.Over(tg) {
        AlongEnd(y, kept, all, tg, kv', made', |seen| + 1);
        EffectsAssoc(Put(y, seen[0]) + Wrap(made), Wrap(new'), IfCaught(tg.Aborted?));
      }
    }
  }

  lemma {:induction false} AlongAll(y: Show, kv: T.Kv, all: seq<Answer>, n: nat) returns (made: seq<T.Event>)
    requires y.job.Some? && 0 < n <= |all|
    ensures Along(y, kv, all[..n], all, made)
    decreases n
  {
    if n == 1 {
      made := [];
      AlongStart(y, kv, all[0], all);
      assert all[..1] == [all[0]];
    } else {
      made := AlongAll(y, kv, all, n - 1);
      made := AlongStep(y, kv, all[..n - 1], all[n - 1], all, made);
      assert all[..n - 1] + [all[n - 1]] == all[..n];
    }
  }

  /** What email() leaves on the preview path is what the program
      deliverPreviewAndTelegram leaves when its calls end in the same way: the
      preview, if it could be written; with a job, the delivery of that job, tried
      in any case; and the report of an exception, if there was one. */
  lemma PreviewDelivers(y: Show, kv: T.Kv, answers: seq<Answer>) returns (made: seq<T.Event>, caught: bool)
    requires answers != [] && Replay(y, kv, answers).0 == Resolved
    ensures var (_, now, es) := Replay(y, kv, answers);
      var first := answers[0];
      var kept := if first.out == Fault then kv else kv[y.cacheId := T.Entry(y.cacheId, first.time + y.ttl)];
      var put := if first.out == Fault then [] else [CachePut(y.cacheId, first.time + y.ttl)];
      && es == put + Wrap(made) + (if caught then [Caught] else [])
      && (y.job.None? ==> made == [] && !caught && now == kept)
      && (y.job.Some? ==>
            var job := y.job.value;
            D.Delivers(0, job.key, job.digested, job.chats, job.cacheId, kept, y.ttl, Outs(answers), Times(answers), 1,
                       now, made, caught))
  {
    made, caught := [], false;
    if y.job.Some? {
      var job := y.job.value;
      made := AlongAll(y, kv, answers, |answers|);
      assert answers[..|answers|] == answers;
      D.AloneContacts(0, job, Kept(y, kv, answers[0]), y.ttl, Outs(answers), Times(answers), 1);
      caught := T.RunAlone(0, job, T.StartOf(job), Kept(y, kv, answers[0]), y.ttl, Outs(answers), Times(answers), 1)
                .2.Aborted?;
    } else {
      ShowOnly(y, kv, answers);
    }
  }

  lemma {:induction false} ShowOnly(y: Show, kv: T.Kv, answers: seq<Answer>)
    requires y.job.None? && answers != []
    ensures Replay(y, kv, answers) == (Resolved, Kept(y, kv, answers[0]), Put(y, answers[0]))
  {
    if |answers| == 1 {
      assert answers[..0] == [] && [] + Put(y, answers[0]) == Put(y, answers[0]);
    } else {
      ShowOnly(y, kv, answers[..|answers| - 1]);
    }
  }

  // ---------------------------------------------------------------------
  // email() comes to its end
  // ---------------------------------------------------------------------

  function CallsLeft(y: Show, pc: PreviewPc): nat {
    match pc
    case SaveCache => 3 + if y.job.Some? then T.Calls(y.job.value, T.StartOf(y.job.value)) else 0
    case Notify(tg) => if tg.Aborted? then 1 else 2 + if y.job.Some? then T.Calls(y.job.value, tg) else 0
    case _ => 0
  }

  /** Steps left at most on both paths. */
  function Left(y: Show, s: Both): nat {
    CallsLeft(y, s.preview) + match s.ingest case First => 2 case Second => 1 case Ended(_) => 0
  }

  lemma StepWorks(x: Durable, y: Show, net: Net, s: Both, ingestMoves: bool)
    requires if ingestMoves then !s.ingest.Ended? else !s.preview.Resolved? && !s.preview.Rejected?
    ensures Left(y, Step(x, y, net, s, ingestMoves)) < Left(y, s)
  {
  }

  datatype Incoming = Incoming(headers: Option<Headers>, from: string, to: string, rawSize: nat, raw: Stream)

  /** The configuration; `sha256Hex` is the digest function. */
  datatype Config = Config(ingest: bool, token: string, ids: string, ttl: nat, maxSize: nat, policy: Policy,
                           parsers: Parsers, sha256Hex: Bytes -> string)

  function JobFor(cfg: Config, cache: EmailCache, raw: Bytes): Option<T.Job> {
    if cfg.token == "" || cfg.ids == "" then None else Some(T.JobOf(cfg.sha256Hex, cfg.ids, cache, raw))
  }

  /** The parse of email(), with its own catch. */
  method LocalParse(message: Incoming, cfg: Config, rawMime: Bytes, id: string, crash: Option<string>)
    returns (cache: EmailCache)
    ensures cache.id == id && Truthy(cache.text) && Truthy(cache.html)
    ensures cache.from == message.from && cache.to == message.to
    ensures cache.subject == HeaderValue(message.headers.UnwrapOr([]), "Subject").UnwrapOr("")
    ensures crash.Some? ==>
      && cache.text == Some("Email body could not be parsed: " + crash.value)
      && cache.html == Some("<p>Email body could not be parsed.</p>")
    ensures var header := HeaderValue(message.headers.UnwrapOr([]), "Message-ID");
      cache.messageId == if crash.None? then MessageId(header, id) else T.UnparsedMessageId(header)
  {
    if crash.Some? {
      return EmailCache(id, T.UnparsedMessageId(HeaderValue(message.headers.UnwrapOr([]), "Message-ID")),
                        message.from, message.to, HeaderValue(message.headers.UnwrapOr([]), "Subject").UnwrapOr(""),
                        Some("Email body could not be parsed: " + crash.value),
                        Some("<p>Email body could not be parsed.</p>"));
    }
    var input := ParseInput(message.headers, message.from, message.to, message.rawSize, [rawMime]);
    cache := ParseEmail(cfg.parsers, input, cfg.maxSize, cfg.policy, id);
  }

  /** Promise.all over the two paths: whichever the event loop picks moves, until
      both have ended. */
  method RunBoth(x: Durable, y: Show, net: Net, schedule: nat -> bool, kv: T.Kv) returns (s: Both)
    ensures Inv(x, y, kv, s) && EndOf(s).Settled?
  {
    assert Copies(x.rawMime, 0) == [];
    s := Start(x, kv);
    var t := 0;
    while !s.ingest.Ended? || !s.preview.Resolved?
      invariant Inv(x, y, kv, s)
      decreases Left(y, s)
    {
      var ingestMoves := s.preview.Resolved? || (!s.ingest.Ended? && schedule(t));
      StepKeeps(x, y, net, kv, s, ingestMoves);
      StepWorks(x, y, net, s, ingestMoves);
      s := Step(x, y, net, s, ingestMoves);
      t := t + 1;
    }
  }

  /** email() under the interleaving `schedule`: an unreadable stream is rejected
      and nothing else happens. Otherwise it returns, the bytes of the stream are
      posted, the rejection is decided by the replies to these POSTs alone, and the
      preview path runs to its end as if alone, under a key that does not depend on
      the random id. */
  method Email(message: Incoming, cfg: Config, id: string, crash: Option<string>, net: Net, schedule: nat -> bool,
               kv: T.Kv)
    returns (reject: Option<Reason>, s: Both, y: Show)
    ensures message.raw.broken ==> reject == Some(StreamUnreadable) && s == Start(Durable([], false), kv)
    ensures !message.raw.broken ==>
      && EndOf(s) == Settled(reject)
      && AllPosted(cfg.ingest, s.got) && reject == Decision(cfg.ingest, s.got)
      && Only(true, s.trace) == Copies(Concat(message.raw.chunks), |s.got|)
      && (s.preview, s.kv, Only(false, s.trace)) == Replay(y, kv, s.answers)
      && y.ttl == cfg.ttl && y.cacheId == id
      && (y.job.Some? <==> cfg.token != "" && cfg.ids != "")
      && (y.job.Some? ==> y.job.value.chats == T.Chats(Split(cfg.ids, ',')) && y.job.value.cacheId == id)
      && var header := HeaderValue(message.headers.UnwrapOr([]), "Message-ID");
         y.job.Some? && T.IsUuid(id) && !(header.Some? && Trim(JsSpace, header.value) == id) ==>
           y.job.value.key == T.StableKey(cfg.sha256Hex, header, Concat(message.raw.chunks))
  {
    var collected := CollectStream(message.raw);
    if collected.None? {
      return Some(StreamUnreadable), Start(Durable([], false), kv), Show(id, None, cfg.ttl);
    }
    var rawMime := collected.value;
    var cache := LocalParse(message, cfg, rawMime, id, crash);
    ghost var header := HeaderValue(message.headers.UnwrapOr([]), "Message-ID");
    if T.IsUuid(id) {
      T.KeyIsStableIff(cfg.sha256Hex, cache, header, rawMime);
    }
    var show := Show(cache.id, JobFor(cfg, cache, rawMime), cfg.ttl);
    var both := RunBoth(Durable(rawMime, cfg.ingest), show, net, schedule, kv);
    return both.ingest.reject, both, show;
  }

  /** deliverPreviewAndTelegram as the program it is: whatever throws inside, it
      returns, and Telegram is tried even if the preview could not be written. */
  method DeliverPreviewAndTelegram(w: P.World, cache: EmailCache, cfg: Config, raw: Bytes)
    returns (caught: bool, ghost kept: T.Kv, ghost es: seq<T.Event>)
    modifies w
    ensures w.log == old(w.log) + es
    ensures w.io(old(w.clock)) == Fault ==> kept == old(w.kv)
    ensures w.io(old(w.clock)) != Fault ==>
              kept == old(w.kv)[cache.id := T.Entry(cache.id, w.time(old(w.clock)) + cfg.ttl)]
    ensures cfg.token == "" || cfg.ids == "" ==> !caught && w.kv == kept && es == []
    ensures cfg.token != "" && cfg.ids != "" ==>
              D.Delivers(0, T.TelegramSentKey(cfg.sha256Hex, cache, raw), T.NeedsDigest(cache),
                         T.Chats(Split(cfg.ids, ',')), cache.id,
                         kept, cfg.ttl, w.io, w.time, old(w.clock) + 1, w.kv, es, caught)
  {
    var failed := w.Save(cache.id, cache.id, cfg.ttl);
    kept := w.kv;
    caught, es := P.SendTelegramForCache(w, 0, cfg.sha256Hex, cfg.token, cfg.ids, cache, raw, cfg.ttl);
  }
}
