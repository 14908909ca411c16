/** Concurrent deliveries of one message without any fault: the unique index,
    the transaction and the Worker's single retry together. */
module IngestRace {
  import opened Common
  import opened Mail
  import opened Ingest
  import opened IngestAlone
  import opened WorkerIngest
  import opened IngestSystem

  /** The response that carries the handler's answer. */
  function Faithful(reply: Reply): NetReply {
    match reply
    case Accepted(_) => Response(200, Json(Some("accepted")))
    case Duplicate => Response(200, Json(Some("duplicate")))
    case ServerError => Response(500, Json(None))
  }

  /** An action of a run without faults: no operation fails, nothing dies and
      every response arrives as it was sent. */
  ghost predicate Clean(env: Env, s: System, a: Action) {
    && Enabled(env, s, a)
    && match a
       case Send(_) => true
       case Run(_, out) => out == Ok
       case Observe(d, reply) =>
         var p := s.deliveries[d].pc.post;
         p < |s.posts| && s.posts[p].phase.Replied? && reply == Faithful(s.posts[p].phase.reply)
       case _ => false
  }

  ghost predicate CleanRun(env: Env, s: System, acts: seq<Action>, s': System)
    decreases |acts|
  {
    if acts == [] then s' == s
    else Clean(env, s, acts[0]) && CleanRun(env, Next(env, s, acts[0]), acts[1..], s')
  }

  function Copies(raw: Bytes, n: nat): seq<Delivery> {
    if n == 0 then [] else Copies(raw, n - 1) + [Delivery(raw, true, Idle)]
  }

  /** `n` deliveries of `raw` are about to start. */
  function Start(st0: Store, raw: Bytes, n: nat): System {
    System(st0, [], Copies(raw, n))
  }

  // ---------------------------------------------------------------------
  // The invariant of the race
  // ---------------------------------------------------------------------

  ghost predicate Winner(s: System, p: nat) {
    p < |s.posts| && s.posts[p].phase.Replied? && s.posts[p].phase.reply.Accepted?
  }

  /** Nothing is stored yet, or exactly this message is and one request was
      told so. */
  ghost predicate Stage0(env: Env, st0: Store, raw: Bytes, s: System) {
    || SameTables(st0, s.store)
    || exists p: nat :: Winner(s, p) && Added(env, st0, s.store, raw, s.posts[p].phase.reply.id)
  }

  ghost predicate PostOk(s: System, raw: Bytes, p: Post) {
    && p.raw == raw && !p.phase.Gone?
    && (p.phase == FAILED ==> Committed(s.store, HashBytes(raw)))
  }

  ghost predicate DeliveryOk(s: System, raw: Bytes, d: Delivery) {
    && d.raw == raw && d.configured
    && (d.pc.Idle? || d.pc == Finished(None)
        || (d.pc.Awaiting? && d.pc.attempt == 1)
        || (d.pc.Awaiting? && d.pc.attempt == 2 && Committed(s.store, HashBytes(raw)) && d.pc.post < |s.posts|
            && s.posts[d.pc.post].phase in {Received, Replied(Reply.Duplicate)}))
  }

  ghost predicate RaceInv(env: Env, st0: Store, raw: Bytes, s: System) {
    && SystemInv(env, s)
    && Stage0(env, st0, raw, s)
    && (forall p :: 0 <= p < |s.posts| ==> PostOk(s, raw, s.posts[p]))
    && (forall d :: 0 <= d < |s.deliveries| ==> DeliveryOk(s, raw, s.deliveries[d]))
  }

  ghost predicate Storable(env: Env, st0: Store, raw: Bytes) {
    StoreInv(env, st0) && !Committed(st0, HashBytes(raw)) && KeysFree(env, st0, raw)
  }

  lemma Stage0Committed(env: Env, st0: Store, raw: Bytes, s: System)
    requires Storable(env, st0, raw) && StoreInv(env, s.store) && Stage0(env, st0, raw, s)
    ensures Committed(s.store, HashBytes(raw)) <==> !SameTables(st0, s.store)
    ensures HasEvent(s.store, HashBytes(raw)) <==> Committed(s.store, HashBytes(raw))
    ensures SameTables(st0, s.store) ==> KeysFree(env, s.store, raw)
  {
    EventIsMessage(env, s.store, HashBytes(raw));
    assert forall i :: 0 <= i < |st0.messages| ==> st0.messages[i].contentHash != HashBytes(raw);
    if !SameTables(st0, s.store) {
      assert s.store.messages[|st0.messages|].contentHash == HashBytes(raw);
    }
  }

  /** Before the commit, a clean step fails on nothing, and the step that
      changes the tables is the commit of the winner. */
  lemma StepBeforeCommit(env: Env, st0: Store, raw: Bytes, st: Store, ph: Phase)
    requires StoreInv(env, st) && RequestInv(env, st, raw, ph) && !Done(ph)
    requires SameTables(st0, st) && !HasEvent(st, HashBytes(raw)) && KeysFree(env, st, raw)
    ensures var (st', ph') := Advance(env, st, raw, ph, Ok);
      && !ph'.Gone? && ph' != FAILED
      && (SameTables(st0, st')
          || (ph'.Replied? && ph'.reply.Accepted? && Added(env, st0, st', raw, ph'.reply.id)))
  {
    OneStep(env, st, raw, ph, Ok);
    if ph.Open? {
      OkStep(env, st, raw, ph.tx);
    }
  }

  /** After the commit, a clean step leaves the tables alone, and a request that
      starts is answered "duplicate". */
  lemma StepAfterCommit(env: Env, raw: Bytes, st: Store, ph: Phase)
    requires StoreInv(env, st) && RequestInv(env, st, raw, ph) && !Done(ph)
    requires HasEvent(st, HashBytes(raw))
    ensures var (st', ph') := Advance(env, st, raw, ph, Ok);
      && SameTables(st, st') && !ph'.Gone?
      && (ph.Received? ==> ph' == Replied(Reply.Duplicate))
  {
    OneStep(env, st, raw, ph, Ok);
    assert ph.Open? ==> !ph.tx.event;
    StepGrows(env, st, raw, ph, Ok);
  }

  /** What one clean handler step does to the stage of the race. */
  lemma CleanStep(env: Env, st0: Store, raw: Bytes, s: System, p: nat)
    requires Storable(env, st0, raw) && RaceInv(env, st0, raw, s) && Clean(env, s, Run(p, Ok))
    ensures var s' := Next(env, s, Run(p, Ok));
      && Stage0(env, st0, raw, s') && !s'.posts[p].phase.Gone?
      && (s'.posts[p].phase == FAILED ==> Committed(s.store, HashBytes(raw)))
      && (s.posts[p].phase.Received? && Committed(s.store, HashBytes(raw)) ==>
            s'.posts[p].phase == Replied(Reply.Duplicate))
  {
    var s' := Next(env, s, Run(p, Ok));
    var me := s.posts[p];
    assert PostOk(s, raw, me) && RequestInv(env, s.store, me.raw, me.phase);
    Stage0Committed(env, st0, raw, s);
    if SameTables(st0, s.store) {
      StepBeforeCommit(env, st0, raw, s.store, me.phase);
      if !SameTables(st0, s'.store) {
        assert Winner(s', p) && Added(env, st0, s'.store, raw, s'.posts[p].phase.reply.id);
      }
    } else {
      StepAfterCommit(env, raw, s.store, me.phase);
      var w: nat :| Winner(s, w) && Added(env, st0, s.store, raw, s.posts[w].phase.reply.id);
      assert Winner(s', w) && Added(env, st0, s'.store, raw, s'.posts[w].phase.reply.id);
    }
  }

  lemma RunKeepsParts(env: Env, st0: Store, raw: Bytes, s: System, p: nat, s': System)
    requires RaceInv(env, st0, raw, s) && p < |s.posts|
    requires s'.deliveries == s.deliveries && |s'.posts| == |s.posts| && s'.posts[p].raw == s.posts[p].raw
    requires forall q :: 0 <= q < |s.posts| && q != p ==> s'.posts[q] == s.posts[q]
    requires Committed(s.store, HashBytes(raw)) ==> Committed(s'.store, HashBytes(raw))
    requires !s'.posts[p].phase.Gone? && !Done(s.posts[p].phase)
    requires s'.posts[p].phase == FAILED ==> Committed(s.store, HashBytes(raw))
    requires s.posts[p].phase.Received? && Committed(s.store, HashBytes(raw)) ==>
               s'.posts[p].phase == Replied(Reply.Duplicate)
    ensures forall q :: 0 <= q < |s'.posts| ==> PostOk(s', raw, s'.posts[q])
    ensures forall d :: 0 <= d < |s'.deliveries| ==> DeliveryOk(s', raw, s'.deliveries[d])
  {
    forall q | 0 <= q < |s'.posts| ensures PostOk(s', raw, s'.posts[q]) {
      assert PostOk(s, raw, s.posts[q]);
    }
    forall d | 0 <= d < |s'.deliveries| ensures DeliveryOk(s', raw, s'.deliveries[d]) {
      assert DeliveryOk(s, raw, s.deliveries[d]);
    }
  }

  lemma RunKeepsRace(env: Env, st0: Store, raw: Bytes, s: System, p: nat)
    requires Storable(env, st0, raw) && RaceInv(env, st0, raw, s) && Clean(env, s, Run(p, Ok))
    ensures RaceInv(env, st0, raw, Next(env, s, Run(p, Ok)))
  {
    ActionKeeps(env, s, Run(p, Ok));
    CleanStep(env, st0, raw, s, p);
    StepKeepsMessages(env, s.store, s.posts[p].raw, s.posts[p].phase, Ok);
    RunKeepsParts(env, st0, raw, s, p, Next(env, s, Run(p, Ok)));
  }

  lemma Stage0Stays(env: Env, st0: Store, raw: Bytes, s: System, s': System)
    requires Stage0(env, st0, raw, s) && s'.store == s.store && s.posts <= s'.posts
    ensures Stage0(env, st0, raw, s')
  {
    if !SameTables(st0, s.store) {
      var w: nat :| Winner(s, w) && Added(env, st0, s.store, raw, s.posts[w].phase.reply.id);
      assert Winner(s', w) && s'.posts[w] == s.posts[w];
    }
  }

  lemma NewPostKeepsRace(env: Env, st0: Store, raw: Bytes, s: System, d: nat, attempt: nat)
    requires RaceInv(env, st0, raw, s) && d < |s.deliveries| && s.deliveries[d].raw == raw
    requires attempt == 1 || (attempt == 2 && Committed(s.store, HashBytes(raw)))
    ensures RaceInv(env, st0, raw, NewPost(s, d, attempt))
  {
    var s' := NewPost(s, d, attempt);
    NewPostKeeps(env, s, d, attempt);
    Stage0Stays(env, st0, raw, s, s');
    forall q | 0 <= q < |s'.posts| ensures PostOk(s', raw, s'.posts[q]) {
      if q < |s.posts| {
        assert PostOk(s, raw, s.posts[q]);
      }
    }
    forall e | 0 <= e < |s'.deliveries| ensures DeliveryOk(s', raw, s'.deliveries[e]) {
      assert DeliveryOk(s, raw, s.deliveries[e]);
    }
  }

  lemma ObserveKeepsRace(env: Env, st0: Store, raw: Bytes, s: System, d: nat, reply: NetReply)
    requires RaceInv(env, st0, raw, s) && Clean(env, s, Observe(d, reply))
    ensures RaceInv(env, st0, raw, Next(env, s, Observe(d, reply)))
  {
    var me := s.deliveries[d];
    var post := s.posts[me.pc.post];
    assert DeliveryOk(s, raw, me) && PostOk(s, raw, post);
    if me.pc.attempt == 1 && Is5xx(reply) {
      NewPostKeepsRace(env, st0, raw, s, d, 2);
    } else {
      var s' := Next(env, s, Observe(d, reply));
      ActionKeeps(env, s, Observe(d, reply));
      assert Answered200(post) && RejectReason(reply) == None;
      Stage0Stays(env, st0, raw, s, s');
      forall q | 0 <= q < |s'.posts| ensures PostOk(s', raw, s'.posts[q]) {
        assert PostOk(s, raw, s.posts[q]);
      }
      forall e | 0 <= e < |s'.deliveries| ensures DeliveryOk(s', raw, s'.deliveries[e]) {
        assert DeliveryOk(s, raw, s.deliveries[e]);
      }
    }
  }

  lemma CleanKeepsRace(env: Env, st0: Store, raw: Bytes, s: System, a: Action)
    requires Storable(env, st0, raw) && RaceInv(env, st0, raw, s) && Clean(env, s, a)
    ensures RaceInv(env, st0, raw, Next(env, s, a))
  {
    match a
    case Send(d) =>
      assert DeliveryOk(s, raw, s.deliveries[d]);
      NewPostKeepsRace(env, st0, raw, s, d, 1);
    case Run(p, out) => RunKeepsRace(env, st0, raw, s, p);
    case Observe(d, reply) => ObserveKeepsRace(env, st0, raw, s, d, reply);
  }

  lemma {:induction false} CopiesAre(raw: Bytes, n: nat)
    ensures |Copies(raw, n)| == n && forall d :: 0 <= d < n ==> Copies(raw, n)[d] == Delivery(raw, true, Idle)
  {
    if n > 0 {
      CopiesAre(raw, n - 1);
    }
  }

  lemma StartInv(env: Env, st0: Store, raw: Bytes, n: nat)
    requires Storable(env, st0, raw)
    ensures RaceInv(env, st0, raw, Start(st0, raw, n))
  {
    CopiesAre(raw, n);
  }

  // ---------------------------------------------------------------------
  // Progress: no deadlock
  // ---------------------------------------------------------------------

  /** Requests for the same message insert their keys in the same order, so a
      transaction that holds a key holds the first one. */
  lemma HoldersShareFirstKey(env: Env, s: System, raw: Bytes, p: nat, q: nat, key: Key, key': Key)
    requires SystemInv(env, s) && p < |s.posts| && q < |s.posts|
    requires s.posts[p].raw == raw && s.posts[q].raw == raw
    requires Holds(raw, s.posts[p].phase, key) && Holds(raw, s.posts[q].phase, key')
    ensures p == q
  {
    assert p != q ==> Apart(raw, s.posts[p].phase, raw, s.posts[q].phase);
    HolderHasFirstKey(env, s.store, raw, s.posts[p].phase, key);
    HolderHasFirstKey(env, s.store, raw, s.posts[q].phase, key');
  }

  lemma HolderHasFirstKey(env: Env, st: Store, raw: Bytes, ph: Phase, key: Key)
    requires RequestInv(env, st, raw, ph) && Holds(raw, ph, key)
    ensures ph.Open?
    ensures if |env.Parts(raw)| > 0
            then |ph.tx.attachments| > 0 && ph.tx.attachments[0].storageKey == env.Parts(raw)[0].contentHash
            else ph.tx.event
  {
  }

  /** While a request is unfinished, some request can take its next step. */
  lemma SomeRequestRuns(env: Env, st0: Store, raw: Bytes, s: System, p: nat) returns (q: nat)
    requires RaceInv(env, st0, raw, s) && p < |s.posts| && !Done(s.posts[p].phase)
    ensures Clean(env, s, Run(q, Ok))
  {
    q := p;
    if Blocked(env, s, p) {
      var key := NextKey(env, s.posts[p].raw, s.posts[p].phase).value;
      q :| 0 <= q < |s.posts| && q != p && Holds(s.posts[q].raw, s.posts[q].phase, key);
      assert PostOk(s, raw, s.posts[q]);
      var key' := NextKey(env, s.posts[q].raw, s.posts[q].phase);
      if key'.Some? {
        forall r | 0 <= r < |s.posts| && r != q ensures !Holds(s.posts[r].raw, s.posts[r].phase, key'.value) {
          assert PostOk(s, raw, s.posts[r]);
          if Holds(s.posts[r].raw, s.posts[r].phase, key'.value) {
            HoldersShareFirstKey(env, s, raw, q, r, key, key'.value);
          }
        }
      }
    }
  }

  /** While a delivery has not ended, some action is possible. */
  lemma NoDeadlock(env: Env, st0: Store, raw: Bytes, s: System, d: nat) returns (a: Action)
    requires RaceInv(env, st0, raw, s) && d < |s.deliveries| && !s.deliveries[d].pc.Finished?
    ensures Clean(env, s, a)
  {
    var pc := s.deliveries[d].pc;
    assert DeliveryOk(s, raw, s.deliveries[d]) && DeliveryInv(s, s.deliveries[d]);
    if pc.Idle? {
      a := Send(d);
    } else {
      var phase := s.posts[pc.post].phase;
      assert PostOk(s, raw, s.posts[pc.post]);
      if phase.Replied? {
        a := Observe(d, Faithful(phase.reply));
      } else {
        var q := SomeRequestRuns(env, st0, raw, s, pc.post);
        a := Run(q, Ok);
      }
    }
  }

  // ---------------------------------------------------------------------
  // Termination
  // ---------------------------------------------------------------------

  function PostsWork(env: Env, posts: seq<Post>): nat {
    if posts == [] then 0 else Work(env, posts[0].raw, posts[0].phase) + PostsWork(env, posts[1..])
  }

  function DeliveryWork(env: Env, raw: Bytes, d: Delivery): nat {
    var w := Work(env, raw, Received);
    match d.pc
    case Idle => 2 * w + 4
    case Awaiting(attempt, _) => if attempt == 1 then w + 3 else 1
    case _ => 0
  }

  function DeliveriesWork(env: Env, raw: Bytes, ds: seq<Delivery>): nat {
    if ds == [] then 0 else DeliveryWork(env, raw, ds[0]) + DeliveriesWork(env, raw, ds[1..])
  }

  /** A bound on the actions still to come. */
  function Fuel(env: Env, raw: Bytes, s: System): nat {
    PostsWork(env, s.posts) + DeliveriesWork(env, raw, s.deliveries)
  }

  lemma {:induction false} PostsWorkUpdate(env: Env, posts: seq<Post>, p: nat, post: Post)
    requires p < |posts|
    ensures PostsWork(env, posts[p := post]) + Work(env, posts[p].raw, posts[p].phase)
         == PostsWork(env, posts) + Work(env, post.raw, post.phase)
    decreases p
  {
    if p > 0 {
      PostsWorkUpdate(env, posts[1..], p - 1, post);
      assert posts[p := post][1..] == posts[1..][p - 1 := post];
    } else {
      assert posts[p := post][1..] == posts[1..];
    }
  }

  lemma {:induction false} PostsWorkSnoc(env: Env, posts: seq<Post>, post: Post)
    ensures PostsWork(env, posts + [post]) == PostsWork(env, posts) + Work(env, post.raw, post.phase)
    decreases |posts|
  {
    if posts == [] {
      assert ([] + [post])[1..] == [];
    } else {
      PostsWorkSnoc(env, posts[1..], post);
      assert (posts + [post])[1..] == posts[1..] + [post];
    }
  }

  lemma {:induction false} DeliveriesWorkUpdate(env: Env, raw: Bytes, ds: seq<Delivery>, d: nat, x: Delivery)
    requires d < |ds|
    ensures DeliveriesWork(env, raw, ds[d := x]) + DeliveryWork(env, raw, ds[d])
         == DeliveriesWork(env, raw, ds) + DeliveryWork(env, raw, x)
    decreases d
  {
    if d > 0 {
      DeliveriesWorkUpdate(env, raw, ds[1..], d - 1, x);
      assert ds[d := x][1..] == ds[1..][d - 1 := x];
    } else {
      assert ds[d := x][1..] == ds[1..];
    }
  }

  lemma CleanUsesFuel(env: Env, st0: Store, raw: Bytes, s: System, a: Action)
    requires RaceInv(env, st0, raw, s) && Clean(env, s, a)
    ensures Fuel(env, raw, Next(env, s, a)) < Fuel(env, raw, s)
  {
    match a
    case Run(p, out) =>
      StepWorks(env, s.store, s.posts[p].raw, s.posts[p].phase, out);
      PostsWorkUpdate(env, s.posts, p, Next(env, s, a).posts[p]);
    case Send(d) =>
      assert DeliveryOk(s, raw, s.deliveries[d]);
      PostsWorkSnoc(env, s.posts, Post(raw, Received));
      DeliveriesWorkUpdate(env, raw, s.deliveries, d, Next(env, s, a).deliveries[d]);
    case Observe(d, reply) =>
      assert DeliveryOk(s, raw, s.deliveries[d]);
      PostsWorkSnoc(env, s.posts, Post(raw, Received));
      DeliveriesWorkUpdate(env, raw, s.deliveries, d, Next(env, s, a).deliveries[d]);
  }

  lemma {:induction false} CleanRunKeeps(env: Env, st0: Store, raw: Bytes, s: System, acts: seq<Action>, s': System)
    requires Storable(env, st0, raw) && RaceInv(env, st0, raw, s) && CleanRun(env, s, acts, s')
    ensures RaceInv(env, st0, raw, s')
    ensures |acts| + Fuel(env, raw, s') <= Fuel(env, raw, s)
    decreases |acts|
  {
    if acts != [] {
      CleanKeepsRace(env, st0, raw, s, acts[0]);
      CleanUsesFuel(env, st0, raw, s, acts[0]);
      CleanRunKeeps(env, st0, raw, Next(env, s, acts[0]), acts[1..], s');
    }
  }

  // ---------------------------------------------------------------------
  // Main result
  // ---------------------------------------------------------------------

  ghost predicate Over(env: Env, s: System) {
    forall a :: !Clean(env, s, a)
  }

  /** A second POST is answered "duplicate" as soon as it is answered. */
  ghost predicate RetryIsDuplicate(s: System, d: Delivery) {
    d.pc.Awaiting? && d.pc.attempt == 2 ==>
      d.pc.post < |s.posts| && s.posts[d.pc.post].phase in {Received, Replied(Reply.Duplicate)}
  }

  /** For `n` concurrent deliveries of a storable message and no fault, every
      run is finite. At no point has a delivery called setReject, a request is
      answered 500 only after the message is committed, and the single retry
      that follows is answered "duplicate". When nothing can happen any more,
      every delivery has ended without setReject, exactly this message was
      added to the tables, and exactly one request was told so. */
  lemma RaceHasOneWinner(env: Env, st0: Store, raw: Bytes, n: nat, acts: seq<Action>, s: System)
    requires Storable(env, st0, raw) && n > 0 && CleanRun(env, Start(st0, raw, n), acts, s)
    ensures |acts| <= Fuel(env, raw, Start(st0, raw, n))
    ensures forall d :: 0 <= d < |s.deliveries| && s.deliveries[d].pc.Finished? ==> s.deliveries[d].pc.reject == None
    ensures forall p :: 0 <= p < |s.posts| && s.posts[p].phase == FAILED ==> Committed(s.store, HashBytes(raw))
    ensures forall d :: 0 <= d < |s.deliveries| ==> RetryIsDuplicate(s, s.deliveries[d])
    ensures |s.deliveries| == n
    ensures Over(env, s) ==>
      && (forall d :: 0 <= d < n ==> s.deliveries[d].pc == Finished(None))
      && (exists p: nat :: Winner(s, p) && Added(env, st0, s.store, raw, s.posts[p].phase.reply.id))
      && (forall p: nat, q: nat :: Winner(s, p) && Winner(s, q) ==> p == q)
  {
    StartInv(env, st0, raw, n);
    CleanRunKeeps(env, st0, raw, Start(st0, raw, n), acts, s);
    SameDeliveries(env, Start(st0, raw, n), acts, s);
    CopiesAre(raw, n);
    forall d | 0 <= d < |s.deliveries|
      ensures s.deliveries[d].pc.Finished? ==> s.deliveries[d].pc.reject == None
      ensures RetryIsDuplicate(s, s.deliveries[d])
    {
      assert DeliveryOk(s, raw, s.deliveries[d]);
    }
    forall p | 0 <= p < |s.posts| && s.posts[p].phase == FAILED ensures Committed(s.store, HashBytes(raw)) {
      assert PostOk(s, raw, s.posts[p]);
    }
    if Over(env, s) {
      forall d | 0 <= d < n ensures s.deliveries[d].pc == Finished(None) {
        assert DeliveryOk(s, raw, s.deliveries[d]);
        if !s.deliveries[d].pc.Finished? {
          var a := NoDeadlock(env, st0, raw, s, d);
        }
      }
      assert DeliveryInv(s, s.deliveries[0]);
      Stage0Committed(env, st0, raw, s);
      forall p: nat, q: nat | Winner(s, p) && Winner(s, q) ensures p == q {
        OneWinner(env, s, raw, p, q);
      }
    }
  }

  lemma OneWinner(env: Env, s: System, raw: Bytes, p: nat, q: nat)
    requires SystemInv(env, s) && Winner(s, p) && Winner(s, q)
    requires forall r :: 0 <= r < |s.posts| ==> PostOk(s, raw, s.posts[r])
    ensures p == q
  {
    var a, b := s.posts[p], s.posts[q];
    assert PostOk(s, raw, a) && PostOk(s, raw, b);
    assert RequestInv(env, s.store, raw, a.phase);
    assert RequestInv(env, s.store, raw, b.phase);
    AcceptedOnce(env, s.store, raw, a.phase.reply.id, b.phase.reply.id);
    assert !Apart(raw, a.phase, raw, b.phase);
  }

  lemma AcceptedOnce(env: Env, st: Store, raw: Bytes, id: nat, id': nat)
    requires StoreInv(env, st) && HasMessage(st, id, HashBytes(raw)) && HasMessage(st, id', HashBytes(raw))
    ensures id == id'
  {
  }

  lemma {:induction false} SameDeliveries(env: Env, s: System, acts: seq<Action>, s': System)
    requires CleanRun(env, s, acts, s')
    ensures |s'.deliveries| == |s.deliveries|
    decreases |acts|
  {
    if acts != [] {
      SameDeliveries(env, Next(env, s, acts[0]), acts[1..], s');
    }
  }
}
