/** Worker and server together: any number of deliveries and requests, any
    interleaving, any timeouts, lost replies, error statuses, crashes and
    redeliveries. */
module IngestSystem {
  import opened Common
  import opened Mail
  import opened Ingest
  import opened IngestAlone
  import opened WorkerIngest

  /** A POST on its way through the handler. */
  datatype Post = Post(raw: Bytes, phase: Phase)

  /** One run of email(): not started, waiting for POST `post` (its first or
      second), ended with or without setReject, or killed before its end. */
  datatype Pc = Idle | Awaiting(attempt: nat, post: nat) | Finished(reject: Option<Reason>) | Killed

  datatype Delivery = Delivery(raw: Bytes, configured: bool, pc: Pc)

  datatype System = System(store: Store, posts: seq<Post>, deliveries: seq<Delivery>)

  datatype Action =
    | Deliver(raw: Bytes, configured: bool)   // new mail, or Cloudflare redelivering it
    | Send(d: nat)                            // the Worker starts its ingest path
    | Run(p: nat, out: Outcome)               // one step of the handler
    | Die(p: nat)                             // the handler's process or connection dies
    | Observe(d: nat, reply: NetReply)        // the Worker sees the end of its fetch
    | Kill(d: nat)                            // the Worker is stopped

  /** The handler answered 200. */
  predicate Answered200(p: Post) {
    p.phase.Replied? && (p.phase.reply.Accepted? || p.phase.reply.Duplicate?)
  }

  /** Another open transaction holds the key: the insert waits for it. */
  ghost predicate Blocked(env: Env, s: System, p: nat)
    requires p < |s.posts|
  {
    var key := NextKey(env, s.posts[p].raw, s.posts[p].phase);
    key.Some? && exists q :: 0 <= q < |s.posts| && q != p && Holds(s.posts[q].raw, s.posts[q].phase, key.value)
  }

  ghost predicate Enabled(env: Env, s: System, a: Action) {
    match a
    case Deliver(_, _) => true
    case Send(d) => d < |s.deliveries| && s.deliveries[d].pc.Idle?
    case Run(p, out) => p < |s.posts| && !Done(s.posts[p].phase) && (out == Ok ==> !Blocked(env, s, p))
    case Die(p) => p < |s.posts| && !Done(s.posts[p].phase)
    case Observe(d, reply) =>
      // Proxies and the network may produce anything but a success status.
      && d < |s.deliveries| && s.deliveries[d].pc.Awaiting?
      && (reply.Response? && Ok2xx(reply.status) ==>
            s.deliveries[d].pc.post < |s.posts| && Answered200(s.posts[s.deliveries[d].pc.post]))
    case Kill(d) => d < |s.deliveries|
  }

  /** The delivery `d` posts its bytes. */
  function NewPost(s: System, d: nat, attempt: nat): System
    requires d < |s.deliveries|
  {
    s.(posts := s.posts + [Post(s.deliveries[d].raw, Received)],
       deliveries := s.deliveries[d := s.deliveries[d].(pc := Awaiting(attempt, |s.posts|))])
  }

  function Moved(s: System, d: nat, pc: Pc): System
    requires d < |s.deliveries|
  {
    s.(deliveries := s.deliveries[d := s.deliveries[d].(pc := pc)])
  }

  ghost function Next(env: Env, s: System, a: Action): System
    requires Enabled(env, s, a)
  {
    match a
    case Deliver(raw, configured) => s.(deliveries := s.deliveries + [Delivery(raw, configured, Idle)])
    case Send(d) =>
      if s.deliveries[d].configured then NewPost(s, d, 1) else Moved(s, d, Finished(Some(Misconfigured)))
    case Run(p, out) =>
      var (st, ph) := Advance(env, s.store, s.posts[p].raw, s.posts[p].phase, out);
      s.(store := st, posts := s.posts[p := s.posts[p].(phase := ph)])
    case Die(p) => s.(posts := s.posts[p := s.posts[p].(phase := Gone)])
    case Observe(d, reply) =>
      if s.deliveries[d].pc.attempt == 1 && Is5xx(reply) then NewPost(s, d, 2)
      else Moved(s, d, Finished(RejectReason(reply)))
    case Kill(d) => Moved(s, d, Killed)
  }

  /** `acts` leads from `s` to `s'`. */
  ghost predicate Execution(env: Env, s: System, acts: seq<Action>, s': System)
    decreases |acts|
  {
    if acts == [] then s' == s
    else Enabled(env, s, acts[0]) && Execution(env, Next(env, s, acts[0]), acts[1..], s')
  }

  // ---------------------------------------------------------------------
  // The invariant
  // ---------------------------------------------------------------------

  ghost predicate PostsInv(env: Env, s: System) {
    && (forall i :: 0 <= i < |s.posts| ==> RequestInv(env, s.store, s.posts[i].raw, s.posts[i].phase))
    && (forall i, j :: 0 <= i < |s.posts| && 0 <= j < |s.posts| && i != j ==>
          Apart(s.posts[i].raw, s.posts[i].phase, s.posts[j].raw, s.posts[j].phase))
  }

  ghost predicate DeliveryInv(s: System, d: Delivery) {
    && (d.pc.Awaiting? ==> d.pc.post < |s.posts| && s.posts[d.pc.post].raw == d.raw)
    && (d.pc == Finished(None) ==> Committed(s.store, HashBytes(d.raw)))
  }

  ghost predicate SystemInv(env: Env, s: System) {
    && StoreInv(env, s.store)
    && PostsInv(env, s)
    && forall d :: 0 <= d < |s.deliveries| ==> DeliveryInv(s, s.deliveries[d])
  }

  lemma RunKeepsPosts(env: Env, s: System, p: nat, out: Outcome)
    requires SystemInv(env, s) && Enabled(env, s, Run(p, out))
    ensures StoreInv(env, Next(env, s, Run(p, out)).store)
    ensures PostsInv(env, Next(env, s, Run(p, out)))
  {
    var s' := Next(env, s, Run(p, out));
    var me := s.posts[p];
    StepKeepsOwn(env, s.store, me.raw, me.phase, out);
    forall q | 0 <= q < |s.posts| && q != p
      ensures RequestInv(env, s'.store, s'.posts[q].raw, s'.posts[q].phase)
      ensures Apart(s'.posts[p].raw, s'.posts[p].phase, s'.posts[q].raw, s'.posts[q].phase)
      ensures Apart(s'.posts[q].raw, s'.posts[q].phase, s'.posts[p].raw, s'.posts[p].phase)
    {
      assert Apart(me.raw, me.phase, s.posts[q].raw, s.posts[q].phase);
      StepKeepsOther(env, s.store, me.raw, me.phase, out, s.posts[q].raw, s.posts[q].phase);
      ApartSymmetric(s'.posts[p].raw, s'.posts[p].phase, s'.posts[q].raw, s'.posts[q].phase);
    }
    forall i, j | 0 <= i < |s.posts| && 0 <= j < |s.posts| && i != j
      ensures Apart(s'.posts[i].raw, s'.posts[i].phase, s'.posts[j].raw, s'.posts[j].phase)
    {
      assert Apart(s.posts[i].raw, s.posts[i].phase, s.posts[j].raw, s.posts[j].phase);
    }
  }

  lemma ApartSymmetric(raw: Bytes, ph: Phase, raw': Bytes, ph': Phase)
    requires Apart(raw, ph, raw', ph')
    ensures Apart(raw', ph', raw, ph)
  {
  }

  lemma RunKeepsDeliveries(env: Env, s: System, p: nat, out: Outcome)
    requires SystemInv(env, s) && Enabled(env, s, Run(p, out))
    ensures var s' := Next(env, s, Run(p, out));
      forall d :: 0 <= d < |s'.deliveries| ==> DeliveryInv(s', s'.deliveries[d])
  {
    StepKeepsMessages(env, s.store, s.posts[p].raw, s.posts[p].phase, out);
    var s' := Next(env, s, Run(p, out));
    forall d | 0 <= d < |s'.deliveries| ensures DeliveryInv(s', s'.deliveries[d]) {
      assert DeliveryInv(s, s.deliveries[d]);
    }
  }

  lemma NewPostKeeps(env: Env, s: System, d: nat, attempt: nat)
    requires SystemInv(env, s) && d < |s.deliveries|
    ensures SystemInv(env, NewPost(s, d, attempt))
  {
    var s' := NewPost(s, d, attempt);
    forall i, j | 0 <= i < |s'.posts| && 0 <= j < |s'.posts| && i != j
      ensures Apart(s'.posts[i].raw, s'.posts[i].phase, s'.posts[j].raw, s'.posts[j].phase)
    {
      if i < |s.posts| && j < |s.posts| {
        assert Apart(s.posts[i].raw, s.posts[i].phase, s.posts[j].raw, s.posts[j].phase);
      }
    }
    forall e | 0 <= e < |s'.deliveries| ensures DeliveryInv(s', s'.deliveries[e]) {
      assert DeliveryInv(s, s.deliveries[e]);
    }
  }

  lemma MovedKeeps(env: Env, s: System, d: nat, pc: Pc)
    requires SystemInv(env, s) && d < |s.deliveries| && !pc.Awaiting?
    requires pc == Finished(None) ==> Committed(s.store, HashBytes(s.deliveries[d].raw))
    ensures SystemInv(env, Moved(s, d, pc))
  {
    var s' := Moved(s, d, pc);
    forall e | 0 <= e < |s'.deliveries| ensures DeliveryInv(s', s'.deliveries[e]) {
      assert DeliveryInv(s, s.deliveries[e]);
    }
  }

  /** A 200 is answered only for a committed message. */
  lemma AnsweredIsCommitted(env: Env, s: System, p: nat)
    requires SystemInv(env, s) && p < |s.posts| && Answered200(s.posts[p])
    ensures Committed(s.store, HashBytes(s.posts[p].raw))
  {
    assert RequestInv(env, s.store, s.posts[p].raw, s.posts[p].phase);
  }

  lemma ObserveKeeps(env: Env, s: System, d: nat, reply: NetReply)
    requires SystemInv(env, s) && Enabled(env, s, Observe(d, reply))
    ensures SystemInv(env, Next(env, s, Observe(d, reply)))
  {
    if s.deliveries[d].pc.attempt == 1 && Is5xx(reply) {
      NewPostKeeps(env, s, d, 2);
    } else {
      assert DeliveryInv(s, s.deliveries[d]);
      if RejectReason(reply) == None {
        AnsweredIsCommitted(env, s, s.deliveries[d].pc.post);
      }
      MovedKeeps(env, s, d, Finished(RejectReason(reply)));
    }
  }

  lemma DieKeeps(env: Env, s: System, p: nat)
    requires SystemInv(env, s) && Enabled(env, s, Die(p))
    ensures SystemInv(env, Next(env, s, Die(p)))
  {
    var s' := Next(env, s, Die(p));
    forall i, j | 0 <= i < |s'.posts| && 0 <= j < |s'.posts| && i != j
      ensures Apart(s'.posts[i].raw, s'.posts[i].phase, s'.posts[j].raw, s'.posts[j].phase)
    {
      assert Apart(s.posts[i].raw, s.posts[i].phase, s.posts[j].raw, s.posts[j].phase);
    }
    forall d | 0 <= d < |s'.deliveries| ensures DeliveryInv(s', s'.deliveries[d]) {
      assert DeliveryInv(s, s.deliveries[d]);
    }
  }

  lemma DeliverKeeps(env: Env, s: System, raw: Bytes, configured: bool)
    requires SystemInv(env, s)
    ensures SystemInv(env, Next(env, s, Deliver(raw, configured)))
  {
    var s' := Next(env, s, Deliver(raw, configured));
    forall d | 0 <= d < |s'.deliveries| ensures DeliveryInv(s', s'.deliveries[d]) {
      if d < |s.deliveries| {
        assert DeliveryInv(s, s.deliveries[d]);
      }
    }
  }

  /** Every action keeps the invariant. */
  lemma ActionKeeps(env: Env, s: System, a: Action)
    requires SystemInv(env, s) && Enabled(env, s, a)
    ensures SystemInv(env, Next(env, s, a))
  {
    match a
    case Deliver(raw, configured) => DeliverKeeps(env, s, raw, configured);
    case Send(d) =>
      if s.deliveries[d].configured {
        NewPostKeeps(env, s, d, 1);
      } else {
        MovedKeeps(env, s, d, Finished(Some(Misconfigured)));
      }
    case Run(p, out) =>
      RunKeepsPosts(env, s, p, out);
      RunKeepsDeliveries(env, s, p, out);
    case Die(p) => DieKeeps(env, s, p);
    case Observe(d, reply) => ObserveKeeps(env, s, d, reply);
    case Kill(d) => MovedKeeps(env, s, d, Killed);
  }

  lemma {:induction false} ExecutionKeeps(env: Env, s: System, acts: seq<Action>, s': System)
    requires SystemInv(env, s) && Execution(env, s, acts, s')
    ensures SystemInv(env, s')
    decreases |acts|
  {
    if acts != [] {
      ActionKeeps(env, s, acts[0]);
      ExecutionKeeps(env, Next(env, s, acts[0]), acts[1..], s');
    }
  }

  // ---------------------------------------------------------------------
  // Main results
  // ---------------------------------------------------------------------

  const EMPTY_STORE := Store([], [], [], [], map[], map[], 1, 1)
  const INITIAL := System(EMPTY_STORE, [], [])

  lemma InitialInv(env: Env)
    ensures SystemInv(env, INITIAL)
  {
  }

  /** The rows with this hash. */
  function RowsWith(ms: seq<MessageRow>, h: Hash): seq<MessageRow> {
    if ms == [] then []
    else RowsWith(ms[..|ms| - 1], h) + if ms[|ms| - 1].contentHash == h then [ms[|ms| - 1]] else []
  }

  lemma {:induction false} AtMostOneRow(ms: seq<MessageRow>, h: Hash)
    requires forall i, j :: 0 <= i < j < |ms| ==> ms[i].contentHash != ms[j].contentHash
    ensures |RowsWith(ms, h)| <= 1
    ensures forall i :: 0 <= i < |ms| && ms[i].contentHash == h ==> RowsWith(ms, h) == [ms[i]]
    ensures |RowsWith(ms, h)| == 1 ==> exists i :: 0 <= i < |ms| && ms[i].contentHash == h
  {
    if ms != [] {
      var init := ms[..|ms| - 1];
      AtMostOneRow(init, h);
      if ms[|ms| - 1].contentHash == h {
        assert forall i :: 0 <= i < |init| ==> init[i] == ms[i];
        assert RowsWith(init, h) == [];
      } else {
        forall i | 0 <= i < |ms| && ms[i].contentHash == h ensures RowsWith(ms, h) == [ms[i]] {
          assert init[i] == ms[i];
        }
        if |RowsWith(ms, h)| == 1 {
          var i :| 0 <= i < |init| && init[i].contentHash == h;
          assert ms[i].contentHash == h;
        }
      }
    }
  }

  /** In every run: whenever email() ended without setReject, or the server
      answered 200, exactly one message row for exactly those bytes is
      committed, complete with its recipients, attachments and files; and no
      run, however often the bytes are redelivered, stores a second one. */
  lemma NoRejectMeansStoredOnce(env: Env, acts: seq<Action>, s: System)
    requires Execution(env, INITIAL, acts, s)
    ensures forall d :: 0 <= d < |s.deliveries| && s.deliveries[d].pc == Finished(None) ==>
              |RowsWith(s.store.messages, HashBytes(s.deliveries[d].raw))| == 1
    ensures forall p :: 0 <= p < |s.posts| && Answered200(s.posts[p]) ==>
              |RowsWith(s.store.messages, HashBytes(s.posts[p].raw))| == 1
    ensures forall h :: |RowsWith(s.store.messages, h)| <= 1
    ensures forall i :: 0 <= i < |s.store.messages| ==> Stored(env, s.store, s.store.messages[i])
  {
    InitialInv(env);
    ExecutionKeeps(env, INITIAL, acts, s);
    forall h ensures |RowsWith(s.store.messages, h)| <= 1 {
      AtMostOneRow(s.store.messages, h);
    }
    forall d | 0 <= d < |s.deliveries| && s.deliveries[d].pc == Finished(None)
      ensures |RowsWith(s.store.messages, HashBytes(s.deliveries[d].raw))| == 1
    {
      assert DeliveryInv(s, s.deliveries[d]);
      AtMostOneRow(s.store.messages, HashBytes(s.deliveries[d].raw));
    }
    forall p | 0 <= p < |s.posts| && Answered200(s.posts[p])
      ensures |RowsWith(s.store.messages, HashBytes(s.posts[p].raw))| == 1
    {
      AnsweredIsCommitted(env, s, p);
      AtMostOneRow(s.store.messages, HashBytes(s.posts[p].raw));
    }
  }

  /** In every reachable state: one accepted event per message, in the same
      order, with pairwise distinct hashes; two requests were never accepted
      for the same message; "duplicate" was answered only for a committed one. */
  lemma OneEventPerMessage(env: Env, acts: seq<Action>, s: System)
    requires Execution(env, INITIAL, acts, s)
    ensures OneEventEach(s.store)
    ensures forall p, q :: 0 <= p < q < |s.posts|
              && s.posts[p].phase.Replied? && s.posts[p].phase.reply.Accepted?
              && s.posts[q].phase.Replied? && s.posts[q].phase.reply.Accepted?
              ==> s.posts[p].phase.reply.id != s.posts[q].phase.reply.id && s.posts[p].raw != s.posts[q].raw
    ensures forall p :: 0 <= p < |s.posts| && s.posts[p].phase == Replied(Reply.Duplicate) ==>
              Committed(s.store, HashBytes(s.posts[p].raw))
  {
    InitialInv(env);
    ExecutionKeeps(env, INITIAL, acts, s);
    forall p, q | 0 <= p < q < |s.posts|
      && s.posts[p].phase.Replied? && s.posts[p].phase.reply.Accepted?
      && s.posts[q].phase.Replied? && s.posts[q].phase.reply.Accepted?
      ensures s.posts[p].phase.reply.id != s.posts[q].phase.reply.id && s.posts[p].raw != s.posts[q].raw
    {
      assert Apart(s.posts[p].raw, s.posts[p].phase, s.posts[q].raw, s.posts[q].phase);
      assert RequestInv(env, s.store, s.posts[p].raw, s.posts[p].phase);
      assert RequestInv(env, s.store, s.posts[q].raw, s.posts[q].phase);
    }
    forall p | 0 <= p < |s.posts| && s.posts[p].phase == Replied(Reply.Duplicate)
      ensures Committed(s.store, HashBytes(s.posts[p].raw))
    {
      AnsweredIsCommitted(env, s, p);
    }
  }

  // ---------------------------------------------------------------------
  // Mail that can never be stored
  // ---------------------------------------------------------------------

  /** Not stored, and its attachment keys meet a unique index. */
  ghost predicate Stuck(env: Env, st: Store, raw: Bytes) {
    !Committed(st, HashBytes(raw)) && !KeysFree(env, st, raw)
  }

  lemma StepKeepsStuck(env: Env, st: Store, raw: Bytes, mine: Bytes, ph: Phase, out: Outcome)
    requires StoreInv(env, st) && RequestInv(env, st, mine, ph) && Stuck(env, st, raw)
    ensures Stuck(env, Advance(env, st, mine, ph, out).0, raw)
  {
    var st' := Advance(env, st, mine, ph, out).0;
    StepKeepsMessages(env, st, mine, ph, out);
    StepGrows(env, st, mine, ph, out);
    if DistinctParts(env.Parts(raw)) {
      var j :| 0 <= j < |env.Parts(raw)| && HasKey(st.attachments, env.Parts(raw)[j].contentHash);
      var i :| 0 <= i < |st.attachments| && st.attachments[i].storageKey == env.Parts(raw)[j].contentHash;
      assert st'.attachments[i] == st.attachments[i];
      assert HasKey(st'.attachments, env.Parts(raw)[j].contentHash);
    }
    assert forall i :: 0 <= i < |st.messages| ==> st.messages[i].contentHash != HashBytes(raw);
    if mine == raw && ph.Open? && |ph.tx.attachments| == |env.Parts(raw)| {
      CommittableKeysFree(env, st, raw, ph.tx);
    }
  }

  /** Once an attachment of a message has the key of an attachment of other
      mail, or occurs twice in the message, nothing ever stores it: every later
      delivery of it that comes to an end calls setReject. */
  lemma {:induction false} StuckForever(env: Env, s: System, acts: seq<Action>, s': System, raw: Bytes)
    requires SystemInv(env, s) && Execution(env, s, acts, s') && Stuck(env, s.store, raw)
    ensures Stuck(env, s'.store, raw)
    ensures forall d :: 0 <= d < |s'.deliveries| && s'.deliveries[d].raw == raw && s'.deliveries[d].pc.Finished?
              ==> s'.deliveries[d].pc.reject.Some?
    decreases |acts|
  {
    if acts == [] {
      forall d | 0 <= d < |s'.deliveries| && s'.deliveries[d].raw == raw && s'.deliveries[d].pc.Finished?
        ensures s'.deliveries[d].pc.reject.Some?
      {
        assert DeliveryInv(s', s'.deliveries[d]);
      }
    } else {
      ActionKeeps(env, s, acts[0]);
      if acts[0].Run? {
        var p := acts[0].p;
        assert RequestInv(env, s.store, s.posts[p].raw, s.posts[p].phase);
        StepKeepsStuck(env, s.store, raw, s.posts[p].raw, s.posts[p].phase, acts[0].out);
      }
      StuckForever(env, Next(env, s, acts[0]), acts[1..], s', raw);
    }
  }

  /** How many requests have an open transaction. */
  function OpenCount(posts: seq<Post>): nat {
    if posts == [] then 0
    else OpenCount(posts[..|posts| - 1]) + if posts[|posts| - 1].phase.Open? then 1 else 0
  }

  lemma {:induction false} CloseOne(posts: seq<Post>, p: nat)
    requires p < |posts| && posts[p].phase.Open?
    ensures OpenCount(posts[p := posts[p].(phase := Gone)]) < OpenCount(posts)
  {
    var n, posts' := |posts| - 1, posts[p := posts[p].(phase := Gone)];
    if p == n {
      assert posts'[..n] == posts[..n];
    } else {
      CloseOne(posts[..n], p);
      assert posts'[..n] == posts[..n][p := posts[p].(phase := Gone)];
    }
  }

  lemma {:induction false} ExecutionConcat(env: Env, s: System, a: seq<Action>, s': System, b: seq<Action>, s2: System)
    requires Execution(env, s, a, s') && Execution(env, s', b, s2)
    ensures Execution(env, s, a + b, s2)
    decreases |a|
  {
    if a == [] {
      assert a + b == b;
    } else {
      ExecutionConcat(env, Next(env, s, a[0]), a[1..], s', b, s2);
      assert (a + b)[1..] == a[1..] + b;
    }
  }

  /** No transaction is open. */
  ghost predicate Quiet(s: System) {
    forall p :: 0 <= p < |s.posts| ==> !s.posts[p].phase.Open?
  }

  /** Every open transaction may be lost; then the tables are as before. */
  lemma {:induction false} CanBecomeQuiet(env: Env, s: System) returns (acts: seq<Action>, s': System)
    requires SystemInv(env, s)
    ensures Execution(env, s, acts, s') && SystemInv(env, s') && Quiet(s') && s'.store == s.store
    decreases OpenCount(s.posts)
  {
    if Quiet(s) {
      acts, s' := [], s;
    } else {
      var p: nat :| p < |s.posts| && s.posts[p].phase.Open?;
      var s1 := Next(env, s, Die(p));
      ActionKeeps(env, s, Die(p));
      CloseOne(s.posts, p);
      var rest;
      rest, s' := CanBecomeQuiet(env, s1);
      acts := [Die(p)] + rest;
      assert acts[1..] == rest;
    }
  }

  /** While nothing else is open, a POST can be run to its end, and the end is
      that of the request alone. */
  lemma {:induction false} RunToEnd(env: Env, s: System, p: nat, io: nat -> Outcome, t: nat)
    returns (acts: seq<Action>, s': System)
    requires SystemInv(env, s) && p < |s.posts| && NoFaults(io)
    requires forall q :: 0 <= q < |s.posts| && q != p ==> !s.posts[q].phase.Open?
    ensures Execution(env, s, acts, s')
    ensures |s'.posts| == |s.posts|
    ensures s' == s.(store := s'.store, posts := s.posts[p := s.posts[p].(phase := s'.posts[p].phase)])
    ensures (s'.store, s'.posts[p].phase) == Finish(env, s.store, s.posts[p].raw, s.posts[p].phase, io, t)
    ensures forall i :: 0 <= i < |acts| ==> acts[i] == Run(p, Ok)
    decreases Work(env, s.posts[p].raw, s.posts[p].phase)
  {
    var me := s.posts[p];
    if Done(me.phase) {
      acts, s' := [], s;
    } else {
      var a := Run(p, Ok);
      ActionKeeps(env, s, a);
      StepWorks(env, s.store, me.raw, me.phase, Ok);
      var s1 := Next(env, s, a);
      FinishStep(env, s.store, me.raw, me.phase, io, t, s1.store, s1.posts[p].phase);
      var rest;
      rest, s' := RunToEnd(env, s1, p, io, t + 1);
      acts := [a] + rest;
      assert acts[1..] == rest;
    }
  }

  /** Some run from `s` stores the message. */
  ghost predicate CanBeStored(env: Env, s: System, raw: Bytes) {
    exists acts, s' :: Execution(env, s, acts, s') && Committed(s'.store, HashBytes(raw))
  }

  lemma QuietCanBeStored(env: Env, s: System, raw: Bytes)
    requires SystemInv(env, s) && Quiet(s) && !Committed(s.store, HashBytes(raw)) && KeysFree(env, s.store, raw)
    ensures CanBeStored(env, s, raw)
  {
    var d, p := |s.deliveries|, |s.posts|;
    var arrival, send := Deliver(raw, true), Send(d);
    var s1 := Next(env, s, arrival);
    ActionKeeps(env, s, arrival);
    var s2 := Next(env, s1, send);
    ActionKeeps(env, s1, send);
    assert s2.posts[p] == Post(raw, Received) && s2.store == s.store;
    var io := (t: nat) => Ok;
    var rest, s' := RunToEnd(env, s2, p, io, 0);
    EventIsMessage(env, s.store, HashBytes(raw));
    StoredAloneIff(env, s.store, raw, io, 0);
    assert s'.store.messages[|s.store.messages|].contentHash == HashBytes(raw);
    var acts := [arrival, send] + rest;
    assert acts[1..] == [send] + rest && acts[1..][1..] == rest;
    assert Execution(env, s1, acts[1..], s');
    assert Execution(env, s, acts, s');
  }

  /** In any state that can be reached, whatever is open in it: a mail can still
      be stored, by some run, exactly when it is stored already or its
      attachment keys are free. */
  lemma CanBeStoredIff(env: Env, s: System, raw: Bytes)
    requires SystemInv(env, s)
    ensures CanBeStored(env, s, raw) <==> Committed(s.store, HashBytes(raw)) || KeysFree(env, s.store, raw)
  {
    if Committed(s.store, HashBytes(raw)) {
      assert Execution(env, s, [], s);
    } else if KeysFree(env, s.store, raw) {
      var acts, s1 := CanBecomeQuiet(env, s);
      QuietCanBeStored(env, s1, raw);
      var more, s' :| Execution(env, s1, more, s') && Committed(s'.store, HashBytes(raw));
      ExecutionConcat(env, s, acts, s1, more, s');
    } else {
      forall acts, s' | Execution(env, s, acts, s') ensures !Committed(s'.store, HashBytes(raw)) {
        StuckForever(env, s, acts, s', raw);
      }
    }
  }

  /** A mail with the same attachment twice is never stored, from the very first
      delivery on. */
  lemma RepeatedIsStuck(env: Env, acts: seq<Action>, s: System, raw: Bytes)
    requires Execution(env, INITIAL, acts, s) && !DistinctParts(env.Parts(raw))
    ensures Stuck(env, s.store, raw)
    ensures forall d :: 0 <= d < |s.deliveries| && s.deliveries[d].raw == raw && s.deliveries[d].pc.Finished?
              ==> s.deliveries[d].pc.reject.Some?
  {
    InitialInv(env);
    StuckForever(env, INITIAL, acts, s, raw);
  }

  /** Nor is a mail that shares an attachment with other, stored mail. */
  lemma SharedIsStuck(env: Env, acts: seq<Action>, s: System, i: nat, raw: Bytes, j: nat, k: nat)
    requires Execution(env, INITIAL, acts, s) && i < |s.store.messages| && !Committed(s.store, HashBytes(raw))
    requires var stored := env.Parts(s.store.messages[i].contentHash.preimage);
      j < |stored| && k < |env.Parts(raw)| && stored[j].content == env.Parts(raw)[k].content
    ensures Stuck(env, s.store, raw)
  {
    InitialInv(env);
    ExecutionKeeps(env, INITIAL, acts, s);
    var m := s.store.messages[i];
    assert Stored(env, s.store, m);
    var rows, parts := Ingest.AttachmentsOf(s.store.attachments, m.id), env.Parts(m.contentHash.preimage);
    assert rows[j] == RowOf(env, rows[j].id, m.id, parts[j]);
    RowIsInTable(s.store.attachments, m.id, j);
    assert HasKey(s.store.attachments, env.Parts(raw)[k].contentHash);
  }

  lemma {:induction false} RowIsInTable(rows: seq<AttachmentRow>, id: nat, j: nat)
    requires j < |Ingest.AttachmentsOf(rows, id)|
    ensures exists i :: 0 <= i < |rows| && rows[i] == Ingest.AttachmentsOf(rows, id)[j]
  {
    var n := |rows| - 1;
    var init := Ingest.AttachmentsOf(rows[..n], id);
    if j < |init| {
      RowIsInTable(rows[..n], id, j);
      var i :| 0 <= i < n && rows[..n][i] == init[j];
      assert rows[i] == init[j];
    } else {
      assert rows[n] == Ingest.AttachmentsOf(rows, id)[j];
    }
  }

  /** A new POST of stuck mail, run to its end without a fault, gets a 500. */
  lemma StuckPost(env: Env, s: System, p: nat, raw: Bytes) returns (acts: seq<Action>, s': System)
    requires SystemInv(env, s) && Stuck(env, s.store, raw) && p < |s.posts| && s.posts[p] == Post(raw, Received)
    requires forall q :: 0 <= q < |s.posts| && q != p ==> !s.posts[q].phase.Open?
    ensures Execution(env, s, acts, s') && SystemInv(env, s') && Stuck(env, s'.store, raw) && Quiet(s')
    ensures s'.deliveries == s.deliveries && |s'.posts| == |s.posts| && s'.posts[p].phase == FAILED
    ensures forall i :: 0 <= i < |acts| ==> acts[i] == Run(p, Ok)
  {
    var io := (t: nat) => Ok;
    acts, s' := RunToEnd(env, s, p, io, 0);
    ExecutionKeeps(env, s, acts, s');
    StuckForever(env, s, acts, s', raw);
    EventIsMessage(env, s.store, HashBytes(raw));
    StoredAloneIff(env, s.store, raw, io, 0);
  }

  const REFUSED := Response(500, Json(None))

  /** One POST of the only delivery and the 500 it gets. */
  lemma StuckRound(env: Env, s: System, attempt: nat, raw: Bytes) returns (acts: seq<Action>, s': System)
    requires SystemInv(env, s) && Stuck(env, s.store, raw) && s.posts != []
    requires s.posts[|s.posts| - 1] == Post(raw, Received) && Quiet(s)
    requires s.deliveries == [Delivery(raw, true, Awaiting(attempt, |s.posts| - 1))]
    ensures Execution(env, s, acts, s') && SystemInv(env, s') && Stuck(env, s'.store, raw) && Quiet(s')
    ensures attempt == 1 ==>
      && |s'.posts| == |s.posts| + 1 && s'.posts[|s.posts|] == Post(raw, Received)
      && s'.deliveries == [Delivery(raw, true, Awaiting(2, |s.posts|))]
    ensures attempt != 1 ==>
      |s'.posts| == |s.posts| && s'.deliveries == [Delivery(raw, true, Finished(Some(ServerStatus(500))))]
  {
    var see := Observe(0, REFUSED);
    var run, s1 := StuckPost(env, s, |s.posts| - 1, raw);
    s' := Next(env, s1, see);
    ActionKeeps(env, s1, see);
    assert [see][1..] == [];
    assert Execution(env, s1, [see], s');
    ExecutionConcat(env, s, run, s1, [see], s');
    acts := run + [see];
  }

  /** The first delivery of a mail with a repeated attachment, with nothing
      failing, is posted twice and ends with setReject. */
  lemma RepeatedIsRejected(env: Env, raw: Bytes) returns (acts: seq<Action>, s: System)
    requires !DistinctParts(env.Parts(raw))
    ensures Execution(env, INITIAL, acts, s) && Stuck(env, s.store, raw)
    ensures s.deliveries == [Delivery(raw, true, Finished(Some(ServerStatus(500))))] && |s.posts| == 2
  {
    InitialInv(env);
    var arrive, send := Deliver(raw, true), Send(0);
    var s1 := Next(env, INITIAL, arrive);
    ActionKeeps(env, INITIAL, arrive);
    var s2 := Next(env, s1, send);
    ActionKeeps(env, s1, send);
    assert s2.deliveries == [Delivery(raw, true, Awaiting(1, 0))];
    var first, s3 := StuckRound(env, s2, 1, raw);
    var second, s4 := StuckRound(env, s3, 2, raw);
    s := s4;
    ExecutionConcat(env, s2, first, s3, second, s4);
    Then(env, s1, send, first + second, s);
    Then(env, INITIAL, arrive, [send] + (first + second), s);
    acts := [arrive] + ([send] + (first + second));
  }

  lemma Then(env: Env, s: System, a: Action, acts: seq<Action>, s': System)
    requires Enabled(env, s, a) && Execution(env, Next(env, s, a), acts, s')
    ensures Execution(env, s, [a] + acts, s')
  {
    assert ([a] + acts)[1..] == acts;
  }

  /** Such mail exists: an instance with two equal attachments. */
  lemma StuckExample() returns (env: Env, raw: Bytes, acts: seq<Action>, s: System)
    ensures |env.Parts(raw)| == 2 && env.Parts(raw)[0] == env.Parts(raw)[1]
    ensures Execution(env, INITIAL, acts, s) && Stuck(env, s.store, raw)
    ensures s.deliveries == [Delivery(raw, true, Finished(Some(ServerStatus(500))))]
  {
    var part := Attachment([], "", [], 0, Sha256([]));
    raw := [];
    env := Env(b => (ParsedMessage(Sha256(b), [], [], [], [], [], [part, part]), false), b => b);
    assert env.Parts(raw)[0].contentHash == env.Parts(raw)[1].contentHash;
    acts, s := RepeatedIsRejected(env, raw);
  }
}
