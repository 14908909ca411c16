/** A request that runs alone: when it is stored, and that it is stored whole
    or not at all. */
module IngestAlone {
  import opened Common
  import opened Mail
  import opened Ingest

  predicate Done(ph: Phase) {
    ph.Replied? || ph.Gone?
  }

  /** The run of one request to its end; `io(t)` is the outcome of operation t. */
  function Finish(env: Env, st: Store, raw: Bytes, ph: Phase, io: nat -> Outcome, t: nat): (Store, Phase)
    decreases Work(env, raw, ph)
  {
    if Done(ph) then (st, ph)
    else
      StepWorks(env, st, raw, ph, io(t));
      var (st', ph') := Advance(env, st, raw, ph, io(t));
      Finish(env, st', raw, ph', io, t + 1)
  }

  lemma FinishStep(env: Env, st: Store, raw: Bytes, ph: Phase, io: nat -> Outcome, t: nat, st': Store, ph': Phase)
    requires !Done(ph) && Advance(env, st, raw, ph, io(t)) == (st', ph')
    ensures Finish(env, st, raw, ph, io, t) == Finish(env, st', raw, ph', io, t + 1)
    ensures Done(ph') ==> Finish(env, st, raw, ph, io, t) == (st', ph')
  {
  }

  ghost predicate SameTables(st: Store, st': Store) {
    && st'.messages == st.messages && st'.recipients == st.recipients
    && st'.attachments == st.attachments && st'.events == st.events
  }

  /** Exactly the rows of message `raw` under `id` were added. */
  ghost predicate Added(env: Env, st: Store, st': Store, raw: Bytes, id: nat) {
    && st'.messages == st.messages + [MessageOf(env, raw, id)]
    && st'.recipients == st.recipients + RecipientRows(id, env.Parsed(raw).recipients)
    && st'.events == st.events + [EventRow(HashBytes(raw), HashBytes(raw))]
    && |st.attachments| <= |st'.attachments| && st'.attachments[..|st.attachments|] == st.attachments
    && Matches(env, st'.attachments[|st.attachments|..], env.Parts(raw), id)
  }

  ghost predicate DistinctParts(parts: seq<ParsedAttachment>) {
    forall i, j :: 0 <= i < j < |parts| ==> parts[i].contentHash != parts[j].contentHash
  }

  ghost predicate NoKeyTaken(st: Store, parts: seq<ParsedAttachment>) {
    forall j :: 0 <= j < |parts| ==> !HasKey(st.attachments, parts[j].contentHash)
  }

  /** The attachment keys of the message meet no unique index. */
  ghost predicate KeysFree(env: Env, st: Store, raw: Bytes) {
    DistinctParts(env.Parts(raw)) && NoKeyTaken(st, env.Parts(raw))
  }

  /** One step leaves the tables alone, or it is a commit that adds exactly the
      rows of this message and ends the request. */
  lemma OneStep(env: Env, st: Store, raw: Bytes, ph: Phase, out: Outcome)
    requires StoreInv(env, st) && RequestInv(env, st, raw, ph) && !Done(ph)
    ensures var (st1, ph1) := Advance(env, st, raw, ph, out);
      && StoreInv(env, st1) && RequestInv(env, st1, raw, ph1) && !ph1.Gone?
      && Work(env, raw, ph1) < Work(env, raw, ph)
      && (|| (SameTables(st, st1) && (ph1.Replied? ==> !ph1.reply.Accepted?))
          || (ph.Open? && Added(env, st, st1, raw, ph.tx.id)
              && (ph1 == Replied(Accepted(ph.tx.id)) || ph1 == FAILED)))
  {
    StepWorks(env, st, raw, ph, out);
    StepGrows(env, st, raw, ph, out);
    StepKeepsOwn(env, st, raw, ph, out);
    if ph.Open? && StageOf(env, raw, ph.tx) == Commit {
      InsertedAdds(env, st, raw, ph.tx);
    }
  }

  /** All or nothing: under any faults, the four tables end unchanged or with
      exactly the rows of this message, and with them whenever the reply says
      accepted. */
  lemma {:induction false} AllOrNothing(env: Env, st: Store, raw: Bytes, ph: Phase, io: nat -> Outcome, t: nat)
    returns (id: nat)
    requires StoreInv(env, st) && RequestInv(env, st, raw, ph) && !Done(ph)
    ensures var (st', ph') := Finish(env, st, raw, ph, io, t);
      && StoreInv(env, st') && RequestInv(env, st', raw, ph') && ph'.Replied?
      && (SameTables(st, st') || Added(env, st, st', raw, id))
      && (ph'.reply.Accepted? ==> ph'.reply.id == id && Added(env, st, st', raw, id))
    decreases Work(env, raw, ph)
  {
    OneStep(env, st, raw, ph, io(t));
    var (st1, ph1) := Advance(env, st, raw, ph, io(t));
    FinishStep(env, st, raw, ph, io, t, st1, ph1);
    if Done(ph1) {
      id := if ph.Open? then ph.tx.id else 0;
    } else {
      id := AllOrNothing(env, st1, raw, ph1, io, t + 1);
    }
  }

  lemma InsertedAdds(env: Env, st: Store, raw: Bytes, tx: Tx)
    requires TxInv(env, st, raw, tx) && StageOf(env, raw, tx) == Commit
    ensures Added(env, st, Inserted(env, st, raw, tx), raw, tx.id)
  {
    assert env.Parts(raw)[..|tx.attachments|] == env.Parts(raw);
    assert Inserted(env, st, raw, tx).attachments[|st.attachments|..] == tx.attachments;
  }

  /** Every operation succeeds. */
  ghost predicate NoFaults(io: nat -> Outcome) {
    forall t :: io(t) == Ok
  }

  lemma {:induction false} AloneInTransaction(env: Env, st: Store, raw: Bytes, tx: Tx, io: nat -> Outcome, t: nat)
    requires StoreInv(env, st) && TxInv(env, st, raw, tx) && !HasEvent(st, HashBytes(raw)) && NoFaults(io)
    ensures var (st', ph') := Finish(env, st, raw, Open(tx), io, t);
      && (KeysFree(env, st, raw) ==> ph' == Replied(Accepted(tx.id)) && Added(env, st, st', raw, tx.id))
      && (!KeysFree(env, st, raw) ==> ph' == FAILED && SameTables(st, st'))
    decreases Work(env, raw, Open(tx))
  {
    OneStep(env, st, raw, Open(tx), Ok);
    var (st1, ph1) := Advance(env, st, raw, Open(tx), Ok);
    FinishStep(env, st, raw, Open(tx), io, t, st1, ph1);
    OkStep(env, st, raw, tx);
    if ph1.Open? {
      AloneInTransaction(env, st1, raw, ph1.tx, io, t + 1);
    }
  }

  /** Without a fault a transaction goes on under its id until it commits, and
      fails only on a taken attachment key. */
  lemma OkStep(env: Env, st: Store, raw: Bytes, tx: Tx)
    requires TxInv(env, st, raw, tx) && !HasEvent(st, HashBytes(raw))
    ensures var (st1, ph1) := Advance(env, st, raw, Open(tx), Ok);
      || (ph1 == Replied(Accepted(tx.id)) && KeysFree(env, st, raw) && Added(env, st, st1, raw, tx.id))
      || (ph1 == FAILED && !KeysFree(env, st, raw) && SameTables(st, st1))
      || (ph1.Open? && ph1.tx.id == tx.id && SameTables(st, st1))
  {
    match StageOf(env, raw, tx)
    case Commit =>
      CommittableKeysFree(env, st, raw, tx);
      InsertedAdds(env, st, raw, tx);
    case AddEvent =>
      EventsArePairs(st, HashBytes(raw));
    case AddAttachment =>
      if Advance(env, st, raw, Open(tx), Ok).1 == FAILED {
        TakenKeyNotFree(env, st, raw, tx);
      }
    case _ =>
  }

  lemma CommittableKeysFree(env: Env, st: Store, raw: Bytes, tx: Tx)
    requires TxInv(env, st, raw, tx) && |tx.attachments| == |env.Parts(raw)|
    ensures KeysFree(env, st, raw)
  {
    var parts := env.Parts(raw);
    assert forall j :: 0 <= j < |parts| ==> tx.attachments[j].storageKey == parts[j].contentHash;
  }

  lemma TakenKeyNotFree(env: Env, st: Store, raw: Bytes, tx: Tx)
    requires TxInv(env, st, raw, tx) && |tx.attachments| < |env.Parts(raw)|
    requires var key := env.Parts(raw)[|tx.attachments|].contentHash;
      HasKey(st.attachments, key) || HasKey(tx.attachments, key)
    ensures !KeysFree(env, st, raw)
  {
    var n, parts := |tx.attachments|, env.Parts(raw);
    if HasKey(tx.attachments, parts[n].contentHash) {
      var i :| 0 <= i < n && tx.attachments[i].storageKey == parts[n].contentHash;
      assert tx.attachments[i] == RowOf(env, tx.attachments[i].id, tx.id, parts[..n][i]);
      assert parts[i].contentHash == parts[n].contentHash;
    }
  }

  /** Run alone and without faults, a message is committed exactly when its hash
      has no event, its attachment hashes are pairwise distinct and none of them
      is the key of an attachment of any other message. Otherwise all four
      tables are unchanged, and the reply is 500 unless the hash was known. */
  lemma StoredAloneIff(env: Env, st: Store, raw: Bytes, io: nat -> Outcome, t: nat)
    requires StoreInv(env, st) && NoFaults(io)
    ensures var (st', ph') := Finish(env, st, raw, Received, io, t);
      var known, free := HasEvent(st, HashBytes(raw)), KeysFree(env, st, raw);
      && (!known && free ==>
            ph' == Replied(Accepted(st.nextMessage)) && Added(env, st, st', raw, st.nextMessage))
      && (known || !free ==>
            ph' == Replied(if known then Duplicate else ServerError) && SameTables(st, st'))
  {
    var known := HasEvent(st, HashBytes(raw));
    FinishStep(env, st, raw, Received, io, t, st, if known then Replied(Duplicate) else Unique);
    if !known {
      var st1 := WithRaw(st, HashBytes(raw), raw);
      FinishStep(env, st, raw, Unique, io, t + 1, st1, RawSaved);
      GrownKeepsStore(env, st, st1);
      BeginKeeps(env, st1, raw);
      var st2 := st1.(nextMessage := st1.nextMessage + 1);
      var tx := Tx(st1.nextMessage, 0, [], false, false);
      FinishStep(env, st1, raw, RawSaved, io, t + 2, st2, Open(tx));
      GrownKeepsStore(env, st1, st2);
      AloneInTransaction(env, st2, raw, tx, io, t + 3);
      assert KeysFree(env, st2, raw) <==> KeysFree(env, st, raw);
    }
  }

  /** Posting the same bytes again after they were stored changes no table. */
  lemma SecondPostIsDuplicate(env: Env, st: Store, raw: Bytes, io: nat -> Outcome, t: nat, t': nat)
    requires StoreInv(env, st) && NoFaults(io) && !HasEvent(st, HashBytes(raw)) && KeysFree(env, st, raw)
    ensures var (st1, _) := Finish(env, st, raw, Received, io, t);
      var (st2, ph2) := Finish(env, st1, raw, Received, io, t');
      ph2 == Replied(Duplicate) && SameTables(st1, st2)
  {
    StoredAloneIff(env, st, raw, io, t);
    var _ := AllOrNothing(env, st, raw, Received, io, t);
    var st1 := Finish(env, st, raw, Received, io, t).0;
    assert st1.events[|st.events|].contentHash == HashBytes(raw);
    StoredAloneIff(env, st1, raw, io, t');
  }
}
