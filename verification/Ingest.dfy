/** One ingest request against the mail store, statement by statement:
    ServeHTTP, isDuplicate and persist of internal/ingest/handler.go over the
    tables of migration 001 and the files of internal/storage/storage.go.

    A step is one SQL statement or one file operation. Its outcome is chosen by
    the environment, so a run of steps is a run of the handler under any I/O
    faults; the interleavings are in IngestSystem. */
module Ingest {
  import opened Common
  import opened Mail

  // ---------------------------------------------------------------------
  // Tables and files
  // ---------------------------------------------------------------------

  datatype MessageRow = MessageRow(id: nat, contentHash: Hash, sender: Bytes, subject: Bytes,
                                   textBody: Bytes, htmlBody: Bytes, parserFailed: bool)
  datatype RecipientRow = RecipientRow(messageId: nat, recipient: Recipient)
  datatype AttachmentRow = AttachmentRow(id: nat, messageId: nat, storageKey: Hash, filename: Option<Bytes>,
                                         mimeType: string, size: nat, contentHash: Hash)
  datatype EventRow = EventRow(cloudflareMessageId: Hash, contentHash: Hash)

  /** The four tables, the two file areas and the AUTO_INCREMENT counters. */
  datatype Store = Store(
    messages: seq<MessageRow>, recipients: seq<RecipientRow>,
    attachments: seq<AttachmentRow>, events: seq<EventRow>,
    raw: map<Hash, Bytes>, blobs: map<(nat, Hash), Bytes>,
    nextMessage: nat, nextAttachment: nat)

  /** What is stored for a raw message, and strings.TrimSpace on file names. */
  datatype Env = Env(parse: Bytes -> (ParsedMessage, bool), trimSpace: Bytes -> Bytes)
  {
    function Parsed(raw: Bytes): ParsedMessage {
      parse(raw).0
    }

    function Parts(raw: Bytes): seq<ParsedAttachment> {
      Parsed(raw).attachments
    }
  }

  function NullableString(env: Env, value: Bytes): Option<Bytes> {
    var trimmed := env.trimSpace(value);
    if trimmed == [] then None else Some(trimmed)
  }

  function MessageOf(env: Env, raw: Bytes, id: nat): MessageRow {
    var (p, failed) := env.parse(raw);
    MessageRow(id, HashBytes(raw), p.sender, p.subject, p.textBody, p.htmlBody, failed)
  }

  function RecipientRows(id: nat, rs: seq<Recipient>): seq<RecipientRow> {
    seq(|rs|, i requires 0 <= i < |rs| => RecipientRow(id, rs[i]))
  }

  function RowOf(env: Env, rowId: nat, messageId: nat, a: ParsedAttachment): AttachmentRow {
    AttachmentRow(rowId, messageId, a.contentHash, NullableString(env, a.filename), a.mimeType, a.size, a.contentHash)
  }

  // ---------------------------------------------------------------------
  // One request
  // ---------------------------------------------------------------------

  /** An open transaction: its message id, how many recipients it inserted, its
      attachment rows, whether the blob of the next one is written, and whether
      the event row is inserted. */
  datatype Tx = Tx(id: nat, recipients: nat, attachments: seq<AttachmentRow>, blobSaved: bool, event: bool)

  datatype Reply = Accepted(id: nat) | Duplicate | ServerError

  datatype Phase = Received | Unique | RawSaved | Open(tx: Tx) | Replied(reply: Reply) | Gone

  const FAILED := Replied(ServerError)

  predicate HasKey(rows: seq<AttachmentRow>, key: Hash) {
    exists i :: 0 <= i < |rows| && rows[i].storageKey == key
  }

  predicate HasEvent(st: Store, h: Hash) {
    exists i :: 0 <= i < |st.events| && st.events[i].contentHash == h
  }

  predicate HasPair(st: Store, e: EventRow) {
    exists i :: 0 <= i < |st.events| && st.events[i] == e
  }

  function Inserted(env: Env, st: Store, raw: Bytes, tx: Tx): Store {
    st.(messages := st.messages + [MessageOf(env, raw, tx.id)],
        recipients := st.recipients + RecipientRows(tx.id, env.Parsed(raw).recipients),
        attachments := st.attachments + tx.attachments,
        events := st.events + [EventRow(HashBytes(raw), HashBytes(raw))])
  }

  /** SaveRawMIME: an existing file is left untouched. */
  function WithRaw(st: Store, h: Hash, data: Bytes): Store {
    if h in st.raw then st else st.(raw := st.raw[h := data])
  }

  function WithBlob(st: Store, id: nat, a: ParsedAttachment): Store {
    st.(blobs := st.blobs[(id, a.contentHash) := a.content])
  }

  datatype Stage = AddRecipient | SaveBlob | AddAttachment | AddEvent | Commit

  /** The next statement of an open transaction. */
  function StageOf(env: Env, raw: Bytes, tx: Tx): Stage {
    if tx.recipients < |env.Parsed(raw).recipients| then AddRecipient
    else if |tx.attachments| < |env.Parts(raw)| then if tx.blobSaved then AddAttachment else SaveBlob
    else if !tx.event then AddEvent
    else Commit
  }

  function AdvanceTx(env: Env, st: Store, raw: Bytes, tx: Tx, out: Outcome): (Store, Phase) {
    var n := |tx.attachments|;
    match StageOf(env, raw, tx)
    case AddRecipient =>
      (st, if out == Ok then Open(tx.(recipients := tx.recipients + 1)) else FAILED)
    case SaveBlob =>
      (if out == Fault then st else WithBlob(st, tx.id, env.Parts(raw)[n]),
       if out == Ok then Open(tx.(blobSaved := true)) else FAILED)
    case AddAttachment =>
      var row := RowOf(env, st.nextAttachment, tx.id, env.Parts(raw)[n]);
      if HasKey(st.attachments, row.storageKey) || HasKey(tx.attachments, row.storageKey) || out != Ok
      then (st, FAILED)
      else (st.(nextAttachment := st.nextAttachment + 1),
            Open(tx.(attachments := tx.attachments + [row], blobSaved := false)))
    case AddEvent =>
      (st, if HasPair(st, EventRow(HashBytes(raw), HashBytes(raw))) || out != Ok then FAILED
           else Open(tx.(event := true)))
    case Commit =>
      (if out == Fault then st else Inserted(env, st, raw, tx),
       if out == Ok then Replied(Accepted(tx.id)) else FAILED)
  }

  /** One step of the handler for `raw`; the request's next phase. */
  function Advance(env: Env, st: Store, raw: Bytes, ph: Phase, out: Outcome): (Store, Phase) {
    match ph
    case Received =>
      (st, if out != Ok then FAILED else if HasEvent(st, HashBytes(raw)) then Replied(Duplicate) else Unique)
    case Unique =>
      (if out == Fault then st else WithRaw(st, HashBytes(raw), raw),
       if out == Ok then RawSaved else FAILED)
    case RawSaved =>
      (if out == Fault then st else st.(nextMessage := st.nextMessage + 1),
       if out == Ok then Open(Tx(st.nextMessage, 0, [], false, false)) else FAILED)
    case Open(tx) => AdvanceTx(env, st, raw, tx, out)
    case Replied(_) => (st, ph)
    case Gone => (st, ph)
  }

  /** The unique keys a statement inserts. */
  datatype Key = BlobKey(h: Hash) | EventKey(h: Hash)

  function NextKey(env: Env, raw: Bytes, ph: Phase): Option<Key> {
    if !ph.Open? then None
    else match StageOf(env, raw, ph.tx)
      case AddAttachment => Some(BlobKey(env.Parts(raw)[|ph.tx.attachments|].contentHash))
      case AddEvent => Some(EventKey(HashBytes(raw)))
      case _ => None
  }

  /** The keys a transaction has inserted and not yet committed. */
  predicate Holds(raw: Bytes, ph: Phase, key: Key) {
    ph.Open? && match key
      case BlobKey(h) => HasKey(ph.tx.attachments, h)
      case EventKey(h) => ph.tx.event && HashBytes(raw) == h
  }

  // ---------------------------------------------------------------------
  // Invariants
  // ---------------------------------------------------------------------

  function RecipientsOf(rows: seq<RecipientRow>, id: nat): seq<RecipientRow> {
    if rows == [] then []
    else RecipientsOf(rows[..|rows| - 1], id)
         + if rows[|rows| - 1].messageId == id then [rows[|rows| - 1]] else []
  }

  function AttachmentsOf(rows: seq<AttachmentRow>, id: nat): seq<AttachmentRow> {
    if rows == [] then []
    else AttachmentsOf(rows[..|rows| - 1], id)
         + if rows[|rows| - 1].messageId == id then [rows[|rows| - 1]] else []
  }

  /** `rows` are the attachments `parts` of message `id`, in order, under
      increasing row ids. */
  ghost predicate Matches(env: Env, rows: seq<AttachmentRow>, parts: seq<ParsedAttachment>, id: nat) {
    && |rows| == |parts|
    && (forall j :: 0 <= j < |rows| ==> rows[j] == RowOf(env, rows[j].id, id, parts[j]))
    && (forall i, j :: 0 <= i < j < |rows| ==> rows[i].id < rows[j].id)
  }

  ghost predicate HasBlobs(st: Store, rows: seq<AttachmentRow>, id: nat) {
    forall j :: 0 <= j < |rows| ==> (id, rows[j].storageKey) in st.blobs
  }

  /** Everything the message's raw bytes call for is in the store. */
  ghost predicate Stored(env: Env, st: Store, m: MessageRow) {
    var raw := m.contentHash.preimage;
    && m == MessageOf(env, raw, m.id)
    && m.contentHash in st.raw
    && RecipientsOf(st.recipients, m.id) == RecipientRows(m.id, env.Parsed(raw).recipients)
    && Matches(env, AttachmentsOf(st.attachments, m.id), env.Parts(raw), m.id)
    && HasBlobs(st, AttachmentsOf(st.attachments, m.id), m.id)
  }

  ghost predicate Committed(st: Store, h: Hash) {
    exists i :: 0 <= i < |st.messages| && st.messages[i].contentHash == h
  }

  ghost predicate UniqueKeys(rows: seq<AttachmentRow>) {
    forall i, j :: 0 <= i < j < |rows| ==> rows[i].storageKey != rows[j].storageKey
  }

  /** Accepted events and messages correspond one to one, with distinct hashes. */
  ghost predicate OneEventEach(st: Store) {
    && |st.events| == |st.messages|
    && (forall i :: 0 <= i < |st.messages| ==>
          st.events[i] == EventRow(st.messages[i].contentHash, st.messages[i].contentHash))
    && (forall i, j :: 0 <= i < j < |st.messages| ==> st.messages[i].contentHash != st.messages[j].contentHash)
  }

  ghost predicate FreshIds(st: Store) {
    && st.nextMessage > 0
    && (forall i :: 0 <= i < |st.messages| ==> 0 < st.messages[i].id < st.nextMessage)
    && (forall i, j :: 0 <= i < j < |st.messages| ==> st.messages[i].id != st.messages[j].id)
    && (forall i :: 0 <= i < |st.recipients| ==> st.recipients[i].messageId < st.nextMessage)
    && (forall i :: 0 <= i < |st.attachments| ==>
          st.attachments[i].messageId < st.nextMessage && st.attachments[i].id < st.nextAttachment)
  }

  /** Every file holds the data its key was computed from. */
  ghost predicate HonestFiles(st: Store) {
    && (forall h :: h in st.raw ==> st.raw[h] == h.preimage)
    && (forall k :: k in st.blobs ==> st.blobs[k] == k.1.preimage)
  }

  ghost predicate StoreInv(env: Env, st: Store) {
    && OneEventEach(st)
    && FreshIds(st)
    && UniqueKeys(st.attachments)
    && HonestFiles(st)
    && forall i :: 0 <= i < |st.messages| ==> Stored(env, st, st.messages[i])
  }

  /** No row of the store belongs to message `id`. */
  ghost predicate Unused(st: Store, id: nat) {
    && 0 < id < st.nextMessage
    && (forall i :: 0 <= i < |st.messages| ==> st.messages[i].id != id)
    && RecipientsOf(st.recipients, id) == []
    && AttachmentsOf(st.attachments, id) == []
  }

  /** How far a transaction may be. */
  ghost predicate Progress(env: Env, raw: Bytes, tx: Tx) {
    && tx.recipients <= |env.Parsed(raw).recipients|
    && |tx.attachments| <= |env.Parts(raw)|
    && (tx.recipients < |env.Parsed(raw).recipients| ==> tx.attachments == [] && !tx.blobSaved && !tx.event)
    && (|tx.attachments| < |env.Parts(raw)| ==> !tx.event)
    && (|tx.attachments| == |env.Parts(raw)| ==> !tx.blobSaved)
  }

  ghost predicate TxInv(env: Env, st: Store, raw: Bytes, tx: Tx) {
    && HashBytes(raw) in st.raw
    && Unused(st, tx.id)
    && Progress(env, raw, tx)
    && Matches(env, tx.attachments, env.Parts(raw)[..|tx.attachments|], tx.id)
    && HasBlobs(st, tx.attachments, tx.id)
    && (tx.blobSaved ==> (tx.id, env.Parts(raw)[|tx.attachments|].contentHash) in st.blobs)
    && UniqueKeys(tx.attachments)
    && (forall j :: 0 <= j < |tx.attachments| ==>
          tx.attachments[j].id < st.nextAttachment && !HasKey(st.attachments, tx.attachments[j].storageKey))
    && (tx.event ==> !HasEvent(st, HashBytes(raw)))
  }

  /** A message row with this id and hash is committed. */
  ghost predicate HasMessage(st: Store, id: nat, h: Hash) {
    exists i :: 0 <= i < |st.messages| && st.messages[i].id == id && st.messages[i].contentHash == h
  }

  ghost predicate RequestInv(env: Env, st: Store, raw: Bytes, ph: Phase) {
    match ph
    case RawSaved => HashBytes(raw) in st.raw
    case Open(tx) => TxInv(env, st, raw, tx)
    case Replied(Accepted(id)) => HasMessage(st, id, HashBytes(raw))
    case Replied(Duplicate) => Committed(st, HashBytes(raw))
    case _ => true
  }

  /** Two requests never share a message id or an uncommitted unique key. */
  ghost predicate Apart(raw: Bytes, ph: Phase, raw': Bytes, ph': Phase) {
    && (ph.Open? && ph'.Open? ==>
          && ph.tx.id != ph'.tx.id
          && (forall i, j :: 0 <= i < |ph.tx.attachments| && 0 <= j < |ph'.tx.attachments| ==>
                ph.tx.attachments[i].storageKey != ph'.tx.attachments[j].storageKey)
          && !(ph.tx.event && ph'.tx.event && raw == raw'))
    && (ph.Replied? && ph'.Replied? && ph.reply.Accepted? && ph'.reply.Accepted? ==> ph.reply.id != ph'.reply.id)
  }

  // ---------------------------------------------------------------------
  // Preservation
  // ---------------------------------------------------------------------

  lemma {:induction false} RecipientsConcat(a: seq<RecipientRow>, b: seq<RecipientRow>, id: nat)
    ensures RecipientsOf(a + b, id) == RecipientsOf(a, id) + RecipientsOf(b, id)
    decreases |b|
  {
    if b == [] {
      assert a + b == a;
    } else {
      RecipientsConcat(a, b[..|b| - 1], id);
      assert (a + b)[..|a + b| - 1] == a + b[..|b| - 1];
    }
  }

  lemma {:induction false} AttachmentsConcat(a: seq<AttachmentRow>, b: seq<AttachmentRow>, id: nat)
    ensures AttachmentsOf(a + b, id) == AttachmentsOf(a, id) + AttachmentsOf(b, id)
    decreases |b|
  {
    if b == [] {
      assert a + b == a;
    } else {
      AttachmentsConcat(a, b[..|b| - 1], id);
      assert (a + b)[..|a + b| - 1] == a + b[..|b| - 1];
    }
  }

  lemma {:induction false} RecipientsAll(rows: seq<RecipientRow>, id: nat, own: nat)
    requires forall i :: 0 <= i < |rows| ==> rows[i].messageId == own
    ensures RecipientsOf(rows, id) == if id == own then rows else []
  {
    if rows != [] {
      RecipientsAll(rows[..|rows| - 1], id, own);
    }
  }

  lemma {:induction false} AttachmentsAll(rows: seq<AttachmentRow>, id: nat, own: nat)
    requires forall i :: 0 <= i < |rows| ==> rows[i].messageId == own
    ensures AttachmentsOf(rows, id) == if id == own then rows else []
  {
    if rows != [] {
      AttachmentsAll(rows[..|rows| - 1], id, own);
    }
  }

  lemma {:induction false} NoRows(st: Store, id: nat)
    requires FreshIds(st) && id >= st.nextMessage
    ensures RecipientsOf(st.recipients, id) == [] && AttachmentsOf(st.attachments, id) == []
  {
    NoRecipients(st.recipients, id);
    NoAttachments(st.attachments, id);
  }

  lemma {:induction false} NoRecipients(rows: seq<RecipientRow>, id: nat)
    requires forall i :: 0 <= i < |rows| ==> rows[i].messageId != id
    ensures RecipientsOf(rows, id) == []
  {
    if rows != [] {
      NoRecipients(rows[..|rows| - 1], id);
    }
  }

  lemma {:induction false} NoAttachments(rows: seq<AttachmentRow>, id: nat)
    requires forall i :: 0 <= i < |rows| ==> rows[i].messageId != id
    ensures AttachmentsOf(rows, id) == []
  {
    if rows != [] {
      NoAttachments(rows[..|rows| - 1], id);
    }
  }

  /** The tables are the same and files and counters only grew. */
  ghost predicate Grown(st: Store, st': Store) {
    && st'.messages == st.messages && st'.recipients == st.recipients
    && st'.attachments == st.attachments && st'.events == st.events
    && st.nextMessage <= st'.nextMessage && st.nextAttachment <= st'.nextAttachment
    && (forall h :: h in st.raw ==> h in st'.raw && st'.raw[h] == st.raw[h])
    && (forall k :: k in st.blobs ==> k in st'.blobs)
  }

  lemma GrownKeepsStore(env: Env, st: Store, st': Store)
    requires StoreInv(env, st) && Grown(st, st') && HonestFiles(st')
    ensures StoreInv(env, st')
  {
    forall i | 0 <= i < |st'.messages| ensures Stored(env, st', st'.messages[i]) {
      assert Stored(env, st, st.messages[i]);
    }
  }

  lemma GrownKeepsRequest(env: Env, st: Store, st': Store, raw: Bytes, ph: Phase)
    requires RequestInv(env, st, raw, ph) && Grown(st, st')
    ensures RequestInv(env, st', raw, ph)
  {
    if ph.Open? {
      var tx := ph.tx;
      assert Unused(st', tx.id);
      forall j | 0 <= j < |tx.attachments| ensures !HasKey(st'.attachments, tx.attachments[j].storageKey) {
        assert !HasKey(st.attachments, tx.attachments[j].storageKey);
      }
    }
  }

  /** Only a commit touches the tables; every other step keeps them and at most
      adds an honest file or draws an id. */
  lemma StepGrows(env: Env, st: Store, raw: Bytes, ph: Phase, out: Outcome)
    requires HonestFiles(st)
    ensures var (st', ph') := Advance(env, st, raw, ph, out);
      || (Grown(st, st') && HonestFiles(st'))
      || (ph.Open? && StageOf(env, raw, ph.tx) == Commit && out != Fault
          && st' == Inserted(env, st, raw, ph.tx) && ph'.Replied?)
  {
  }

  lemma BeginKeeps(env: Env, st: Store, raw: Bytes)
    requires StoreInv(env, st) && HashBytes(raw) in st.raw
    ensures var (st', ph') := Advance(env, st, raw, RawSaved, Ok);
      ph'.Open? && TxInv(env, st', raw, ph'.tx)
  {
    NoRows(st, st.nextMessage);
  }

  lemma AddAttachmentKeeps(env: Env, st: Store, raw: Bytes, tx: Tx, out: Outcome)
    requires StoreInv(env, st) && TxInv(env, st, raw, tx) && StageOf(env, raw, tx) == AddAttachment
    ensures var (st', ph') := AdvanceTx(env, st, raw, tx, out);
      RequestInv(env, st', raw, ph')
  {
    var (st', ph') := AdvanceTx(env, st, raw, tx, out);
    if ph'.Open? {
      var tx', n, parts := ph'.tx, |tx.attachments|, env.Parts(raw);
      var row := tx'.attachments[n];
      assert !HasKey(tx.attachments, row.storageKey);
      assert forall j :: 0 <= j < n ==> tx'.attachments[j] == tx.attachments[j] && parts[..n + 1][j] == parts[..n][j];
      forall j | 0 <= j < |tx'.attachments|
        ensures tx'.attachments[j].id < st'.nextAttachment && !HasKey(st'.attachments, tx'.attachments[j].storageKey)
      {
        if j < n {
          assert !HasKey(st.attachments, tx.attachments[j].storageKey);
        }
      }
      assert Matches(env, tx'.attachments, parts[..n + 1], tx'.id);
    }
  }

  /** The unique pair and the event of a hash are the same row. */
  lemma EventsArePairs(st: Store, h: Hash)
    ensures HasPair(st, EventRow(h, h)) ==> HasEvent(st, h)
    ensures OneEventEach(st) && HasEvent(st, h) ==> HasPair(st, EventRow(h, h))
  {
    if HasPair(st, EventRow(h, h)) {
      var i :| 0 <= i < |st.events| && st.events[i] == EventRow(h, h);
      assert st.events[i].contentHash == h;
    }
    if OneEventEach(st) && HasEvent(st, h) {
      var i :| 0 <= i < |st.events| && st.events[i].contentHash == h;
      assert st.events[i] == EventRow(st.messages[i].contentHash, st.messages[i].contentHash);
    }
  }

  lemma OtherStagesKeep(env: Env, st: Store, raw: Bytes, tx: Tx, out: Outcome)
    requires StoreInv(env, st) && TxInv(env, st, raw, tx)
    requires StageOf(env, raw, tx) in {AddRecipient, SaveBlob, AddEvent}
    ensures var (st', ph') := AdvanceTx(env, st, raw, tx, out);
      RequestInv(env, st', raw, ph')
  {
    var (st', ph') := AdvanceTx(env, st, raw, tx, out);
    StepGrows(env, st, raw, Open(tx), out);
    GrownKeepsRequest(env, st, st', raw, Open(tx));
    EventsArePairs(st, HashBytes(raw));
  }

  lemma CommitKeepsEvents(env: Env, st: Store, raw: Bytes, tx: Tx)
    requires StoreInv(env, st) && TxInv(env, st, raw, tx) && tx.event
    ensures OneEventEach(Inserted(env, st, raw, tx))
    ensures HasMessage(Inserted(env, st, raw, tx), tx.id, HashBytes(raw))
  {
    var st' := Inserted(env, st, raw, tx);
    assert st'.messages[|st.messages|] == MessageOf(env, raw, tx.id);
    forall i | 0 <= i < |st.messages| ensures st.messages[i].contentHash != HashBytes(raw) {
      assert st.events[i].contentHash == st.messages[i].contentHash;
    }
  }

  lemma CommitKeepsKeys(env: Env, st: Store, raw: Bytes, tx: Tx)
    requires StoreInv(env, st) && TxInv(env, st, raw, tx)
    ensures UniqueKeys(Inserted(env, st, raw, tx).attachments)
  {
    var rows := st.attachments + tx.attachments;
    forall i, j | 0 <= i < j < |rows| ensures rows[i].storageKey != rows[j].storageKey {
      if i < |st.attachments| <= j {
        assert !HasKey(st.attachments, tx.attachments[j - |st.attachments|].storageKey);
      }
    }
  }

  lemma CommitRows(env: Env, st: Store, raw: Bytes, tx: Tx, id: nat)
    requires TxInv(env, st, raw, tx)
    ensures var st' := Inserted(env, st, raw, tx);
      && RecipientsOf(st'.recipients, id) == RecipientsOf(st.recipients, id)
           + (if id == tx.id then RecipientRows(id, env.Parsed(raw).recipients) else [])
      && AttachmentsOf(st'.attachments, id) == AttachmentsOf(st.attachments, id)
           + (if id == tx.id then tx.attachments else [])
  {
    var rs := RecipientRows(tx.id, env.Parsed(raw).recipients);
    RecipientsConcat(st.recipients, rs, id);
    RecipientsAll(rs, id, tx.id);
    AttachmentsConcat(st.attachments, tx.attachments, id);
    AttachmentsAll(tx.attachments, id, tx.id);
  }

  lemma CommitStores(env: Env, st: Store, raw: Bytes, tx: Tx)
    requires StoreInv(env, st) && TxInv(env, st, raw, tx) && StageOf(env, raw, tx) == Commit
    ensures var st' := Inserted(env, st, raw, tx);
      forall i :: 0 <= i < |st'.messages| ==> Stored(env, st', st'.messages[i])
  {
    var st' := Inserted(env, st, raw, tx);
    forall i | 0 <= i < |st'.messages| ensures Stored(env, st', st'.messages[i]) {
      var m := st'.messages[i];
      CommitRows(env, st, raw, tx, m.id);
      if i < |st.messages| {
        assert Stored(env, st, st.messages[i]);
        assert RecipientsOf(st'.recipients, m.id) == RecipientsOf(st.recipients, m.id);
        assert AttachmentsOf(st'.attachments, m.id) == AttachmentsOf(st.attachments, m.id);
      } else {
        assert env.Parts(raw)[..|tx.attachments|] == env.Parts(raw);
        assert RecipientsOf(st'.recipients, m.id) == RecipientRows(m.id, env.Parsed(raw).recipients);
        assert AttachmentsOf(st'.attachments, m.id) == tx.attachments;
      }
    }
  }

  lemma CommitKeeps(env: Env, st: Store, raw: Bytes, tx: Tx)
    requires StoreInv(env, st) && TxInv(env, st, raw, tx) && StageOf(env, raw, tx) == Commit
    ensures StoreInv(env, Inserted(env, st, raw, tx))
    ensures HasMessage(Inserted(env, st, raw, tx), tx.id, HashBytes(raw))
  {
    CommitKeepsEvents(env, st, raw, tx);
    CommitKeepsKeys(env, st, raw, tx);
    CommitStores(env, st, raw, tx);
  }

  /** Every step of a request, whatever its outcome, keeps the store invariant
      and the request's own. */
  lemma StepKeepsOwn(env: Env, st: Store, raw: Bytes, ph: Phase, out: Outcome)
    requires StoreInv(env, st) && RequestInv(env, st, raw, ph)
    ensures var (st', ph') := Advance(env, st, raw, ph, out);
      StoreInv(env, st') && RequestInv(env, st', raw, ph')
  {
    var (st', ph') := Advance(env, st, raw, ph, out);
    StepGrows(env, st, raw, ph, out);
    if st' == st || Grown(st, st') {
      GrownKeepsStore(env, st, st');
    }
    if !ph.Open? {
      BeforeOpenKeeps(env, st, raw, ph, out);
    } else if StageOf(env, raw, ph.tx) == Commit {
      CommitKeeps(env, st, raw, ph.tx);
    } else if StageOf(env, raw, ph.tx) == AddAttachment {
      AddAttachmentKeeps(env, st, raw, ph.tx, out);
    } else {
      OtherStagesKeep(env, st, raw, ph.tx, out);
    }
  }

  lemma BeforeOpenKeeps(env: Env, st: Store, raw: Bytes, ph: Phase, out: Outcome)
    requires StoreInv(env, st) && RequestInv(env, st, raw, ph) && !ph.Open?
    ensures var (st', ph') := Advance(env, st, raw, ph, out);
      RequestInv(env, st', raw, ph')
  {
    EventIsMessage(env, st, HashBytes(raw));
    if ph.RawSaved? && out == Ok {
      BeginKeeps(env, st, raw);
    }
  }

  /** An event is found exactly for the committed messages. */
  lemma EventIsMessage(env: Env, st: Store, h: Hash)
    requires StoreInv(env, st)
    ensures HasEvent(st, h) <==> Committed(st, h)
  {
    if HasEvent(st, h) {
      var i :| 0 <= i < |st.events| && st.events[i].contentHash == h;
      assert st.messages[i].contentHash == h;
    }
    if Committed(st, h) {
      var i :| 0 <= i < |st.messages| && st.messages[i].contentHash == h;
      assert st.events[i].contentHash == h;
    }
  }

  /** Committed messages stay. */
  lemma StepKeepsMessages(env: Env, st: Store, raw: Bytes, ph: Phase, out: Outcome)
    requires HonestFiles(st)
    ensures var st' := Advance(env, st, raw, ph, out).0;
      && st.messages <= st'.messages && st.attachments <= st'.attachments
      && (forall h :: Committed(st, h) ==> Committed(st', h))
      && (forall h, id :: HasMessage(st, id, h) ==> HasMessage(st', id, h))
  {
    var st' := Advance(env, st, raw, ph, out).0;
    StepGrows(env, st, raw, ph, out);
    assert forall i :: 0 <= i < |st.messages| ==> st'.messages[i] == st.messages[i];
    forall h | Committed(st, h) ensures Committed(st', h) {
      var i :| 0 <= i < |st.messages| && st.messages[i].contentHash == h;
      assert st'.messages[i].contentHash == h;
    }
    forall h, id | HasMessage(st, id, h) ensures HasMessage(st', id, h) {
      var i :| 0 <= i < |st.messages| && st.messages[i].id == id && st.messages[i].contentHash == h;
      assert st'.messages[i].id == id && st'.messages[i].contentHash == h;
    }
  }

  lemma CommitLeavesFree(env: Env, st: Store, raw: Bytes, tx: Tx, key: Hash)
    requires !HasKey(st.attachments, key) && !HasKey(tx.attachments, key)
    ensures !HasKey(Inserted(env, st, raw, tx).attachments, key)
  {
  }

  lemma CommitKeepsOtherTx(env: Env, st: Store, raw: Bytes, tx: Tx, raw': Bytes, tx': Tx)
    requires TxInv(env, st, raw, tx) && StageOf(env, raw, tx) == Commit
    requires TxInv(env, st, raw', tx') && Apart(raw, Open(tx), raw', Open(tx'))
    ensures TxInv(env, Inserted(env, st, raw, tx), raw', tx')
  {
    var st' := Inserted(env, st, raw, tx);
    assert Unused(st', tx'.id) by {
      CommitRows(env, st, raw, tx, tx'.id);
    }
    forall j | 0 <= j < |tx'.attachments| ensures !HasKey(st'.attachments, tx'.attachments[j].storageKey) {
      CommitLeavesFree(env, st, raw, tx, tx'.attachments[j].storageKey);
    }
    OtherEvent(env, st, raw, tx, raw');
  }

  lemma OtherEvent(env: Env, st: Store, raw: Bytes, tx: Tx, raw': Bytes)
    ensures HasEvent(Inserted(env, st, raw, tx), HashBytes(raw')) ==> HasEvent(st, HashBytes(raw')) || raw == raw'
  {
  }

  /** A step of one request keeps every other request's invariant and keeps the
      two apart, provided it does not take a key the other one holds. */
  lemma StepKeepsOther(env: Env, st: Store, raw: Bytes, ph: Phase, out: Outcome, raw': Bytes, ph': Phase)
    requires StoreInv(env, st) && RequestInv(env, st, raw, ph) && RequestInv(env, st, raw', ph')
    requires Apart(raw, ph, raw', ph')
    requires out == Ok && NextKey(env, raw, ph).Some? ==> !Holds(raw', ph', NextKey(env, raw, ph).value)
    ensures var (st2, ph2) := Advance(env, st, raw, ph, out);
      RequestInv(env, st2, raw', ph') && Apart(raw, ph2, raw', ph')
  {
    var (st2, ph2) := Advance(env, st, raw, ph, out);
    StepGrows(env, st, raw, ph, out);
    StepKeepsMessages(env, st, raw, ph, out);
    if ph.Open? && StageOf(env, raw, ph.tx) == Commit && out != Fault {
      if ph'.Open? {
        CommitKeepsOtherTx(env, st, raw, ph.tx, raw', ph'.tx);
      }
    } else {
      GrownKeepsRequest(env, st, st2, raw', ph');
    }
    StaysApart(env, st, raw, ph, out, raw', ph');
  }

  lemma StaysApart(env: Env, st: Store, raw: Bytes, ph: Phase, out: Outcome, raw': Bytes, ph': Phase)
    requires StoreInv(env, st) && RequestInv(env, st, raw, ph) && RequestInv(env, st, raw', ph')
    requires Apart(raw, ph, raw', ph')
    requires out == Ok && NextKey(env, raw, ph).Some? ==> !Holds(raw', ph', NextKey(env, raw, ph).value)
    ensures Apart(raw, Advance(env, st, raw, ph, out).1, raw', ph')
  {
    var ph2 := Advance(env, st, raw, ph, out).1;
    if ph2.Open? && ph'.Open? && ph.Open? && StageOf(env, raw, ph.tx) == AddAttachment {
      var key := NextKey(env, raw, ph).value;
      assert !HasKey(ph'.tx.attachments, key.h);
    }
  }

  // ---------------------------------------------------------------------
  // Termination of a request
  // ---------------------------------------------------------------------

  /** Steps left at most. */
  function Work(env: Env, raw: Bytes, ph: Phase): nat {
    var r, a := |env.Parsed(raw).recipients|, |env.Parts(raw)|;
    match ph
    case Received => 5 + r + 2 * a
    case Unique => 4 + r + 2 * a
    case RawSaved => 3 + r + 2 * a
    case Open(tx) =>
      1 + (if tx.event then 0 else 1)
      + (if tx.recipients < r then r - tx.recipients else 0)
      + (if |tx.attachments| < a then 2 * (a - |tx.attachments|) - (if tx.blobSaved then 1 else 0) else 0)
    case Replied(_) => 0
    case Gone => 0
  }

  lemma StepWorks(env: Env, st: Store, raw: Bytes, ph: Phase, out: Outcome)
    requires !ph.Replied? && !ph.Gone?
    ensures Work(env, raw, Advance(env, st, raw, ph, out).1) < Work(env, raw, ph)
  {
  }
}
