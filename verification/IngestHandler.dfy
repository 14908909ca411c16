/** The handler as the program it is: internal/ingest/handler.go and
    internal/storage/storage.go over a store that every operation changes in
    place. Each run of ServeHttp is a run of the steps in Ingest. */
module IngestHandler {
  import opened Common
  import opened Mail
  import opened Ingest
  import opened IngestAlone

  /** The database and the data directory. `io(clock)` decides how the next
      operation ends. The rows of the open transaction are kept apart until
      they are committed. */
  class MailStore {
    const io: nat -> Outcome
    var clock: nat

    var messages: seq<MessageRow>
    var recipients: seq<RecipientRow>
    var attachments: seq<AttachmentRow>
    var events: seq<EventRow>
    var raw: map<Hash, Bytes>
    var blobs: map<(nat, Hash), Bytes>
    var nextMessage: nat
    var nextAttachment: nat

    var txMessages: seq<MessageRow>
    var txRecipients: seq<RecipientRow>
    var txAttachments: seq<AttachmentRow>
    var txEvents: seq<EventRow>

    constructor (io: nat -> Outcome)
      ensures Snapshot() == Store([], [], [], [], map[], map[], 1, 1)
    {
      this.io := io;
      clock := 0;
      messages, recipients, attachments, events := [], [], [], [];
      raw, blobs, nextMessage, nextAttachment := map[], map[], 1, 1;
      txMessages, txRecipients, txAttachments, txEvents := [], [], [], [];
    }

    function Snapshot(): Store
      reads this
    {
      Store(messages, recipients, attachments, events, raw, blobs, nextMessage, nextAttachment)
    }

    method Tick() returns (out: Outcome)
      modifies `clock
      ensures out == io(old(clock)) && clock == old(clock) + 1
    {
      out := io(clock);
      clock := clock + 1;
    }

    method FindEvent(h: Hash) returns (err: bool, found: bool)
      modifies `clock
      ensures clock == old(clock) + 1
      ensures err <==> io(old(clock)) != Ok
      ensures found <==> HasEvent(Snapshot(), h)
    {
      var out := Tick();
      err := out != Ok;
      found := exists i :: 0 <= i < |events| && events[i].contentHash == h;
    }

    method SaveRawMime(h: Hash, data: Bytes) returns (err: bool)
      modifies `clock, `raw
      ensures clock == old(clock) + 1
      ensures err <==> io(old(clock)) != Ok
      ensures Snapshot() == if io(old(clock)) == Fault then old(Snapshot()) else WithRaw(old(Snapshot()), h, data)
    {
      var out := Tick();
      err := out != Ok;
      if out != Fault {
        if h in raw {
          return;
        }
        raw := raw[h := data];
      }
    }

    method SaveAttachment(id: nat, key: Hash, data: Bytes) returns (err: bool)
      modifies `clock, `blobs
      ensures clock == old(clock) + 1
      ensures err <==> io(old(clock)) != Ok
      ensures blobs == if io(old(clock)) == Fault then old(blobs) else old(blobs)[(id, key) := data]
    {
      var out := Tick();
      err := out != Ok;
      if out != Fault {
        blobs := blobs[(id, key) := data];
      }
    }

    /** Begin, insert the message row and ask for its id. */
    method BeginWithMessage(row: MessageRow) returns (err: bool, id: nat)
      modifies `clock, `nextMessage, `txMessages, `txRecipients, `txAttachments, `txEvents
      ensures clock == old(clock) + 1
      ensures err <==> io(old(clock)) != Ok
      ensures nextMessage == if io(old(clock)) == Fault then old(nextMessage) else old(nextMessage) + 1
      ensures !err ==> id == old(nextMessage) && txMessages == [row.(id := id)]
                       && txRecipients == [] && txAttachments == [] && txEvents == []
    {
      var out := Tick();
      err, id := out != Ok, nextMessage;
      txMessages, txRecipients, txAttachments, txEvents := [], [], [], [];
      if out != Fault {
        nextMessage := nextMessage + 1;
        txMessages := [row.(id := id)];
      }
    }

    method InsertRecipient(row: RecipientRow) returns (err: bool)
      modifies `clock, `txRecipients
      ensures clock == old(clock) + 1
      ensures err <==> io(old(clock)) != Ok
      ensures !err ==> txRecipients == old(txRecipients) + [row]
    {
      var out := Tick();
      err := out != Ok;
      if !err {
        txRecipients := txRecipients + [row];
      }
    }

    /** Fails on a key that is committed or inserted earlier in this
        transaction. */
    method InsertAttachment(row: AttachmentRow) returns (err: bool)
      modifies `clock, `nextAttachment, `txAttachments
      ensures clock == old(clock) + 1
      ensures err <==> HasKey(attachments, row.storageKey) || HasKey(old(txAttachments), row.storageKey)
                       || io(old(clock)) != Ok
      ensures !err ==> nextAttachment == old(nextAttachment) + 1
                       && txAttachments == old(txAttachments) + [row.(id := old(nextAttachment))]
      ensures err ==> nextAttachment == old(nextAttachment)
    {
      var out := Tick();
      err := HasKey(attachments, row.storageKey) || HasKey(txAttachments, row.storageKey) || out != Ok;
      if !err {
        txAttachments := txAttachments + [row.(id := nextAttachment)];
        nextAttachment := nextAttachment + 1;
      }
    }

    method InsertEvent(row: EventRow) returns (err: bool)
      modifies `clock, `txEvents
      ensures clock == old(clock) + 1
      ensures err <==> HasPair(Snapshot(), row) || io(old(clock)) != Ok
      ensures !err ==> txEvents == old(txEvents) + [row]
    {
      var out := Tick();
      err := (exists i :: 0 <= i < |events| && events[i] == row) || out != Ok;
      if !err {
        txEvents := txEvents + [row];
      }
    }

    method Commit() returns (err: bool)
      modifies `clock, `messages, `recipients, `attachments, `events
      ensures clock == old(clock) + 1
      ensures err <==> io(old(clock)) != Ok
      ensures io(old(clock)) == Fault ==> Snapshot() == old(Snapshot())
      ensures io(old(clock)) != Fault ==>
        Snapshot() == old(Snapshot()).(messages := old(messages) + txMessages,
                                       recipients := old(recipients) + txRecipients,
                                       attachments := old(attachments) + txAttachments,
                                       events := old(events) + txEvents)
    {
      var out := Tick();
      err := out != Ok;
      if out != Fault {
        messages, recipients := messages + txMessages, recipients + txRecipients;
        attachments, events := attachments + txAttachments, events + txEvents;
      }
    }
  }

  datatype HttpRequest = HttpRequest(post: bool, psk: string, body: Bytes, readFails: bool)
  datatype Config = Config(psk: string, maxMessageBytes: int)
  datatype HttpReply = Refused(status: int) | Answered(reply: Reply)

  const DEFAULT_LIMIT: int := 26214400

  function Limit(cfg: Config): int {
    if cfg.maxMessageBytes <= 0 then DEFAULT_LIMIT else cfg.maxMessageBytes
  }

  /** What the checks before the store let through. */
  predicate Admitted(cfg: Config, r: HttpRequest) {
    r.post && cfg.psk != "" && r.psk == cfg.psk && !r.readFails && |r.body| <= Limit(cfg)
  }

  /** persist, with the phase of the steps it has gone through. `env` stands
      for the parser whose result `parsed` is. */
  ghost predicate Pending(db: MailStore, env: Env, raw: Bytes, tx: Tx)
    reads db
  {
    && db.txMessages == [MessageOf(env, raw, tx.id)]
    && tx.recipients <= |env.Parsed(raw).recipients|
    && db.txRecipients == RecipientRows(tx.id, env.Parsed(raw).recipients)[..tx.recipients]
    && db.txAttachments == tx.attachments
    && db.txEvents == if tx.event then [EventRow(HashBytes(raw), HashBytes(raw))] else []
  }

  method PersistRecipient(db: MailStore, ghost env: Env, raw: Bytes, id: nat, recipient: Recipient, ghost tx: Tx)
    returns (err: bool)
    requires Pending(db, env, raw, tx) && tx.id == id
    requires tx.recipients < |env.Parsed(raw).recipients| && recipient == env.Parsed(raw).recipients[tx.recipients]
    modifies db
    ensures db.clock == old(db.clock) + 1
    ensures Advance(env, old(db.Snapshot()), raw, Open(tx), db.io(old(db.clock)))
         == (db.Snapshot(), if err then FAILED else Open(tx.(recipients := tx.recipients + 1)))
    ensures !err ==> Pending(db, env, raw, tx.(recipients := tx.recipients + 1))
  {
    assert StageOf(env, raw, tx) == AddRecipient;
    err := db.InsertRecipient(RecipientRow(id, recipient));
    ghost var rows := RecipientRows(tx.id, env.Parsed(raw).recipients);
    assert rows[..tx.recipients + 1] == rows[..tx.recipients] + [rows[tx.recipients]];
  }

  method SaveBlob(db: MailStore, ghost env: Env, raw: Bytes, id: nat, attachment: ParsedAttachment, ghost tx: Tx)
    returns (err: bool)
    requires Pending(db, env, raw, tx) && tx.id == id && StageOf(env, raw, tx) == Stage.SaveBlob
    requires attachment == env.Parts(raw)[|tx.attachments|]
    modifies db
    ensures db.clock == old(db.clock) + 1
    ensures Advance(env, old(db.Snapshot()), raw, Open(tx), db.io(old(db.clock)))
         == (db.Snapshot(), if err then FAILED else Open(tx.(blobSaved := true)))
    ensures !err ==> Pending(db, env, raw, tx.(blobSaved := true))
  {
    var safeKey := attachment.contentHash;
    err := db.SaveAttachment(id, safeKey, attachment.content);
  }

  method InsertRow(db: MailStore, ghost env: Env, trimSpace: Bytes -> Bytes, raw: Bytes, id: nat,
                   attachment: ParsedAttachment, ghost tx: Tx)
    returns (err: bool, ghost tx': Tx)
    requires env.trimSpace == trimSpace
    requires Pending(db, env, raw, tx) && tx.id == id && StageOf(env, raw, tx) == AddAttachment
    requires attachment == env.Parts(raw)[|tx.attachments|]
    modifies db
    ensures db.clock == old(db.clock) + 1
    ensures Advance(env, old(db.Snapshot()), raw, Open(tx), db.io(old(db.clock)))
         == (db.Snapshot(), if err then FAILED else Open(tx'))
    ensures !err ==> tx' == tx.(attachments := db.txAttachments, blobSaved := false)
                     && |tx'.attachments| == |tx.attachments| + 1 && Pending(db, env, raw, tx')
  {
    var trimmed := trimSpace(attachment.filename);
    var filename := if trimmed == [] then None else Some(trimmed);
    err := db.InsertAttachment(AttachmentRow(0, id, attachment.contentHash, filename, attachment.mimeType,
                                             attachment.size, attachment.contentHash));
    tx' := tx.(attachments := db.txAttachments, blobSaved := false);
  }

  /** One pass of the attachment loop: the blob, then the row. */
  method PersistAttachment(db: MailStore, ghost env: Env, trimSpace: Bytes -> Bytes, raw: Bytes, id: nat,
                           attachment: ParsedAttachment, ghost tx: Tx, ghost all: (Store, Phase))
    returns (err: bool, ghost tx': Tx)
    requires env.trimSpace == trimSpace
    requires Pending(db, env, raw, tx) && tx.id == id && StageOf(env, raw, tx) == Stage.SaveBlob
    requires attachment == env.Parts(raw)[|tx.attachments|]
    requires Finish(env, db.Snapshot(), raw, Open(tx), db.io, db.clock) == all
    modifies db
    ensures err ==> all == (db.Snapshot(), FAILED)
    ensures !err ==> Finish(env, db.Snapshot(), raw, Open(tx'), db.io, db.clock) == all
                     && Pending(db, env, raw, tx') && |tx'.attachments| == |tx.attachments| + 1
                     && tx' == tx.(attachments := tx'.attachments)
  {
    tx' := tx;
    ghost var st, t := db.Snapshot(), db.clock;
    err := SaveBlob(db, env, raw, id, attachment, tx);
    ghost var tx1 := tx.(blobSaved := true);
    FinishStep(env, st, raw, Open(tx), db.io, t, db.Snapshot(), if err then FAILED else Open(tx1));
    if err {
      return;
    }
    st, t := db.Snapshot(), db.clock;
    err, tx' := InsertRow(db, env, trimSpace, raw, id, attachment, tx1);
    FinishStep(env, st, raw, Open(tx1), db.io, t, db.Snapshot(), if err then FAILED else Open(tx'));
  }

  method InsertEventRow(db: MailStore, ghost env: Env, raw: Bytes, ghost tx: Tx) returns (err: bool)
    requires Pending(db, env, raw, tx) && StageOf(env, raw, tx) == AddEvent
    modifies db
    ensures db.clock == old(db.clock) + 1
    ensures Advance(env, old(db.Snapshot()), raw, Open(tx), db.io(old(db.clock)))
         == (db.Snapshot(), if err then FAILED else Open(tx.(event := true)))
    ensures !err ==> Pending(db, env, raw, tx.(event := true))
  {
    var contentHash := HashBytes(raw);
    err := db.InsertEvent(EventRow(contentHash, contentHash));
  }

  method CommitTransaction(db: MailStore, ghost env: Env, raw: Bytes, id: nat, ghost tx: Tx) returns (err: bool)
    requires Pending(db, env, raw, tx) && tx.id == id && tx.recipients == |env.Parsed(raw).recipients|
    requires StageOf(env, raw, tx) == Stage.Commit
    modifies db
    ensures db.clock == old(db.clock) + 1
    ensures Advance(env, old(db.Snapshot()), raw, Open(tx), db.io(old(db.clock)))
         == (db.Snapshot(), if err then FAILED else Replied(Accepted(id)))
  {
    ghost var rows := RecipientRows(tx.id, env.Parsed(raw).recipients);
    assert rows[..tx.recipients] == rows;
    err := db.Commit();
  }

  method Persist(db: MailStore, ghost env: Env, trimSpace: Bytes -> Bytes, raw: Bytes,
                 parsed: ParsedMessage, failed: bool) returns (reply: Reply)
    requires env.parse(raw) == (parsed, failed) && env.trimSpace == trimSpace
    modifies db
    ensures Finish(env, old(db.Snapshot()), raw, RawSaved, db.io, old(db.clock)) == (db.Snapshot(), Replied(reply))
  {
    ghost var st, t := db.Snapshot(), db.clock;
    ghost var all := Finish(env, st, raw, RawSaved, db.io, t);
    var err, messageID := db.BeginWithMessage(
      MessageRow(0, HashBytes(raw), parsed.sender, parsed.subject, parsed.textBody, parsed.htmlBody, failed));
    ghost var tx := Tx(messageID, 0, [], false, false);
    FinishStep(env, st, raw, RawSaved, db.io, t, db.Snapshot(), if err then FAILED else Open(tx));
    if err {
      return ServerError;
    }
    for i := 0 to |parsed.recipients|
      invariant tx == Tx(messageID, i, [], false, false) && Pending(db, env, raw, tx)
      invariant Finish(env, db.Snapshot(), raw, Open(tx), db.io, db.clock) == all
    {
      st, t := db.Snapshot(), db.clock;
      err := PersistRecipient(db, env, raw, messageID, parsed.recipients[i], tx);
      ghost var tx1 := tx.(recipients := i + 1);
      FinishStep(env, st, raw, Open(tx), db.io, t, db.Snapshot(), if err then FAILED else Open(tx1));
      if err {
        return ServerError;
      }
      tx := tx1;
    }
    for i := 0 to |parsed.attachments|
      invariant tx.recipients == |parsed.recipients| && |tx.attachments| == i && !tx.blobSaved && !tx.event
      invariant tx.id == messageID && Pending(db, env, raw, tx)
      invariant Finish(env, db.Snapshot(), raw, Open(tx), db.io, db.clock) == all
    {
      err, tx := PersistAttachment(db, env, trimSpace, raw, messageID, parsed.attachments[i], tx, all);
      if err {
        return ServerError;
      }
    }
    reply := FinishTransaction(db, env, raw, messageID, tx, all);
  }

  method FinishTransaction(db: MailStore, ghost env: Env, raw: Bytes, id: nat, ghost tx: Tx, ghost all: (Store, Phase))
    returns (reply: Reply)
    requires Pending(db, env, raw, tx) && tx.id == id && tx.recipients == |env.Parsed(raw).recipients|
    requires StageOf(env, raw, tx) == AddEvent && |tx.attachments| >= |env.Parts(raw)|
    requires Finish(env, db.Snapshot(), raw, Open(tx), db.io, db.clock) == all
    modifies db
    ensures all == (db.Snapshot(), Replied(reply))
  {
    ghost var st, t := db.Snapshot(), db.clock;
    var err := InsertEventRow(db, env, raw, tx);
    ghost var tx1 := tx.(event := true);
    FinishStep(env, st, raw, Open(tx), db.io, t, db.Snapshot(), if err then FAILED else Open(tx1));
    if err {
      return ServerError;
    }
    st, t := db.Snapshot(), db.clock;
    err := CommitTransaction(db, env, raw, id, tx1);
    FinishStep(env, st, raw, Open(tx1), db.io, t, db.Snapshot(), if err then FAILED else Replied(Accepted(id)));
    reply := if err then ServerError else Accepted(id);
  }

  /** The part of ServeHTTP after the checks. */
  method IngestAdmitted(db: MailStore, lib: Library, ghost env: Env, trimSpace: Bytes -> Bytes, raw: Bytes)
    returns (reply: Reply)
    requires env.parse(raw) == ForStorage(lib, raw) && env.trimSpace == trimSpace
    modifies db
    ensures Finish(env, old(db.Snapshot()), raw, Received, db.io, old(db.clock)) == (db.Snapshot(), Replied(reply))
  {
    ghost var st, t := db.Snapshot(), db.clock;
    var contentHash := HashBytes(raw);
    var err, duplicate := db.FindEvent(contentHash);
    FinishStep(env, st, raw, Received, db.io, t, db.Snapshot(),
               if err then FAILED else if duplicate then Replied(Duplicate) else Unique);
    if err {
      return ServerError;
    }
    if duplicate {
      return Duplicate;
    }
    var parsed, failed := ParseForStorage(lib, raw);
    st, t := db.Snapshot(), db.clock;
    err := db.SaveRawMime(contentHash, raw);
    FinishStep(env, st, raw, Unique, db.io, t, db.Snapshot(), if err then FAILED else RawSaved);
    if err {
      return ServerError;
    }
    reply := Persist(db, env, trimSpace, raw, parsed, failed);
  }

  class Handler {
    const db: MailStore
    const lib: Library
    const trimSpace: Bytes -> Bytes
    const cfg: Config

    constructor (db: MailStore, lib: Library, trimSpace: Bytes -> Bytes, cfg: Config)
      ensures this.db == db && this.lib == lib && this.trimSpace == trimSpace && this.cfg == cfg
    {
      this.db, this.lib, this.trimSpace, this.cfg := db, lib, trimSpace, cfg;
    }

    /** The parser of this handler, as the steps of Ingest use it. */
    function TheEnv(): Env {
      Env(raw => ForStorage(lib, raw), trimSpace)
    }

    /** ServeHTTP: a refused request touches nothing; an admitted one runs
        through the steps of Ingest with its complete body. */
    method ServeHttp(r: HttpRequest) returns (reply: HttpReply)
      modifies db
      ensures reply.Refused? <==> !Admitted(cfg, r)
      ensures reply.Refused? ==> db.Snapshot() == old(db.Snapshot()) && db.clock == old(db.clock)
      ensures var authorised := cfg.psk != "" && r.psk == cfg.psk;
        var limit := if cfg.maxMessageBytes > 0 then cfg.maxMessageBytes else 26_214_400;
        && (reply == Refused(405) <==> !r.post)
        && (reply == Refused(401) <==> r.post && !authorised)
        && (reply == Refused(400) <==> r.post && authorised && r.readFails)
        && (reply == Refused(413) <==> r.post && authorised && !r.readFails && |r.body| > limit)
        && (reply.Refused? ==> reply.status in {405, 401, 400, 413})
      ensures reply.Answered? ==>
        Finish(TheEnv(), old(db.Snapshot()), r.body, Received, db.io, old(db.clock))
          == (db.Snapshot(), Replied(reply.reply))
    {
      if !r.post {
        return Refused(405);
      }
      if cfg.psk == "" || r.psk != cfg.psk {
        return Refused(401);
      }
      var limit := Limit(cfg);
      if r.readFails {
        return Refused(400);
      }
      var raw := if |r.body| > limit + 1 then r.body[..limit + 1] else r.body;
      if |raw| > limit {
        return Refused(413);
      }
      var answer := IngestAdmitted(db, lib, TheEnv(), trimSpace, raw);
      reply := Answered(answer);
    }
  }
}
