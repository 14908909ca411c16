/** The read side: internal/api/attachments.go and internal/api/messages.go over
    the tables and files that ingest leaves behind. */
module ReadApi {
  import opened Common
  import opened Mail
  import opened Ingest
  import opened IngestHandler
  import opened IngestSystem

  datatype Session = Session(email: Bytes, isAdmin: bool)

  datatype Reply<T> = NotFound | InternalError | Found(value: T)

  datatype Download = Download(filename: Bytes, mimeType: string, size: nat, data: Bytes)
  datatype Entry = Entry(id: nat, filename: Bytes, mimeType: string, size: nat)
  datatype Detail = Detail(row: MessageRow, recipients: seq<Recipient>, attachments: seq<Entry>)

  // ---------------------------------------------------------------------
  // The queries
  // ---------------------------------------------------------------------

  /** EXISTS (SELECT 1 FROM message_recipients ...). */
  predicate IsRecipient(st: Store, id: nat, email: Bytes) {
    exists i :: 0 <= i < |st.recipients|
      && st.recipients[i].messageId == id && st.recipients[i].recipient.email == email
  }

  predicate MayRead(st: Store, who: Session, id: nat) {
    who.isAdmin || IsRecipient(st, id, who.email)
  }

  function FindMessage(ms: seq<MessageRow>, id: nat): Option<MessageRow> {
    if ms == [] then None else if ms[0].id == id then Some(ms[0]) else FindMessage(ms[1..], id)
  }

  /** messageAuthQuery and rawMessageAuthQuery. */
  function MessageQuery(st: Store, who: Session, id: nat): Option<MessageRow> {
    if MayRead(st, who, id) then FindMessage(st.messages, id) else None
  }

  function InsertById(row: AttachmentRow, rows: seq<AttachmentRow>): seq<AttachmentRow> {
    if rows == [] || row.id <= rows[0].id then [row] + rows else [rows[0]] + InsertById(row, rows[1..])
  }

  /** ORDER BY id. */
  function OrderById(rows: seq<AttachmentRow>): seq<AttachmentRow> {
    if rows == [] then [] else InsertById(rows[0], OrderById(rows[1..]))
  }

  predicate ById(rows: seq<AttachmentRow>) {
    forall i, j :: 0 <= i < j < |rows| ==> rows[i].id <= rows[j].id
  }

  function AttachmentRows(st: Store, id: nat): seq<AttachmentRow> {
    OrderById(Ingest.AttachmentsOf(st.attachments, id))
  }

  /** attachmentAuthQuery: joined with the message, ordered, LIMIT 1 OFFSET idx. */
  function AttachmentQuery(st: Store, who: Session, id: nat, idx: nat): Option<AttachmentRow> {
    var rows := if MessageQuery(st, who, id).Some? then AttachmentRows(st, id) else [];
    if idx < |rows| then Some(rows[idx]) else None
  }

  /** COALESCE(original_filename, ''). */
  function Coalesce(name: Option<Bytes>): Bytes {
    if name.Some? then name.value else []
  }

  function EntryOf(row: AttachmentRow): Entry {
    Entry(row.id, Coalesce(row.filename), row.mimeType, row.size)
  }

  lemma {:induction false} InsertKeepsRows(row: AttachmentRow, rows: seq<AttachmentRow>)
    ensures multiset(InsertById(row, rows)) == multiset(rows) + multiset{row}
  {
    if rows != [] && row.id > rows[0].id {
      InsertKeepsRows(row, rows[1..]);
      assert rows == [rows[0]] + rows[1..];
    }
  }

  lemma {:induction false} InsertKeepsOrder(row: AttachmentRow, rows: seq<AttachmentRow>)
    requires ById(rows)
    ensures ById(InsertById(row, rows))
    ensures forall j :: 0 <= j < |InsertById(row, rows)| ==>
              InsertById(row, rows)[j] == row || InsertById(row, rows)[j] in rows
  {
    if rows != [] && row.id > rows[0].id {
      InsertKeepsOrder(row, rows[1..]);
      var rest := InsertById(row, rows[1..]);
      forall j | 0 <= j < |rest| ensures rows[0].id <= rest[j].id && (rest[j] == row || rest[j] in rows) {
        if rest[j] != row {
          var k :| 0 <= k < |rows[1..]| && rows[1..][k] == rest[j];
          assert rows[k + 1] == rest[j];
        }
      }
    }
  }

  /** The rows a query returns are those selected, in ascending id order. */
  lemma {:induction false} OrderIsOrdered(rows: seq<AttachmentRow>)
    ensures ById(OrderById(rows)) && multiset(OrderById(rows)) == multiset(rows)
  {
    if rows != [] {
      OrderIsOrdered(rows[1..]);
      InsertKeepsOrder(rows[0], OrderById(rows[1..]));
      InsertKeepsRows(rows[0], OrderById(rows[1..]));
      assert rows == [rows[0]] + rows[1..];
    }
  }

  lemma {:induction false} OrderedStays(rows: seq<AttachmentRow>)
    requires ById(rows)
    ensures OrderById(rows) == rows
  {
    if rows != [] {
      OrderedStays(rows[1..]);
      assert rows == [rows[0]] + rows[1..];
    }
  }

  // ---------------------------------------------------------------------
  // The replies when nothing fails
  // ---------------------------------------------------------------------

  function RawReply(st: Store, session: Option<Session>, id: nat): Reply<Bytes> {
    if session.None? then NotFound
    else
      var row := MessageQuery(st, session.value, id);
      if row.None? || row.value.contentHash !in st.raw then NotFound
      else Found(st.raw[row.value.contentHash])
  }

  function AttachmentReply(st: Store, session: Option<Session>, id: nat, idx: nat): Reply<Download> {
    if session.None? then NotFound
    else
      var row := AttachmentQuery(st, session.value, id, idx);
      if row.None? || (id, row.value.storageKey) !in st.blobs then NotFound
      else Found(Download(Coalesce(row.value.filename), row.value.mimeType, row.value.size,
                         st.blobs[(id, row.value.storageKey)]))
  }

  function Entries(rows: seq<AttachmentRow>): (es: seq<Entry>)
    ensures |es| == |rows|
  {
    seq(|rows|, i requires 0 <= i < |rows| => EntryOf(rows[i]))
  }

  function Addressees(rows: seq<RecipientRow>): (rs: seq<Recipient>)
    ensures |rs| == |rows|
  {
    seq(|rows|, i requires 0 <= i < |rows| => rows[i].recipient)
  }

  function DetailReply(st: Store, session: Option<Session>, id: nat): Reply<Detail> {
    if session.None? then NotFound
    else
      var row := MessageQuery(st, session.value, id);
      if row.None? then NotFound
      else Found(Detail(row.value, Addressees(RecipientsOf(st.recipients, id)), Entries(AttachmentRows(st, id))))
  }

  // ---------------------------------------------------------------------
  // The handlers
  // ---------------------------------------------------------------------

  method Query<T>(store: MailStore, rows: T) returns (err: bool, result: T)
    modifies store`clock
    ensures err <==> store.io(old(store.clock)) != Ok
    ensures store.clock == old(store.clock) + 1 && result == rows
  {
    var out := store.Tick();
    err, result := out != Ok, rows;
  }

  method ReadRawMime(store: MailStore, contentHash: Hash) returns (data: Option<Bytes>)
    modifies store`clock
    ensures store.clock == old(store.clock) + 1
    ensures data == if store.io(old(store.clock)) == Ok && contentHash in store.raw
                    then Some(store.raw[contentHash]) else None
  {
    var out := store.Tick();
    data := if out == Ok && contentHash in store.raw then Some(store.raw[contentHash]) else None;
  }

  method ReadAttachment(store: MailStore, id: nat, key: Hash) returns (data: Option<Bytes>)
    modifies store`clock
    ensures store.clock == old(store.clock) + 1
    ensures data == if store.io(old(store.clock)) == Ok && (id, key) in store.blobs
                    then Some(store.blobs[(id, key)]) else None
  {
    var out := store.Tick();
    data := if out == Ok && (id, key) in store.blobs then Some(store.blobs[(id, key)]) else None;
  }

  /** The download is served as stored or not at all, whatever fails. */
  method GetRawMime(store: MailStore, session: Option<Session>, id: nat) returns (r: Reply<Bytes>)
    modifies store`clock
    ensures store.Snapshot() == old(store.Snapshot())
    ensures r.Found? ==> r == RawReply(store.Snapshot(), session, id)
    ensures store.io(old(store.clock)) == Ok && store.io(old(store.clock) + 1) == Ok ==>
              r == RawReply(store.Snapshot(), session, id)
    ensures r.InternalError? <==> session.Some? && store.io(old(store.clock)) != Ok
    ensures store.io(old(store.clock)) == Ok && store.io(old(store.clock) + 1) != Ok ==> r == NotFound
  {
    if session.None? {
      return NotFound;
    }
    var err, row := Query(store, MessageQuery(store.Snapshot(), session.value, id));
    if err {
      return InternalError;
    }
    if row.None? {
      return NotFound;
    }
    var data := ReadRawMime(store, row.value.contentHash);
    r := if data.None? then NotFound else Found(data.value);
  }

  method GetAttachment(store: MailStore, session: Option<Session>, id: nat, idx: nat) returns (r: Reply<Download>)
    modifies store`clock
    ensures store.Snapshot() == old(store.Snapshot())
    ensures r.Found? ==> r == AttachmentReply(store.Snapshot(), session, id, idx)
    ensures store.io(old(store.clock)) == Ok && store.io(old(store.clock) + 1) == Ok ==>
              r == AttachmentReply(store.Snapshot(), session, id, idx)
    ensures r.InternalError? <==> session.Some? && store.io(old(store.clock)) != Ok
    ensures store.io(old(store.clock)) == Ok && store.io(old(store.clock) + 1) != Ok ==> r == NotFound
  {
    if session.None? {
      return NotFound;
    }
    var err, found := Query(store, AttachmentQuery(store.Snapshot(), session.value, id, idx));
    if err {
      return InternalError;
    }
    if found.None? {
      return NotFound;
    }
    var row := found.value;
    var data := ReadAttachment(store, id, row.storageKey);
    if data.None? {
      return NotFound;
    }
    r := Found(Download(Coalesce(row.filename), row.mimeType, row.size, data.value));
  }

  method ListAttachments(store: MailStore, id: nat) returns (err: bool, attachments: seq<Entry>)
    modifies store`clock
    ensures store.Snapshot() == old(store.Snapshot()) && store.clock == old(store.clock) + 1
    ensures err <==> store.io(old(store.clock)) != Ok
    ensures !err ==> attachments == Entries(AttachmentRows(store.Snapshot(), id))
  {
    attachments := [];
    var rows;
    err, rows := Query(store, AttachmentRows(store.Snapshot(), id));
    if err {
      return;
    }
    for i := 0 to |rows|
      invariant attachments == Entries(rows)[..i]
    {
      attachments := attachments + [EntryOf(rows[i])];
    }
  }

  method ListRecipients(store: MailStore, id: nat) returns (err: bool, recipients: seq<Recipient>)
    modifies store`clock
    ensures store.Snapshot() == old(store.Snapshot()) && store.clock == old(store.clock) + 1
    ensures err <==> store.io(old(store.clock)) != Ok
    ensures !err ==> recipients == Addressees(RecipientsOf(store.Snapshot().recipients, id))
  {
    recipients := [];
    var rows;
    err, rows := Query(store, RecipientsOf(store.recipients, id));
    if err {
      return;
    }
    for i := 0 to |rows|
      invariant recipients == Addressees(rows)[..i]
    {
      recipients := recipients + [rows[i].recipient];
    }
  }

  method GetMessage(store: MailStore, session: Option<Session>, id: nat) returns (r: Reply<Detail>)
    modifies store`clock
    ensures store.Snapshot() == old(store.Snapshot())
    ensures !r.InternalError? ==> r == DetailReply(store.Snapshot(), session, id)
    ensures var t := old(store.clock);
      r.InternalError? <==>
        && session.Some?
        && (store.io(t) != Ok
            || (MessageQuery(store.Snapshot(), session.value, id).Some?
                && (store.io(t + 1) != Ok || store.io(t + 2) != Ok)))
  {
    if session.None? {
      return NotFound;
    }
    var err, row := Query(store, MessageQuery(store.Snapshot(), session.value, id));
    if err {
      return InternalError;
    }
    if row.None? {
      return NotFound;
    }
    var recipients, attachments;
    err, recipients := ListRecipients(store, id);
    if err {
      return InternalError;
    }
    err, attachments := ListAttachments(store, id);
    if err {
      return InternalError;
    }
    r := Found(Detail(row.value, recipients, attachments));
  }

  // ---------------------------------------------------------------------
  // Round trips
  // ---------------------------------------------------------------------

  lemma {:induction false} FindsMessage(ms: seq<MessageRow>, i: nat)
    requires i < |ms| && forall j, k :: 0 <= j < k < |ms| ==> ms[j].id != ms[k].id
    ensures FindMessage(ms, ms[i].id) == Some(ms[i])
  {
    if i > 0 {
      FindsMessage(ms[1..], i - 1);
    }
  }

  lemma {:induction false} RecipientAmong(rows: seq<RecipientRow>, id: nat, email: Bytes)
    ensures (exists i :: 0 <= i < |rows| && rows[i].messageId == id && rows[i].recipient.email == email)
       <==> (exists i :: 0 <= i < |RecipientsOf(rows, id)| && RecipientsOf(rows, id)[i].recipient.email == email)
  {
    if rows != [] {
      var n := |rows| - 1;
      var init, some := rows[..n], RecipientsOf(rows[..n], id);
      RecipientAmong(init, id, email);
      if i :| 0 <= i < |some| && some[i].recipient.email == email {
        assert RecipientsOf(rows, id)[i] == some[i];
        var k :| 0 <= k < |init| && init[k].messageId == id && init[k].recipient.email == email;
        assert rows[k] == init[k];
      } else {
        assert forall k :: 0 <= k < n ==> rows[k] == init[k];
        if rows[n].messageId == id {
          assert RecipientsOf(rows, id)[|some|] == rows[n];
        }
      }
    }
  }

  /** May the holder of this session read the mail `raw` at all? */
  ghost predicate Entitled(env: Env, raw: Bytes, who: Session) {
    || who.isAdmin
    || exists k :: 0 <= k < |env.Parsed(raw).recipients| && env.Parsed(raw).recipients[k].email == who.email
  }

  /** A committed message can be read by administrators and by exactly those
      who are among the parsed recipients of its bytes. */
  lemma ReadersAreRecipients(env: Env, st: Store, i: nat, who: Session)
    requires StoreInv(env, st) && i < |st.messages|
    ensures MayRead(st, who, st.messages[i].id) <==> Entitled(env, st.messages[i].contentHash.preimage, who)
  {
    var m := st.messages[i];
    assert Stored(env, st, m);
    RecipientAmong(st.recipients, m.id, who.email);
    var rows, rs := RecipientsOf(st.recipients, m.id), env.Parsed(m.contentHash.preimage).recipients;
    assert forall k :: 0 <= k < |rs| ==> rows[k].recipient == rs[k];
  }

  lemma RowsInOrder(env: Env, st: Store, i: nat)
    requires StoreInv(env, st) && i < |st.messages|
    ensures AttachmentRows(st, st.messages[i].id) == Ingest.AttachmentsOf(st.attachments, st.messages[i].id)
    ensures FindMessage(st.messages, st.messages[i].id) == Some(st.messages[i])
  {
    assert Stored(env, st, st.messages[i]);
    OrderedStays(Ingest.AttachmentsOf(st.attachments, st.messages[i].id));
    FindsMessage(st.messages, i);
  }

  /** What attachment `a` of a mail looks like to a reader. */
  function Served(env: Env, a: ParsedAttachment): Download {
    Download(env.trimSpace(a.filename), a.mimeType, |a.content|, a.content)
  }

  /** A message row that holds, column by column, what its bytes parse to. */
  ghost predicate HoldsParsed(env: Env, m: MessageRow) {
    var (p, failed) := env.parse(m.contentHash.preimage);
    && m.sender == p.sender && m.subject == p.subject
    && m.textBody == p.textBody && m.htmlBody == p.htmlBody
    && m.parserFailed == failed
  }

  /** The attachment row of the idx-th attachment. */
  ghost predicate HoldsAttachment(env: Env, row: AttachmentRow, a: ParsedAttachment) {
    && row.storageKey == HashBytes(a.content) && row.contentHash == HashBytes(a.content)
    && row.size == |a.content| && row.mimeType == a.mimeType
    && row.filename == if env.trimSpace(a.filename) == [] then None else Some(env.trimSpace(a.filename))
  }

  /** In every reachable state each message row holds the parsed sender, subject,
      text and HTML of exactly its bytes in these columns, and whether parsing
      failed; its recipient rows hold the parsed recipients in order, and its
      attachment rows the parsed attachments. */
  lemma ColumnsAreParsed(env: Env, acts: seq<Action>, s: System, i: nat)
    requires Execution(env, INITIAL, acts, s) && i < |s.store.messages|
    ensures var m := s.store.messages[i];
      var p := env.Parsed(m.contentHash.preimage);
      && HoldsParsed(env, m)
      && (var rows := RecipientsOf(s.store.recipients, m.id);
          |rows| == |p.recipients|
          && forall k :: 0 <= k < |rows| ==> rows[k].messageId == m.id && rows[k].recipient == p.recipients[k])
      && (var rows := Ingest.AttachmentsOf(s.store.attachments, m.id);
          |rows| == |p.attachments|
          && forall k :: 0 <= k < |rows| ==>
               rows[k].messageId == m.id && HoldsAttachment(env, rows[k], p.attachments[k]))
  {
    InitialInv(env);
    ExecutionKeeps(env, INITIAL, acts, s);
    var m := s.store.messages[i];
    assert Stored(env, s.store, m);
    var rows, parts := Ingest.AttachmentsOf(s.store.attachments, m.id), env.Parts(m.contentHash.preimage);
    assert forall k :: 0 <= k < |rows| ==> rows[k] == RowOf(env, rows[k].id, m.id, parts[k]);
  }

  /** Raw download gives the posted bytes, to those entitled to them only. */
  lemma RawRoundTrip(env: Env, st: Store, i: nat, who: Session)
    requires StoreInv(env, st) && i < |st.messages|
    ensures var raw := st.messages[i].contentHash.preimage;
      RawReply(st, Some(who), st.messages[i].id) == if Entitled(env, raw, who) then Found(raw) else NotFound
  {
    assert Stored(env, st, st.messages[i]);
    ReadersAreRecipients(env, st, i, who);
    FindsMessage(st.messages, i);
  }

  /** Attachment download `idx` gives the idx-th attachment of the posted bytes,
      and nothing past the last one. */
  lemma AttachmentRoundTrip(env: Env, st: Store, i: nat, who: Session, idx: nat)
    requires StoreInv(env, st) && i < |st.messages|
    ensures var raw := st.messages[i].contentHash.preimage;
      AttachmentReply(st, Some(who), st.messages[i].id, idx)
      == if Entitled(env, raw, who) && idx < |env.Parts(raw)| then Found(Served(env, env.Parts(raw)[idx])) else NotFound
  {
    var m := st.messages[i];
    assert Stored(env, st, m);
    ReadersAreRecipients(env, st, i, who);
    RowsInOrder(env, st, i);
    var rows, parts := Ingest.AttachmentsOf(st.attachments, m.id), env.Parts(m.contentHash.preimage);
    if idx < |rows| {
      assert rows[idx] == RowOf(env, rows[idx].id, m.id, parts[idx]);
      assert st.blobs[(m.id, rows[idx].storageKey)] == parts[idx].content;
    }
  }

  /** The detail view `d` of message `id` shows what the bytes `raw` parse to. */
  ghost predicate Describes(env: Env, raw: Bytes, id: nat, d: Detail) {
    var p := env.Parsed(raw);
    && d.row.id == id && d.row.contentHash == HashBytes(raw) && HoldsParsed(env, d.row)
    && d.recipients == p.recipients && |d.attachments| == |p.attachments|
    && forall k :: 0 <= k < |d.attachments| ==>
         var e, a := d.attachments[k], p.attachments[k];
         e.filename == env.trimSpace(a.filename) && e.mimeType == a.mimeType && e.size == |a.content|
  }

  /** The detail view shows the parsed mail to those entitled to it and nothing to
      anyone else, and entry `idx` of its attachment list describes what download
      `idx` serves. */
  lemma DetailAgrees(env: Env, st: Store, i: nat, who: Session)
    requires StoreInv(env, st) && i < |st.messages|
    ensures var raw, id := st.messages[i].contentHash.preimage, st.messages[i].id;
      var r := DetailReply(st, Some(who), id);
      && (!Entitled(env, raw, who) ==> r == NotFound)
      && (Entitled(env, raw, who) ==>
            && r.Found? && Describes(env, raw, id, r.value)
            && forall idx :: 0 <= idx < |r.value.attachments| ==>
                 var e, d := r.value.attachments[idx], AttachmentReply(st, Some(who), id, idx);
                 d.Found? && (e.filename, e.mimeType, e.size) == (d.value.filename, d.value.mimeType, d.value.size))
  {
    var m := st.messages[i];
    assert Stored(env, st, m);
    ReadersAreRecipients(env, st, i, who);
    if Entitled(env, m.contentHash.preimage, who) {
      RowsInOrder(env, st, i);
      var rows, parts := Ingest.AttachmentsOf(st.attachments, m.id), env.Parts(m.contentHash.preimage);
      forall idx | 0 <= idx < |rows|
        ensures AttachmentReply(st, Some(who), m.id, idx) == Found(Served(env, parts[idx]))
        ensures rows[idx] == RowOf(env, rows[idx].id, m.id, parts[idx])
      {
        AttachmentRoundTrip(env, st, i, who, idx);
      }
      var rs := env.Parsed(m.contentHash.preimage).recipients;
      assert Addressees(RecipientRows(m.id, rs)) == rs;
    }
  }

  lemma {:induction false} FindsNothing(ms: seq<MessageRow>, id: nat)
    requires forall i :: 0 <= i < |ms| ==> ms[i].id != id
    ensures FindMessage(ms, id) == None
  {
    if ms != [] {
      FindsNothing(ms[1..], id);
    }
  }

  /** Without a session, or for an id of no message, nobody gets anything, whatever
      rows and files there are: administrators neither. */
  lemma NothingThere(st: Store, session: Option<Session>, id: nat, idx: nat)
    requires session.None? || forall i :: 0 <= i < |st.messages| ==> st.messages[i].id != id
    ensures RawReply(st, session, id) == NotFound
    ensures AttachmentReply(st, session, id, idx) == NotFound
    ensures DetailReply(st, session, id) == NotFound
  {
    if session.Some? {
      FindsNothing(st.messages, id);
    }
  }

  /** In every reachable state of any number of interleaved deliveries, the
      replies for a committed message are a function of its bytes and the
      session alone, and of no use to anyone not entitled: files and rows of other
      requests, finished, rolled back or still open, do not matter. */
  lemma DownloadsAreFaithful(env: Env, acts: seq<Action>, s: System, i: nat, who: Session, idx: nat)
    requires Execution(env, INITIAL, acts, s) && i < |s.store.messages|
    ensures var raw, id := s.store.messages[i].contentHash.preimage, s.store.messages[i].id;
      var detail := DetailReply(s.store, Some(who), id);
      && RawReply(s.store, Some(who), id) == (if Entitled(env, raw, who) then Found(raw) else NotFound)
      && AttachmentReply(s.store, Some(who), id, idx)
         == (if Entitled(env, raw, who) && idx < |env.Parts(raw)|
             then Found(Served(env, env.Parts(raw)[idx])) else NotFound)
      && (if Entitled(env, raw, who) then detail.Found? && Describes(env, raw, id, detail.value)
          else detail == NotFound)
  {
    InitialInv(env);
    ExecutionKeeps(env, INITIAL, acts, s);
    RawRoundTrip(env, s.store, i, who);
    AttachmentRoundTrip(env, s.store, i, who, idx);
    DetailAgrees(env, s.store, i, who);
  }

  lemma {:induction false} MessagesStay(env: Env, s: System, acts: seq<Action>, s': System)
    requires SystemInv(env, s) && Execution(env, s, acts, s')
    ensures SystemInv(env, s') && s.store.messages <= s'.store.messages && s.store.attachments <= s'.store.attachments
    decreases |acts|
  {
    if acts != [] {
      ActionKeeps(env, s, acts[0]);
      if acts[0].Run? {
        var p := s.posts[acts[0].p];
        StepKeepsMessages(env, s.store, p.raw, p.phase, acts[0].out);
      }
      MessagesStay(env, Next(env, s, acts[0]), acts[1..], s');
    }
  }

  /** The rows of a committed message stay as they are. */
  lemma RowsStay(env: Env, st: Store, st': Store, i: nat)
    requires StoreInv(env, st) && StoreInv(env, st') && i < |st.messages|
    requires st.messages <= st'.messages && st.attachments <= st'.attachments
    ensures var id := st.messages[i].id;
      && Ingest.AttachmentsOf(st'.attachments, id) == Ingest.AttachmentsOf(st.attachments, id)
      && RecipientsOf(st'.recipients, id) == RecipientsOf(st.recipients, id)
  {
    var m := st.messages[i];
    assert st'.messages[i] == m;
    assert Stored(env, st, m) && Stored(env, st', m);
    var more := st'.attachments[|st.attachments|..];
    assert st'.attachments == st.attachments + more;
    AttachmentsConcat(st.attachments, more, m.id);
    assert |Ingest.AttachmentsOf(st'.attachments, m.id)| == |Ingest.AttachmentsOf(st.attachments, m.id)|;
  }

  /** Whatever is ingested later, what a message id answers never changes. */
  lemma RepliesNeverChange(env: Env, s: System, acts: seq<Action>, s': System, i: nat, who: Session, idx: nat)
    requires SystemInv(env, s) && Execution(env, s, acts, s') && i < |s.store.messages|
    ensures var id := s.store.messages[i].id;
      && RawReply(s'.store, Some(who), id) == RawReply(s.store, Some(who), id)
      && AttachmentReply(s'.store, Some(who), id, idx) == AttachmentReply(s.store, Some(who), id, idx)
      && DetailReply(s'.store, Some(who), id) == DetailReply(s.store, Some(who), id)
  {
    MessagesStay(env, s, acts, s');
    assert s'.store.messages[i] == s.store.messages[i];
    RawRoundTrip(env, s.store, i, who);
    RawRoundTrip(env, s'.store, i, who);
    AttachmentRoundTrip(env, s.store, i, who, idx);
    AttachmentRoundTrip(env, s'.store, i, who, idx);
    SameDetail(env, s.store, s'.store, i, who);
  }

  lemma SameDetail(env: Env, st: Store, st': Store, i: nat, who: Session)
    requires StoreInv(env, st) && StoreInv(env, st') && i < |st.messages|
    requires st.messages <= st'.messages && st.attachments <= st'.attachments
    ensures DetailReply(st', Some(who), st.messages[i].id) == DetailReply(st, Some(who), st.messages[i].id)
  {
    assert st'.messages[i] == st.messages[i];
    RowsStay(env, st, st', i);
    ReadersAreRecipients(env, st, i, who);
    ReadersAreRecipients(env, st', i, who);
    FindsMessage(st.messages, i);
    FindsMessage(st'.messages, i);
  }

  /** A mail that could not be parsed is stored without recipients: only
      administrators can read it. */
  lemma UnparsedIsForAdmins(lib: Library, env: Env, st: Store, i: nat, who: Session)
    requires StoreInv(env, st) && i < |st.messages|
    requires (forall raw :: env.parse(raw) == ForStorage(lib, raw)) && st.messages[i].parserFailed
    ensures MayRead(st, who, st.messages[i].id) <==> who.isAdmin
  {
    assert Stored(env, st, st.messages[i]);
    FailedHasNoAttachments(lib, st.messages[i].contentHash.preimage);
    ReadersAreRecipients(env, st, i, who);
  }
}
