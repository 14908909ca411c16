/** The Telegram path of the Worker and its `tg-sent:` marker:
    telegramSentKey of worker/src/index.ts, and sendTelegramForCache as the
    steps of one delivery. */
module WorkerTelegram {
  import opened Common
  import opened Strings
  import opened WorkerParse

  // ---------------------------------------------------------------------
  // The marker's key
  // ---------------------------------------------------------------------

  const PREFIX := "tg-sent:"
  const UNKNOWN := "unknown"

  /** The Message-ID is of no use as a key. */
  predicate NeedsDigest(cache: EmailCache) {
    var id := Trim(JsSpace, cache.messageId);
    |id| == 0 || id == cache.id || id == UNKNOWN
  }

  /** telegramSentKey; `sha256Hex` is a parameter. */
  function TelegramSentKey(sha256Hex: Bytes -> string, cache: EmailCache, raw: Bytes): string {
    if NeedsDigest(cache) then HashKey(sha256Hex, raw) else PREFIX + Trim(JsSpace, cache.messageId)
  }

  function HashKey(sha256Hex: Bytes -> string, raw: Bytes): string {
    PREFIX + "sha256:" + sha256Hex(raw)
  }

  /** The messageId field that email() sets when parseEmail itself throws. */
  function UnparsedMessageId(header: Option<string>): string {
    if header.Some? then Trim(JsSpace, header.value) else UNKNOWN
  }

  /** crypto.randomUUID(). */
  predicate IsUuid(s: string) {
    |s| == 36 && forall i :: 0 <= i < |s| ==> s[i] == '-' || '0' <= s[i] <= '9' || 'a' <= s[i] <= 'f'
  }

  /** The reference: the key as a function of the Message-ID and the bytes. */
  function StableKey(sha256Hex: Bytes -> string, header: Option<string>, raw: Bytes): string {
    if header.Some? && Trim(JsSpace, header.value) !in {"", UNKNOWN}
    then PREFIX + Trim(JsSpace, header.value)
    else HashKey(sha256Hex, raw)
  }

  lemma TrimUuid(s: string)
    requires IsUuid(s)
    ensures Trim(JsSpace, s) == s && s != UNKNOWN
  {
    TrimKeeps(JsSpace, s);
  }

  lemma UuidIsNoHash(sha256Hex: Bytes -> string, id: string, raw: Bytes)
    requires IsUuid(id)
    ensures PREFIX + id != HashKey(sha256Hex, raw)
  {
    assert (PREFIX + id)[|PREFIX|] == id[0] && HashKey(sha256Hex, raw)[|PREFIX|] == 's';
  }

  /** Trimming twice is trimming once, and the placeholder is trimmed. */
  lemma TrimTwice(s: string)
    ensures Trim(JsSpace, Trim(JsSpace, s)) == Trim(JsSpace, s) && Trim(JsSpace, UNKNOWN) == UNKNOWN
  {
    TrimKeeps(JsSpace, s);
    TrimKeeps(JsSpace, Trim(JsSpace, s));
    TrimKeeps(JsSpace, UNKNOWN);
  }

  /** The random cache id never shows in the key, parsed or not, except when the
      sender put that very id into the Message-ID header. */
  lemma KeyIsStableIff(sha256Hex: Bytes -> string, cache: EmailCache, header: Option<string>, raw: Bytes)
    requires IsUuid(cache.id)
    requires cache.messageId == MessageId(header, cache.id) || cache.messageId == UnparsedMessageId(header)
    ensures TelegramSentKey(sha256Hex, cache, raw) == StableKey(sha256Hex, header, raw)
       <==> !(header.Some? && Trim(JsSpace, header.value) == cache.id)
  {
    TrimUuid(cache.id);
    UuidIsNoHash(sha256Hex, cache.id, raw);
    TrimTwice(header.UnwrapOr(""));
  }

  /** The Message-ID can serve as a key. */
  predicate Usable(header: Option<string>) {
    header.Some? && Trim(JsSpace, header.value) != "" && Trim(JsSpace, header.value) != "unknown"
  }

  /** Which messages share a key: those with the same Message-ID, or the same
      bytes if neither has a usable one. A Message-ID can stand for the bytes of
      another message only by spelling out their digest. */
  lemma SameKeyIff(sha256Hex: Bytes -> string, header: Option<string>, raw: Bytes, header': Option<string>, raw': Bytes)
    requires forall a, b :: sha256Hex(a) == sha256Hex(b) ==> a == b
    ensures var same := StableKey(sha256Hex, header, raw) == StableKey(sha256Hex, header', raw');
      && (Usable(header) && Usable(header') ==> (same <==> Trim(JsSpace, header.value) == Trim(JsSpace, header'.value)))
      && (!Usable(header) && !Usable(header') ==> (same <==> raw == raw'))
      && (Usable(header) && !Usable(header') ==>
            (same <==> Trim(JsSpace, header.value) == "sha256:" + sha256Hex(raw')))
  {
    if Usable(header) {
      var id := Trim(JsSpace, header.value);
      SamePrefix(PREFIX, id, "sha256:" + sha256Hex(raw'));
      if Usable(header') {
        SamePrefix(PREFIX, id, Trim(JsSpace, header'.value));
      }
    } else {
      SamePrefix(PREFIX + "sha256:", sha256Hex(raw), sha256Hex(raw'));
    }
    assert PREFIX + ("sha256:" + sha256Hex(raw')) == PREFIX + "sha256:" + sha256Hex(raw');
  }

  lemma SamePrefix(prefix: string, a: string, b: string)
    ensures prefix + a == prefix + b <==> a == b
  {
    assert (prefix + a)[|prefix|..] == a && (prefix + b)[|prefix|..] == b;
  }

  /** The chats of TELEGRAM_ID: its comma-separated, trimmed, non-blank items. */
  function Chats(items: seq<string>): seq<string> {
    if items == [] then []
    else
      var chat := Trim(JsSpace, items[|items| - 1]);
      Chats(items[..|items| - 1]) + if chat == "" then [] else [chat]
  }

  lemma {:induction false} ChatsConcat(a: seq<string>, b: seq<string>)
    ensures Chats(a + b) == Chats(a) + Chats(b)
    decreases |b|
  {
    if b == [] {
      assert a + b == a;
    } else {
      ChatsConcat(a, b[..|b| - 1]);
      assert (a + b)[..|a + b| - 1] == a + b[..|b| - 1];
    }
  }

  lemma OneItem(item: string)
    ensures Trim(JsSpace, item) == "" ==> Chats([item]) == []
    ensures Trim(JsSpace, item) != "" ==> Chats([item]) == [Trim(JsSpace, item)]
  {
    assert [item][..0] == [];
  }

  /** What each item of TELEGRAM_ID adds to the chats, wherever it stands: its
      trimmed text, or nothing if it is blank. */
  lemma ChatsOfItems(before: seq<string>, item: string, after: seq<string>)
    ensures Chats(before + [item] + after) == Chats(before) + Chats([item]) + Chats(after)
    ensures Trim(JsSpace, item) == "" ==> Chats([item]) == []
    ensures Trim(JsSpace, item) != "" ==> Chats([item]) == [Trim(JsSpace, item)]
  {
    OneItem(item);
    ChatsConcat(before, [item]);
    ChatsConcat(before + [item], after);
  }

  lemma {:induction false} TrimmedChats(ids: seq<string>)
    requires forall i :: 0 <= i < |ids| ==> ids[i] != "" && Trimmed(JsSpace, ids[i])
    ensures Chats(ids) == ids
  {
    if ids != [] {
      TrimmedChats(ids[..|ids| - 1]);
      TrimKeeps(JsSpace, ids[|ids| - 1]);
    }
  }

  /** A list of chat ids written with commas comes back in its order. */
  lemma ChatsRoundTrip(ids: seq<string>)
    requires ids != []
    requires forall i :: 0 <= i < |ids| ==> ids[i] != "" && Trimmed(JsSpace, ids[i]) && ',' !in ids[i]
    ensures Chats(Split(Join(ids, ","), ',')) == ids
  {
    SplitJoin(ids, ',');
    TrimmedChats(ids);
  }

  // ---------------------------------------------------------------------
  // One delivery
  // ---------------------------------------------------------------------

  /** What one call of sendTelegramForCache works with. `digested` says that the
      key has to be computed by hashing. */
  datatype Job = Job(key: string, digested: bool, chats: seq<string>, cacheId: string)

  function JobOf(sha256Hex: Bytes -> string, ids: string, cache: EmailCache, raw: Bytes): Job {
    Job(TelegramSentKey(sha256Hex, cache, raw), NeedsDigest(cache), Chats(Split(ids, ',')), cache.id)
  }

  datatype Entry = Entry(value: string, expires: int)
  type Kv = map<string, Entry>

  /** env.DB.get: expired entries are not seen, and an empty value is falsy. */
  predicate Hit(kv: Kv, key: string, now: int) {
    key in kv && now < kv[key].expires && kv[key].value != ""
  }

  /** Where a delivery is. It has thrown when hashing or rendering failed, and is
      killed when the Worker was stopped in the middle. */
  datatype Pc =
    | Digest | Lookup | Render | Sending(next: nat, anyOk: bool) | Marking
    | Finished | Aborted | Killed

  predicate Over(pc: Pc) {
    pc.Finished? || pc.Aborted? || pc.Killed?
  }

  function StartOf(job: Job): Pc {
    if job.digested then Digest else Lookup
  }

  /** What delivery `d` did. */
  datatype Event =
    | Looked(d: nat, key: string, time: int, answered: bool, hit: bool)
    | Sent(d: nat, key: string, chat: string, confirmed: bool)
    | Marked(d: nat, key: string, time: int)

  function AfterSends(job: Job, next: nat, anyOk: bool): Pc {
    if next < |job.chats| then Sending(next, anyOk) else if anyOk then Marking else Finished
  }

  /** One awaited call, and the events it leaves. A failing lookup, send or marker
      is caught on the spot; failing to hash or to render is not. */
  function Step(d: nat, job: Job, pc: Pc, kv: Kv, now: int, ttl: nat, out: Outcome): (Kv, Pc, seq<Event>) {
    match pc
    case Digest => (kv, if out == Ok then Lookup else Aborted, [])
    case Lookup =>
      var hit := out == Ok && Hit(kv, job.key, now);
      (kv, if hit then Finished else Render, [Looked(d, job.key, now, out == Ok, hit)])
    case Render => (kv, if out == Ok then AfterSends(job, 0, false) else Aborted, [])
    case Sending(next, anyOk) =>
      if next < |job.chats| then
        (kv, AfterSends(job, next + 1, anyOk || out == Ok), [Sent(d, job.key, job.chats[next], out == Ok)])
      else (kv, Finished, [])
    case Marking =>
      if out == Fault then (kv, Finished, [])
      else (kv[job.key := Entry(job.cacheId, now + ttl)], Finished, [Marked(d, job.key, now)])
    case _ => (kv, pc, [])
  }

  /** Calls left at most. */
  function Calls(job: Job, pc: Pc): nat {
    match pc
    case Digest => |job.chats| + 5
    case Lookup => |job.chats| + 4
    case Render => |job.chats| + 3
    case Sending(next, _) => 2 + if next < |job.chats| then |job.chats| - next else 0
    case Marking => 1
    case _ => 0
  }

  /** A delivery that nothing interrupts: the KV contents, the events and the end;
      `io` and `time` say how and when its calls end. */
  function RunAlone(d: nat, job: Job, pc: Pc, kv: Kv, ttl: nat, io: nat -> Outcome, time: nat -> int, t: nat)
    : (Kv, seq<Event>, Pc)
    decreases Calls(job, pc)
  {
    if Over(pc) then (kv, [], pc)
    else
      var (kv', pc', es) := Step(d, job, pc, kv, time(t), ttl, io(t));
      var (kv2, rest, end) := RunAlone(d, job, pc', kv', ttl, io, time, t + 1);
      (kv2, es + rest, end)
  }
}
