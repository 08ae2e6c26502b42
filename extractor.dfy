/**
 * The readers of ios_backup_message_archiver.py (lines 67-245 and 274-327):
 * each takes the rows its SQL query returns and builds a dictionary from them
 * in a `for` loop. The queries themselves are not modelled; the rows are the
 * methods' inputs.
 */
module Extractor {
  import opened Wrappers
  import opened Text
  import opened Collections
  import opened Normalizer
  import opened AttachmentKey

  /** A `handle` row: `ROWID` and `id` (a phone number or an e-mail address). */
  datatype HandleRow = HandleRow(rowId: int, id: string)

  /** A `chat_handle_join` row joined with its chat's `chat_identifier`. */
  datatype ChatHandleRow = ChatHandleRow(chatId: int, handleId: int, chatIdentifier: string)

  /**
   * A `message` row joined with `chat_message_join` and `chat`, the dictionary
   * `dict(zip(fields, row))` of line 168. `text` is NULL for messages without text.
   */
  datatype MessageRow = MessageRow(
    text: Option<string>,
    handleId: int,
    service: string,
    date: int,
    dateRead: int,
    isFromMe: int,
    isRead: int,
    chatId: int,
    messageId: int,
    chatIdentifier: string)

  /** A `message_attachment_join` row joined with its `attachment` row. */
  datatype AttachmentRow = AttachmentRow(messageId: int, attachmentId: int, rowId: int, filename: string)

  /** An address-book row: the e-mail address or phone number, then the person's names (each may be NULL). */
  datatype ContactRow = ContactRow(value: string, first: Option<string>, last: Option<string>, org: Option<string>)

  /** What the five readers hand to `main` (lines 413-417). */
  datatype Tables = Tables(
    contactsInChat: map<string, seq<int>>,
    handles: map<int, string>,
    conversations: map<string, seq<MessageRow>>,
    attachments: map<int, seq<(string, string)>>,
    contacts: map<string, Option<string>>)

  // ---------------------------------------------------------------- handles

  /** The placeholder for handle 0 (line 96). */
  const Unknown: string := "me-or-null"

  function HandleKey(r: HandleRow): int { r.rowId }

  /** Lines 90-91: a leading run of '+' is removed from the handle's address. */
  function HandleContact(r: HandleRow): string { StripPlus(r.id) }

  predicate NoLeadingPlus(s: string) { !StartsWith(s, "+") }

  /** Lines 95-96: `not d.get(0)` holds when key 0 is absent or maps to the empty string. */
  function WithPlaceholder(m: map<int, string>): (r: map<int, string>)
    ensures 0 in r && r[0] != []
    ensures r.Keys == m.Keys + {0}
    ensures forall k :: k in r ==> r[k] == (if k in m && (k != 0 || m[0] != []) then m[k] else Unknown)
  {
    if 0 !in m || m[0] == [] then m[0 := Unknown] else m
  }

  /**
   * `get_handle_to_contact` after its loop (lines 88-97): every row's id is a key,
   * and key 0 is always present with a non-empty value, the placeholder standing
   * in when no row has id 0 or its address is empty. No value starts with '+'.
   */
  function HandleMap(rows: seq<HandleRow>): (r: map<int, string>)
    ensures 0 in r && r[0] != []
    ensures r.Keys == KeysOf(rows, HandleKey) + {0}
    ensures forall k :: k in r ==> NoLeadingPlus(r[k])
  {
    var m := Assigned(map[], rows, HandleKey, HandleContact);
    AssignedKeeps(map[], rows, HandleKey, HandleContact, NoLeadingPlus);
    assert Unknown[..1][0] == 'm' != "+"[0];
    WithPlaceholder(m)
  }

  /** Lines 88-97, as the loop runs. */
  method GetHandleToContact(rows: seq<HandleRow>) returns (m: map<int, string>)
    ensures m == HandleMap(rows)
  {
    m := map[];
    for i := 0 to |rows|
      invariant m == Assigned(map[], rows[..i], HandleKey, HandleContact)
    {
      var contact := rows[i].id;
      if StartsWith(contact, "+") {
        contact := LStrip(contact, {'+'});
      }
      assert contact == HandleContact(rows[i]);
      AssignedStep(map[], rows, HandleKey, HandleContact, i);
      m := m[rows[i].rowId := contact];
    }
    assert rows[..|rows|] == rows;
    ghost var fromRows := m;
    if 0 !in m || m[0] == [] {
      m := m[0 := Unknown];
    }
    assert m == WithPlaceholder(fromRows);
  }

  /** The last row with a given id decides that id's address, unless it is id 0 with an empty address. */
  lemma HandleMapLast(rows: seq<HandleRow>, k: int, i: int)
    requires LastAt(rows, HandleKey, k, i)
    requires k != 0 || HandleContact(rows[i]) != []
    ensures HandleMap(rows)[k] == StripPlus(rows[i].id)
  {
    AssignedLast(map[], rows, HandleKey, HandleContact, k, i);
  }

  /** Key 0 gets the placeholder when no row has id 0 or when the last such row's address strips to nothing. */
  lemma HandleZeroPlaceholder(rows: seq<HandleRow>, i: int)
    requires 0 !in KeysOf(rows, HandleKey) || (LastAt(rows, HandleKey, 0, i) && StripPlus(rows[i].id) == [])
    ensures HandleMap(rows)[0] == Unknown
  {
    if 0 in KeysOf(rows, HandleKey) {
      AssignedLast(map[], rows, HandleKey, HandleContact, 0, i);
    } else {
      AssignedUntouched(map[], rows, HandleKey, HandleContact, 0);
    }
  }

  // ---------------------------------------------------------- chat members

  function ChatOfHandleRow(r: ChatHandleRow): string { r.chatIdentifier }
  function HandleOfRow(r: ChatHandleRow): int { r.handleId }

  /**
   * `get_contacts_in_chat` (lines 126-131): each chat identifier that occurs maps to
   * the handle ids of its rows, in row order.
   */
  method GetContactsInChat(rows: seq<ChatHandleRow>) returns (m: map<string, seq<int>>)
    ensures m == Grouped(rows, ChatOfHandleRow, HandleOfRow)
    ensures m.Keys == KeysOf(rows, ChatOfHandleRow)
    ensures forall k :: k in m ==> m[k] == Select(rows, ChatOfHandleRow, HandleOfRow, k) && m[k] != []
  {
    m := map[];
    for i := 0 to |rows|
      invariant m == Grouped(rows[..i], ChatOfHandleRow, HandleOfRow)
    {
      ghost var before := m;
      var chat := rows[i].chatIdentifier;
      ghost var prior := if chat in before then before[chat] else [];
      if chat !in m {
        m := m[chat := []];
      }
      assert chat in m && m[chat] == prior;
      m := m[chat := m[chat] + [rows[i].handleId]];
      assert m == before[chat := prior + [rows[i].handleId]] by {
        if chat !in before {
          MapOverride(before, chat, [], prior + [rows[i].handleId]);
        }
      }
      GroupedStep(rows, ChatOfHandleRow, HandleOfRow, i);
    }
    assert rows[..|rows|] == rows;
    GroupedIsSelect(rows, ChatOfHandleRow, HandleOfRow);
  }

  // --------------------------------------------------------- conversations

  const Nanoseconds: int := 1000000000

  /**
   * Lines 171-174: a date above 10^9 is taken to be in nanoseconds and becomes
   * whole seconds (Python 2 integer division); any other value is kept.
   */
  function ToSeconds(v: int): (r: int)
    ensures v > Nanoseconds ==> r >= 1 && r * Nanoseconds <= v < (r + 1) * Nanoseconds
    ensures v <= Nanoseconds ==> r == v
  {
    if v > Nanoseconds then v / Nanoseconds else v
  }

  /** 5000000000 becomes 5, while 500000000 and exactly 10^9 are left alone. */
  lemma ToSecondsExamples()
    ensures ToSeconds(5000000000) == 5
    ensures ToSeconds(500000000) == 500000000
    ensures ToSeconds(1000000000) == 1000000000
  {
    assert 5 * Nanoseconds <= 5000000000 < 6 * Nanoseconds;
  }

  /** Both dates of a message are scaled, each on its own test; no other field changes. */
  function Downscale(m: MessageRow): (r: MessageRow)
    ensures r.date == ToSeconds(m.date) && r.dateRead == ToSeconds(m.dateRead)
    ensures r.(date := m.date, dateRead := m.dateRead) == m
  {
    m.(date := ToSeconds(m.date), dateRead := ToSeconds(m.dateRead))
  }

  function ChatOfMessage(m: MessageRow): string { m.chatIdentifier }

  /**
   * `get_chat_coversations` (lines 166-178): each chat identifier that occurs maps
   * to its messages, dates scaled, in row order.
   */
  method GetChatConversations(rows: seq<MessageRow>) returns (m: map<string, seq<MessageRow>>)
    ensures m == Grouped(rows, ChatOfMessage, Downscale)
    ensures m.Keys == KeysOf(rows, ChatOfMessage)
    ensures forall k :: k in m ==> m[k] == Select(rows, ChatOfMessage, Downscale, k) && m[k] != []
  {
    m := map[];
    for i := 0 to |rows|
      invariant m == Grouped(rows[..i], ChatOfMessage, Downscale)
    {
      ghost var before := m;
      var info := rows[i];
      if info.date > Nanoseconds {
        info := info.(date := info.date / Nanoseconds);
      }
      if info.dateRead > Nanoseconds {
        info := info.(dateRead := info.dateRead / Nanoseconds);
      }
      assert info == Downscale(rows[i]);
      var chat := info.chatIdentifier;
      ghost var prior := if chat in before then before[chat] else [];
      if chat !in m {
        m := m[chat := []];
      }
      assert chat in m && m[chat] == prior;
      m := m[chat := m[chat] + [info]];
      assert m == before[chat := prior + [info]] by {
        if chat !in before {
          MapOverride(before, chat, [], prior + [info]);
        }
      }
      GroupedStep(rows, ChatOfMessage, Downscale, i);
    }
    assert rows[..|rows|] == rows;
    GroupedIsSelect(rows, ChatOfMessage, Downscale);
  }

  // ----------------------------------------------------------- attachments

  function MessageOfAttachment(r: AttachmentRow): int { r.messageId }

  /** Lines 241-243: the backup's file name for the attachment and the file's own base name. */
  function AttachmentEntry(sha1: string -> string): AttachmentRow -> (string, string) {
    (r: AttachmentRow) => (ConvertAttachmentName(r.filename, sha1).hashed, Basename(r.filename))
  }

  /**
   * `get_message_attachments` (lines 236-245): each message id that occurs maps to
   * its attachments' (backup name, base name) pairs, in row order.
   */
  method GetMessageAttachments(rows: seq<AttachmentRow>, sha1: string -> string) returns (m: map<int, seq<(string, string)>>)
    ensures m == Grouped(rows, MessageOfAttachment, AttachmentEntry(sha1))
    ensures m.Keys == KeysOf(rows, MessageOfAttachment)
    ensures forall k :: k in m ==> m[k] == Select(rows, MessageOfAttachment, AttachmentEntry(sha1), k) && m[k] != []
  {
    m := map[];
    for i := 0 to |rows|
      invariant m == Grouped(rows[..i], MessageOfAttachment, AttachmentEntry(sha1))
    {
      ghost var before := m;
      var message := rows[i].messageId;
      ghost var prior := if message in before then before[message] else [];
      if message !in m {
        m := m[message := []];
      }
      assert message in m && m[message] == prior;
      var hashed := ConvertAttachmentName(rows[i].filename, sha1).hashed;
      var original := Basename(rows[i].filename);
      m := m[message := m[message] + [(hashed, original)]];
      assert (hashed, original) == AttachmentEntry(sha1)(rows[i]);
      assert m == before[message := prior + [(hashed, original)]] by {
        if message !in before {
          MapOverride(before, message, [], prior + [(hashed, original)]);
        }
      }
      GroupedStep(rows, MessageOfAttachment, AttachmentEntry(sha1), i);
    }
    assert rows[..|rows|] == rows;
    GroupedIsSelect(rows, MessageOfAttachment, AttachmentEntry(sha1));
  }

  // -------------------------------------------------------------- contacts

  /** The names that are not NULL, first name first (lines 302 and 320). */
  function NamesOf(first: Option<string>, last: Option<string>): seq<string> {
    (if first.Some? then [first.value] else []) + (if last.Some? then [last.value] else [])
  }

  /**
   * Lines 302-306: the non-NULL names joined by one space; when both are NULL, the
   * organisation, which may itself be NULL.
   */
  function DisplayName(first: Option<string>, last: Option<string>, org: Option<string>): (r: Option<string>)
    ensures first.None? && last.None? ==> r == org
    ensures first.Some? && last.Some? ==> r == Some(first.value + " " + last.value)
    ensures first.Some? && last.None? ==> r == Some(first.value)
    ensures first.None? && last.Some? ==> r == Some(last.value)
  {
    var names := NamesOf(first, last);
    assert first.Some? && last.Some? ==>
      names == [first.value, last.value] && names[1..] == [last.value] && Join(" ", names) == first.value + " " + last.value;
    if names == [] then org else Some(Join(" ", names))
  }

  function RowName(r: ContactRow): Option<string> { DisplayName(r.first, r.last, r.org) }
  function EmailKey(r: ContactRow): string { r.value }

  /** Line 325: phone numbers are stored under their normal form. */
  function PhoneKey(r: ContactRow): string { NormalizePhoneNumber(r.value) }

  /** `get_contacts_map`: the e-mail rows are assigned first, then the phone rows. */
  function ContactsMap(emails: seq<ContactRow>, phones: seq<ContactRow>): (r: map<string, Option<string>>)
    ensures r.Keys == KeysOf(emails, EmailKey) + KeysOf(phones, PhoneKey)
  {
    Assigned(Assigned(map[], emails, EmailKey, RowName), phones, PhoneKey, RowName)
  }

  /** Lines 289-327, as its two loops run. */
  method GetContactsMap(emails: seq<ContactRow>, phones: seq<ContactRow>) returns (m: map<string, Option<string>>)
    ensures m == ContactsMap(emails, phones)
  {
    m := map[];
    for i := 0 to |emails|
      invariant m == Assigned(map[], emails[..i], EmailKey, RowName)
    {
      var contact := DisplayName(emails[i].first, emails[i].last, emails[i].org);
      AssignedStep(map[], emails, EmailKey, RowName, i);
      m := m[emails[i].value := contact];
    }
    assert emails[..|emails|] == emails;
    ghost var afterEmails := m;
    for i := 0 to |phones|
      invariant m == Assigned(afterEmails, phones[..i], PhoneKey, RowName)
    {
      var contact := DisplayName(phones[i].first, phones[i].last, phones[i].org);
      AssignedStep(afterEmails, phones, PhoneKey, RowName, i);
      m := m[NormalizePhoneNumber(phones[i].value) := contact];
    }
    assert phones[..|phones|] == phones;
  }

  /** A phone row overwrites an e-mail row under the same key: the last phone row with the key wins. */
  lemma PhoneOverridesEmail(emails: seq<ContactRow>, phones: seq<ContactRow>, k: string, i: int)
    requires LastAt(phones, PhoneKey, k, i)
    ensures ContactsMap(emails, phones)[k] == RowName(phones[i])
  {
    AssignedLast(Assigned(map[], emails, EmailKey, RowName), phones, PhoneKey, RowName, k, i);
  }

  /** A key no phone row normalises to keeps the name of the last e-mail row with that key. */
  lemma EmailKeptWithoutPhone(emails: seq<ContactRow>, phones: seq<ContactRow>, k: string, i: int)
    requires LastAt(emails, EmailKey, k, i)
    requires k !in KeysOf(phones, PhoneKey)
    ensures ContactsMap(emails, phones)[k] == RowName(emails[i])
  {
    AssignedLast(map[], emails, EmailKey, RowName, k, i);
    AssignedUntouched(Assigned(map[], emails, EmailKey, RowName), phones, PhoneKey, RowName, k);
  }

  /** A key that came only from phone rows is a normal form: no separators, and never ten characters long. */
  lemma PhoneKeysNormalised(emails: seq<ContactRow>, phones: seq<ContactRow>)
    ensures forall k :: k in ContactsMap(emails, phones) && k !in KeysOf(emails, EmailKey) ==>
      NoneIn(k, Separators) && |k| != 10
  {
  }

  // ---------------------------------------------------------- all together

  /** The five reads of lines 413-417. */
  method Extract(
    handleRows: seq<HandleRow>,
    chatHandleRows: seq<ChatHandleRow>,
    messageRows: seq<MessageRow>,
    attachmentRows: seq<AttachmentRow>,
    emails: seq<ContactRow>,
    phones: seq<ContactRow>,
    sha1: string -> string) returns (t: Tables)
    ensures t.contactsInChat == Grouped(chatHandleRows, ChatOfHandleRow, HandleOfRow)
    ensures t.handles == HandleMap(handleRows)
    ensures t.conversations == Grouped(messageRows, ChatOfMessage, Downscale)
    ensures t.attachments == Grouped(attachmentRows, MessageOfAttachment, AttachmentEntry(sha1))
    ensures t.contacts == ContactsMap(emails, phones)
  {
    var contactsInChat := GetContactsInChat(chatHandleRows);
    var handles := GetHandleToContact(handleRows);
    var conversations := GetChatConversations(messageRows);
    var attachments := GetMessageAttachments(attachmentRows, sha1);
    var contacts := GetContactsMap(emails, phones);
    t := Tables(contactsInChat, handles, conversations, attachments, contacts);
  }
}
