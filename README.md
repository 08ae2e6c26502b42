# iOS backup message archiver, modelled in Dafny

`ios_backup_message_archiver.py` turns the SMS database of an iOS backup into
one HTML file per conversation. Each conversation also gets a directory that
holds copies of its attachments. The script works in two stages:

1. **Readers.** Five readers run SQL queries and turn the result rows into
   dictionaries:
   - chat identifier → handle ids;
   - handle id → address;
   - chat identifier → messages;
   - message id → attachments;
   - e-mail address or normalised phone number → display name.
2. **Main loop.** `main` walks the conversations. For each one it resolves the
   participants, derives a file base name and makes the attachment directory.
   It then writes a header, one block per message and a footer. Each
   attachment is looked up in the backup store under its SHA-1 key and copied.
   A message that raises anything is skipped, and the remaining messages are
   still rendered.

This project models that pipeline. The SQL rows are sequences of records. The
file system is a set of paths that exist. What the run writes is a log of
effects: directories made, header, message blocks, footer, files copied. The
HTML text is reduced to its structure, a sequence of `Part`s.

Modules:

- `Wrappers`: `Option` and `Result`.
- `Text`: the Python string built-ins the script uses (`startswith`,
  `lstrip`, `replace`, `split`, `join`, `lower`, `os.path.join`,
  `os.path.basename`), with lemmas about them.
- `Collections`: the two dictionary-building loop patterns as specification
  functions, plus `list(set(...))`.
  - "assign" is `Assigned`; `AssignedLast` proves the last row wins.
  - "append to the group" is `Grouped`; `GroupedIsSelect` proves each group
    is the in-order subsequence of its rows.
- `Normalizer`: `normalize_phone_number`.
- `AttachmentKey`: `convert_attachment_name`, with SHA-1 as a parameter.
- `Extractor`: the five readers, as methods with loops proved against the
  `Collections` specifications.
- `Renderer`:
  - participant resolution and the file base;
  - one message and its attachments;
  - one conversation;
  - the whole run.

  Each step the source takes in place has a specification function and a
  method that follows the source's statements and is proved equal to it:
  - the attachment loop: `AttachmentsOutput` and `RenderAttachments`;
  - the straight-line code of one message: `MessageOutput` and `RenderMessage`;
  - the message loop: `MessagesOutput` and `RenderMessages`;
  - one conversation: `ChatOutput` and `RenderChat`;
  - the conversation loop: `RunOutput` and `Archive`.

**Where the model follows the code rather than the script's evident intent:**

- `lstrip('/var/mobile/')` and `lstrip('~/')` strip a *set of characters*,
  not the exact prefix. So `/var/mobile/lib/x` hashes `MediaDomain-x`. The
  model states both this and the cases where the two readings agree.
- `lstrip('+')` removes every leading `+`, not just one.
- A contact row with no first name, last name or organisation stores `None`.
  - If such a contact is a chat participant, line 426 calls
    `None.split(' ')`. That is outside the `try`, so it ends the whole run
    (`NamelessContact`).
  - In a sender line the same contact is printed as the text `%s` of `None`,
    which raises nothing.
- `os.mkdir` on a path that already exists raises outside the `try` and ends
  the run (`DirExists`). The same holds for a chat identifier that has
  messages but no members (`MissingChat`) and for a member handle missing
  from the handle map (`UnknownHandle`).

## Model

| member | source | states |
|---|---|---|
| Normalizer.NormalizePhoneNumber | ios_backup_message_archiver.py:248-272 | The result contains no separator. A ten-character remainder, after the leading `+` run and then the separators are removed, gets `1` in front. Any other remainder is returned as it is. So the result is never ten characters long. |
| Normalizer.RemoveSeparators | ios_backup_message_archiver.py:267-269 | The six chained `replace` calls together remove exactly the separator set. |
| Normalizer.NormalizeIdempotent | ios_backup_message_archiver.py:265-272 | Normalising a result that does not start with `+` gives the same result again. |
| Normalizer.NormalizeNotIdempotentBehindSeparator | ios_backup_message_archiver.py:265-269 | A `+` behind a separator survives one pass and is stripped by the next, so idempotence needs its precondition. |
| Normalizer.FormattedMeetsBare | ios_backup_message_archiver.py:265-272 | `+1 (area) exchange-line` and the same ten digits written bare both normalise to `1` followed by the digits. |
| Normalizer.NormalizeStripsEveryPlus | ios_backup_message_archiver.py:265-266 | Any run of leading `+` is removed, and the rest normalises as it would alone. |
| Normalizer.FormattedDigits | ios_backup_message_archiver.py:265-269 | For `+cc (area) exchange-line`, the `+` and the separators go and the digit groups stay in order. |
| Text.StripPlus | ios_backup_message_archiver.py:90-91 | The guarded `lstrip('+')` equals the unguarded one, and what it leaves does not start with `+`. |
| Text.LStripIsStrippedRun | ios_backup_message_archiver.py:198-200 | `lstrip(chars)` leaves a suffix. Everything before the suffix is in `chars`, and the suffix does not begin with a character of `chars`. |
| Text.StrippedRunIsLStrip | ios_backup_message_archiver.py:198-200 | Only one remainder fits that description, so it characterises `lstrip` completely. |
| Text.DropRemoves | ios_backup_message_archiver.py:267-269 | After `replace(c, '')` for each `c` of a set, no character of the set remains. |
| Text.JoinSplit | ios_backup_message_archiver.py:426 | `with.join(s.split(c))` replaces every `c` by `with` and leaves every other character in place. |
| Text.SplitLast | ios_backup_message_archiver.py:472 | `s.split('.')[-1]` is the suffix after the last `.`, or all of `s` when there is none. |
| AttachmentKey.HashInput | ios_backup_message_archiver.py:197-203 | A `/var/mobile/` or `~/` path becomes `MediaDomain-` followed by the path's remainder once the maximal leading run from the prefix's character set is stripped. Any other path becomes the empty string. |
| AttachmentKey.ConvertAttachmentName | ios_backup_message_archiver.py:180-206 | The key is always the SHA-1 of the hashed string. The warning is raised exactly when neither prefix matches, which is exactly when the hashed string is empty. |
| AttachmentKey.DeviceStripIsExact | ios_backup_message_archiver.py:197-198 | When the text after `/var/mobile/` does not begin with a prefix character, the character-set strip equals removing the exact prefix. |
| AttachmentKey.HomeStripIsExact | ios_backup_message_archiver.py:199-200 | The same for `~/`. |
| AttachmentKey.DeviceStripOvershoots | ios_backup_message_archiver.py:197-198 | When the text after `/var/mobile/` begins with a prefix character, more than the prefix is stripped. |
| AttachmentKey.HomeStripOvershoots | ios_backup_message_archiver.py:199-200 | The same for `~/`. |
| AttachmentKey.DeviceStripEatsLib | ios_backup_message_archiver.py:197-198 | `/var/mobile/lib/x` hashes `MediaDomain-x`: the `lib/` is stripped too. |
| Extractor.HandleMap | ios_backup_message_archiver.py:88-97 | Key 0 is present with a non-empty value. The keys are the rows' ids plus 0. No value starts with `+`. |
| Extractor.GetHandleToContact | ios_backup_message_archiver.py:88-97 | The loop and the placeholder step build exactly `HandleMap`. |
| Extractor.HandleMapLast | ios_backup_message_archiver.py:89-92 | The last row with an id decides that id's address, with its `+` run stripped. The one exception is id 0 with an empty address. |
| Extractor.WithPlaceholder | ios_backup_message_archiver.py:95-96 | After the placeholder step, key 0 is present with a non-empty value, and no other key is added. Every other entry is unchanged, and so is entry 0 when it was already non-empty; otherwise entry 0 is `me-or-null`. |
| Extractor.HandleZeroPlaceholder | ios_backup_message_archiver.py:95-96 | Key 0 maps to `me-or-null` when no row has id 0, or when the last such row's address is empty after stripping. |
| Extractor.GetContactsInChat | ios_backup_message_archiver.py:126-131 | Each chat identifier that occurs maps to the handle ids of its rows, in row order. The keys are exactly those identifiers, and no group is empty. |
| Extractor.ToSeconds | ios_backup_message_archiver.py:171-174 | A value above 10^9 becomes its whole number of 10^9 units (quotient bounds). Any other value is unchanged. |
| Extractor.ToSecondsExamples | ios_backup_message_archiver.py:171-174 | 5000000000 becomes 5. 500000000 and exactly 10^9 are unchanged. |
| Extractor.Downscale | ios_backup_message_archiver.py:170-174 | `date` and `date_read` are each scaled on their own test, and no other field changes. |
| Extractor.GetChatConversations | ios_backup_message_archiver.py:166-178 | Each chat identifier maps to its messages with their dates scaled, in row order. The keys are exactly the identifiers that occur, and no group is empty. |
| Extractor.GetMessageAttachments | ios_backup_message_archiver.py:236-245 | Each message id maps to its (SHA-1 key, base name) pairs, in row order. The keys are exactly the ids that occur, and no group is empty. |
| Extractor.DisplayName | ios_backup_message_archiver.py:302-306 | The non-NULL first and last names are joined by one space. When both are NULL, the result is the organisation, which may itself be NULL. |
| Extractor.ContactsMap | ios_backup_message_archiver.py:289-327 | The keys are the e-mail values plus the normalised phone values. |
| Extractor.GetContactsMap | ios_backup_message_archiver.py:289-327 | The two loops, e-mails first and then phones, build exactly `ContactsMap`. |
| Extractor.PhoneOverridesEmail | ios_backup_message_archiver.py:319-325 | The last phone row with a normalised key decides that key's name, whatever the e-mail rows hold. |
| Extractor.EmailKeptWithoutPhone | ios_backup_message_archiver.py:301-307 | A key that no phone row normalises to keeps the name of its last e-mail row. |
| Extractor.PhoneKeysNormalised | ios_backup_message_archiver.py:325 | A key that came only from phone rows is a normal form: it has no separator and is never ten characters long. |
| Extractor.Extract | ios_backup_message_archiver.py:413-417 | Each of the five tables is the one its reader's specification describes. |
| Collections.AssignedLast | ios_backup_message_archiver.py:89-92 | In an assigning loop, the last row with a key decides that key's value. |
| Collections.GroupedIsSelect | ios_backup_message_archiver.py:126-131 | In an appending loop, each group is exactly the subsequence of row values with that key, in input order, and is non-empty. |
| Collections.Dedup | ios_backup_message_archiver.py:425 | `list(set(xs))` has no duplicates and holds exactly the elements of `xs`. |
| Renderer.ResolveHandles | ios_backup_message_archiver.py:420 | The handle lookup succeeds exactly when every id is in the handle map, and then gives each id's address in order. A failure names an id the map lacks. |
| Renderer.Participants | ios_backup_message_archiver.py:420-426 | A chat with no members fails with `MissingChat`. Resolution succeeds exactly when the chat has members, every member handle is in the handle map, and no member's contact is stored without a name. A successful result has no duplicates. |
| Renderer.ParticipantsAreLookups | ios_backup_message_archiver.py:420-426 | On success, the participants are exactly the names `contacts_map.get(c, c)` gives for the chat's handles. An `UnknownHandle` failure names a member handle missing from the handle map. A `NamelessContact` failure names a handle whose contact is stored as `None`. |
| Renderer.DistinctNames | ios_backup_message_archiver.py:425 | De-duplication keeps exactly the names that occur. |
| Renderer.FileBase | ios_backup_message_archiver.py:426 | The file base starts with the chat identifier and `_`. With no participants it is just that. With one participant it is followed by the name with each space replaced by `-`. |
| Renderer.FileBaseHasNoSpaces | ios_backup_message_archiver.py:426 | For any number of participants, the file base is exactly the identifier, `_`, then the names joined by `_`, each with every space replaced by `-`. Nothing after the identifier is a space. |
| Renderer.SenderPart | ios_backup_message_archiver.py:438-445 | The sender line is missing (the message raises) exactly when the message is not one's own and its handle is not in the handle map. It is the "me" line exactly for one's own messages, and it always carries the service. Otherwise it carries the handle's address and `contacts_map.get(address, address)`. |
| Renderer.TextPart | ios_backup_message_archiver.py:451-455 | A NULL text gives the no-text line. Otherwise every newline becomes `<br>`, and no newline is left. |
| Renderer.Locate | ios_backup_message_archiver.py:462-465 | The flat path is tried first and then the two-character subdirectory. The result is absent exactly when neither exists. |
| Renderer.RenderAttachment | ios_backup_message_archiver.py:461-476 | A file found in neither place gives only a "missing" line. A found file is copied into the chat's directory unless the copy raises. It then renders an image line, when its lower-cased extension is an image extension, followed by a link line, both pointing at the copy. An image line appears exactly when the file is found and has an image extension. |
| Renderer.AttachmentsStop | ios_backup_message_archiver.py:460-476 | Once a copy has raised, the later attachments change nothing. |
| Renderer.MissingContinues | ios_backup_message_archiver.py:466-468 | A missing attachment adds its "missing" line and the loop goes on. |
| Renderer.RenderAttachments | ios_backup_message_archiver.py:460-476 | The attachment loop computes exactly `AttachmentsOutput`. |
| Renderer.IsImageByExtension | ios_backup_message_archiver.py:472 | `IsImage` holds exactly when the lower-cased text after the last `.` (the reference `Extension`) is jpeg, jpg, png, gif or svg. |
| Renderer.LastSegmentIsExtension | ios_backup_message_archiver.py:472 | `name.split('.')[-1]` equals the reference `Extension`: the text after the last `.`, or the whole name when it has none. |
| Renderer.MessageOutput | ios_backup_message_archiver.py:436-487 | A message copies files only. |
| Renderer.MessageOutputParts | ios_backup_message_archiver.py:436-487 | A message's copies are those of its attachment loop, or none when the sender or the date raised first. Its block is the sender line, the text line, every line of the attachment loop, and then the read-time line when `ShowsReadTime` holds. |
| Renderer.RenderMessage | ios_backup_message_archiver.py:436-487 | The per-message code computes exactly `MessageOutput`. A block exists only when nothing raised, and the copies made before a failure are kept. |
| Renderer.BlockIffNothingRaises | ios_backup_message_archiver.py:436-491 | A message gets its block exactly when nothing in it raises: it is one's own or its handle is known, `localtime` accepts its date, no attachment copy fails, and `localtime` accepts its read date when that date is shown. |
| Renderer.ReadTimeShownIff | ios_backup_message_archiver.py:478-483 | A rendered block has a read-time line exactly when `ShowsReadTime` holds, that is when the message is an iMessage with `is_read == 1` and a non-zero read date (line 479). |
| Renderer.BlockStartsWithSenderAndText | ios_backup_message_archiver.py:438-455 | A block starts with the sender line, then the text line. The sender line is "me" for own messages and otherwise carries the handle's contact name or address and the service. |
| Renderer.MessagesIsolated | ios_backup_message_archiver.py:435-491 | The output for a list of messages is the output for its first part followed by the output for the rest, so a message that raises does not affect later ones. |
| Renderer.MessagesWriteOnly | ios_backup_message_archiver.py:435-491 | The message loop only copies files and writes blocks. It makes no directory. |
| Renderer.FailedMessageWritesNothing | ios_backup_message_archiver.py:489-491 | A message that raises writes no block. Its only effects are the copies made before the error. |
| Renderer.RenderMessages | ios_backup_message_archiver.py:435-491 | The message loop computes exactly `MessagesOutput`. |
| Renderer.ChatOutput | ios_backup_message_archiver.py:419-493 | A successful conversation first makes its attachment directory, then writes the header with the participants, every message's output and the footer. A participant failure is passed on unchanged. Once the participants resolve, the conversation succeeds exactly when its attachment directory neither existed nor was made earlier in the run; otherwise it fails with `DirExists` for that directory. |
| Renderer.RenderChat | ios_backup_message_archiver.py:419-493 | The per-conversation code computes exactly `ChatOutput`. |
| Renderer.ChatMakesOneDir | ios_backup_message_archiver.py:431 | A conversation makes exactly one directory, its attachment directory, and that directory did not exist before. |
| Renderer.RunOnlyAppends | ios_backup_message_archiver.py:419 | Each beginning of the conversation order yields a prefix of the whole run's effects. Once a conversation raises, nothing more happens. |
| Renderer.RunMakesFreshDirs | ios_backup_message_archiver.py:409-431 | No directory is made twice, and none that existed before the run. |
| Renderer.Startup | ios_backup_message_archiver.py:409-410 | After the start the destination directory exists. Every directory made at the start did not exist before and is made once, and the start does nothing but make directories. |
| Renderer.Archive | ios_backup_message_archiver.py:409-493 | The destination directory is made when missing, then the conversations are rendered until one raises. The outcome is exactly `RunOutput`, and every directory made is fresh and made once. |

## Left out

- SQLite access (`sqlite3.connect`, the queries, `fetchall`) is not modelled. The readers take the result rows as input sequences.
- NULL is not modelled outside `text` and the three name columns, which are the only `Option`s. Every other column is a plain value: the numeric and id columns, `attachment.filename`, `message.service`, `chat.chat_identifier`, `handle.id` and `ABMultiValue.value`. In the source some of these NULLs end the run while the readers work, outside any `try`: a NULL `handle.id` (`startswith` at line 90), a NULL `attachment.filename` (line 197) and a NULL phone value (`normalize_phone_number`, line 265). A NULL `chat_handle_join.handle_id` is appended at line 130 and then raises `KeyError` at line 420, outside the `try`, which ends the run. A NULL `message.date` passes line 171 and raises at line 449 inside the `try`, so that message is skipped. A NULL `date_read` is skipped the same way at line 480 whenever line 479 holds. A NULL `is_from_me` makes the message a received one (line 440). A NULL `message.service` is written as the text `None`.
- SHA-1 is a function parameter `sha1`. Its digest values are not modelled.
- AttachmentKey.ConvertAttachmentName: is total, but under Python 2 `hashlib.sha1` of line 205 ASCII-encodes its `unicode` argument. An attachment path with a non-ASCII character therefore raises `UnicodeEncodeError` while the readers run (line 416, outside any `try`). The real run ends there, after line 410 has made the destination directory, and renders nothing. The model hashes every path.
- Renderer.ChatOutput: always writes the header, but line 433 writes the `unicode` header text to a byte-mode file, which ASCII-encodes it. A participant name with a non-ASCII character (such as "José") raises there, outside the `try`. The real run ends after the `mkdir` of line 431 and after creating the empty HTML file. The model does not capture this ending. Only the message blocks are encoded as UTF-8 (line 487).
- `time.localtime` and `time.strftime` are one parameter `format`, applied to 978307200 plus the offset. `None` stands for a date `localtime` rejects. Time zones are not modelled.
- Logging, `log.warn`, `log.exception`, command-line parsing and logger setup (lines 330-396) are not modelled. The database path resolution of lines 398-405 is also left out.
- The HTML and CSS template text and the exact markup are not modelled. A header, a block and a footer carry only their structure, and UTF-8 encoding is left out.
- `os.access` is the set `present`. Whether `shutil.copyfile` raises (line 470) is the set `uncopyable`, which holds **source** paths. So the model cannot express a copy that fails because of its target, such as a `<key>-<basename>` name longer than the file system allows, or a failure that depends on both ends. Writes and `open` are assumed not to fail.
- `mkdir` failing for a missing parent is not modelled.
- The backup directory is assumed not to overlap the destination, so copies never create paths that `os.access` would later find in the backup.
- Dictionary iteration order is a parameter `order`, which lists each conversation key once.
- Renderer.Participants: `list(set(...))` has no specified order in Python. The model fixes one order, first occurrences, and the contracts of `Participants` itself claim only no duplicates and the same element set. The file base, the header, the directory names and the `DirExists` outcomes that `ChatOutput`, `RunOutput` and `Archive` state are derived from that one order. Under another `set` order a conversation gets its names in another order, and two conversations may then collide where the model says they do not, or the reverse.
- Text.Lower: lower-cases ASCII letters only. Python 2's `unicode.lower()` also maps some non-ASCII letters onto ASCII ones, such as U+0130 to `i` and U+212A (Kelvin sign) to `k`. So line 472 treats a name ending in `.GİF` as an image, and the model does not.
- The worked examples are stated in general form, with the strings as lemma parameters: `+1 (222) 333-4444` in `Normalizer.FormattedMeetsBare` and `/var/mobile/lib/x` in `AttachmentKey.DeviceStripEatsLib`.
- The attachment loop and the message loop are separate methods (`Renderer.RenderAttachments`, `Renderer.RenderMessages`), because in the source they are the inner loops of `main`.
