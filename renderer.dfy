/**
 * The per-conversation and per-message logic of `main`
 * (ios_backup_message_archiver.py lines 409-410 and 419-493). The HTML text is
 * abstracted into `Part`s, the files and directories the run touches into a
 * log of `Effect`s, and the backup directory into the set of paths that exist.
 */
module Renderer {
  import opened Wrappers
  import opened Text
  import opened Collections
  import opened Extractor

  /** Seconds between the Unix epoch and the iOS epoch, 2001-01-01 (line 33). */
  const MagicDate: int := 978307200

  /** The extensions shown inline as images (line 472). */
  const ImageExtensions: set<string> := {"jpeg", "jpg", "png", "gif", "svg"}

  /**
   * What the run sees of the outside world. `present` holds the paths for which
   * `os.access(p, os.F_OK)` holds; copying a file in `uncopyable` raises; and
   * `format(t)` is `strftime` of `localtime(t)`, `None` where `localtime` raises.
   */
  datatype Env = Env(
    backupDir: string,
    destDir: string,
    present: set<string>,
    uncopyable: set<string>,
    format: int -> Option<string>)

  /** One line of a message block, without its HTML markup (lines 441-482). */
  datatype Part =
    | SenderMe(service: string)
    | SenderThem(name: Option<string>, contact: string, service: string)
    | SentText(time: string, body: string)
    | SentNoText(time: string)
    | Image(link: string)
    | Link(link: string, title: string)
    | Missing(missing: string)
    | ReadAt(time: string)

  /** What the run does to the destination directory. */
  datatype Effect =
    | MakeDir(path: string)
    | WriteHeader(file: string, participants: seq<string>)
    | WriteBlock(file: string, parts: seq<Part>)
    | WriteFooter(file: string)
    | Copy(source: string, target: string)

  /** The exceptions `main` does not catch: each ends the whole run. */
  datatype Fatal =
    | MissingChat(chat: string)
    | UnknownHandle(chat: string, handle: int)
    | NamelessContact(chat: string)
    | DirExists(path: string)

  // ------------------------------------------------------------ participants

  /** Line 420: each handle's address, in order; the first handle the map lacks raises `KeyError`. */
  function ResolveHandles(handles: map<int, string>, ids: seq<int>): (r: Result<seq<string>, int>)
    ensures r.Success? <==> forall i :: 0 <= i < |ids| ==> ids[i] in handles
    ensures r.Success? ==> |r.value| == |ids| && forall i :: 0 <= i < |ids| ==> r.value[i] == handles[ids[i]]
    ensures r.Failure? ==> r.error in ids && r.error !in handles
  {
    if ids == [] then Success([])
    else if ids[0] !in handles then Failure(ids[0])
    else
      match ResolveHandles(handles, ids[1..])
      case Failure(h) => Failure(h)
      case Success(rest) => Success([handles[ids[0]]] + rest)
  }

  /** `contacts_map.get(c, c)`: the stored name, which may be `None`, or else the address itself. */
  function Lookup(contacts: map<string, Option<string>>, c: string): Option<string> {
    if c in contacts then contacts[c] else Some(c)
  }

  /** Lines 421-422. */
  function LookupAll(contacts: map<string, Option<string>>, cs: seq<string>): (r: seq<Option<string>>)
    ensures |r| == |cs|
    ensures forall i :: 0 <= i < |cs| ==> r[i] == Lookup(contacts, cs[i])
  {
    seq(|cs|, i requires 0 <= i < |cs| => Lookup(contacts, cs[i]))
  }

  /** The names among the options, in order. */
  function Somes(xs: seq<Option<string>>): (r: seq<string>)
    ensures forall i :: 0 <= i < |r| ==> Some(r[i]) in xs
    ensures forall i :: 0 <= i < |xs| && xs[i].Some? ==> xs[i].value in r
  {
    if xs == [] then []
    else
      var rest := Somes(xs[1..]);
      assert forall i :: 1 <= i < |xs| ==> xs[i] == xs[1..][i - 1];
      (if xs[0].Some? then [xs[0].value] else []) + rest
  }

  /** Every handle is in the handle map and its contact is not stored without a name. */
  predicate Resolvable(t: Tables, ids: seq<int>) {
    forall i :: 0 <= i < |ids| ==> ids[i] in t.handles && Lookup(t.contacts, t.handles[ids[i]]).Some?
  }

  /**
   * Lines 420-426: the chat's participants. A chat without members, a handle
   * missing from the handle map, or a participant whose contact has no name
   * (`None.split` on line 426) raises out of `main`.
   */
  function Participants(t: Tables, id: string): (r: Result<seq<string>, Fatal>)
    ensures id !in t.contactsInChat ==> r == Failure(MissingChat(id))
    ensures r.Success? <==> id in t.contactsInChat && Resolvable(t, t.contactsInChat[id])
    ensures r.Success? ==> NoDups(r.value)
  {
    if id !in t.contactsInChat then Failure(MissingChat(id))
    else
      var ids := t.contactsInChat[id];
      match ResolveHandles(t.handles, ids)
      case Failure(h) => Failure(UnknownHandle(id, h))
      case Success(addresses) =>
        var names := LookupAll(t.contacts, addresses);
        assert forall i :: 0 <= i < |ids| ==> names[i] == Lookup(t.contacts, t.handles[ids[i]]);
        if None in names then Failure(NamelessContact(id)) else Success(Dedup(Somes(names)))
  }

  /**
   * The participants are exactly the names `contacts_map.get(c, c)` gives for the
   * chat's handles, each once; a failure is a missing chat, a handle the handle map
   * lacks, or a handle whose contact is stored without a name.
   */
  lemma ParticipantsAreLookups(t: Tables, id: string)
    ensures var r := Participants(t, id);
      r.Success? ==>
        && id in t.contactsInChat
        && (forall i :: 0 <= i < |t.contactsInChat[id]| ==> t.contactsInChat[id][i] in t.handles)
        && (forall n :: n in r.value <==>
              exists i :: 0 <= i < |t.contactsInChat[id]| && Lookup(t.contacts, t.handles[t.contactsInChat[id][i]]) == Some(n))
    ensures var r := Participants(t, id);
      r.Failure? && r.error.UnknownHandle? ==>
        id in t.contactsInChat && r.error.handle in t.contactsInChat[id] && r.error.handle !in t.handles
    ensures var r := Participants(t, id);
      r.Failure? && r.error.NamelessContact? ==>
        id in t.contactsInChat &&
        exists i :: 0 <= i < |t.contactsInChat[id]| && t.contactsInChat[id][i] in t.handles &&
          Lookup(t.contacts, t.handles[t.contactsInChat[id][i]]) == None
  {
    if id in t.contactsInChat {
      var ids := t.contactsInChat[id];
      var resolved := ResolveHandles(t.handles, ids);
      if resolved.Success? {
        var names := LookupAll(t.contacts, resolved.value);
        if None in names {
          var i :| 0 <= i < |names| && names[i] == None;
          assert Lookup(t.contacts, t.handles[ids[i]]) == None;
        } else {
          NamesAreLookups(t.contacts, t.handles, ids);
        }
      }
    }
  }

  /** The success case: the de-duplicated names are those the lookups give. */
  lemma NamesAreLookups(contacts: map<string, Option<string>>, handles: map<int, string>, ids: seq<int>)
    requires ResolveHandles(handles, ids).Success?
    requires None !in LookupAll(contacts, ResolveHandles(handles, ids).value)
    ensures forall n :: n in Dedup(Somes(LookupAll(contacts, ResolveHandles(handles, ids).value))) <==>
      exists i :: 0 <= i < |ids| && Lookup(contacts, handles[ids[i]]) == Some(n)
  {
    var addresses := ResolveHandles(handles, ids).value;
    var names := LookupAll(contacts, addresses);
    assert forall i :: 0 <= i < |ids| ==> names[i] == Lookup(contacts, handles[ids[i]]);
    DistinctNames(names);
    forall n
      ensures Some(n) in names <==> exists i :: 0 <= i < |ids| && Lookup(contacts, handles[ids[i]]) == Some(n)
    {
      if Some(n) in names {
        var i :| 0 <= i < |names| && names[i] == Some(n);
      }
    }
  }

  /** A name survives `Dedup(Somes(...))` exactly when some option holds it. */
  lemma DistinctNames(xs: seq<Option<string>>)
    ensures forall n :: n in Dedup(Somes(xs)) <==> Some(n) in xs
  {
    var s := Somes(xs);
    var r := Dedup(s);
    forall n | n in r
      ensures Some(n) in xs
    {
      var j :| 0 <= j < |r| && r[j] == n;
      var k :| 0 <= k < |s| && s[k] == n;
    }
    forall n | Some(n) in xs
      ensures n in r
    {
      var i :| 0 <= i < |xs| && xs[i] == Some(n);
      var j :| 0 <= j < |s| && s[j] == n;
    }
  }

  // --------------------------------------------------------------- file base

  /** Line 426: each name with its spaces turned into hyphens, `'-'.join(name.split(' '))`. */
  function Hyphenate(names: seq<string>): (r: seq<string>)
    ensures |r| == |names|
    ensures forall i :: 0 <= i < |names| ==> r[i] == Join("-", Split(names[i], ' '))
  {
    seq(|names|, i requires 0 <= i < |names| => Join("-", Split(names[i], ' ')))
  }

  /** Line 426: the chat identifier, an underscore, and the hyphenated names joined by underscores. */
  function FileBase(id: string, names: seq<string>): (r: string)
    ensures StartsWith(r, id + "_")
    ensures names == [] ==> r == id + "_"
    ensures |names| == 1 ==> r == id + "_" + Substitute(names[0], ' ', "-")
  {
    if |names| == 1 then
      JoinSplit(names[0], ' ', "-");
      assert Hyphenate(names) == [Substitute(names[0], ' ', "-")];
      id + "_" + Join("_", Hyphenate(names))
    else
      id + "_" + Join("_", Hyphenate(names))
  }

  /**
   * The file base starts with the chat identifier and an underscore, every name
   * appears with each space replaced by a hyphen, and nothing after the
   * identifier is a space.
   */
  lemma FileBaseHasNoSpaces(id: string, names: seq<string>)
    ensures StartsWith(FileBase(id, names), id + "_")
    ensures forall i :: 0 <= i < |names| ==> Hyphenate(names)[i] == Substitute(names[i], ' ', "-")
    ensures ' ' !in FileBase(id, names)[|id| + 1..]
    ensures FileBase(id, names) == id + "_" + Join("_", seq(|names|, i requires 0 <= i < |names| => Substitute(names[i], ' ', "-")))
  {
    var h := Hyphenate(names);
    forall i | 0 <= i < |names|
      ensures h[i] == Substitute(names[i], ' ', "-") && ' ' !in h[i]
    {
      JoinSplit(names[i], ' ', "-");
    }
    assert h == seq(|names|, i requires 0 <= i < |names| => Substitute(names[i], ' ', "-"));
    JoinAvoids("_", h, ' ');
    assert FileBase(id, names)[|id| + 1..] == Join("_", h);
  }

  /** Lines 428-430: the HTML file and the attachment directory of a chat. */
  function HtmlPath(env: Env, base: string): string { PathJoin(env.destDir, base + ".html") }
  function AttachmentDir(env: Env, base: string): string { PathJoin(env.destDir, base) }

  // ----------------------------------------------------------------- message

  /** Lines 440-445: the sender line; a handle missing from the handle map raises. */
  function SenderPart(t: Tables, m: MessageRow): (r: Option<Part>)
    ensures r.None? <==> m.isFromMe == 0 && m.handleId !in t.handles
    ensures r.Some? ==> (r.value.SenderMe? || r.value.SenderThem?) && r.value.service == m.service
    ensures r.Some? ==> (r.value.SenderMe? <==> m.isFromMe != 0)
    ensures r.Some? && m.isFromMe == 0 ==>
      r.value.SenderThem? && r.value.contact == t.handles[m.handleId] && r.value.name == Lookup(t.contacts, r.value.contact)
  {
    if m.isFromMe != 0 then Some(SenderMe(m.service))
    else if m.handleId in t.handles then
      var contact := t.handles[m.handleId];
      Some(SenderThem(Lookup(t.contacts, contact), contact, m.service))
    else None
  }

  /** Lines 451-455: the text line, with every newline rendered as `<br>`. */
  function TextPart(time: string, text: Option<string>): (r: Part)
    ensures text.None? ==> r == SentNoText(time)
    ensures text.Some? ==> r == SentText(time, Substitute(text.value, '\n', "<br>")) && '\n' !in r.body
  {
    match text
    case None => SentNoText(time)
    case Some(s) =>
      JoinSplit(s, '\n', "<br>");
      SentText(time, Join("<br>", Split(s, '\n')))
  }

  /** Python's `s[0:2]`. */
  function Prefix2(s: string): string {
    if |s| < 2 then s else s[..2]
  }

  function FlatPath(env: Env, key: string): string { PathJoin(env.backupDir, key) }
  function NestedPath(env: Env, key: string): string { PathJoin(PathJoin(env.backupDir, Prefix2(key)), key) }

  /**
   * Lines 462-465: the backup file is looked for directly under the backup
   * directory first, then under the subdirectory named by its first two characters.
   */
  function Locate(env: Env, key: string): (r: Option<string>)
    ensures FlatPath(env, key) in env.present ==> r == Some(FlatPath(env, key))
    ensures FlatPath(env, key) !in env.present && NestedPath(env, key) in env.present ==> r == Some(NestedPath(env, key))
    ensures r.None? <==> FlatPath(env, key) !in env.present && NestedPath(env, key) !in env.present
    ensures r.Some? ==> r.value in env.present
  {
    if FlatPath(env, key) in env.present then Some(FlatPath(env, key))
    else if NestedPath(env, key) in env.present then Some(NestedPath(env, key))
    else None
  }

  /** Line 461. */
  function UniqueName(entry: (string, string)): string { entry.0 + "-" + entry.1 }

  /** Line 472: the lower-cased text after the last '.' is a known image extension. */
  predicate IsImage(unique: string) {
    Lower(Last(Split(unique, '.'))) in ImageExtensions
  }

  /** Reference definition: the text after the last '.', or all of `s` when it has none. */
  function Extension(s: string): string {
    if '.' !in s then s else Extension(s[1..])
  }

  /** `s.split('.')[-1]` is the text after the last '.'. */
  lemma {:induction false} LastSegmentIsExtension(s: string)
    ensures Last(Split(s, '.')) == Extension(s)
  {
    if '.' in s {
      var t := s[1..];
      if s[0] != '.' {
        assert '.' in t;
        SplitAvoids(t, '.');
      }
      SplitLastStep(s, '.');
      LastSegmentIsExtension(t);
    }
  }

  /** An attachment is shown as an image exactly when its lower-cased extension is one of the image extensions. */
  lemma IsImageByExtension(unique: string)
    ensures IsImage(unique) <==> Lower(Extension(unique)) in ImageExtensions
  {
    LastSegmentIsExtension(unique);
  }

  /** What one attachment adds: the files it copies and the lines it renders. */
  datatype Step = Step(copies: seq<Effect>, parts: seq<Part>)

  predicate HasImage(parts: seq<Part>) {
    exists i :: 0 <= i < |parts| && parts[i].Image?
  }

  predicate OnlyCopies(effects: seq<Effect>) {
    forall i :: 0 <= i < |effects| ==> effects[i].Copy?
  }

  predicate NoReadAt(parts: seq<Part>) {
    forall i :: 0 <= i < |parts| ==> !parts[i].ReadAt?
  }

  /**
   * Lines 461-476 for one attachment: a file found in neither place renders a
   * "missing" line and nothing else; a found file is copied into the chat's
   * attachment directory (a copy that raises ends the message), then rendered as
   * an image, when its name says so, and as a link.
   */
  function RenderAttachment(env: Env, base: string, dir: string, entry: (string, string)): (r: Option<Step>)
    ensures Locate(env, entry.0).None? ==> r == Some(Step([], [Missing(UniqueName(entry))]))
    ensures r.None? <==> Locate(env, entry.0).Some? && Locate(env, entry.0).value in env.uncopyable
    ensures r.Some? && Locate(env, entry.0).Some? ==>
      r.value.copies == [Copy(Locate(env, entry.0).value, PathJoin(dir, UniqueName(entry)))]
    ensures r.Some? ==> (HasImage(r.value.parts) <==> Locate(env, entry.0).Some? && IsImage(UniqueName(entry)))
    ensures r.Some? && Locate(env, entry.0).Some? ==>
      var link := PathJoin(base, UniqueName(entry));
      r.value.parts == (if IsImage(UniqueName(entry)) then [Image(link)] else []) + [Link(link, UniqueName(entry))]
    ensures r.Some? ==> OnlyCopies(r.value.copies) && NoReadAt(r.value.parts)
  {
    var unique := UniqueName(entry);
    match Locate(env, entry.0)
    case None => Some(Step([], [Missing(unique)]))
    case Some(from) =>
      if from in env.uncopyable then None
      else
        var link := PathJoin(base, unique);
        var parts := (if IsImage(unique) then [Image(link)] else []) + [Link(link, unique)];
        assert HasImage(parts) ==> IsImage(unique);
        assert IsImage(unique) ==> parts[0].Image?;
        Some(Step([Copy(from, PathJoin(dir, unique))], parts))
  }

  /** The attachments rendered so far, and whether none of them has raised. */
  datatype Rendered = Rendered(copies: seq<Effect>, parts: seq<Part>, ok: bool)

  /** The attachment loop of lines 460-476: a copy that raises ends it, keeping the copies made before. */
  function AttachmentsOutput(env: Env, base: string, dir: string, entries: seq<(string, string)>): (r: Rendered)
    ensures OnlyCopies(r.copies) && NoReadAt(r.parts)
  {
    if entries == [] then Rendered([], [], true)
    else
      var prev := AttachmentsOutput(env, base, dir, entries[..|entries| - 1]);
      if !prev.ok then prev
      else
        match RenderAttachment(env, base, dir, entries[|entries| - 1])
        case None => prev.(ok := false)
        case Some(step) => Rendered(prev.copies + step.copies, prev.parts + step.parts, true)
  }

  /** Once an attachment has raised, the later ones change nothing. */
  lemma {:induction false} AttachmentsStop(env: Env, base: string, dir: string, entries: seq<(string, string)>, n: nat)
    requires n <= |entries|
    requires !AttachmentsOutput(env, base, dir, entries[..n]).ok
    ensures AttachmentsOutput(env, base, dir, entries) == AttachmentsOutput(env, base, dir, entries[..n])
  {
    if n < |entries| {
      var prev := entries[..|entries| - 1];
      assert prev[..n] == entries[..n];
      AttachmentsStop(env, base, dir, prev, n);
    } else {
      assert entries[..n] == entries;
    }
  }

  /** A missing attachment does not stop the loop: its "missing" line is added and the next one is processed. */
  lemma MissingContinues(env: Env, base: string, dir: string, entries: seq<(string, string)>, e: (string, string))
    requires AttachmentsOutput(env, base, dir, entries).ok
    requires Locate(env, e.0).None?
    ensures var prev := AttachmentsOutput(env, base, dir, entries);
      AttachmentsOutput(env, base, dir, entries + [e]) == prev.(parts := prev.parts + [Missing(UniqueName(e))])
  {
    assert (entries + [e])[..|entries|] == entries;
  }

  /**
   * Lines 460-476 as `main` runs them: the attachments of one message, until a copy
   * raises (then `ok` is false and the copies made before it are kept).
   */
  method RenderAttachments(env: Env, base: string, dir: string, entries: seq<(string, string)>)
    returns (copies: seq<Effect>, parts: seq<Part>, ok: bool)
    ensures Rendered(copies, parts, ok) == AttachmentsOutput(env, base, dir, entries)
  {
    copies, parts, ok := [], [], true;
    for i := 0 to |entries|
      invariant AttachmentsOutput(env, base, dir, entries[..i]) == Rendered(copies, parts, true)
    {
      AttachmentsNext(env, base, dir, entries, i);
      var entry := entries[i];
      var unique := entry.0 + "-" + entry.1;
      var from := PathJoin(env.backupDir, entry.0);
      if from !in env.present {
        from := PathJoin(PathJoin(env.backupDir, Prefix2(entry.0)), entry.0);
        if from !in env.present {
          assert RenderAttachment(env, base, dir, entry) == Some(Step([], [Missing(unique)]));
          parts := parts + [Missing(unique)];
          continue;
        }
      }
      assert Locate(env, entry.0) == Some(from);
      if from in env.uncopyable {
        ok := false;
        AttachmentsStop(env, base, dir, entries, i + 1);
        return;
      }
      var link := PathJoin(base, unique);
      ghost var added := (if IsImage(unique) then [Image(link)] else []) + [Link(link, unique)];
      assert RenderAttachment(env, base, dir, entry) == Some(Step([Copy(from, PathJoin(dir, unique))], added));
      ghost var before := parts;
      copies := copies + [Copy(from, PathJoin(dir, unique))];
      if IsImage(unique) {
        parts := parts + [Image(link)];
      }
      parts := parts + [Link(link, unique)];
      assert parts == before + added;
    }
    assert entries[..|entries|] == entries;
  }

  /** One more attachment, while none has raised: that attachment's step decides. */
  lemma AttachmentsNext(env: Env, base: string, dir: string, entries: seq<(string, string)>, i: int)
    requires 0 <= i < |entries|
    requires AttachmentsOutput(env, base, dir, entries[..i]).ok
    ensures var prev := AttachmentsOutput(env, base, dir, entries[..i]);
      AttachmentsOutput(env, base, dir, entries[..i + 1]) ==
        match RenderAttachment(env, base, dir, entries[i])
        case None => prev.(ok := false)
        case Some(step) => Rendered(prev.copies + step.copies, prev.parts + step.parts, true)
  {
    assert entries[..i + 1][..i] == entries[..i];
  }

  /** Line 479: the read time is shown only for a read iMessage with a known read date. */
  predicate ShowsReadTime(m: MessageRow) {
    m.service == "iMessage" && m.isRead == 1 && m.dateRead != 0
  }

  /** The files one message copies, and its block of lines unless something in it raised. */
  datatype MessageOutcome = MessageOutcome(copies: seq<Effect>, block: Option<seq<Part>>)

  function AttachmentsOf(t: Tables, env: Env, base: string, dir: string, m: MessageRow): Rendered {
    if m.messageId in t.attachments then AttachmentsOutput(env, base, dir, t.attachments[m.messageId])
    else Rendered([], [], true)
  }

  /**
   * Lines 436-487 for one message: the sender line, the text line, the
   * attachment lines, then the read-time line. Anything that raises on the way
   * (an unknown handle, a date `localtime` rejects, a failed copy) leaves the
   * message without a block; the copies made before that stay made.
   */
  function MessageOutput(t: Tables, env: Env, base: string, dir: string, m: MessageRow): (r: MessageOutcome)
    ensures OnlyCopies(r.copies)
  {
    match SenderPart(t, m)
    case None => MessageOutcome([], None)
    case Some(sender) =>
      match env.format(MagicDate + m.date)
      case None => MessageOutcome([], None)
      case Some(sent) =>
        var head := [sender, TextPart(sent, m.text)];
        var att := AttachmentsOf(t, env, base, dir, m);
        if !att.ok then MessageOutcome(att.copies, None)
        else if ShowsReadTime(m) then
          match env.format(MagicDate + m.dateRead)
          case None => MessageOutcome(att.copies, None)
          case Some(read) => MessageOutcome(att.copies, Some(head + att.parts + [ReadAt(read)]))
        else MessageOutcome(att.copies, Some(head + att.parts))
  }

  /**
   * Lines 436-487 as `main` runs them for one message: the lines are collected
   * in `parts` and only become a block once nothing has raised; copies already
   * made stay made.
   */
  method RenderMessage(t: Tables, env: Env, base: string, dir: string, m: MessageRow)
    returns (copies: seq<Effect>, block: Option<seq<Part>>)
    ensures MessageOutcome(copies, block) == MessageOutput(t, env, base, dir, m)
  {
    copies, block := [], None;
    var parts: seq<Part> := [];
    if m.isFromMe != 0 {
      parts := parts + [SenderMe(m.service)];
    } else {
      if m.handleId !in t.handles {
        return;
      }
      var contact := t.handles[m.handleId];
      parts := parts + [SenderThem(Lookup(t.contacts, contact), contact, m.service)];
    }
    var sent := env.format(MagicDate + m.date);
    if sent.None? {
      return;
    }
    if m.text.None? {
      parts := parts + [SentNoText(sent.value)];
    } else {
      parts := parts + [SentText(sent.value, Join("<br>", Split(m.text.value, '\n')))];
    }
    ghost var head := parts;
    assert head == [SenderPart(t, m).value, TextPart(sent.value, m.text)];
    ghost var att := AttachmentsOf(t, env, base, dir, m);
    if m.messageId in t.attachments {
      var shown, ok;
      copies, shown, ok := RenderAttachments(env, base, dir, t.attachments[m.messageId]);
      if !ok {
        return;
      }
      parts := parts + shown;
    } else {
      assert head + att.parts == head;
    }
    assert att.ok && parts == head + att.parts && copies == att.copies;
    if m.service == "iMessage" && m.isRead == 1 && m.dateRead != 0 {
      var read := env.format(MagicDate + m.dateRead);
      if read.None? {
        return;
      }
      parts := parts + [ReadAt(read.value)];
    }
    block := Some(parts);
  }

  predicate HasReadAt(parts: seq<Part>) {
    exists i :: 0 <= i < |parts| && parts[i].ReadAt?
  }

  /** A rendered block carries a read-time line exactly when the message is a read iMessage with a read date. */
  lemma ReadTimeShownIff(t: Tables, env: Env, base: string, dir: string, m: MessageRow)
    requires MessageOutput(t, env, base, dir, m).block.Some?
    ensures HasReadAt(MessageOutput(t, env, base, dir, m).block.value) <==> ShowsReadTime(m)
  {
    var b := MessageOutput(t, env, base, dir, m).block.value;
    var att := AttachmentsOf(t, env, base, dir, m);
    assert b[0].SenderMe? || b[0].SenderThem?;
    assert b[1].SentText? || b[1].SentNoText?;
    assert forall i :: 2 <= i < 2 + |att.parts| ==> b[i] == att.parts[i - 2];
    if ShowsReadTime(m) {
      assert b[|b| - 1].ReadAt?;
    } else {
      assert |b| == 2 + |att.parts|;
    }
  }

  /**
   * What one message produces: the copies of its attachment loop (none when the
   * sender or the date raised first), and a block made of the sender line, the
   * text line, every attachment line and, where it is shown, the read-time line.
   */
  lemma MessageOutputParts(t: Tables, env: Env, base: string, dir: string, m: MessageRow)
    ensures var o := MessageOutput(t, env, base, dir, m);
      var att := AttachmentsOf(t, env, base, dir, m);
      && o.copies == (if SenderPart(t, m).Some? && env.format(MagicDate + m.date).Some? then att.copies else [])
      && (o.block.Some? ==>
            o.block.value ==
              [SenderPart(t, m).value, TextPart(env.format(MagicDate + m.date).value, m.text)] + att.parts +
              (if ShowsReadTime(m) then [ReadAt(env.format(MagicDate + m.dateRead).value)] else []))
  {
  }

  /**
   * A message gets its block exactly when nothing in it raises: its handle is
   * known (or it is one's own), `localtime` accepts its date, no attachment copy
   * fails, and `localtime` accepts its read date where that is shown.
   */
  lemma BlockIffNothingRaises(t: Tables, env: Env, base: string, dir: string, m: MessageRow)
    ensures MessageOutput(t, env, base, dir, m).block.Some? <==>
      && (m.isFromMe != 0 || m.handleId in t.handles)
      && env.format(MagicDate + m.date).Some?
      && AttachmentsOf(t, env, base, dir, m).ok
      && (ShowsReadTime(m) ==> env.format(MagicDate + m.dateRead).Some?)
  {
  }

  /** A message starts with its sender line and its text line, and the sender line names the service. */
  lemma BlockStartsWithSenderAndText(t: Tables, env: Env, base: string, dir: string, m: MessageRow)
    requires MessageOutput(t, env, base, dir, m).block.Some?
    ensures var b := MessageOutput(t, env, base, dir, m).block.value;
      && |b| >= 2
      && (m.isFromMe != 0 ==> b[0] == SenderMe(m.service))
      && (m.isFromMe == 0 ==>
            && m.handleId in t.handles
            && b[0] == SenderThem(Lookup(t.contacts, t.handles[m.handleId]), t.handles[m.handleId], m.service))
      && b[1] == TextPart(env.format(MagicDate + m.date).value, m.text)
  {
  }

  /** The effects of one message: its copies, then its block if it has one. */
  function MessageEffects(file: string, o: MessageOutcome): seq<Effect> {
    o.copies + (if o.block.Some? then [WriteBlock(file, o.block.value)] else [])
  }

  /** What the message loop does with one message. */
  function MessageStep(t: Tables, env: Env, base: string, dir: string, file: string): MessageRow -> seq<Effect> {
    (m: MessageRow) => MessageEffects(file, MessageOutput(t, env, base, dir, m))
  }

  /** The message loop of lines 435-491: each message's effects, in order. */
  function MessagesOutput(t: Tables, env: Env, base: string, dir: string, file: string, msgs: seq<MessageRow>): seq<Effect> {
    FlatMap(msgs, MessageStep(t, env, base, dir, file))
  }

  /** One more message appends that message's effects. */
  lemma MessagesStep(t: Tables, env: Env, base: string, dir: string, file: string, msgs: seq<MessageRow>, i: int)
    requires 0 <= i < |msgs|
    ensures MessagesOutput(t, env, base, dir, file, msgs[..i + 1]) ==
      MessagesOutput(t, env, base, dir, file, msgs[..i]) + MessageEffects(file, MessageOutput(t, env, base, dir, msgs[i]))
  {
    FlatMapStep(msgs, MessageStep(t, env, base, dir, file), i);
  }

  /**
   * Messages do not affect one another (the `try` of lines 436-491): the output of
   * a conversation is the output of its first part followed by that of the rest.
   */
  lemma MessagesIsolated(t: Tables, env: Env, base: string, dir: string, file: string, a: seq<MessageRow>, b: seq<MessageRow>)
    ensures MessagesOutput(t, env, base, dir, file, a + b) ==
      MessagesOutput(t, env, base, dir, file, a) + MessagesOutput(t, env, base, dir, file, b)
  {
    FlatMapAppend(a, b, MessageStep(t, env, base, dir, file));
  }

  /** The message loop only copies attachments and writes blocks: it makes no directory. */
  lemma {:induction false} MessagesWriteOnly(t: Tables, env: Env, base: string, dir: string, file: string, msgs: seq<MessageRow>)
    ensures forall i :: 0 <= i < |MessagesOutput(t, env, base, dir, file, msgs)| ==>
      MessagesOutput(t, env, base, dir, file, msgs)[i].Copy? || MessagesOutput(t, env, base, dir, file, msgs)[i].WriteBlock?
    ensures DirsMade(MessagesOutput(t, env, base, dir, file, msgs)) == []
  {
    var r := MessagesOutput(t, env, base, dir, file, msgs);
    if msgs != [] {
      var prev := MessagesOutput(t, env, base, dir, file, msgs[..|msgs| - 1]);
      var last := MessageEffects(file, MessageOutput(t, env, base, dir, msgs[|msgs| - 1]));
      MessagesWriteOnly(t, env, base, dir, file, msgs[..|msgs| - 1]);
      assert r == prev + last;
      forall i | 0 <= i < |r|
        ensures r[i].Copy? || r[i].WriteBlock?
      {
        if i >= |prev| {
          assert r[i] == last[i - |prev|];
        }
      }
    }
    NoDirsInMessages(r);
  }

  /** A message that raises writes no block: its only effects are the copies made before the error. */
  lemma FailedMessageWritesNothing(t: Tables, env: Env, base: string, dir: string, file: string, m: MessageRow)
    requires MessageOutput(t, env, base, dir, m).block.None?
    ensures MessagesOutput(t, env, base, dir, file, [m]) == MessageOutput(t, env, base, dir, m).copies
    ensures OnlyCopies(MessagesOutput(t, env, base, dir, file, [m]))
  {
    MessagesStep(t, env, base, dir, file, [m], 0);
    assert [m][..1] == [m];
    assert [m][..0] == [];
  }

  // ------------------------------------------------------------------- chats

  /**
   * Lines 420-493 for one conversation: resolve the participants, make the
   * attachment directory (which raises if the path exists already), write the
   * header, every message's output and the footer.
   */
  function ChatOutput(t: Tables, env: Env, made: set<string>, id: string, msgs: seq<MessageRow>): (r: Result<seq<Effect>, Fatal>)
    ensures r.Success? ==> Participants(t, id).Success?
    ensures r.Success? ==>
      var base := FileBase(id, Participants(t, id).value);
      && |r.value| >= 3
      && r.value[0] == MakeDir(AttachmentDir(env, base))
      && AttachmentDir(env, base) !in env.present && AttachmentDir(env, base) !in made
      && r.value[1] == WriteHeader(HtmlPath(env, base), Participants(t, id).value)
      && r.value[|r.value| - 1] == WriteFooter(HtmlPath(env, base))
      && r.value[2..|r.value| - 1] == MessagesOutput(t, env, base, AttachmentDir(env, base), HtmlPath(env, base), msgs)
    ensures Participants(t, id).Failure? ==> r == Failure(Participants(t, id).error)
    ensures Participants(t, id).Success? ==>
      var dir := AttachmentDir(env, FileBase(id, Participants(t, id).value));
      && (r.Success? <==> dir !in env.present && dir !in made)
      && (r.Failure? ==> r.error == DirExists(dir))
  {
    match Participants(t, id)
    case Failure(f) => Failure(f)
    case Success(names) =>
      var base := FileBase(id, names);
      var dir := AttachmentDir(env, base);
      var file := HtmlPath(env, base);
      if dir in env.present || dir in made then Failure(DirExists(dir))
      else
        var body := MessagesOutput(t, env, base, dir, file, msgs);
        var r := [MakeDir(dir), WriteHeader(file, names)] + body + [WriteFooter(file)];
        assert r[2..|r| - 1] == body;
        Success(r)
  }

  /**
   * Lines 435-491 as `main` runs them: each message's copies, then its block when
   * nothing in it raised.
   */
  method RenderMessages(t: Tables, env: Env, base: string, dir: string, file: string, msgs: seq<MessageRow>)
    returns (effects: seq<Effect>)
    ensures effects == MessagesOutput(t, env, base, dir, file, msgs)
  {
    effects := [];
    for i := 0 to |msgs|
      invariant effects == MessagesOutput(t, env, base, dir, file, msgs[..i])
    {
      MessagesStep(t, env, base, dir, file, msgs, i);
      var copies, block := RenderMessage(t, env, base, dir, msgs[i]);
      effects := effects + copies;
      if block.Some? {
        effects := effects + [WriteBlock(file, block.value)];
      }
    }
    assert msgs[..|msgs|] == msgs;
  }

  /** Lines 420-493 as `main` runs them for one conversation. */
  method RenderChat(t: Tables, env: Env, made: set<string>, id: string, msgs: seq<MessageRow>)
    returns (r: Result<seq<Effect>, Fatal>)
    ensures r == ChatOutput(t, env, made, id, msgs)
  {
    var participants := Participants(t, id);
    if participants.Failure? {
      return Failure(participants.error);
    }
    var names := participants.value;
    var base := FileBase(id, names);
    var file := HtmlPath(env, base);
    var dir := AttachmentDir(env, base);
    if dir in env.present || dir in made {
      return Failure(DirExists(dir));
    }
    var body := RenderMessages(t, env, base, dir, file, msgs);
    var effects := [MakeDir(dir), WriteHeader(file, names)] + body + [WriteFooter(file)];
    return Success(effects);
  }

  /** The paths an effect creates. */
  function CreatedBy(e: Effect): set<string> {
    match e
    case MakeDir(p) => {p}
    case WriteHeader(f, _) => {f}
    case Copy(_, target) => {target}
    case _ => {}
  }

  /** The paths a sequence of effects creates. */
  function Created(effects: seq<Effect>): set<string> {
    if effects == [] then {} else Created(effects[..|effects| - 1]) + CreatedBy(effects[|effects| - 1])
  }

  /** The directories a sequence of effects makes, in order. */
  function DirsMade(effects: seq<Effect>): seq<string> {
    if effects == [] then []
    else
      var last := effects[|effects| - 1];
      DirsMade(effects[..|effects| - 1]) + (if last.MakeDir? then [last.path] else [])
  }

  lemma {:induction false} CreatedAppend(a: seq<Effect>, b: seq<Effect>)
    ensures Created(a + b) == Created(a) + Created(b)
    ensures DirsMade(a + b) == DirsMade(a) + DirsMade(b)
  {
    if b != [] {
      var b' := b[..|b| - 1];
      assert (a + b)[..|a + b| - 1] == a + b';
      CreatedAppend(a, b');
    } else {
      assert a + b == a;
    }
  }

  lemma {:induction false} DirsMadeCreated(effects: seq<Effect>)
    ensures forall p :: p in DirsMade(effects) ==> p in Created(effects)
  {
    if effects != [] {
      DirsMadeCreated(effects[..|effects| - 1]);
    }
  }

  lemma {:induction false} NoDirsInMessages(effects: seq<Effect>)
    requires forall i :: 0 <= i < |effects| ==> effects[i].Copy? || effects[i].WriteBlock?
    ensures DirsMade(effects) == []
  {
    if effects != [] {
      NoDirsInMessages(effects[..|effects| - 1]);
    }
  }

  // --------------------------------------------------------------------- run

  /** Lines 409-410: the destination directory is made when it does not exist. */
  function Startup(env: Env): (r: seq<Effect>)
    ensures env.destDir in env.present || env.destDir in Created(r)
    ensures NoDups(DirsMade(r)) && forall p :: p in DirsMade(r) ==> p !in env.present
    ensures forall i :: 0 <= i < |r| ==> r[i].MakeDir?
  {
    if env.destDir in env.present then []
    else
      assert [MakeDir(env.destDir)][..0] == [];
      [MakeDir(env.destDir)]
  }

  /** All effects of the run so far, and the exception that ended it, if one did. */
  datatype RunOutcome = RunOutcome(effects: seq<Effect>, fatal: Option<Fatal>)

  predicate Known(t: Tables, order: seq<string>) {
    forall i :: 0 <= i < |order| ==> order[i] in t.conversations
  }

  /** The conversation loop of lines 419-493, in the order the dictionary yields its keys. */
  function RunOutput(t: Tables, env: Env, order: seq<string>): RunOutcome
    requires Known(t, order)
  {
    if order == [] then RunOutcome(Startup(env), None)
    else
      var id := order[|order| - 1];
      var prev := RunOutput(t, env, order[..|order| - 1]);
      if prev.fatal.Some? then prev
      else
        match ChatOutput(t, env, Created(prev.effects), id, t.conversations[id])
        case Failure(f) => RunOutcome(prev.effects, Some(f))
        case Success(effects) => RunOutcome(prev.effects + effects, None)
  }

  /** The next conversation of a run that has not ended. */
  lemma RunNext(t: Tables, env: Env, order: seq<string>, i: int)
    requires Known(t, order)
    requires 0 <= i < |order|
    ensures Known(t, order[..i]) && Known(t, order[..i + 1])
    ensures var prev := RunOutput(t, env, order[..i]);
      prev.fatal.None? ==>
        match ChatOutput(t, env, Created(prev.effects), order[i], t.conversations[order[i]])
        case Failure(f) => RunOutput(t, env, order[..i + 1]) == RunOutcome(prev.effects, Some(f))
        case Success(e) => RunOutput(t, env, order[..i + 1]) == RunOutcome(prev.effects + e, None)
  {
    assert order[..i + 1][..i] == order[..i];
  }

  /** `a` is a beginning of `b`. */
  predicate IsPrefix<T(==)>(a: seq<T>, b: seq<T>) {
    |a| <= |b| && b[..|a|] == a
  }

  /** One more conversation only appends effects, and none once the run has ended. */
  lemma RunStep(t: Tables, env: Env, order: seq<string>)
    requires Known(t, order)
    requires order != []
    ensures Known(t, order[..|order| - 1])
    ensures IsPrefix(RunOutput(t, env, order[..|order| - 1]).effects, RunOutput(t, env, order).effects)
    ensures RunOutput(t, env, order[..|order| - 1]).fatal.Some? ==>
      RunOutput(t, env, order) == RunOutput(t, env, order[..|order| - 1])
  {
    var prev := RunOutput(t, env, order[..|order| - 1]);
    assert prev.effects == (prev.effects + [])[..|prev.effects|];
  }

  /** Nothing the run has done is undone: a run's effects extend those of each of its beginnings. */
  lemma {:induction false} RunOnlyAppends(t: Tables, env: Env, order: seq<string>, n: nat)
    requires Known(t, order)
    requires n <= |order|
    ensures Known(t, order[..n])
    ensures IsPrefix(RunOutput(t, env, order[..n]).effects, RunOutput(t, env, order).effects)
    ensures RunOutput(t, env, order[..n]).fatal.Some? ==> RunOutput(t, env, order) == RunOutput(t, env, order[..n])
  {
    if n == |order| {
      assert order[..n] == order;
    } else {
      var prev := order[..|order| - 1];
      assert prev[..n] == order[..n];
      RunStep(t, env, order);
      RunOnlyAppends(t, env, prev, n);
      var a := RunOutput(t, env, order[..n]).effects;
      var b := RunOutput(t, env, prev).effects;
      var c := RunOutput(t, env, order).effects;
      assert c[..|b|][..|a|] == c[..|a|];
    }
  }

  /** A conversation's output makes exactly one directory, its attachment directory. */
  lemma ChatMakesOneDir(t: Tables, env: Env, made: set<string>, id: string, msgs: seq<MessageRow>)
    requires ChatOutput(t, env, made, id, msgs).Success?
    ensures var dir := AttachmentDir(env, FileBase(id, Participants(t, id).value));
      DirsMade(ChatOutput(t, env, made, id, msgs).value) == [dir] && dir !in made && dir !in env.present
  {
    var c := ChatOutput(t, env, made, id, msgs).value;
    var base := FileBase(id, Participants(t, id).value);
    var dir := AttachmentDir(env, base);
    var body := MessagesOutput(t, env, base, dir, HtmlPath(env, base), msgs);
    assert c[2..|c| - 1] == body;
    assert forall i :: 2 <= i < |c| - 1 ==> c[i].Copy? || c[i].WriteBlock? by {
      MessagesWriteOnly(t, env, base, dir, HtmlPath(env, base), msgs);
      forall i | 2 <= i < |c| - 1
        ensures c[i].Copy? || c[i].WriteBlock?
      {
        assert c[i] == body[i - 2];
      }
    }
    DirsOfChat(c, dir);
  }

  /** Effects shaped like a conversation's (a directory, a header, copies and blocks, a footer) make that one directory. */
  lemma DirsOfChat(c: seq<Effect>, dir: string)
    requires |c| >= 3 && c[0] == MakeDir(dir) && c[1].WriteHeader? && c[|c| - 1].WriteFooter?
    requires forall i :: 2 <= i < |c| - 1 ==> c[i].Copy? || c[i].WriteBlock?
    ensures DirsMade(c) == [dir]
  {
    var head, body, foot := c[..2], c[2..|c| - 1], [c[|c| - 1]];
    assert c == head + body + foot;
    CreatedAppend(head, body);
    CreatedAppend(head + body, foot);
    assert forall i :: 0 <= i < |body| ==> body[i] == c[i + 2];
    NoDirsInMessages(body);
    assert DirsMade(head) == [dir] by {
      assert head[..1] == [MakeDir(dir)];
      assert [MakeDir(dir)][..0] == [];
    }
    assert DirsMade(foot) == [] by {
      assert foot[..0] == [];
    }
  }

  /**
   * No directory is made twice, and none that existed before the run: `os.mkdir`
   * on an existing path raises, which ends the run instead.
   */
  lemma {:induction false} RunMakesFreshDirs(t: Tables, env: Env, order: seq<string>)
    requires Known(t, order)
    ensures NoDups(DirsMade(RunOutput(t, env, order).effects))
    ensures forall p :: p in DirsMade(RunOutput(t, env, order).effects) ==> p !in env.present
  {
    if order == [] {
      if env.destDir !in env.present {
        assert Startup(env)[..0] == [];
      }
    } else {
      var id := order[|order| - 1];
      var prefix := order[..|order| - 1];
      var prev := RunOutput(t, env, prefix);
      RunMakesFreshDirs(t, env, prefix);
      if prev.fatal.None? {
        var c := ChatOutput(t, env, Created(prev.effects), id, t.conversations[id]);
        if c.Success? {
          FreshChatDir(t, env, prev.effects, id);
          assert RunOutput(t, env, order).effects == prev.effects + c.value;
        }
      }
    }
  }

  /** Appending a directory made by one more conversation keeps the directories distinct and new. */
  lemma FreshChatDir(t: Tables, env: Env, before: seq<Effect>, id: string)
    requires id in t.conversations
    requires NoDups(DirsMade(before))
    requires forall p :: p in DirsMade(before) ==> p !in env.present
    requires ChatOutput(t, env, Created(before), id, t.conversations[id]).Success?
    ensures var after := before + ChatOutput(t, env, Created(before), id, t.conversations[id]).value;
      && NoDups(DirsMade(after))
      && forall p :: p in DirsMade(after) ==> p !in env.present
  {
    var c := ChatOutput(t, env, Created(before), id, t.conversations[id]).value;
    var dir := AttachmentDir(env, FileBase(id, Participants(t, id).value));
    ChatMakesOneDir(t, env, Created(before), id, t.conversations[id]);
    CreatedAppend(before, c);
    DirsMadeCreated(before);
    AppendFresh(DirsMade(before), dir);
  }

  /** Appending an element not yet present keeps a sequence free of duplicates. */
  lemma AppendFresh(xs: seq<string>, x: string)
    requires NoDups(xs) && x !in xs
    ensures NoDups(xs + [x])
  {
  }

  /** The keys of the conversation dictionary, each once, in the order `iteritems` yields them. */
  predicate Enumerates(order: seq<string>, keys: set<string>) {
    && NoDups(order)
    && (forall i :: 0 <= i < |order| ==> order[i] in keys)
    && (forall k :: k in keys ==> k in order)
  }

  /**
   * Lines 409-410 and 419-493: make the destination directory when it is missing,
   * then render each conversation until one raises. `created` stands for the
   * paths the run has made so far, which `os.mkdir` would find.
   */
  method Archive(t: Tables, env: Env, order: seq<string>) returns (effects: seq<Effect>, fatal: Option<Fatal>)
    requires Enumerates(order, t.conversations.Keys)
    ensures RunOutcome(effects, fatal) == RunOutput(t, env, order)
    ensures NoDups(DirsMade(effects))
    ensures forall p :: p in DirsMade(effects) ==> p !in env.present
  {
    effects, fatal := [], None;
    if env.destDir !in env.present {
      effects := [MakeDir(env.destDir)];
    }
    var created := Created(effects);
    for i := 0 to |order|
      invariant Known(t, order[..i])
      invariant RunOutcome(effects, None) == RunOutput(t, env, order[..i])
      invariant created == Created(effects)
    {
      RunNext(t, env, order, i);
      var id := order[i];
      var r := RenderChat(t, env, created, id, t.conversations[id]);
      if r.Failure? {
        fatal := Some(r.error);
        RunOnlyAppends(t, env, order, i + 1);
        RunMakesFreshDirs(t, env, order);
        return;
      }
      CreatedAppend(effects, r.value);
      effects := effects + r.value;
      created := created + Created(r.value);
    }
    assert order[..|order|] == order;
    RunMakesFreshDirs(t, env, order);
  }
}
