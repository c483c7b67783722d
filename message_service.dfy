/**
 * `MessageService`: builds the records for text, voice and media messages,
 * stores them, and completes a voice message once its transcript (and the
 * transcript's translation) is known.
 *
 * Generated ids and timestamps are parameters. The candidate translations
 * a provider call would produce, the transcript the speech service would
 * return and whether the analytics table accepts writes are parameters too.
 */
module MessageService {
  import opened Wrappers
  import opened Text
  import opened ServerTypes
  import opened MessageStore
  import Translation
  import ProviderStats

  /**
   * Why a service call fails; the route turns each into an error response.
   * `UnknownMessage` is the foreign-key failure of a child row whose
   * message is not stored.
   */
  datatype ServiceError = TranslationFailed | DuplicateId | UnknownMessage

  /** The service error a failed child insert surfaces as. */
  function InsertError(outcome: InsertOutcome): ServiceError
    requires outcome != Inserted
  {
    if outcome == DuplicateKey then DuplicateId else UnknownMessage
  }

  // ----------------------------------------------------------- context

  /** A context line: the tone-adjusted text, else the translation, else the original, else "". */
  function ContextLine(m: Message): string {
    match m.row.toneAdjustedText
    case Some(t) => t
    case None =>
      match m.row.translatedText
      case Some(t) => t
      case None => m.row.originalText.OrElse("")
  }

  /** One context line per context message, in the same order. */
  function ContextOf(messages: seq<Message>): (context: seq<string>)
    ensures |context| == |messages|
    ensures forall i :: 0 <= i < |messages| ==> context[i] == ContextLine(messages[i])
  {
    seq(|messages|, i requires 0 <= i < |messages| => ContextLine(messages[i]))
  }

  /**
   * The line is the first stored text of the message in the order
   * tone-adjusted, translated, original, and empty only when that text is
   * empty or the message has none of the three.
   */
  lemma ContextLineSource(m: Message)
    ensures m.row.toneAdjustedText.Some? ==> ContextLine(m) == m.row.toneAdjustedText.value
    ensures m.row.toneAdjustedText.None? && m.row.translatedText.Some? ==>
      ContextLine(m) == m.row.translatedText.value
    ensures m.row.toneAdjustedText.None? && m.row.translatedText.None? && m.row.originalText.Some? ==>
      ContextLine(m) == m.row.originalText.value
    ensures ContextLine(m) in {m.row.toneAdjustedText.OrElse(""), m.row.translatedText.OrElse(""),
                               m.row.originalText.OrElse("")}
  {
  }

  // ------------------------------------------------ direction and locale

  /** Brian writes English, which is translated into Persian; Khadija the other way round. */
  function TextDirection(persona: PersonaId): (d: Direction)
    ensures d == EnToFa <==> persona == Brian
  {
    if persona == Brian then EnToFa else FaToEn
  }

  /** A voice message is translated out of the locale it was recorded in. */
  function VoiceDirection(originalLocale: Locale): (d: Direction)
    ensures SourceLocale(d) == originalLocale
    ensures TargetLocale(d) != originalLocale
  {
    match originalLocale
    case Fa => FaToEn
    case En => EnToFa
  }

  /** The locale a persona writes in. */
  function PersonaLocale(persona: PersonaId): (l: Locale)
    ensures l == SourceLocale(TextDirection(persona))
  {
    if persona == Brian then En else Fa
  }

  /** A media caption has a locale only when it is non-empty. */
  function CaptionLocale(persona: PersonaId, caption: Option<string>): (l: Option<Locale>)
    ensures l.None? <==> caption.None? || caption.value == ""
    ensures l.Some? ==> l.value == PersonaLocale(persona)
  {
    match caption
    case None => None
    case Some(c) => if c == "" then None else Some(PersonaLocale(persona))
  }

  // ------------------------------------------------------------- media

  /** `toPublicUrl` of a path already made relative to the media root. */
  function ToPublicUrl(relative: string): (url: string)
    ensures |url| == |"/media/"| + |relative|
    ensures url[..|"/media/"|] == "/media/"
    ensures forall i :: 0 <= i < |relative| ==>
      url[|"/media/"| + i] == if relative[i] == '\\' then '/' else relative[i]
  {
    "/media/" + ReplaceChar(relative, '\\', '/')
  }

  /** A public URL holds no backslash, and a relative path without one is kept as it is. */
  lemma PublicUrlSlashes(relative: string)
    ensures '\\' !in ToPublicUrl(relative)
    ensures '\\' !in relative ==> ToPublicUrl(relative) == "/media/" + relative
  {
    var url := ToPublicUrl(relative);
    forall i | 0 <= i < |url| ensures url[i] != '\\' {
      if i >= |"/media/"| {
        assert url[i] == url[|"/media/"| + (i - |"/media/"|)];
      } else {
        assert url[i] == url[..|"/media/"|][i];
      }
    }
  }

  /** An uploaded file: its path under the media root, MIME type and kind. */
  datatype UploadedFile = UploadedFile(relativePath: string, mimeType: string, mediaType: MediaType)

  /** The attachment record stored for one uploaded file. */
  function MediaAttachment(messageId: string, file: UploadedFile, attachmentId: string, createdAt: string): Attachment {
    Attachment(attachmentId, messageId, ToPublicUrl(file.relativePath), file.mimeType, file.mediaType, createdAt)
  }

  /** One attachment per file, in file order. */
  function MediaAttachments(messageId: string, files: seq<UploadedFile>, attachmentIds: seq<string>, createdAt: string)
    : (r: seq<Attachment>)
    requires |attachmentIds| == |files|
    ensures |r| == |files|
    ensures forall i :: 0 <= i < |files| ==>
      && r[i].id == attachmentIds[i]
      && r[i].messageId == messageId
      && r[i].uri == ToPublicUrl(files[i].relativePath)
      && r[i].mimeType == files[i].mimeType
      && r[i].mediaType == files[i].mediaType
      && r[i].createdAt == createdAt
  {
    seq(|files|, i requires 0 <= i < |files| => MediaAttachment(messageId, files[i], attachmentIds[i], createdAt))
  }

  // ----------------------------------------------------------- records

  /** The stored record of a translated text message. */
  function TextRecord(id: string, persona: PersonaId, text: string, t: TranslationResult, createdAt: string)
    : (row: MessageRow)
    ensures row.originalLocale == Some(SourceLocale(TextDirection(persona)))
    ensures row.translatedLocale == Some(t.locale)
  {
    MessageRow(id, persona, Some(text), Some(PersonaLocale(persona)), Some(t.translatedText), Some(t.locale),
               Some(t.toneAdjustedText), Some(t.provider), None, None, None, TextKind, createdAt)
  }

  /** The voice record stored before its transcript is known. */
  function VoicePlaceholder(id: string, persona: PersonaId, originalLocale: Locale, audioUrl: string, createdAt: string)
    : MessageRow
  {
    MessageRow(id, persona, None, Some(originalLocale), None, None, None, None, Some(audioUrl), None, None,
               VoiceKind, createdAt)
  }

  /** The single attachment of a voice message. */
  function VoiceAttachment(attachmentId: string, messageId: string, audioUrl: string, createdAt: string): Attachment {
    Attachment(attachmentId, messageId, audioUrl, "audio/m4a", Audio, createdAt)
  }

  /** The record of a media message: the caption as the original text, nothing translated. */
  function MediaRecord(id: string, persona: PersonaId, caption: Option<string>, createdAt: string): MessageRow {
    MessageRow(id, persona, caption, CaptionLocale(persona, caption), None, None, None, None, None, None, None,
               MediaKind, createdAt)
  }

  /**
   * A text record keeps the text as its original, carries the translation,
   * its locale and provider, and has no audio or transcript; its locales
   * are the persona's and the other one.
   */
  lemma TextRecordFields(id: string, persona: PersonaId, text: string, direction: Direction,
                         context: seq<string>, candidates: seq<Translation.Candidate>, createdAt: string)
    requires direction == TextDirection(persona)
    requires Translation.Translation(text, direction, context, candidates).Ok?
    ensures var t := Translation.Translation(text, direction, context, candidates).value;
      var row := TextRecord(id, persona, text, t, createdAt);
      && row.originalText == Some(text)
      && row.originalLocale == Some(if persona == Brian then En else Fa)
      && row.translatedLocale == Some(if persona == Brian then Fa else En)
      && row.translatedText == Some(t.translatedText)
      && row.toneAdjustedText == Some(t.toneAdjustedText)
      && row.translationProvider.Some? && row.translationProvider.value.Provider?
      && row.audioUrl.None? && row.transcriptionText.None? && row.transcriptionConfidence.None?
      && row.messageType == TextKind
  {
  }

  /** A placeholder has its audio URL and locale and nothing textual. */
  lemma PlaceholderFields(id: string, persona: PersonaId, originalLocale: Locale, audioUrl: string, createdAt: string)
    ensures var row := VoicePlaceholder(id, persona, originalLocale, audioUrl, createdAt);
      && row.originalText.None? && row.translatedText.None? && row.translatedLocale.None?
      && row.toneAdjustedText.None? && row.translationProvider.None?
      && row.transcriptionText.None? && row.transcriptionConfidence.None?
      && row.audioUrl == Some(audioUrl) && row.originalLocale == Some(originalLocale)
      && row.messageType == VoiceKind
  {
  }

  /** An empty caption is stored as an empty original text without a locale. */
  lemma EmptyCaption(id: string, persona: PersonaId, createdAt: string)
    ensures MediaRecord(id, persona, Some(""), createdAt).originalText == Some("")
    ensures MediaRecord(id, persona, Some(""), createdAt).originalLocale.None?
  {
  }

  // ---------------------------------------------------------- creation

  /**
   * `createTextMessage`. A failed translation stores nothing; a taken id
   * fails the insert after the translation was recorded in the analytics.
   */
  method CreateTextMessage(db: MessageDatabase, stats: ProviderStats.ProviderStatsTable,
                           persona: PersonaId, text: string, contextMessages: seq<Message>,
                           candidates: seq<Translation.Candidate>, analyticsWritable: bool,
                           id: string, createdAt: string, recordedAt: string)
    returns (r: Result<Message, ServiceError>)
    requires db.Valid() && stats.Valid()
    modifies db, stats
    ensures db.Valid() && stats.Valid()
    ensures var t := Translation.Translation(text, TextDirection(persona), ContextOf(contextMessages), candidates);
      && (t.Err? ==> r == Err(TranslationFailed) && db.messages == old(db.messages))
      && (t.Ok? ==>
            var row := TextRecord(id, persona, text, t.value, createdAt);
            if FindRow(old(db.messages), id).None?
            then r == Ok(Message(row, [], [])) && db.messages == old(db.messages) + [row]
            else r == Err(DuplicateId) && db.messages == old(db.messages))
    ensures var t := Translation.Translation(text, TextDirection(persona), ContextOf(contextMessages), candidates);
      if t.Ok? && analyticsWritable
      then stats.rows == Translation.RecordedRows(old(stats.rows), text, TextDirection(persona),
                                                  ContextOf(contextMessages), candidates, recordedAt)
      else stats.rows == old(stats.rows)
    ensures db.attachments == old(db.attachments) && db.reactions == old(db.reactions)
  {
    var direction := TextDirection(persona);
    var context := ContextOf(contextMessages);
    var t := Translation.Translate(text, direction, context, candidates, stats, analyticsWritable, recordedAt);
    if t.Err? {
      return Err(TranslationFailed);
    }
    var row := TextRecord(id, persona, text, t.value, createdAt);
    var created := db.Create(row);
    if !created {
      return Err(DuplicateId);
    }
    r := Ok(Message(row, [], []));
  }

  /**
   * `createVoiceMessage`, without the post-processing it starts in the
   * background (see `ProcessVoiceMessage`): stores the placeholder and its
   * one audio attachment and returns the placeholder with that attachment.
   */
  method CreateVoiceMessage(db: MessageDatabase, persona: PersonaId, relativePath: string, originalLocale: Locale,
                            id: string, attachmentId: string, createdAt: string)
    returns (r: Result<Message, ServiceError>)
    requires db.Valid()
    modifies db
    ensures db.Valid()
    ensures var url := ToPublicUrl(relativePath);
      var row := VoicePlaceholder(id, persona, originalLocale, url, createdAt);
      var a := VoiceAttachment(attachmentId, id, url, createdAt);
      if FindRow(old(db.messages), id).Some? then
        r == Err(DuplicateId) && db.messages == old(db.messages) && db.attachments == old(db.attachments)
      else
        && db.messages == old(db.messages) + [row]
        && (if exists i :: 0 <= i < |old(db.attachments)| && old(db.attachments)[i].id == attachmentId
            then r == Err(DuplicateId) && db.attachments == old(db.attachments)
            else r == Ok(Message(row, [a], [])) && db.attachments == old(db.attachments) + [a])
    ensures db.reactions == old(db.reactions)
  {
    var url := ToPublicUrl(relativePath);
    var row := VoicePlaceholder(id, persona, originalLocale, url, createdAt);
    var created := db.Create(row);
    if !created {
      return Err(DuplicateId);
    }
    HasIdAppend(old(db.messages), row);
    var a := VoiceAttachment(attachmentId, id, url, createdAt);
    var stored := db.CreateAttachment(a);
    if stored != Inserted {
      return Err(DuplicateId);
    }
    r := Ok(Message(row, [a], []));
  }

  /**
   * Once a voice message is stored on a fresh id, reading it back gives the
   * placeholder with exactly its audio attachment and no reactions.
   */
  lemma VoiceMessageReadBack(messages: seq<MessageRow>, attachments: seq<Attachment>, reactions: seq<Reaction>,
                             row: MessageRow, a: Attachment)
    requires UniqueIds(messages + [row])
    requires a.messageId == row.id
    requires AttachmentsOf(attachments, row.id) == [] && ReactionsOf(reactions, row.id) == []
    ensures FindRow(messages + [row], row.id) == Some(row)
    ensures Assemble(row, attachments + [a], reactions) == Message(row, [a], [])
  {
    FindRowAt(messages + [row], |messages|);
    AttachmentsOfAppend(attachments, a, row.id);
  }

  /** No attachment id is taken, and no two files share one. */
  predicate FreshAttachmentIds(attachments: seq<Attachment>, attachmentIds: seq<string>) {
    && (forall i, j :: 0 <= i < j < |attachmentIds| ==> attachmentIds[i] != attachmentIds[j])
    && (forall i, j :: 0 <= i < |attachments| && 0 <= j < |attachmentIds| ==> attachments[i].id != attachmentIds[j])
  }

  /** With fresh, distinct ids, the next id is not taken by anything stored before it. */
  lemma FreshIdNotTaken(stored: seq<Attachment>, all: seq<Attachment>, ids: seq<string>, n: nat)
    requires n < |ids| && |all| == |ids|
    requires forall i :: 0 <= i < |all| ==> all[i].id == ids[i]
    requires FreshAttachmentIds(stored, ids)
    ensures forall i :: 0 <= i < |stored + all[..n]| ==> (stored + all[..n])[i].id != ids[n]
  {
  }

  /**
   * The `files.map` of `createMediaMessage`: inserts each file's
   * attachment in file order and stops at the first insert that fails,
   * returning how many were stored and, if one failed, how.
   */
  method StoreAttachments(db: MessageDatabase, id: string, files: seq<UploadedFile>, attachmentIds: seq<string>,
                          createdAt: string)
    returns (failed: Option<InsertOutcome>, n: nat)
    requires db.Valid()
    requires |attachmentIds| == |files|
    modifies db
    ensures db.Valid()
    ensures n <= |files| && (failed.None? <==> n == |files|)
    ensures db.attachments == old(db.attachments) + MediaAttachments(id, files, attachmentIds, createdAt)[..n]
    ensures db.messages == old(db.messages) && db.reactions == old(db.reactions)
    ensures failed.Some? ==>
      && failed.value != Inserted
      && (failed.value == DuplicateKey <==>
            exists i :: 0 <= i < |db.attachments| && db.attachments[i].id == attachmentIds[n])
      && (failed.value == UnknownParent ==> !HasId(db.messages, id))
    ensures !HasId(old(db.messages), id) && files != [] ==> n == 0
    ensures HasId(old(db.messages), id) && FreshAttachmentIds(old(db.attachments), attachmentIds) ==> failed.None?
  {
    var all := MediaAttachments(id, files, attachmentIds, createdAt);
    n := 0;
    while n < |files|
      invariant n <= |files|
      invariant db.Valid()
      invariant db.attachments == old(db.attachments) + all[..n]
      invariant db.messages == old(db.messages) && db.reactions == old(db.reactions)
      invariant !HasId(old(db.messages), id) ==> n == 0
    {
      if FreshAttachmentIds(old(db.attachments), attachmentIds) {
        FreshIdNotTaken(old(db.attachments), all, attachmentIds, n);
      }
      var stored := db.CreateAttachment(MediaAttachment(id, files[n], attachmentIds[n], createdAt));
      if stored != Inserted {
        return Some(stored), n;
      }
      assert all[..n + 1] == all[..n] + [all[n]];
      n := n + 1;
    }
    assert all[..|files|] == all;
    failed := None;
  }

  /**
   * `createMediaMessage` as written: stores one attachment per file, in
   * file order, and only then the record. With foreign keys enforced, the
   * first attachment of a fresh message id names a message that is not
   * stored yet, so every call with at least one file fails there and
   * stores nothing; only a call without files stores its record. Under a
   * message id that is already taken, attachments may be stored and the
   * record insert fails.
   */
  method CreateMediaMessage(db: MessageDatabase, persona: PersonaId, files: seq<UploadedFile>, caption: Option<string>,
                            id: string, attachmentIds: seq<string>, createdAt: string)
    returns (r: Result<Message, ServiceError>)
    requires db.Valid()
    requires |attachmentIds| == |files|
    modifies db
    ensures db.Valid()
    ensures r.Ok? <==> !HasId(old(db.messages), id) && files == []
    ensures r.Ok? ==>
      && r.value == Message(MediaRecord(id, persona, caption, createdAt), [], [])
      && db.messages == old(db.messages) + [MediaRecord(id, persona, caption, createdAt)]
    ensures !HasId(old(db.messages), id) && files != [] ==>
      && r == Err(if exists i :: 0 <= i < |old(db.attachments)| && old(db.attachments)[i].id == attachmentIds[0]
                  then DuplicateId else UnknownMessage)
      && db.attachments == old(db.attachments)
    ensures r.Err? ==> db.messages == old(db.messages)
    ensures old(db.attachments) <= db.attachments
    ensures db.attachments[|old(db.attachments)|..] <= MediaAttachments(id, files, attachmentIds, createdAt)
    ensures db.reactions == old(db.reactions)
  {
    var all := MediaAttachments(id, files, attachmentIds, createdAt);
    var failed, n := StoreAttachments(db, id, files, attachmentIds, createdAt);
    assert db.attachments[|old(db.attachments)|..] == all[..n];
    if failed.Some? {
      return Err(InsertError(failed.value));
    }
    var row := MediaRecord(id, persona, caption, createdAt);
    var created := db.Create(row);
    if !created {
      return Err(DuplicateId);
    }
    r := Ok(Message(row, all, []));
  }

  /**
   * `createMediaMessage` with the record stored first, as
   * `createVoiceMessage` does: with a fresh message id and fresh,
   * distinct attachment ids it stores the record and every attachment,
   * in file order, and returns the message with them.
   */
  method CreateMediaMessageRecordFirst(db: MessageDatabase, persona: PersonaId, files: seq<UploadedFile>,
                                       caption: Option<string>, id: string, attachmentIds: seq<string>,
                                       createdAt: string)
    returns (r: Result<Message, ServiceError>)
    requires db.Valid()
    requires |attachmentIds| == |files|
    modifies db
    ensures db.Valid()
    ensures !HasId(old(db.messages), id) && FreshAttachmentIds(old(db.attachments), attachmentIds) ==> r.Ok?
    ensures r.Ok? ==>
      && r.value == Message(MediaRecord(id, persona, caption, createdAt),
                            MediaAttachments(id, files, attachmentIds, createdAt), [])
      && db.attachments == old(db.attachments) + MediaAttachments(id, files, attachmentIds, createdAt)
      && db.messages == old(db.messages) + [MediaRecord(id, persona, caption, createdAt)]
    ensures HasId(old(db.messages), id) ==>
      r == Err(DuplicateId) && db.messages == old(db.messages) && db.attachments == old(db.attachments)
    ensures r.Err? ==> r == Err(DuplicateId)
    ensures db.reactions == old(db.reactions)
  {
    var row := MediaRecord(id, persona, caption, createdAt);
    var created := db.Create(row);
    if !created {
      return Err(DuplicateId);
    }
    HasIdAppend(old(db.messages), row);
    var failed, n := StoreAttachments(db, id, files, attachmentIds, createdAt);
    if failed.Some? {
      return Err(DuplicateId);
    }
    r := Ok(Message(row, MediaAttachments(id, files, attachmentIds, createdAt), []));
  }

  /**
   * `addReaction`: stores the reaction and returns it. A taken id, or a
   * message id naming no stored message, fails and stores nothing.
   */
  method AddReaction(db: MessageDatabase, messageId: string, persona: PersonaId, emoji: string,
                     id: string, createdAt: string)
    returns (r: Result<Reaction, ServiceError>)
    requires db.Valid()
    modifies db
    ensures db.Valid()
    ensures var x := Reaction(id, messageId, persona, emoji, createdAt);
      if exists i :: 0 <= i < |old(db.reactions)| && old(db.reactions)[i].id == id
      then r == Err(DuplicateId) && db.reactions == old(db.reactions)
      else if !HasId(old(db.messages), messageId)
      then r == Err(UnknownMessage) && db.reactions == old(db.reactions)
      else r == Ok(x) && db.reactions == old(db.reactions) + [x]
    ensures db.messages == old(db.messages) && db.attachments == old(db.attachments)
  {
    var x := Reaction(id, messageId, persona, emoji, createdAt);
    var created := db.CreateReaction(x);
    if created != Inserted {
      return Err(InsertError(created));
    }
    r := Ok(x);
  }

  // -------------------------------------------------- voice processing

  /** What the speech service returned: a transcript and its confidence, or nothing. */
  datatype Transcript = Transcript(text: string, confidence: real)

  /** The transcript text, if there is one. */
  function TranscriptText(transcription: Option<Transcript>): Option<string> {
    if transcription.Some? then Some(transcription.value.text) else None
  }

  /** A transcript is translated only when its text is non-empty. */
  predicate Translatable(transcription: Option<Transcript>) {
    transcription.Some? && transcription.value.text != ""
  }

  /** The update written once the transcript, and its translation if one was made, are known. */
  function VoiceUpdateOf(messageId: string, transcription: Option<Transcript>, translated: Option<TranslationResult>)
    : VoiceUpdate
  {
    VoiceUpdate(
      messageId,
      TranscriptText(transcription),
      if translated.Some? then Some(translated.value.translatedText) else None,
      if translated.Some? then Some(translated.value.locale) else None,
      if translated.Some? then Some(translated.value.toneAdjustedText) else None,
      if translated.Some? then Some(translated.value.provider) else None,
      TranscriptText(transcription),
      if transcription.Some? then Some(transcription.value.confidence) else None)
  }

  /** Without a transcript, every text and transcript column is cleared. */
  lemma NoTranscriptUpdate(messageId: string)
    ensures var u := VoiceUpdateOf(messageId, None, None);
      && u.id == messageId
      && u.originalText.None? && u.translatedText.None? && u.translatedLocale.None?
      && u.toneAdjustedText.None? && u.translationProvider.None?
      && u.transcriptionText.None? && u.transcriptionConfidence.None?
  {
  }

  /**
   * With a translated transcript, the transcript becomes the original text,
   * and the translation is into the other locale than the recording's.
   */
  lemma TranslatedTranscriptUpdate(messageId: string, originalLocale: Locale, context: seq<string>,
                                   tr: Transcript, candidates: seq<Translation.Candidate>)
    requires Translation.Translation(tr.text, VoiceDirection(originalLocale), context, candidates).Ok?
    ensures var t := Translation.Translation(tr.text, VoiceDirection(originalLocale), context, candidates).value;
      var u := VoiceUpdateOf(messageId, Some(tr), Some(t));
      && u.originalText == Some(tr.text) && u.transcriptionText == Some(tr.text)
      && u.transcriptionConfidence == Some(tr.confidence)
      && u.translatedLocale.Some? && u.translatedLocale.value != originalLocale
      && u.translatedText == Some(t.translatedText)
  {
  }

  /**
   * `processVoiceMessage`, run to completion. Returns the message passed to
   * the update callback, if it was called.
   *
   * A translation failure after a transcript arrived is caught with
   * everything else: the transcript is then never stored and no callback
   * is made.
   */
  method ProcessVoiceMessage(db: MessageDatabase, stats: ProviderStats.ProviderStatsTable,
                             messageId: string, originalLocale: Locale, contextMessages: seq<Message>,
                             transcription: Option<Transcript>, candidates: seq<Translation.Candidate>,
                             analyticsWritable: bool, recordedAt: string, hasCallback: bool)
    returns (notified: Option<Message>)
    requires db.Valid() && stats.Valid()
    modifies db, stats
    ensures db.Valid() && stats.Valid()
    ensures db.attachments == old(db.attachments) && db.reactions == old(db.reactions)
    ensures var t := Translation.Translation(TranscriptText(transcription).OrElse(""), VoiceDirection(originalLocale),
                                             ContextOf(contextMessages), candidates);
      if Translatable(transcription) && t.Err? then
        db.messages == old(db.messages) && notified.None?
      else
        var translated := if Translatable(transcription) then Some(t.value) else None;
        && db.messages == MapRows(old(db.messages), messageId,
                                  WithVoice(VoiceUpdateOf(messageId, transcription, translated)))
        && (notified.Some? <==> hasCallback && FindRow(old(db.messages), messageId).Some?)
        && (notified.Some? ==>
              notified.value == Assemble(FindRow(db.messages, messageId).value, db.attachments, db.reactions))
    ensures var t := Translation.Translation(TranscriptText(transcription).OrElse(""), VoiceDirection(originalLocale),
                                             ContextOf(contextMessages), candidates);
      if Translatable(transcription) && t.Ok? && analyticsWritable
      then stats.rows == Translation.RecordedRows(old(stats.rows), transcription.value.text,
                                                  VoiceDirection(originalLocale), ContextOf(contextMessages),
                                                  candidates, recordedAt)
      else stats.rows == old(stats.rows)
  {
    var translated: Option<TranslationResult> := None;
    if Translatable(transcription) {
      var direction := VoiceDirection(originalLocale);
      var context := ContextOf(contextMessages);
      var t := Translation.Translate(transcription.value.text, direction, context, candidates, stats,
                                     analyticsWritable, recordedAt);
      if t.Err? {
        return None;
      }
      translated := Some(t.value);
    }
    var u := VoiceUpdateOf(messageId, transcription, translated);
    ghost var before := db.messages;
    db.UpdateVoiceProcessing(u);
    VoiceUpdateEffect(before, u, messageId);
    var updated := db.Get(messageId);
    notified := None;
    if updated.Some? && hasCallback {
      notified := updated;
    }
  }

  /** Any upload with a file fails on a fresh database, and the message is never stored. */
  method MediaUploadFailsWhenAttachmentsGoFirst() returns (r: Result<Message, ServiceError>, stored: seq<MessageRow>)
    ensures r == Err(UnknownMessage) && stored == []
  {
    var db := new MessageDatabase();
    var file := UploadedFile("uploads/photo.jpg", "image/jpeg", Image);
    r := CreateMediaMessage(db, Khadija, [file], None, "m1", ["a1"], "2024-01-01T00:00:00.000Z");
    stored := db.messages;
  }

  /** The same upload succeeds once the record is written first. */
  method MediaUploadSucceedsWhenRecordGoesFirst() returns (r: Result<Message, ServiceError>, stored: nat)
    ensures r.Ok? && |r.value.media| == 1 && stored == 1
  {
    var db := new MessageDatabase();
    var file := UploadedFile("uploads/photo.jpg", "image/jpeg", Image);
    r := CreateMediaMessageRecordFirst(db, Khadija, [file], None, "m1", ["a1"], "2024-01-01T00:00:00.000Z");
    stored := |db.attachments|;
  }
}
