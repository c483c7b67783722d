/** The server's message, attachment, reaction and translation records. */
module ServerTypes {
  import opened Wrappers

  /** The two fixed chat participants. */
  datatype PersonaId = Khadija | Brian

  datatype Locale = En | Fa

  /** Which persona's language is translated into the other's. */
  datatype Direction = EnToFa | FaToEn

  /** The translation backends a candidate can come from. */
  datatype TranslationProvider = Ollama | Google

  /** The provider column of a message: a backend or 'unknown'. */
  datatype ProviderName = Provider(provider: TranslationProvider) | Unknown

  datatype MessageKind = TextKind | VoiceKind | MediaKind

  datatype MediaType = Image | Video | Audio

  datatype Attachment = Attachment(
    id: string,
    messageId: string,
    uri: string,
    mimeType: string,
    mediaType: MediaType,
    createdAt: string)

  datatype Reaction = Reaction(
    id: string,
    messageId: string,
    personaId: PersonaId,
    emoji: string,
    createdAt: string)

  /** A row of the messages table: a message without its attachments and reactions. */
  datatype MessageRow = MessageRow(
    id: string,
    senderPersonaId: PersonaId,
    originalText: Option<string>,
    originalLocale: Option<Locale>,
    translatedText: Option<string>,
    translatedLocale: Option<Locale>,
    toneAdjustedText: Option<string>,
    translationProvider: Option<ProviderName>,
    audioUrl: Option<string>,
    transcriptionText: Option<string>,
    transcriptionConfidence: Option<real>,
    messageType: MessageKind,
    createdAt: string)

  /** A message as the services return it: its row with attachments and reactions. */
  datatype Message = Message(row: MessageRow, media: seq<Attachment>, reactions: seq<Reaction>)

  /** What `translate` returns to its caller. */
  datatype TranslationResult = TranslationResult(
    translatedText: string,
    toneAdjustedText: string,
    locale: Locale,
    provider: ProviderName)

  /** The target language of a direction. */
  function TargetLocale(d: Direction): Locale {
    if d == EnToFa then Fa else En
  }

  /** The source language of a direction. */
  function SourceLocale(d: Direction): Locale {
    if d == EnToFa then En else Fa
  }
}
