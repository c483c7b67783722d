/**
 * The mobile client's records: the JSON shapes the server sends
 * (`MessageDto`, `AttachmentDto`, `ReactionDto`) and the domain types the
 * screen shows (`ChatMessage`, `ChatAttachment`, `ChatReaction`).
 */
module ChatModel {
  import opened Wrappers
  import opened Personas

  datatype MessageType = TEXT | VOICE | MEDIA

  datatype MediaType = IMAGE | VIDEO | AUDIO

  datatype ChatAttachment = ChatAttachment(id: string, uri: string, mimeType: string, mediaType: MediaType)

  datatype ChatReaction = ChatReaction(id: string, persona: Persona, emoji: string)

  datatype ChatMessage = ChatMessage(
    id: string,
    sender: Persona,
    originalText: Option<string>,
    translatedText: Option<string>,
    toneAdjustedText: Option<string>,
    audioUrl: Option<string>,
    transcriptionText: Option<string>,
    transcriptionConfidence: Option<real>,
    createdAt: string,
    messageType: MessageType,
    attachments: seq<ChatAttachment>,
    reactions: seq<ChatReaction>)

  datatype AttachmentDto = AttachmentDto(
    id: string,
    messageId: string,
    uri: string,
    mimeType: string,
    mediaType: string,
    createdAt: string)

  datatype ReactionDto = ReactionDto(
    id: string,
    messageId: string,
    personaId: string,
    emoji: string,
    createdAt: string)

  datatype MessageDto = MessageDto(
    id: string,
    senderPersonaId: string,
    originalText: Option<string>,
    originalLocale: Option<string>,
    translatedText: Option<string>,
    translatedLocale: Option<string>,
    toneAdjustedText: Option<string>,
    audioUrl: Option<string>,
    transcriptionText: Option<string>,
    transcriptionConfidence: Option<real>,
    createdAt: string,
    messageType: string,
    media: seq<AttachmentDto>,
    reactions: seq<ReactionDto>)

  /** The key `sortedBy { it.createdAt }` orders messages by. */
  function CreatedAt(m: ChatMessage): string {
    m.createdAt
  }
}
