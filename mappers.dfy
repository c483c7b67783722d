/** `MessageDto.toDomain`: from the server's JSON shape to the client's message. */
module Mappers {
  import opened Wrappers
  import opened Text
  import opened Personas
  import opened ChatModel

  /** `when (mediaType.lowercase())`: video, audio, and an image for anything else. */
  function MediaTypeOf(name: string): (t: MediaType)
    ensures t == VIDEO <==> Lower(name) == "video"
    ensures t == AUDIO <==> Lower(name) == "audio"
  {
    var n := Lower(name);
    if n == "video" then VIDEO else if n == "audio" then AUDIO else IMAGE
  }

  /** `when (messageType.lowercase())`: voice, media, and a text for anything else. */
  function MessageTypeOf(name: string): (t: MessageType)
    ensures t == VOICE <==> Lower(name) == "voice"
    ensures t == MEDIA <==> Lower(name) == "media"
  {
    var n := Lower(name);
    if n == "voice" then VOICE else if n == "media" then MEDIA else TEXT
  }

  /** The names the server writes. */
  function MediaTypeName(t: MediaType): string {
    match t
    case IMAGE => "image"
    case VIDEO => "video"
    case AUDIO => "audio"
  }

  function MessageTypeName(t: MessageType): string {
    match t
    case TEXT => "text"
    case VOICE => "voice"
    case MEDIA => "media"
  }

  lemma LowerIdempotent(s: string)
    ensures Lower(Lower(s)) == Lower(s)
  {
  }

  /** The server's names map back to their kinds, and the mapping ignores case. */
  lemma KindNamesRoundTrip(m: MediaType, k: MessageType, name: string)
    ensures MediaTypeOf(MediaTypeName(m)) == m
    ensures MessageTypeOf(MessageTypeName(k)) == k
    ensures MediaTypeOf(Lower(name)) == MediaTypeOf(name)
    ensures MessageTypeOf(Lower(name)) == MessageTypeOf(name)
  {
    LowerIdempotent(name);
    assert Lower("image") == "image" && Lower("video") == "video" && Lower("audio") == "audio";
    assert Lower("text") == "text" && Lower("voice") == "voice" && Lower("media") == "media";
  }

  function ToAttachment(a: AttachmentDto): ChatAttachment {
    ChatAttachment(a.id, a.uri, a.mimeType, MediaTypeOf(a.mediaType))
  }

  /**
   * Attachments keep their count, order, ids, URIs and MIME types; each
   * kind is read from its name regardless of case.
   */
  function ToAttachments(media: seq<AttachmentDto>): (r: seq<ChatAttachment>)
    ensures |r| == |media|
    ensures forall i :: 0 <= i < |media| ==>
      && r[i].id == media[i].id && r[i].uri == media[i].uri && r[i].mimeType == media[i].mimeType
      && r[i].mediaType == MediaTypeOf(media[i].mediaType)
      && (r[i].mediaType == VIDEO <==> Lower(media[i].mediaType) == "video")
      && (r[i].mediaType == AUDIO <==> Lower(media[i].mediaType) == "audio")
  {
    seq(|media|, i requires 0 <= i < |media| => ToAttachment(media[i]))
  }

  /** `reactions.mapNotNull`: reactions of an unknown persona are dropped. */
  function ToReactions(reactions: seq<ReactionDto>): (r: seq<ChatReaction>)
    ensures |r| <= |reactions|
  {
    if reactions == [] then []
    else
      var rest := ToReactions(reactions[1..]);
      match FromId(Some(reactions[0].personaId))
      case None => rest
      case Some(p) => [ChatReaction(reactions[0].id, p, reactions[0].emoji)] + rest
  }

  /** The mapping of a concatenation is the concatenation of the mappings: the order is kept. */
  lemma {:induction false} ToReactionsAppend(a: seq<ReactionDto>, b: seq<ReactionDto>)
    ensures ToReactions(a + b) == ToReactions(a) + ToReactions(b)
  {
    if a == [] {
      assert a + b == b;
    } else {
      assert (a + b)[1..] == a[1..] + b;
      ToReactionsAppend(a[1..], b);
    }
  }

  /** A single reaction is kept, with its persona, exactly when its persona id is known. */
  lemma ToReactionsOne(x: ReactionDto)
    ensures ToReactions([x]) ==
      if FromId(Some(x.personaId)).Some? then [ChatReaction(x.id, FromId(Some(x.personaId)).value, x.emoji)] else []
  {
    assert [x][1..] == [];
  }

  /** With only known personas, nothing is dropped. */
  lemma {:induction false} ToReactionsAllKnown(reactions: seq<ReactionDto>)
    requires forall i :: 0 <= i < |reactions| ==> FromId(Some(reactions[i].personaId)).Some?
    ensures |ToReactions(reactions)| == |reactions|
  {
    if reactions != [] {
      ToReactionsAllKnown(reactions[1..]);
    }
  }

  /** `MessageDto.toDomain`. */
  function ToDomain(dto: MessageDto): (m: ChatMessage)
    ensures m.sender == FromId(Some(dto.senderPersonaId)).OrElse(Brian)
  {
    ChatMessage(
      dto.id,
      FromId(Some(dto.senderPersonaId)).OrElse(Brian),
      dto.originalText,
      dto.translatedText,
      dto.toneAdjustedText,
      dto.audioUrl,
      dto.transcriptionText,
      dto.transcriptionConfidence,
      dto.createdAt,
      MessageTypeOf(dto.messageType),
      ToAttachments(dto.media),
      ToReactions(dto.reactions))
  }

  /**
   * The sender is the persona with that id, and Brian for an unknown id;
   * the texts, audio URL, transcript and creation time are copied; the
   * type is read from its name regardless of case; every attachment is
   * mapped in order; and the reactions are those of known personas, in
   * order.
   */
  lemma ToDomainFields(dto: MessageDto)
    ensures var m := ToDomain(dto);
      && (dto.senderPersonaId == "khadija" ==> m.sender == Khadija)
      && (dto.senderPersonaId != "khadija" ==> m.sender == Brian)
      && m.id == dto.id && m.createdAt == dto.createdAt
      && m.originalText == dto.originalText && m.translatedText == dto.translatedText
      && m.toneAdjustedText == dto.toneAdjustedText && m.audioUrl == dto.audioUrl
      && m.transcriptionText == dto.transcriptionText
      && m.transcriptionConfidence == dto.transcriptionConfidence
      && m.messageType == MessageTypeOf(dto.messageType)
      && (m.messageType == VOICE <==> Lower(dto.messageType) == "voice")
      && (m.messageType == MEDIA <==> Lower(dto.messageType) == "media")
      && m.attachments == ToAttachments(dto.media)
      && m.reactions == ToReactions(dto.reactions)
  {
  }
}
