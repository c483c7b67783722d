/**
 * The messages, attachments and reactions tables (`messageRepository`,
 * `attachmentRepository`, `reactionRepository`), kept in memory.
 *
 * Each table is a sequence in insertion order. Its `id` column is the
 * primary key, so an insert whose id is already present fails and
 * changes nothing. The `message_id` of an attachment or a reaction is a
 * foreign key into `messages`, and the connection enforces it (the
 * better-sqlite3 driver builds SQLite with foreign keys on): a child row
 * naming no stored message is refused.
 */
module MessageStore {
  import opened Wrappers
  import opened ServerTypes
  import opened StringOrder
  import Sorting

  // --------------------------------------------------------------- rows

  /** No two rows share an id. */
  predicate UniqueIds(rows: seq<MessageRow>) {
    forall i, j :: 0 <= i < j < |rows| ==> rows[i].id != rows[j].id
  }

  /** Some row has this id. */
  predicate HasId(rows: seq<MessageRow>, id: string) {
    exists i :: 0 <= i < |rows| && rows[i].id == id
  }

  /** Appending a row keeps every id that was there. */
  lemma HasIdAppend(rows: seq<MessageRow>, row: MessageRow)
    ensures HasId(rows + [row], row.id)
    ensures forall id :: HasId(rows, id) ==> HasId(rows + [row], id)
  {
    assert (rows + [row])[|rows|] == row;
    forall id | HasId(rows, id) ensures HasId(rows + [row], id) {
      var i :| 0 <= i < |rows| && rows[i].id == id;
      assert (rows + [row])[i] == rows[i];
    }
  }

  /** `SELECT ... FROM messages WHERE id = @id`. */
  function FindRow(rows: seq<MessageRow>, id: string): (r: Option<MessageRow>)
    ensures r.None? <==> forall i :: 0 <= i < |rows| ==> rows[i].id != id
    ensures r.Some? ==> r.value in rows && r.value.id == id
  {
    if rows == [] then None
    else if rows[0].id == id then Some(rows[0])
    else FindRow(rows[1..], id)
  }

  /** With unique ids, the row found at an id is the one stored at that position. */
  lemma {:induction false} FindRowAt(rows: seq<MessageRow>, k: nat)
    requires UniqueIds(rows) && k < |rows|
    ensures FindRow(rows, rows[k].id) == Some(rows[k])
  {
    if k > 0 {
      assert rows[0].id != rows[k].id;
      assert UniqueIds(rows[1..]) by {
        forall i, j | 0 <= i < j < |rows[1..]| ensures rows[1..][i].id != rows[1..][j].id {
          assert rows[1..][i] == rows[i + 1] && rows[1..][j] == rows[j + 1];
        }
      }
      assert rows[1..][k - 1] == rows[k];
      FindRowAt(rows[1..], k - 1);
    }
  }

  /** Each row with a different id than the one updated is left as it is. */
  function MapRows(rows: seq<MessageRow>, id: string, f: MessageRow -> MessageRow): (r: seq<MessageRow>)
    ensures |r| == |rows|
    ensures forall i :: 0 <= i < |rows| ==> r[i] == if rows[i].id == id then f(rows[i]) else rows[i]
  {
    seq(|rows|, i requires 0 <= i < |rows| => if rows[i].id == id then f(rows[i]) else rows[i])
  }

  /** An update that keeps every id keeps the rows' ids unique, and finds the updated row where it was. */
  lemma MapRowsFind(rows: seq<MessageRow>, id: string, f: MessageRow -> MessageRow, other: string)
    requires UniqueIds(rows)
    requires forall m :: f(m).id == m.id
    ensures UniqueIds(MapRows(rows, id, f))
    ensures forall x :: HasId(MapRows(rows, id, f), x) <==> HasId(rows, x)
    ensures FindRow(MapRows(rows, id, f), other) ==
      match FindRow(rows, other)
      case None => None
      case Some(m) => Some(if other == id then f(m) else m)
  {
    var r := MapRows(rows, id, f);
    assert forall i :: 0 <= i < |rows| ==> r[i].id == rows[i].id;
    forall x ensures HasId(r, x) <==> HasId(rows, x) {
      if HasId(r, x) {
        var i :| 0 <= i < |r| && r[i].id == x;
        assert rows[i].id == x;
      }
      if HasId(rows, x) {
        var i :| 0 <= i < |rows| && rows[i].id == x;
        assert r[i].id == x;
      }
    }
    match FindRow(rows, other)
    case None =>
    case Some(m) =>
      var k :| 0 <= k < |rows| && rows[k] == m;
      FindRowAt(rows, k);
      FindRowAt(r, k);
  }

  // ------------------------------------------------------- voice update

  /** The seven columns `updateVoiceProcessing` writes, and the row it targets. */
  datatype VoiceUpdate = VoiceUpdate(
    id: string,
    originalText: Option<string>,
    translatedText: Option<string>,
    translatedLocale: Option<Locale>,
    toneAdjustedText: Option<string>,
    translationProvider: Option<ProviderName>,
    transcriptionText: Option<string>,
    transcriptionConfidence: Option<real>)

  /** A row with the seven voice/translation columns overwritten. */
  function WithVoice(u: VoiceUpdate): MessageRow -> MessageRow {
    (m: MessageRow) => m.(
      originalText := u.originalText,
      translatedText := u.translatedText,
      translatedLocale := u.translatedLocale,
      toneAdjustedText := u.toneAdjustedText,
      translationProvider := u.translationProvider,
      transcriptionText := u.transcriptionText,
      transcriptionConfidence := u.transcriptionConfidence)
  }

  /**
   * After `updateVoiceProcessing` the targeted row holds exactly the
   * update's seven columns; its sender, original locale, audio URL, type,
   * creation time and id are untouched, and every other row is unchanged.
   */
  lemma VoiceUpdateEffect(rows: seq<MessageRow>, u: VoiceUpdate, id: string)
    requires UniqueIds(rows)
    ensures UniqueIds(MapRows(rows, u.id, WithVoice(u)))
    ensures forall x :: HasId(MapRows(rows, u.id, WithVoice(u)), x) <==> HasId(rows, x)
    ensures var before, after := FindRow(rows, id), FindRow(MapRows(rows, u.id, WithVoice(u)), id);
      && (after.Some? <==> before.Some?)
      && (after.Some? && id != u.id ==> after == before)
      && (after.Some? && id == u.id ==>
            && after.value.originalText == u.originalText
            && after.value.translatedText == u.translatedText
            && after.value.translatedLocale == u.translatedLocale
            && after.value.toneAdjustedText == u.toneAdjustedText
            && after.value.translationProvider == u.translationProvider
            && after.value.transcriptionText == u.transcriptionText
            && after.value.transcriptionConfidence == u.transcriptionConfidence
            && after.value.id == before.value.id
            && after.value.senderPersonaId == before.value.senderPersonaId
            && after.value.originalLocale == before.value.originalLocale
            && after.value.audioUrl == before.value.audioUrl
            && after.value.messageType == before.value.messageType
            && after.value.createdAt == before.value.createdAt)
  {
    MapRowsFind(rows, u.id, WithVoice(u), id);
  }

  /** An update of an id that is not stored changes nothing. */
  lemma UpdateUnknownId(rows: seq<MessageRow>, id: string, f: MessageRow -> MessageRow)
    requires FindRow(rows, id).None?
    ensures MapRows(rows, id, f) == rows
  {
  }

  // --------------------------------------------------------- audio url

  /** A row with its audio URL replaced. */
  function WithAudioUrl(url: string): MessageRow -> MessageRow {
    (m: MessageRow) => m.(audioUrl := Some(url))
  }

  /** After `updateAudioUrl` the row's audio URL is the new one and nothing else about any row has changed. */
  lemma AudioUrlEffect(rows: seq<MessageRow>, id: string, url: string)
    requires UniqueIds(rows)
    ensures var after := MapRows(rows, id, WithAudioUrl(url));
      && UniqueIds(after)
      && (forall x :: HasId(after, x) <==> HasId(rows, x))
      && (forall i :: 0 <= i < |rows| && rows[i].id != id ==> after[i] == rows[i])
      && (forall i :: 0 <= i < |rows| && rows[i].id == id ==>
            after[i].audioUrl == Some(url) && after[i].(audioUrl := rows[i].audioUrl) == rows[i])
  {
    MapRowsFind(rows, id, WithAudioUrl(url), id);
  }

  // ----------------------------------------------------- child records

  /** `SELECT ... FROM attachments WHERE message_id = @messageId`, in insertion order. */
  function AttachmentsOf(attachments: seq<Attachment>, messageId: string): (r: seq<Attachment>)
    ensures |r| <= |attachments|
    ensures forall a :: a in r <==> a in attachments && a.messageId == messageId
  {
    if attachments == [] then []
    else
      var rest := AttachmentsOf(attachments[..|attachments| - 1], messageId);
      var last := attachments[|attachments| - 1];
      assert attachments == attachments[..|attachments| - 1] + [last];
      if last.messageId == messageId then rest + [last] else rest
  }

  /** Storing one more attachment adds it to its own message's list, at the end, and to no other. */
  lemma AttachmentsOfAppend(attachments: seq<Attachment>, a: Attachment, messageId: string)
    ensures AttachmentsOf(attachments + [a], messageId) ==
      AttachmentsOf(attachments, messageId) + (if a.messageId == messageId then [a] else [])
  {
    assert (attachments + [a])[..|attachments|] == attachments;
  }

  /** `SELECT ... FROM reactions WHERE message_id = @messageId`, in insertion order. */
  function ReactionsOf(reactions: seq<Reaction>, messageId: string): (r: seq<Reaction>)
    ensures |r| <= |reactions|
    ensures forall x :: x in r <==> x in reactions && x.messageId == messageId
  {
    if reactions == [] then []
    else
      var rest := ReactionsOf(reactions[..|reactions| - 1], messageId);
      var last := reactions[|reactions| - 1];
      assert reactions == reactions[..|reactions| - 1] + [last];
      if last.messageId == messageId then rest + [last] else rest
  }

  /** Storing one more reaction adds it to its own message's list, at the end, and to no other. */
  lemma ReactionsOfAppend(reactions: seq<Reaction>, x: Reaction, messageId: string)
    ensures ReactionsOf(reactions + [x], messageId) ==
      ReactionsOf(reactions, messageId) + (if x.messageId == messageId then [x] else [])
  {
    assert (reactions + [x])[..|reactions|] == reactions;
  }

  /** A row together with its attachments and reactions. */
  function Assemble(row: MessageRow, attachments: seq<Attachment>, reactions: seq<Reaction>): Message {
    Message(row, AttachmentsOf(attachments, row.id), ReactionsOf(reactions, row.id))
  }

  // ----------------------------------------------------------- listing

  /**
   * `datetime(created_at)` for the ISO-8601 text the service writes: the
   * timestamp cut to whole seconds. The separator between date and time is
   * the same in every row, so it does not affect the order.
   */
  function ListedSecond(m: MessageRow): (r: string)
    ensures r <= m.createdAt && |r| <= 19
    ensures |m.createdAt| >= 19 ==> |r| == 19
  {
    if |m.createdAt| >= 19 then m.createdAt[..19] else m.createdAt
  }

  function Reverse<T>(s: seq<T>): (r: seq<T>)
    ensures |r| == |s|
    ensures forall i :: 0 <= i < |s| ==> r[i] == s[|s| - 1 - i]
  {
    if s == [] then [] else Reverse(s[1..]) + [s[0]]
  }

  lemma {:induction false} ReverseMultiset<T>(s: seq<T>)
    ensures multiset(Reverse(s)) == multiset(s)
  {
    if s != [] {
      ReverseMultiset(s[1..]);
      assert s == [s[0]] + s[1..];
    }
  }

  /**
   * `ORDER BY datetime(created_at) DESC`: newest second first. Rows created
   * within the same second come out most recently inserted first.
   */
  function NewestFirst(rows: seq<MessageRow>): seq<MessageRow> {
    Reverse(Sorting.SortBy(rows, ListedSecond))
  }

  /** The listing holds the same rows, with creation seconds never increasing. */
  lemma NewestFirstOrder(rows: seq<MessageRow>)
    ensures multiset(NewestFirst(rows)) == multiset(rows)
    ensures forall i, j :: 0 <= i < j < |rows| ==>
      LessEq(ListedSecond(NewestFirst(rows)[j]), ListedSecond(NewestFirst(rows)[i]))
  {
    var sorted := Sorting.SortBy(rows, ListedSecond);
    Sorting.SortByMultiset(rows, ListedSecond);
    ReverseMultiset(sorted);
    forall i, j | 0 <= i < j < |rows|
      ensures LessEq(ListedSecond(NewestFirst(rows)[j]), ListedSecond(NewestFirst(rows)[i]))
    {
      assert NewestFirst(rows)[i] == sorted[|rows| - 1 - i];
      assert NewestFirst(rows)[j] == sorted[|rows| - 1 - j];
    }
  }

  /** Rows created within the same second are listed in reverse insertion order. */
  lemma NewestFirstTies(rows: seq<MessageRow>, at: string)
    ensures Sorting.WithKey(Reverse(NewestFirst(rows)), ListedSecond, at) == Sorting.WithKey(rows, ListedSecond, at)
  {
    var sorted := Sorting.SortBy(rows, ListedSecond);
    assert Reverse(Reverse(sorted)) == sorted;
    Sorting.SortByStable(rows, ListedSecond, at);
  }

  /** `n` clamped into `[0, bound]`. */
  function Clamp(n: int, bound: nat): (r: nat)
    ensures r <= bound
  {
    if n < 0 then 0 else if n > bound then bound else n
  }

  /**
   * `LIMIT @limit OFFSET @offset`: skip `offset` rows, then keep at most
   * `limit`. SQLite reads a negative offset as 0 and a negative limit as
   * no limit.
   */
  function Page<T>(s: seq<T>, limit: int, offset: int): (r: seq<T>)
  {
    var start := Clamp(offset, |s|);
    var count := if limit < 0 then |s| - start else Clamp(limit, |s| - start);
    s[start..start + count]
  }

  /**
   * A page is the slice starting at the offset: it holds `limit` rows when
   * that many remain, else all that remain.
   */
  lemma PageSlice<T>(s: seq<T>, limit: int, offset: int)
    requires 0 <= offset
    ensures var r := Page(s, limit, offset);
      && |r| == (if offset >= |s| then 0
                 else if limit < 0 || offset + limit > |s| then |s| - offset
                 else limit)
      && forall i :: 0 <= i < |r| ==> r[i] == s[offset + i]
  {
  }

  /** Two consecutive pages of size `n` make up the page of size `2n` at the first offset. */
  lemma PagesJoin<T>(s: seq<T>, n: nat, offset: nat)
    ensures Page(s, n, offset) + Page(s, n, offset + n) == Page(s, 2 * n, offset)
  {
  }

  // ------------------------------------------------------------ tables

  /**
   * How an insert into `attachments` or `reactions` ends. SQLite checks the
   * primary key before the foreign key, so a taken id is reported even
   * when the message is missing too.
   */
  datatype InsertOutcome = Inserted | DuplicateKey | UnknownParent

  /** The three tables of the message store. */
  class MessageDatabase {
    var messages: seq<MessageRow>
    var attachments: seq<Attachment>
    var reactions: seq<Reaction>

    /** Primary keys are unique in every table, and every child row names a stored message. */
    predicate Valid()
      reads this
    {
      && UniqueIds(messages)
      && (forall i, j :: 0 <= i < j < |attachments| ==> attachments[i].id != attachments[j].id)
      && (forall i, j :: 0 <= i < j < |reactions| ==> reactions[i].id != reactions[j].id)
      && (forall i :: 0 <= i < |attachments| ==> HasId(messages, attachments[i].messageId))
      && (forall i :: 0 <= i < |reactions| ==> HasId(messages, reactions[i].messageId))
    }

    constructor()
      ensures Valid()
      ensures messages == [] && attachments == [] && reactions == []
    {
      messages, attachments, reactions := [], [], [];
    }

    /** `messageRepository.create`: fails, changing nothing, when the id is taken. */
    method Create(row: MessageRow) returns (created: bool)
      requires Valid()
      modifies this
      ensures Valid()
      ensures created <==> FindRow(old(messages), row.id).None?
      ensures messages == if created then old(messages) + [row] else old(messages)
      ensures attachments == old(attachments) && reactions == old(reactions)
    {
      created := FindRow(messages, row.id).None?;
      if created {
        HasIdAppend(messages, row);
        messages := messages + [row];
      }
    }

    /** `messageRepository.get`: null for an unknown id, else the row with its attachments and reactions. */
    method Get(id: string) returns (m: Option<Message>)
      ensures m.None? <==> forall i :: 0 <= i < |messages| ==> messages[i].id != id
      ensures m.Some? ==>
        && m.value.row in messages && m.value.row.id == id
        && m.value.media == AttachmentsOf(attachments, id)
        && m.value.reactions == ReactionsOf(reactions, id)
        && m.value == Assemble(FindRow(messages, id).value, attachments, reactions)
    {
      match FindRow(messages, id)
      case None => m := None;
      case Some(row) => m := Some(Assemble(row, attachments, reactions));
    }

    /** `messageRepository.list`: newest first, one page, each with its attachments and reactions. */
    method List(limit: int, offset: int) returns (ms: seq<Message>)
      ensures var page := Page(NewestFirst(messages), limit, offset);
        && |ms| == |page|
        && forall i :: 0 <= i < |ms| ==> ms[i] == Assemble(page[i], attachments, reactions)
    {
      var page, media, reacted := Page(NewestFirst(messages), limit, offset), attachments, reactions;
      ms := seq(|page|, i requires 0 <= i < |page| => Assemble(page[i], media, reacted));
    }

    /** `messageRepository.updateAudioUrl`. */
    method UpdateAudioUrl(id: string, url: string)
      requires Valid()
      modifies this
      ensures Valid()
      ensures messages == MapRows(old(messages), id, WithAudioUrl(url))
      ensures attachments == old(attachments) && reactions == old(reactions)
    {
      AudioUrlEffect(messages, id, url);
      messages := MapRows(messages, id, WithAudioUrl(url));
    }

    /** `messageRepository.updateVoiceProcessing`. */
    method UpdateVoiceProcessing(u: VoiceUpdate)
      requires Valid()
      modifies this
      ensures Valid()
      ensures messages == MapRows(old(messages), u.id, WithVoice(u))
      ensures attachments == old(attachments) && reactions == old(reactions)
    {
      VoiceUpdateEffect(messages, u, u.id);
      messages := MapRows(messages, u.id, WithVoice(u));
    }

    /**
     * `attachmentRepository.create`: a taken id, or a message id naming no
     * stored message, fails and changes nothing.
     */
    method CreateAttachment(a: Attachment) returns (outcome: InsertOutcome)
      requires Valid()
      modifies this
      ensures Valid()
      ensures outcome ==
        if exists i :: 0 <= i < |old(attachments)| && old(attachments)[i].id == a.id then DuplicateKey
        else if !HasId(old(messages), a.messageId) then UnknownParent
        else Inserted
      ensures attachments == if outcome == Inserted then old(attachments) + [a] else old(attachments)
      ensures messages == old(messages) && reactions == old(reactions)
    {
      if exists i :: 0 <= i < |attachments| && attachments[i].id == a.id {
        outcome := DuplicateKey;
      } else if !HasId(messages, a.messageId) {
        outcome := UnknownParent;
      } else {
        outcome := Inserted;
        attachments := attachments + [a];
      }
    }

    /**
     * `reactionRepository.create`: a taken id, or a message id naming no
     * stored message, fails and changes nothing.
     */
    method CreateReaction(x: Reaction) returns (outcome: InsertOutcome)
      requires Valid()
      modifies this
      ensures Valid()
      ensures outcome ==
        if exists i :: 0 <= i < |old(reactions)| && old(reactions)[i].id == x.id then DuplicateKey
        else if !HasId(old(messages), x.messageId) then UnknownParent
        else Inserted
      ensures reactions == if outcome == Inserted then old(reactions) + [x] else old(reactions)
      ensures messages == old(messages) && attachments == old(attachments)
    {
      if exists i :: 0 <= i < |reactions| && reactions[i].id == x.id {
        outcome := DuplicateKey;
      } else if !HasId(messages, x.messageId) {
        outcome := UnknownParent;
      } else {
        outcome := Inserted;
        reactions := reactions + [x];
      }
    }

    /** `attachmentRepository.listByMessage`. */
    method ListAttachments(messageId: string) returns (r: seq<Attachment>)
      ensures r == AttachmentsOf(attachments, messageId)
    {
      r := AttachmentsOf(attachments, messageId);
    }

    /** `messageRepository.listReactions` and `reactionRepository.listByMessage`. */
    method ListReactions(messageId: string) returns (r: seq<Reaction>)
      ensures r == ReactionsOf(reactions, messageId)
    {
      r := ReactionsOf(reactions, messageId);
    }
  }
}
