/**
 * `ChatViewModel`: the client's screen state and how socket events, the
 * initial load and the replies to the send calls change it.
 */
module ChatViewModel {
  import opened Wrappers
  import opened Text
  import opened Personas
  import opened ChatModel
  import Mappers
  import Sorting

  // ------------------------------------------------------------ upsert

  /**
   * `filterNot { it.id == id }`: the messages whose id differs from `id`,
   * each as often as it was there (`WithoutAppend` gives the order).
   */
  function Without(messages: seq<ChatMessage>, id: string): (r: seq<ChatMessage>)
    ensures forall m :: m in r <==> m in messages && m.id != id
    ensures multiset(r) <= multiset(messages)
    ensures forall m: ChatMessage :: m.id != id ==> multiset(r)[m] == multiset(messages)[m]
  {
    if messages == [] then []
    else
      var rest := Without(messages[1..], id);
      assert messages == [messages[0]] + messages[1..];
      if messages[0].id == id then rest else [messages[0]] + rest
  }

  /** Filtering a concatenation filters each part: the kept messages stay in their order. */
  lemma {:induction false} WithoutAppend(a: seq<ChatMessage>, b: seq<ChatMessage>, id: string)
    ensures Without(a + b, id) == Without(a, id) + Without(b, id)
  {
    if a == [] {
      assert a + b == b;
    } else {
      assert (a + b)[0] == a[0] && (a + b)[1..] == a[1..] + b;
      WithoutAppend(a[1..], b, id);
    }
  }

  /** A single message is kept exactly when its id differs. */
  lemma WithoutOne(m: ChatMessage, id: string)
    ensures Without([m], id) == if m.id == id then [] else [m]
  {
  }

  /** `upsert`: drop every message with the new one's id, append it, and sort stably by creation time. */
  function Upsert(messages: seq<ChatMessage>, m: ChatMessage): (r: seq<ChatMessage>)
    ensures Sorting.SortedBy(r, CreatedAt)
  {
    Sorting.SortBy(Without(messages, m.id) + [m], CreatedAt)
  }

  /** Two positions holding the same value count it twice. */
  lemma TwiceCounted<T>(s: seq<T>, i: nat, j: nat)
    requires i < j < |s| && s[i] == s[j]
    ensures multiset(s)[s[i]] >= 2
  {
    assert s == s[..j] + s[j..];
    assert s[i] == s[..j][i];
    assert s[j] == s[j..][0];
  }

  /** `upsert` holds the messages with other ids and the new one, nothing else. */
  lemma UpsertMultiset(messages: seq<ChatMessage>, m: ChatMessage)
    ensures multiset(Upsert(messages, m)) == multiset(Without(messages, m.id)) + multiset{m}
    ensures multiset(Upsert(messages, m))[m] == 1
  {
    var kept := Without(messages, m.id);
    Sorting.SortByMultiset(kept + [m], CreatedAt);
    assert m !in kept;
  }

  /** After `upsert` exactly one message has the new message's id, and it is the new message. */
  lemma UpsertNewOnce(messages: seq<ChatMessage>, m: ChatMessage)
    ensures var r := Upsert(messages, m);
      && m in r
      && (forall i :: 0 <= i < |r| && r[i].id == m.id ==> r[i] == m)
      && (forall i, j :: 0 <= i < |r| && 0 <= j < |r| && r[i].id == m.id && r[j].id == m.id ==> i == j)
  {
    var kept := Without(messages, m.id);
    var r := Upsert(messages, m);
    UpsertMultiset(messages, m);
    assert m in multiset(r);
    forall i | 0 <= i < |r| && r[i].id == m.id ensures r[i] == m {
      assert r[i] in multiset(r);
    }
    forall i, j | 0 <= i < |r| && 0 <= j < |r| && r[i].id == m.id && r[j].id == m.id ensures i == j {
      if i < j {
        TwiceCounted(r, i, j);
      } else if j < i {
        TwiceCounted(r, j, i);
      }
    }
  }

  /** Every message with another id is still shown after `upsert`, as often as before. */
  lemma UpsertKeepsOthers(messages: seq<ChatMessage>, m: ChatMessage)
    ensures forall x :: x in messages && x.id != m.id ==> x in Upsert(messages, m)
    ensures forall x: ChatMessage :: x.id != m.id ==> multiset(Upsert(messages, m))[x] == multiset(messages)[x]
  {
    UpsertMultiset(messages, m);
    forall x | x in messages && x.id != m.id ensures x in Upsert(messages, m) {
      assert x in multiset(Without(messages, m.id));
      assert x in multiset(Upsert(messages, m));
    }
  }

  /** Messages created at the same time keep their relative order, the new one last among them. */
  lemma UpsertStable(messages: seq<ChatMessage>, m: ChatMessage, at: string)
    ensures Sorting.WithKey(Upsert(messages, m), CreatedAt, at) ==
      Sorting.WithKey(Without(messages, m.id), CreatedAt, at) + (if m.createdAt == at then [m] else [])
  {
    var kept := Without(messages, m.id);
    Sorting.SortByStable(kept + [m], CreatedAt, at);
    Sorting.WithKeyAppend(kept, [m], CreatedAt, at);
    assert [m][1..] == [];
  }

  /** `(messages + msg).sortedBy { it.createdAt }`, used for a sent voice message. */
  function AppendSorted(messages: seq<ChatMessage>, m: ChatMessage): (r: seq<ChatMessage>)
    ensures Sorting.SortedBy(r, CreatedAt)
  {
    Sorting.SortBy(messages + [m], CreatedAt)
  }

  /** Unlike `upsert`, appending keeps a message already shown with the same id. */
  lemma AppendKeepsDuplicates(messages: seq<ChatMessage>, m: ChatMessage)
    ensures multiset(AppendSorted(messages, m)) == multiset(messages) + multiset{m}
    ensures m in messages ==> multiset(AppendSorted(messages, m))[m] >= 2
  {
    Sorting.SortByMultiset(messages + [m], CreatedAt);
  }

  // --------------------------------------------------------- reactions

  /** Whether a message already shows a reaction with this id. */
  predicate HasReaction(m: ChatMessage, id: string) {
    exists i :: 0 <= i < |m.reactions| && m.reactions[i].id == id
  }

  /** One message's reaction reducer. */
  function React(m: ChatMessage, x: ReactionDto): ChatMessage {
    if m.id != x.messageId then m
    else
      match FromId(Some(x.personaId))
      case None => m
      case Some(p) =>
        if HasReaction(m, x.id) then m
        else m.(reactions := m.reactions + [ChatReaction(x.id, p, x.emoji)])
  }

  /** The reaction reducer over the shown messages. */
  function ApplyReaction(messages: seq<ChatMessage>, x: ReactionDto): (r: seq<ChatMessage>)
    ensures |r| == |messages|
    ensures forall i :: 0 <= i < |messages| ==> r[i] == React(messages[i], x)
  {
    seq(|messages|, i requires 0 <= i < |messages| => React(messages[i], x))
  }

  /**
   * Only the reaction's message changes, and only by gaining the reaction
   * at the end of its list, when the persona is known and the reaction is
   * not already shown.
   */
  lemma ReactionEffect(messages: seq<ChatMessage>, x: ReactionDto, i: nat)
    requires i < |messages|
    ensures var before, after := messages[i], ApplyReaction(messages, x)[i];
      && after.(reactions := before.reactions) == before
      && (after != before <==>
            before.id == x.messageId && FromId(Some(x.personaId)).Some? && !HasReaction(before, x.id))
      && (after != before ==>
            after.reactions == before.reactions + [ChatReaction(x.id, FromId(Some(x.personaId)).value, x.emoji)])
  {
    var before := messages[i];
    if before.id == x.messageId && FromId(Some(x.personaId)).Some? && !HasReaction(before, x.id) {
      assert |ApplyReaction(messages, x)[i].reactions| == |before.reactions| + 1;
    }
  }

  /** Delivering the same reaction twice shows it once. */
  lemma ReactionIdempotent(messages: seq<ChatMessage>, x: ReactionDto)
    ensures ApplyReaction(ApplyReaction(messages, x), x) == ApplyReaction(messages, x)
  {
    var once := ApplyReaction(messages, x);
    forall i | 0 <= i < |messages| ensures React(once[i], x) == once[i] {
      var m := messages[i];
      if once[i] != m {
        var added := once[i].reactions[|m.reactions|];
        assert added.id == x.id;
        assert HasReaction(once[i], x.id);
      }
    }
  }

  // -------------------------------------------------------- play audio

  /** `UiEvent.PlayAudio`. */
  datatype PlayAudio = PlayAudio(spokenText: string, locale: string, audioUrl: Option<string>)

  /** The text read aloud: the tone-adjusted text, else the translation. */
  function SpokenText(m: ChatMessage): Option<string> {
    if m.toneAdjustedText.Some? then m.toneAdjustedText else m.translatedText
  }

  /** The event a new or updated message raises for the persona using the phone. */
  function PlayAudioFor(persona: Option<Persona>, m: ChatMessage): (e: Option<PlayAudio>)
    ensures e.Some? <==>
      persona == Some(Khadija) && m.sender == Brian && SpokenText(m).Some? && !IsBlank(SpokenText(m).value)
    ensures e.Some? ==> e.value == PlayAudio(SpokenText(m).value, "fa", m.audioUrl)
  {
    if persona == Some(Khadija) && m.sender == Brian && SpokenText(m).Some? && !IsBlank(SpokenText(m).value)
    then Some(PlayAudio(SpokenText(m).value, "fa", m.audioUrl))
    else None
  }

  /** Brian never hears his own messages read, nor Khadija hers. */
  lemma NoPlayAudioForOwnMessages(persona: Option<Persona>, m: ChatMessage)
    requires persona == Some(m.sender) || persona.None?
    ensures PlayAudioFor(persona, m).None?
  {
  }

  // ------------------------------------------------------------- state

  /** `ChatUiState`. */
  datatype ChatUiState = ChatUiState(
    persona: Option<Persona>,
    isLoading: bool,
    messages: seq<ChatMessage>,
    isRecording: bool,
    recordingError: Option<string>)

  /** The screen state and its transitions. */
  class ChatViewModel {
    var state: ChatUiState

    /** The shown messages are ordered by creation time. */
    predicate Valid()
      reads this
    {
      Sorting.SortedBy(state.messages, CreatedAt)
    }

    /** The state starts out loading, with no persona and no messages. */
    constructor()
      ensures Valid()
      ensures state == ChatUiState(None, true, [], false, None)
    {
      state := ChatUiState(None, true, [], false, None);
    }

    /** The persona store emitted a persona, or null. */
    method OnPersona(p: Option<Persona>)
      requires Valid()
      modifies this
      ensures Valid()
      ensures state == old(state).(persona := p)
    {
      state := state.(persona := p);
    }

    /** `incomingMessages` and `updatedMessages`: upsert, then maybe read the message aloud. */
    method OnMessage(m: ChatMessage) returns (event: Option<PlayAudio>)
      requires Valid()
      modifies this
      ensures Valid()
      ensures state == old(state).(messages := Upsert(old(state).messages, m))
      ensures event == PlayAudioFor(state.persona, m)
    {
      state := state.(messages := Upsert(state.messages, m));
      event := PlayAudioFor(state.persona, m);
    }

    /** `incomingReactions`. */
    method OnReaction(x: ReactionDto)
      requires Valid()
      modifies this
      ensures Valid()
      ensures state == old(state).(messages := ApplyReaction(old(state).messages, x))
    {
      var updated := ApplyReaction(state.messages, x);
      assert forall i :: 0 <= i < |updated| ==> updated[i].createdAt == state.messages[i].createdAt;
      state := state.(messages := updated);
    }

    /** `loadMessages`: the fetched list sorted by creation time, or nothing when the fetch failed. */
    method LoadMessages(fetched: Option<seq<ChatMessage>>)
      requires Valid()
      modifies this
      ensures Valid()
      ensures state == old(state).(isLoading := false, messages := Sorting.SortBy(fetched.OrElse([]), CreatedAt))
    {
      state := state.(isLoading := true);
      var messages := fetched.OrElse([]);
      state := state.(isLoading := false, messages := Sorting.SortBy(messages, CreatedAt));
    }

    /** `sendTextMessage` and `sendMedia`: without a persona nothing is sent; a reply is upserted. */
    method OnSent(reply: Option<ChatMessage>)
      requires Valid()
      modifies this
      ensures Valid()
      ensures state == if old(state).persona.Some? && reply.Some?
        then old(state).(messages := Upsert(old(state).messages, reply.value))
        else old(state)
    {
      if state.persona.None? {
        return;
      }
      if reply.Some? {
        state := state.(messages := Upsert(state.messages, reply.value));
      }
    }

    /** `sendVoiceMessage`: without a persona nothing is sent; a reply is appended and the list re-sorted. */
    method OnVoiceSent(reply: Option<ChatMessage>)
      requires Valid()
      modifies this
      ensures Valid()
      ensures state == if old(state).persona.Some? && reply.Some?
        then old(state).(messages := AppendSorted(old(state).messages, reply.value))
        else old(state)
    {
      if state.persona.None? {
        return;
      }
      if reply.Some? {
        state := state.(messages := AppendSorted(state.messages, reply.value));
      }
    }
  }
}
