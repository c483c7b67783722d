/**
 * TranslationService: candidate scoring, selection of the best candidate,
 * tone adjustment ("warmth") and the `translate` operation.
 */
module Translation {
  import opened Wrappers
  import opened Text
  import opened ServerTypes
  import ProviderStats

  const Heart := "❤️"
  const Azizam := "عزیزم"
  const Janam := "جانم"
  const Mehrabanam := "مهربانم"

  /** One provider's successful answer and how long it took, in milliseconds. */
  datatype Candidate = Candidate(provider: TranslationProvider, text: string, latencyMs: int)

  /** A heuristic score; `NegInfinity` disqualifies a candidate. */
  datatype Score = NegInfinity | Value(v: real)

  /** The strict `>` on scores, with `NegInfinity` below every value. */
  predicate Above(a: Score, b: Score) {
    match a
    case NegInfinity => false
    case Value(x) => b.NegInfinity? || x > b.v
  }

  /** The name a provider is recorded under in the analytics table. */
  function ProviderKey(p: TranslationProvider): string {
    match p
    case Ollama => "ollama"
    case Google => "google"
  }

  // ---------------------------------------------------------------- candidates

  /** A settled provider attempt: its response if the call succeeded. */
  datatype Attempt = Attempt(provider: TranslationProvider, response: Option<string>, latencyMs: int)

  /** The candidate a settled attempt contributes, if any. */
  function CandidateOf(a: Attempt): (c: Option<Candidate>)
    ensures c.Some? ==> a.response.Some? && c.value.provider == a.provider && c.value.latencyMs == a.latencyMs
    ensures c.Some? && a.provider == Ollama ==> c.value.text == Trim(a.response.value)
    ensures c.Some? <==> a.response.Some? && (a.provider == Ollama || a.response.value != "")
  {
    match a.response
    case None => None
    case Some(raw) =>
      match a.provider
      case Ollama => Some(Candidate(Ollama, Trim(raw), a.latencyMs))
      case Google => if raw == "" then None else Some(Candidate(Google, raw, a.latencyMs))
  }

  /** What one settled attempt adds to the candidate list. */
  function Contribution(a: Attempt): (r: seq<Candidate>)
    ensures r == [] <==> CandidateOf(a).None?
    ensures r != [] ==> r == [CandidateOf(a).value]
  {
    match CandidateOf(a)
    case None => []
    case Some(c) => [c]
  }

  /**
   * `collectCandidates`, given the attempts in the order they settled:
   * Ollama answers are trimmed, an empty Google answer counts as a failure,
   * failed attempts are dropped.
   */
  function CollectCandidates(settled: seq<Attempt>): (candidates: seq<Candidate>)
    ensures |candidates| <= |settled|
    ensures (forall j :: 0 <= j < |settled| ==> CandidateOf(settled[j]).None?) <==> candidates == []
  {
    if settled == [] then []
    else
      var rest := CollectCandidates(settled[1..]);
      assert forall j :: 1 <= j < |settled| ==> settled[j] == settled[1..][j - 1];
      Contribution(settled[0]) + rest
  }

  /** The candidates of a concatenation are those of each part: every contribution is kept, in settle order. */
  lemma {:induction false} CollectCandidatesAppend(a: seq<Attempt>, b: seq<Attempt>)
    ensures CollectCandidates(a + b) == CollectCandidates(a) + CollectCandidates(b)
  {
    if a == [] {
      assert a + b == b;
    } else {
      assert (a + b)[0] == a[0] && (a + b)[1..] == a[1..] + b;
      CollectCandidatesAppend(a[1..], b);
    }
  }

  /** A single attempt contributes exactly its own candidate, if it has one. */
  lemma CollectCandidatesOne(a: Attempt)
    ensures CollectCandidates([a]) == if CandidateOf(a).Some? then [CandidateOf(a).value] else []
  {
  }

  /** Every candidate is the contribution of one of the settled attempts. */
  lemma {:induction false} CandidatesFromAttempts(settled: seq<Attempt>, i: nat)
    requires i < |CollectCandidates(settled)|
    ensures exists j :: 0 <= j < |settled| && CandidateOf(settled[j]) == Some(CollectCandidates(settled)[i])
  {
    var cs := CollectCandidates(settled);
    if CandidateOf(settled[0]).Some? && i == 0 {
      assert CandidateOf(settled[0]) == Some(cs[0]);
    } else {
      var k := if CandidateOf(settled[0]).Some? then i - 1 else i;
      assert cs[i] == CollectCandidates(settled[1..])[k];
      CandidatesFromAttempts(settled[1..], k);
      var j :| 0 <= j < |settled[1..]| && CandidateOf(settled[1..][j]) == Some(cs[i]);
      assert settled[j + 1] == settled[1..][j];
    }
  }

  // ------------------------------------------------------------------- scoring

  /** Persian endearment words. */
  predicate FaEndearment(text: string) {
    Contains(text, Azizam) || Contains(text, Janam) || Contains(text, Mehrabanam)
  }

  /** `/(dear|love|sweetheart|my heart)/i`. */
  predicate EnEndearment(text: string) {
    var t := Lower(text);
    Contains(t, "dear") || Contains(t, "love") || Contains(t, "sweetheart") || Contains(t, "my heart")
  }

  /** 1.5 for an endearment cue of the target locale, 1 for a heart emoji. */
  function AffectionHeuristic(text: string, target: Locale): (score: real)
    ensures score == 0.0 || score == 1.0 || score == 1.5 || score == 2.5
    ensures score >= 1.5 <==> (if target == Fa then FaEndearment(text) else EnEndearment(text))
    ensures (score == 1.0 || score == 2.5) <==> Contains(text, Heart)
  {
    var cue := if target == Fa then FaEndearment(text) else EnEndearment(text);
    (if cue then 1.5 else 0.0) + (if Contains(text, Heart) then 1.0 else 0.0)
  }

  /** The first `min(6, length)` characters of a context entry. */
  function ContextPrefix(entry: string): (p: string)
    ensures |p| == if |entry| < 6 then |entry| else 6
    ensures StartsWith(entry, p)
  {
    entry[..if |entry| < 6 then |entry| else 6]
  }

  /** Some non-empty context entry's prefix occurs in the text. */
  predicate ContextAffinity(text: string, context: seq<string>) {
    exists i :: 0 <= i < |context| && context[i] != "" && Contains(text, ContextPrefix(context[i]))
  }

  function Abs(n: int): nat {
    if n < 0 then -n else n
  }

  /** `scoreCandidate`: the heuristic score of one candidate. */
  function ScoreCandidate(original: string, c: Candidate, target: Locale, direction: Direction, context: seq<string>): (score: Score)
    ensures score.NegInfinity? <==> Trim(c.text) == ""
  {
    var text := Trim(c.text);
    if |text| == 0 then NegInfinity
    else
      var affection := AffectionHeuristic(text, target);
      var lengthPenalty := Abs(|text| - |original|) as real * 0.01;
      var identityPenalty := if Lower(text) == Lower(original) then 5.0 else 0.0;
      var affinityBonus := if ContextAffinity(text, context) then 0.5 else 0.0;
      var latencyPenalty := c.latencyMs as real / 1000.0;
      var providerBonus := if c.provider == Ollama && direction == FaToEn then 0.5 else 0.0;
      Value(affection - lengthPenalty - identityPenalty + affinityBonus - latencyPenalty + providerBonus)
  }

  /** With everything else fixed, a slower candidate scores strictly lower, by latency/1000. */
  lemma SlowerScoresLower(original: string, c: Candidate, slower: int, target: Locale, direction: Direction, context: seq<string>)
    requires Trim(c.text) != "" && slower > c.latencyMs
    ensures Above(ScoreCandidate(original, c, target, direction, context),
                  ScoreCandidate(original, c.(latencyMs := slower), target, direction, context))
    ensures ScoreCandidate(original, c, target, direction, context).v -
            ScoreCandidate(original, c.(latencyMs := slower), target, direction, context).v ==
            (slower - c.latencyMs) as real / 1000.0
  {
  }

  /**
   * Two candidates that differ only in that one's trimmed text equals the
   * source case-insensitively: that one scores exactly 5 less.
   */
  lemma IdentityCostsFive(original: string, same: Candidate, other: Candidate, target: Locale, direction: Direction, context: seq<string>)
    requires Trim(same.text) != "" && Trim(other.text) != ""
    requires Lower(Trim(same.text)) == Lower(original) && Lower(Trim(other.text)) != Lower(original)
    requires |Trim(same.text)| == |Trim(other.text)| && same.latencyMs == other.latencyMs && same.provider == other.provider
    requires AffectionHeuristic(Trim(same.text), target) == AffectionHeuristic(Trim(other.text), target)
    requires ContextAffinity(Trim(same.text), context) == ContextAffinity(Trim(other.text), context)
    ensures ScoreCandidate(original, same, target, direction, context).v ==
            ScoreCandidate(original, other, target, direction, context).v - 5.0
  {
  }

  /** The provider bonus: +0.5 for Ollama exactly when translating Persian to English. */
  lemma OllamaBonus(original: string, c: Candidate, target: Locale, direction: Direction, context: seq<string>)
    requires Trim(c.text) != ""
    ensures ScoreCandidate(original, c.(provider := Ollama), target, direction, context).v ==
            ScoreCandidate(original, c.(provider := Google), target, direction, context).v +
            (if direction == FaToEn then 0.5 else 0.0)
  {
  }

  /** The context bonus: +0.5 exactly when some non-empty entry's prefix occurs in the trimmed text. */
  lemma ContextBonus(original: string, c: Candidate, target: Locale, direction: Direction, context: seq<string>)
    requires Trim(c.text) != ""
    ensures ScoreCandidate(original, c, target, direction, context).v ==
            ScoreCandidate(original, c, target, direction, []).v +
            (if ContextAffinity(Trim(c.text), context) then 0.5 else 0.0)
  {
  }

  // ----------------------------------------------------------------- selection

  /** `f` applied to every element, in order. */
  function MapSeq<A, B>(s: seq<A>, f: A -> B): (r: seq<B>)
    ensures |r| == |s|
  {
    if s == [] then [] else [f(s[0])] + MapSeq(s[1..], f)
  }

  lemma {:induction false} MapSeqAt<A, B>(s: seq<A>, f: A -> B, j: nat)
    requires j < |s|
    ensures MapSeq(s, f)[j] == f(s[j])
  {
    if j > 0 {
      MapSeqAt(s[1..], f, j - 1);
    }
  }

  /** The score of every candidate, in candidate order. */
  function Scores(original: string, target: Locale, direction: Direction, context: seq<string>, candidates: seq<Candidate>)
    : (scores: seq<Score>)
    ensures |scores| == |candidates|
  {
    MapSeq(candidates, c => ScoreCandidate(original, c, target, direction, context))
  }

  lemma ScoresAt(original: string, target: Locale, direction: Direction, context: seq<string>,
                 candidates: seq<Candidate>, j: nat)
    requires j < |candidates|
    ensures Scores(original, target, direction, context, candidates)[j] ==
            ScoreCandidate(original, candidates[j], target, direction, context)
  {
    MapSeqAt(candidates, c => ScoreCandidate(original, c, target, direction, context), j);
  }

  /** The first index of a maximal score. */
  function FirstMax(scores: seq<Score>): (i: nat)
    requires |scores| > 0
    ensures i < |scores|
    ensures forall j :: 0 <= j < |scores| ==> !Above(scores[j], scores[i])
    ensures forall j :: 0 <= j < i ==> Above(scores[i], scores[j])
    decreases |scores|
  {
    if |scores| == 1 then 0
    else
      var k := FirstMax(scores[..|scores| - 1]);
      assert forall j :: 0 <= j < |scores| - 1 ==> scores[..|scores| - 1][j] == scores[j];
      if Above(scores[|scores| - 1], scores[k]) then |scores| - 1 else k
  }

  /** The index `selectBestCandidate` picks: the only one, or the first with the highest score. */
  function SelectedIndex(original: string, target: Locale, direction: Direction, context: seq<string>, candidates: seq<Candidate>): (i: nat)
    requires |candidates| > 0
    ensures i < |candidates|
    ensures |candidates| == 1 ==> i == 0
  {
    if |candidates| == 1 then 0 else FirstMax(Scores(original, target, direction, context, candidates))
  }

  /**
   * With several candidates the selected one has a maximal score, and every
   * earlier candidate scores strictly lower: ties go to the earliest to finish.
   */
  lemma SelectedIsFirstMaximal(original: string, target: Locale, direction: Direction, context: seq<string>, candidates: seq<Candidate>)
    requires |candidates| > 1
    ensures var i := SelectedIndex(original, target, direction, context, candidates);
      var s := ScoreCandidate(original, candidates[i], target, direction, context);
      && (forall j :: 0 <= j < |candidates| ==> !Above(ScoreCandidate(original, candidates[j], target, direction, context), s))
      && (forall j :: 0 <= j < i ==> Above(s, ScoreCandidate(original, candidates[j], target, direction, context)))
  {
    var scores := Scores(original, target, direction, context, candidates);
    forall j | 0 <= j < |candidates|
      ensures scores[j] == ScoreCandidate(original, candidates[j], target, direction, context)
    {
      ScoresAt(original, target, direction, context, candidates, j);
    }
  }

  /** A candidate with an empty trimmed text is never chosen over one with text. */
  lemma SelectedHasText(original: string, target: Locale, direction: Direction, context: seq<string>, candidates: seq<Candidate>, k: nat)
    requires k < |candidates| && Trim(candidates[k].text) != ""
    ensures Trim(candidates[SelectedIndex(original, target, direction, context, candidates)].text) != ""
  {
    if |candidates| > 1 {
      SelectedIsFirstMaximal(original, target, direction, context, candidates);
    }
  }

  /** How `FirstMax` extends by one more score. */
  lemma FirstMaxStep(scores: seq<Score>, i: nat)
    requires 0 < i < |scores|
    ensures FirstMax(scores[..i + 1]) ==
      if Above(scores[i], scores[FirstMax(scores[..i])]) then i else FirstMax(scores[..i])
  {
    assert scores[..i + 1][..i] == scores[..i];
  }

  /**
   * The state of the selection loop after `i` scores: nothing seen yet and
   * `-Infinity`, or the first maximum of the scores seen and its score.
   */
  predicate RunningBest(scores: seq<Score>, i: nat, bestIndex: nat, bestScore: Score) {
    i <= |scores| && bestIndex < |scores| &&
    if i == 0 then bestIndex == 0 && bestScore == NegInfinity
    else bestIndex == FirstMax(scores[..i]) && bestScore == scores[bestIndex]
  }

  /** One iteration of the selection loop keeps the running best. */
  lemma SelectStep(scores: seq<Score>, i: nat, bestIndex: nat, bestScore: Score)
    requires i < |scores| && RunningBest(scores, i, bestIndex, bestScore)
    ensures if Above(scores[i], bestScore) then RunningBest(scores, i + 1, i, scores[i])
            else RunningBest(scores, i + 1, bestIndex, bestScore)
  {
    if i > 0 {
      FirstMaxStep(scores, i);
    }
  }

  /** One iteration of the selection loop, stated on the candidates themselves. */
  lemma SelectCandidateStep(original: string, target: Locale, direction: Direction, context: seq<string>,
                            candidates: seq<Candidate>, i: nat, bestIndex: nat, bestScore: Score)
    requires i < |candidates|
    requires RunningBest(Scores(original, target, direction, context, candidates), i, bestIndex, bestScore)
    ensures var score := ScoreCandidate(original, candidates[i], target, direction, context);
            var scores := Scores(original, target, direction, context, candidates);
            if Above(score, bestScore) then RunningBest(scores, i + 1, i, score)
            else RunningBest(scores, i + 1, bestIndex, bestScore)
  {
    ScoresAt(original, target, direction, context, candidates, i);
    SelectStep(Scores(original, target, direction, context, candidates), i, bestIndex, bestScore);
  }

  /** After the last score the running best is the first maximum. */
  lemma RunningBestDone(scores: seq<Score>, bestIndex: nat, bestScore: Score)
    requires |scores| > 0 && RunningBest(scores, |scores|, bestIndex, bestScore)
    ensures bestIndex == FirstMax(scores)
  {
    assert scores[..|scores|] == scores;
  }

  /** `selectBestCandidate`: the loop keeping the first strictly better score. */
  method SelectBestCandidate(original: string, target: Locale, direction: Direction, context: seq<string>, candidates: seq<Candidate>)
    returns (best: Candidate)
    requires |candidates| > 0
    ensures best == candidates[SelectedIndex(original, target, direction, context, candidates)]
  {
    if |candidates| == 1 {
      return candidates[0];
    }
    ghost var scores := Scores(original, target, direction, context, candidates);
    best := candidates[0];
    var bestScore := NegInfinity;
    ghost var bestIndex := 0;
    for i := 0 to |candidates|
      invariant RunningBest(scores, i, bestIndex, bestScore) && best == candidates[bestIndex]
    {
      var score := ScoreCandidate(original, candidates[i], target, direction, context);
      SelectCandidateStep(original, target, direction, context, candidates, i, bestIndex, bestScore);
      if Above(score, bestScore) {
        bestScore := score;
        best := candidates[i];
        bestIndex := i;
      }
    }
    RunningBestDone(scores, bestIndex, bestScore);
  }

  // ------------------------------------------------------------ tone adjustment

  /** Some context line already holds a heart. */
  predicate ContextHasHeart(context: seq<string>) {
    exists i :: 0 <= i < |context| && Contains(context[i], Heart)
  }

  /** `addWarmth`: the deterministic rewrite of the selected text. */
  function AddWarmth(translated: string, locale: Locale, context: seq<string>): string {
    if locale == Fa then
      var softened := if Contains(translated, Azizam) then translated else Azizam + " " + translated;
      var closing := if ContextHasHeart(context) then "" else " " + Heart;
      Trim(softened + closing)
    else if Contains(translated, Heart) then translated
    else translated + " " + Heart
  }

  /** English: the result holds a heart, and is the input exactly when the input already did. */
  lemma WarmthEnglish(t: string, context: seq<string>)
    ensures Contains(AddWarmth(t, En, context), Heart)
    ensures AddWarmth(t, En, context) == t <==> Contains(t, Heart)
  {
    if !Contains(t, Heart) {
      ContainsSuffixOf(t + " ", Heart);
      assert t + " " + Heart == (t + " ") + Heart;
    }
  }

  /** English: applying the rule twice is applying it once. */
  lemma WarmthEnglishIdempotent(t: string, context: seq<string>)
    ensures AddWarmth(AddWarmth(t, En, context), En, context) == AddWarmth(t, En, context)
  {
    WarmthEnglish(t, context);
  }

  /** Persian: the result always contains the endearment word. */
  lemma WarmthPersianEndearment(t: string, context: seq<string>)
    ensures Contains(AddWarmth(t, Fa, context), Azizam)
  {
    var softened := if Contains(t, Azizam) then t else Azizam + " " + t;
    var closing := if ContextHasHeart(context) then "" else " " + Heart;
    if Contains(t, Azizam) {
      ContainsInside([], t, closing, Azizam);
      assert [] + t + closing == softened + closing;
    } else {
      ContainsPrefixOf(Azizam, " " + t + closing);
      assert Azizam + (" " + t + closing) == softened + closing;
    }
    TrimKeepsWord(softened + closing, Azizam);
  }

  /** Persian: the endearment is prefixed only when absent. */
  lemma WarmthPersianPrefix(t: string, context: seq<string>)
    ensures !Contains(t, Azizam) ==> StartsWith(AddWarmth(t, Fa, context), Azizam)
    ensures Contains(t, Azizam) ==>
      AddWarmth(t, Fa, context) == Trim(t + (if ContextHasHeart(context) then "" else " " + Heart))
  {
    if !Contains(t, Azizam) {
      var s := Azizam + " " + t + (if ContextHasHeart(context) then "" else " " + Heart);
      assert AddWarmth(t, Fa, context) == Trim(s);
      assert !IsJsSpace(s[0]);
      assert LeadingSpaces(s) == 0;
      var r := Trim(s);
      assert !IsJsSpace(s[4]);
      assert |r| >= 5;
      assert r[..5] == s[..5];
    }
  }

  /** The endearment-prefixed text always has a non-space character. */
  lemma SoftenedHasLetter(t: string) returns (k: nat)
    ensures var softened := if Contains(t, Azizam) then t else Azizam + " " + t;
      k < |softened| && !IsJsSpace(softened[k])
  {
    if Contains(t, Azizam) {
      var j := ContainsOffset(t, Azizam);
      assert t[j] == t[j..j + 5][0];
      k := j;
    } else {
      k := 0;
    }
  }

  /** Persian: a heart is appended when no context line has one. */
  lemma WarmthPersianClosing(t: string, context: seq<string>)
    requires !ContextHasHeart(context)
    ensures EndsWith(AddWarmth(t, Fa, context), " " + Heart)
  {
    var softened := if Contains(t, Azizam) then t else Azizam + " " + t;
    assert AddWarmth(t, Fa, context) == Trim(softened + (" " + Heart));
    var k := SoftenedHasLetter(t);
    TrimKeepsSuffix(softened, k, " " + Heart);
  }

  /** Persian: when some context line has a heart, nothing is appended. */
  lemma WarmthPersianNoClosing(t: string, context: seq<string>)
    requires ContextHasHeart(context)
    ensures AddWarmth(t, Fa, context) == Trim(if Contains(t, Azizam) then t else Azizam + " " + t)
  {
    var softened := if Contains(t, Azizam) then t else Azizam + " " + t;
    assert softened + "" == softened;
  }

  /** Persian: the rule is idempotent when a context line already holds a heart. */
  lemma WarmthPersianIdempotentWithHeart(t: string, context: seq<string>)
    requires ContextHasHeart(context)
    ensures AddWarmth(AddWarmth(t, Fa, context), Fa, context) == AddWarmth(t, Fa, context)
  {
    var softened := if Contains(t, Azizam) then t else Azizam + " " + t;
    var once := AddWarmth(t, Fa, context);
    WarmthPersianNoClosing(t, context);
    assert once == Trim(softened);
    WarmthPersianEndearment(t, context);
    WarmthPersianPrefix(once, context);
    assert once + "" == once;
    TrimIdempotent(softened);
  }

  /**
   * Persian without a heart in the context, for a text that lacks the
   * endearment and has no whitespace at its ends: each application appends
   * another heart.
   */
  lemma WarmthPersianTwice(t: string)
    requires t != [] && !IsJsSpace(t[0]) && !IsJsSpace(t[|t| - 1]) && !Contains(t, Azizam)
    ensures AddWarmth(t, Fa, []) == Azizam + " " + t + (" " + Heart)
    ensures AddWarmth(AddWarmth(t, Fa, []), Fa, []) == Azizam + " " + t + (" " + Heart) + (" " + Heart)
  {
    assert !ContextHasHeart([]);
    var once := Azizam + " " + t + (" " + Heart);
    TrimUnchanged(once);
    ContainsAt(once, Azizam, 0);
    TrimUnchanged(once + (" " + Heart));
  }

  /**
   * Persian without a heart in the context: a second application appends a
   * second heart, so the rule is not idempotent there.
   */
  lemma WarmthPersianNotIdempotent()
    ensures AddWarmth("سلام", Fa, []) == "عزیزم" + " " + "سلام" + (" " + "❤️")
    ensures AddWarmth(AddWarmth("سلام", Fa, []), Fa, []) == "عزیزم" + " " + "سلام" + (" " + "❤️") + (" " + "❤️")
  {
    MissingChar("سلام", Azizam, 'ز');
    WarmthPersianTwice("سلام");
  }

  // ---------------------------------------------------------------- the prompt

  /** `context.filter(Boolean)`: the non-empty entries, in order. */
  function NonEmptyLines(context: seq<string>): (lines: seq<string>)
    ensures |lines| <= |context|
    ensures forall i :: 0 <= i < |lines| ==> lines[i] != "" && lines[i] in context
    ensures forall i :: 0 <= i < |context| && context[i] != "" ==> context[i] in lines
  {
    if context == [] then []
    else (if context[0] != "" then [context[0]] else []) + NonEmptyLines(context[1..])
  }

  /** The context lines the Ollama prompt shows: at most five non-empty ones, most recent first. */
  function PromptContext(context: seq<string>): (lines: seq<string>)
    ensures |lines| <= 5
    ensures lines <= NonEmptyLines(context)
    ensures |lines| == 5 || lines == NonEmptyLines(context)
  {
    var all := NonEmptyLines(context);
    if |all| <= 5 then all else all[..5]
  }

  /** The language a direction translates from. */
  function SourceLanguage(direction: Direction): string {
    if direction == EnToFa then "English" else "Persian"
  }

  /** The language a direction translates into. */
  function TargetLanguage(direction: Direction): string {
    if direction == EnToFa then "Persian" else "English"
  }

  /** The instruction naming both languages. */
  function LanguageLine(direction: Direction): string {
    "Translate the following " + SourceLanguage(direction) + " message into " + TargetLanguage(direction) + "."
  }

  /** The opening instructions of the prompt, up to the context lines. */
  function PromptIntro(): string {
    "You are a caring bilingual assistant helping two partners communicate.\nContext (most recent first):\n"
  }

  /** The instruction between the languages and the message. */
  function PromptClosing(): string {
    "\nReturn only the translated sentence with polished, loving tone.\n"
  }

  /** The tone instructions that close the prompt. */
  function PromptTail(direction: Direction): string {
    "\n" + if direction == EnToFa
      then "Keep the tone tender, familial, add natural warmth and loving expressions without sounding machine-translated."
      else "Translate to clear, friendly English while keeping affectionate nuances."
  }

  /** What occurs in the text before the blank line occurs in the whole prompt. */
  lemma ContainsBeforeBlank(front: string, language: string, closing: string, message: string, tail: string,
                            w: string)
    requires Contains(front, w)
    ensures Contains(front + "\n\n" + language + closing + message + tail, w)
  {
    ContainsBefore(front, "\n\n", w);
    ContainsBefore(front + "\n\n", language, w);
    ContainsBefore(front + "\n\n" + language, closing, w);
    ContainsBefore(front + "\n\n" + language + closing, message, w);
    ContainsBefore(front + "\n\n" + language + closing + message, tail, w);
  }

  /**
   * The prompt's layout: intro, the lines joined by newlines, a blank line,
   * the language line, the closing instruction, the message line and the
   * tail. It shows the language line, the message line and every one of
   * the lines.
   */
  function PromptText(intro: string, lines: seq<string>, language: string, closing: string, message: string,
                      tail: string): (p: string)
    ensures Contains(p, message)
    ensures Contains(p, language)
    ensures forall w :: w in lines ==> Contains(p, w)
  {
    var front := intro + Join(lines, "\n");
    var head := front + "\n\n" + language + closing;
    ContainsAt(message, message, 0);
    ContainsInside(head, message, tail, message);
    ContainsAt(language, language, 0);
    ContainsInside(front + "\n\n", language, closing, language);
    ContainsBefore(head, message, language);
    ContainsBefore(head + message, tail, language);
    assert forall w :: w in lines ==> Contains(head + message + tail, w) by {
      forall w | w in lines ensures Contains(head + message + tail, w) {
        var i :| 0 <= i < |lines| && lines[i] == w;
        JoinContains(lines, "\n", i);
        ContainsAfter(intro, Join(lines, "\n"), w);
        ContainsBeforeBlank(front, language, closing, message, tail, w);
      }
    }
    head + message + tail
  }

  /**
   * `buildOllamaPrompt`: the prompt shows the selected context lines, names
   * the source and target languages of the direction, and holds the
   * message on a line of its own.
   */
  function BuildOllamaPrompt(text: string, direction: Direction, context: seq<string>): (prompt: string)
    ensures Contains(prompt, "Message: " + text + "\n")
    ensures Contains(prompt, LanguageLine(direction))
    ensures forall line :: line in PromptContext(context) ==> Contains(prompt, line)
  {
    PromptText(PromptIntro(), PromptContext(context), LanguageLine(direction), PromptClosing(),
               "Message: " + text + "\n", PromptTail(direction))
  }

  // ----------------------------------------------------------------- translate

  datatype TranslateError = NoCandidates

  /** What `translate` returns for the candidates that survived, in completion order. */
  function Translation(text: string, direction: Direction, context: seq<string>, candidates: seq<Candidate>)
    : (r: Result<TranslationResult, TranslateError>)
    ensures r.Err? <==> candidates == []
    ensures r.Ok? ==> r.value.locale == TargetLocale(direction) && r.value.provider.Provider?
  {
    if candidates == [] then Err(NoCandidates)
    else
      var target := TargetLocale(direction);
      var selected := candidates[SelectedIndex(text, target, direction, context, candidates)];
      Ok(TranslationResult(selected.text, AddWarmth(selected.text, target, context), target, Provider(selected.provider)))
  }

  /** The result is the selected candidate's text and provider, tone-adjusted for the target locale. */
  lemma TranslationOfSelected(text: string, direction: Direction, context: seq<string>, candidates: seq<Candidate>)
    requires candidates != []
    ensures var i := SelectedIndex(text, TargetLocale(direction), direction, context, candidates);
      var r := Translation(text, direction, context, candidates);
      && r.Ok?
      && r.value.translatedText == candidates[i].text
      && r.value.provider == Provider(candidates[i].provider)
      && r.value.locale == (if direction == EnToFa then Fa else En)
      && r.value.toneAdjustedText == AddWarmth(candidates[i].text, r.value.locale, context)
  {
  }

  /** With exactly one candidate it is returned unscored, even with an empty text. */
  lemma SingleCandidate(text: string, direction: Direction, context: seq<string>, c: Candidate)
    ensures Translation(text, direction, context, [c]).Ok?
    ensures Translation(text, direction, context, [c]).value.translatedText == c.text
    ensures Translation(text, direction, context, [c]).value.provider == Provider(c.provider)
  {
  }

  /** When no provider is configured or every attempt failed, `translate` fails. */
  lemma NoSuccessfulAttempt(text: string, direction: Direction, context: seq<string>, settled: seq<Attempt>)
    requires forall j :: 0 <= j < |settled| ==> settled[j].response.None?
    ensures Translation(text, direction, context, CollectCandidates(settled)) == Err(NoCandidates)
  {
  }

  /** Of two candidates the later one is selected exactly when it scores strictly higher. */
  lemma SecondOfTwo(text: string, direction: Direction, context: seq<string>, first: Candidate, second: Candidate)
    ensures var r := Translation(text, direction, context, [first, second]);
      var target := TargetLocale(direction);
      var winner := if Above(ScoreCandidate(text, second, target, direction, context),
                             ScoreCandidate(text, first, target, direction, context))
                    then second else first;
      r.Ok? && r.value.translatedText == winner.text && r.value.provider == Provider(winner.provider)
  {
    var s := Scores(text, TargetLocale(direction), direction, context, [first, second]);
    ScoresAt(text, TargetLocale(direction), direction, context, [first, second], 0);
    ScoresAt(text, TargetLocale(direction), direction, context, [first, second], 1);
    assert s[..1] == [s[0]];
  }

  /** A text without the letters ز, ج and ه holds no Persian endearment. */
  lemma NoPersianCue(text: string)
    requires 'ز' !in text && 'ج' !in text && 'ه' !in text
    ensures !FaEndearment(text)
  {
    MissingChar(text, Azizam, 'ز');
    MissingChar(text, Janam, 'ج');
    MissingChar(text, Mehrabanam, 'ه');
  }

  /**
   * A non-empty text with no surrounding whitespace and none of the letters
   * of the Persian endearments or the heart.
   */
  predicate PlainPersianText(text: string) {
    && text != [] && !IsJsSpace(text[0]) && !IsJsSpace(text[|text| - 1])
    && 'ز' !in text && 'ج' !in text && 'ه' !in text && '❤' !in text
  }

  /**
   * A Persian candidate with no cue, no heart, no context and nothing in
   * common with the original scores minus its length difference and latency.
   */
  lemma PlainPersianScore(original: string, c: Candidate, direction: Direction)
    requires PlainPersianText(c.text) && |c.text| != |original|
    ensures ScoreCandidate(original, c, Fa, direction, []) ==
      Value(0.0 - Abs(|c.text| - |original|) as real * 0.01 - c.latencyMs as real / 1000.0
            + (if c.provider == Ollama && direction == FaToEn then 0.5 else 0.0))
  {
    TrimUnchanged(c.text);
    NoPersianCue(c.text);
    MissingChar(c.text, Heart, '❤');
    assert AffectionHeuristic(c.text, Fa) == 0.0;
    assert Lower(c.text) != Lower(original) by { assert |Lower(c.text)| != |Lower(original)|; }
  }

  /** The two answers of the "Hi there" scenario are plain Persian text. */
  lemma SalamIsPlain()
    ensures PlainPersianText("سلام") && PlainPersianText("سلام خداحافظ")
  {
  }

  /**
   * "Hi there" into Persian, Ollama answering "سلام" in 10 ms and Google
   * "سلام خداحافظ" in 5 ms: Google scores -0.045 against Ollama's -0.05 and is selected.
   */
  lemma HiThereScenario()
    ensures var r := Translation("Hi there", EnToFa, [],
                                 [Candidate(Ollama, "سلام", 10), Candidate(Google, "سلام خداحافظ", 5)]);
      r.Ok? && r.value.provider == Provider(Google) && r.value.translatedText == "سلام خداحافظ"
  {
    var ollama, google := Candidate(Ollama, "سلام", 10), Candidate(Google, "سلام خداحافظ", 5);
    SalamIsPlain();
    PlainPersianScore("Hi there", ollama, EnToFa);
    PlainPersianScore("Hi there", google, EnToFa);
    SecondOfTwo("Hi there", EnToFa, [], ollama, google);
  }

  /**
   * The analytics rows once the selected candidate's provider and latency
   * are recorded: one more selection and its latency for that provider.
   */
  function RecordedRows(rows: seq<ProviderStats.Stat>, text: string, direction: Direction, context: seq<string>,
                        candidates: seq<Candidate>, now: string): seq<ProviderStats.Stat>
    requires |candidates| > 0
  {
    var s := candidates[SelectedIndex(text, TargetLocale(direction), direction, context, candidates)];
    ProviderStats.Upserted(rows, ProviderKey(s.provider),
                           ProviderStats.SafeLatency(ProviderStats.Finite(s.latencyMs as real)), now)
  }

  /**
   * `translate`: fails without candidates; otherwise selects, adjusts the
   * tone and records the selection. A failing analytics write is swallowed
   * and does not change the result.
   */
  method Translate(text: string, direction: Direction, context: seq<string>, candidates: seq<Candidate>,
                   stats: ProviderStats.ProviderStatsTable, analyticsWritable: bool, now: string)
    returns (r: Result<TranslationResult, TranslateError>)
    requires stats.Valid()
    modifies stats
    ensures stats.Valid()
    ensures r == Translation(text, direction, context, candidates)
    ensures r.Ok? && analyticsWritable ==> stats.rows == RecordedRows(old(stats.rows), text, direction, context, candidates, now)
    ensures r.Err? || !analyticsWritable ==> stats.rows == old(stats.rows)
  {
    var target := if direction == EnToFa then Fa else En;
    if |candidates| == 0 {
      return Err(NoCandidates);
    }
    var selected := SelectBestCandidate(text, target, direction, context, candidates);
    var toneAdjusted := AddWarmth(selected.text, target, context);
    if analyticsWritable {
      stats.Record(ProviderKey(selected.provider), ProviderStats.Finite(selected.latencyMs as real), now);
    }
    r := Ok(TranslationResult(selected.text, toneAdjusted, target, Provider(selected.provider)));
  }
}
